/** UTF-8, as `TextEncoder` writes it, and a decoder that reads it back. */
module Utf8 {
  import opened Texts
  import opened Json
  import opened JsonParser

  type Byte = n: int | 0 <= n < 0x100

  // ---------------------------------------------------------------- encoding

  /** Two to four bytes of a code point; continuation bytes carry six bits each. */
  function Continuation(n: nat): Byte { 0x80 + n % 64 }

  function TwoBytes(u: CodeUnit): seq<Byte>
    requires 0x80 <= u < 0x800
  {
    [0xC0 + u / 64, Continuation(u)]
  }

  function ThreeBytes(u: CodeUnit): seq<Byte>
    requires u >= 0x800
  {
    [0xE0 + u / 4096, Continuation(u / 64), Continuation(u)]
  }

  function CodePoint(high: CodeUnit, low: CodeUnit): nat
    requires High(high) && Low(low)
  {
    0x1_0000 + (high - 0xD800) * 0x400 + (low - 0xDC00)
  }

  function FourBytes(c: nat): seq<Byte>
    requires 0x1_0000 <= c < 0x11_0000
  {
    [0xF0 + c / 0x4_0000, Continuation(c / 4096), Continuation(c / 64), Continuation(c)]
  }

  /** What a lone surrogate is replaced by. */
  const REPLACEMENT: CodeUnit := 0xFFFD

  function EncodeUnit(u: CodeUnit): seq<Byte> {
    if u < 0x80 then [u]
    else if u < 0x800 then TwoBytes(u)
    else ThreeBytes(if High(u) || Low(u) then REPLACEMENT else u)
  }

  function Encode(t: Text): seq<Byte> {
    if t == [] then []
    else if StartsWithPair(t) then FourBytes(CodePoint(t[0], t[1])) + Encode(t[2..])
    else EncodeUnit(t[0]) + Encode(t[1..])
  }

  /** Bytes of a text, counted without encoding it: a surrogate pair takes four, a lone surrogate three. */
  function Utf8Length(t: Text): nat {
    if t == [] then 0
    else if t[0] < 0x80 then 1 + Utf8Length(t[1..])
    else if t[0] < 0x800 then 2 + Utf8Length(t[1..])
    else if High(t[0]) && |t| > 1 && Low(t[1]) then 4 + Utf8Length(t[2..])
    else 3 + Utf8Length(t[1..])
  }

  lemma {:induction false} EncodedLength(t: Text)
    ensures |Encode(t)| == Utf8Length(t)
  {
    if t != [] {
      EncodedLength(if StartsWithPair(t) then t[2..] else t[1..]);
    }
  }

  // ---------------------------------------------------------------- decoding

  predicate IsContinuation(b: seq<Byte>, i: nat) {
    i < |b| && 0x80 <= b[i] < 0xC0
  }

  /** Reads UTF-8 without overlong forms and surrogates; code points beyond the basic plane become
      pairs. */
  function Decode(b: seq<Byte>): Option<Text> {
    if b == [] then Some([])
    else if b[0] < 0x80 then
      var t :- Decode(b[1..]);
      Some([b[0]] + t)
    else if 0xC2 <= b[0] < 0xE0 && IsContinuation(b, 1) then
      var u: int := (b[0] as int - 0xC0) * 64 + (b[1] as int - 0x80);
      var t :- Decode(b[2..]);
      Some([u] + t)
    else if 0xE0 <= b[0] < 0xF0 && IsContinuation(b, 1) && IsContinuation(b, 2) then
      var u: int := (b[0] as int - 0xE0) * 4096 + (b[1] as int - 0x80) * 64 + (b[2] as int - 0x80);
      if u < 0x800 || 0xD800 <= u < 0xE000 then None
      else
        var t :- Decode(b[3..]);
        Some([u] + t)
    else if 0xF0 <= b[0] < 0xF5 && IsContinuation(b, 1) && IsContinuation(b, 2) && IsContinuation(b, 3) then
      var c: int := (b[0] as int - 0xF0) * 0x4_0000 + (b[1] as int - 0x80) * 4096
                    + (b[2] as int - 0x80) * 64 + (b[3] as int - 0x80);
      if c < 0x1_0000 || c >= 0x11_0000 then None
      else
        var t :- Decode(b[4..]);
        Some([0xD800 + (c - 0x1_0000) / 0x400, 0xDC00 + (c - 0x1_0000) % 0x400] + t)
    else None
  }

  /** Every surrogate is part of a pair. */
  predicate Paired(t: Text) {
    t == [] ||
    (if StartsWithPair(t) then Paired(t[2..]) else !High(t[0]) && !Low(t[0]) && Paired(t[1..]))
  }

  function After(head: Text, rest: Option<Text>): Option<Text> {
    if rest.Some? then Some(head + rest.value) else None
  }

  lemma DecodeUnit(u: CodeUnit, b: seq<Byte>)
    requires !High(u) && !Low(u)
    ensures Decode(EncodeUnit(u) + b) == After([u], Decode(b))
  {
    var all := EncodeUnit(u) + b;
    if u < 0x80 {
      assert all[1..] == b;
    } else if u < 0x800 {
      assert all[2..] == b && u == u / 64 * 64 + u % 64;
    } else {
      ThreeParts(u);
      assert all[3..] == b;
    }
  }

  lemma ThreeParts(u: CodeUnit)
    ensures u == u / 4096 * 4096 + u / 64 % 64 * 64 + u % 64
  {
    assert u == u / 64 * 64 + u % 64;
    assert u / 64 == u / 4096 * 64 + u / 64 % 64;
  }

  lemma FourParts(c: nat)
    ensures c == c / 0x4_0000 * 0x4_0000 + c / 4096 % 64 * 4096 + c / 64 % 64 * 64 + c % 64
  {
    assert c == c / 64 * 64 + c % 64;
    assert c / 64 == c / 4096 * 64 + c / 64 % 64;
    assert c / 4096 == c / 0x4_0000 * 64 + c / 4096 % 64;
  }

  lemma PairParts(high: CodeUnit, low: CodeUnit)
    requires High(high) && Low(low)
    ensures var c := CodePoint(high, low);
      0x1_0000 <= c < 0x11_0000
      && 0xD800 + (c - 0x1_0000) / 0x400 == high && 0xDC00 + (c - 0x1_0000) % 0x400 == low
  {
  }

  lemma DecodePair(high: CodeUnit, low: CodeUnit, b: seq<Byte>)
    requires High(high) && Low(low)
    ensures Decode(FourBytes(CodePoint(high, low)) + b) == After([high, low], Decode(b))
  {
    PairParts(high, low);
    var c := CodePoint(high, low);
    hide CodePoint;
    FourParts(c);
    assert (FourBytes(c) + b)[4..] == b;
  }

  /** Decoding inverts encoding on every text without lone surrogates. */
  lemma {:induction false} DecodeInverts(t: Text)
    requires Paired(t)
    ensures Decode(Encode(t)) == Some(t)
  {
    hide Decode;
    if t == [] {
      NothingToDecode();
    } else if StartsWithPair(t) {
      DecodeInverts(t[2..]);
      DecodePair(t[0], t[1], Encode(t[2..]));
      assert t == [t[0], t[1]] + t[2..];
    } else {
      DecodeInverts(t[1..]);
      DecodeUnit(t[0], Encode(t[1..]));
      assert t == [t[0]] + t[1..];
    }
  }

  lemma NothingToDecode()
    ensures Decode([]) == Some([])
  {
  }

  // ---------------------------------------------------------------- printed text is paired

  lemma {:induction false} PairedConcat(a: Text, b: Text)
    requires Paired(a) && Paired(b)
    ensures Paired(a + b)
  {
    if a == [] {
      assert a + b == b;
    } else {
      var n := if StartsWithPair(a) then 2 else 1;
      PairedConcat(a[n..], b);
      assert (a + b)[n..] == a[n..] + b;
    }
  }

  lemma {:induction false} PlainUnitsPaired(t: Text)
    requires forall u | u in t :: !High(u) && !Low(u)
    ensures Paired(t)
  {
    if t != [] {
      PlainUnitsPaired(t[1..]);
    }
  }

  lemma {:induction false} EscapePaired(s: Text)
    ensures Paired(Escape(s))
  {
    if s != [] {
      if StartsWithPair(s) {
        EscapePaired(s[2..]);
        assert ([s[0], s[1]] + Escape(s[2..]))[2..] == Escape(s[2..]);
      } else {
        EscapePaired(s[1..]);
        PlainUnitsPaired(EscapeUnit(s[0]));
        PairedConcat(EscapeUnit(s[0]), Escape(s[1..]));
      }
    }
  }

  lemma QuotedPaired(s: Text)
    ensures Paired(Quoted(s))
  {
    EscapePaired(s);
    PlainUnitsPaired([QUOTE]);
    PairedConcat([QUOTE], Escape(s));
    PairedConcat([QUOTE] + Escape(s), [QUOTE]);
  }

  lemma {:induction false} TailPaired(texts: seq<Text>)
    requires forall t | t in texts :: Paired(t)
    ensures Paired(Tail(texts)) && Paired(Join(texts))
  {
    hide Paired;
    PlainUnitsPaired([]);
    if texts != [] {
      TailPaired(texts[1..]);
      PlainUnitsPaired([COMMA]);
      PairedConcat([COMMA], texts[0]);
      PairedConcat([COMMA] + texts[0], Tail(texts[1..]));
      PairedConcat(texts[0], Tail(texts[1..]));
    }
  }

  lemma BracketedPaired(open: CodeUnit, body: Text, close: CodeUnit)
    requires Paired(body) && open < 0x80 && close < 0x80
    ensures Paired([open] + body + [close])
  {
    PlainUnitsPaired([open]);
    PlainUnitsPaired([close]);
    PairedConcat([open], body);
    PairedConcat([open] + body, [close]);
  }

  /** No printed text holds a lone surrogate, so its bytes stand for it exactly. */
  lemma {:induction false} PrintedIsPaired(v: Json)
    requires WellFormed(v) && Serialize(v).Out?
    ensures Paired(Serialize(v).text)
    decreases v, 1, 0
  {
    hide Paired;
    match v
    case Null => PlainUnitsPaired(NULL_TEXT);
    case NonFinite(_) => PlainUnitsPaired(NULL_TEXT);
    case Bool(b) => PlainUnitsPaired(Serialize(v).text);
    case Number(n) => PlainUnitsPaired(n);
    case String(s) => QuotedPaired(s);
    case Array(items) =>
      ItemsPaired(v, items);
      TailPaired(ItemTexts(v, items).value);
      BracketedPaired(LBRACKET, Join(ItemTexts(v, items).value), RBRACKET);
    case Object(fields) =>
      SortFieldsMembers(fields);
      PairsPaired(v, SortFields(fields));
      TailPaired(PairTexts(v, SortFields(fields)).value);
      BracketedPaired(LBRACE, Join(PairTexts(v, SortFields(fields)).value), RBRACE);
  }

  lemma {:induction false} ItemsPaired(parent: Json, items: seq<Json>)
    requires parent.Array? && forall x | x in items :: x in parent.items && WellFormed(x)
    requires ItemTexts(parent, items).Some?
    ensures forall t | t in ItemTexts(parent, items).value :: Paired(t)
    decreases parent, 0, |items|
  {
    hide Paired;
    if items != [] {
      assert items[0] in items;
      ItemsPaired(parent, items[1..]);
      PlainUnitsPaired(NULL_TEXT);
      if Serialize(items[0]).Out? {
        PrintedIsPaired(items[0]);
      }
    }
  }

  lemma {:induction false} PairsPaired(parent: Json, fields: seq<Field>)
    requires parent.Object? && forall f | f in fields :: f in parent.fields && WellFormed(f.value)
    requires PairTexts(parent, fields).Some?
    ensures forall t | t in PairTexts(parent, fields).value :: Paired(t)
    decreases parent, 0, |fields|
  {
    hide Paired, Quoted;
    if fields != [] {
      var f := fields[0];
      assert f in fields;
      PairsPaired(parent, fields[1..]);
      if Serialize(f.value).Out? {
        PrintedIsPaired(f.value);
        QuotedPaired(f.key);
        PlainUnitsPaired([COLON]);
        PairedConcat(Quoted(f.key), [COLON]);
        PairedConcat(Quoted(f.key) + [COLON], Serialize(f.value).text);
      }
    }
  }
}
