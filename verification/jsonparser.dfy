/** A JSON reader (RFC 8259 sections 4, 5 and 7, without insignificant white space, with lower-case
    hexadecimal digits, and strict about raw surrogates) and the proof that it inverts the canonical
    printer, so that equal texts mean equal values. */
module JsonParser {
  import opened Texts
  import opened Json

  // ---------------------------------------------------------------- the reader

  const SLASH: CodeUnit := 47

  function HexValue(u: CodeUnit): Option<nat> {
    if 48 <= u <= 57 then Some(u - 48)
    else if 97 <= u <= 102 then Some(u - 87)
    else None
  }

  function SimpleEscape(u: CodeUnit): Option<CodeUnit> {
    if u == QUOTE || u == BACKSLASH || u == SLASH then Some(u)
    else if u == 98 then Some(8)
    else if u == 116 then Some(9)
    else if u == 110 then Some(10)
    else if u == 102 then Some(12)
    else if u == 114 then Some(13)
    else None
  }

  /** The unit a backslash, a `u` and four hexadecimal digits stand for. */
  function UnicodeUnit(e: Text): Option<CodeUnit>
    requires |e| == 6
  {
    var a :- HexValue(e[2]);
    var b :- HexValue(e[3]);
    var c :- HexValue(e[4]);
    var d :- HexValue(e[5]);
    Some((a * 4096 + b * 256 + c * 16 + d) % 0x1_0000)
  }

  predicate StartsWithPair(s: Text) {
    |s| > 1 && High(s[0]) && Low(s[1])
  }

  /** String contents up to the closing quote, and what follows it; control characters and lone
      surrogates must be escaped. */
  function ParseChars(t: Text): (r: Option<(Text, Text)>)
    ensures r.Some? ==> |r.value.1| < |t|
  {
    if t == [] then None
    else if t[0] == QUOTE then Some(([], t[1..]))
    else if StartsWithPair(t) then
      var (s, rest) :- ParseChars(t[2..]);
      Some(([t[0], t[1]] + s, rest))
    else if t[0] != BACKSLASH then
      if t[0] < 32 || High(t[0]) || Low(t[0]) then None
      else
        var (s, rest) :- ParseChars(t[1..]);
        Some(([t[0]] + s, rest))
    else if |t| >= 6 && t[1] == LETTER_U then
      var u :- UnicodeUnit(t[..6]);
      var (s, rest) :- ParseChars(t[6..]);
      Some(([u] + s, rest))
    else if |t| >= 2 then
      var u :- SimpleEscape(t[1]);
      var (s, rest) :- ParseChars(t[2..]);
      Some(([u] + s, rest))
    else None
  }

  /** Length of the longest prefix of number characters. */
  function NumberSpan(t: Text): (n: nat)
    ensures n <= |t|
  {
    if t == [] || !NumberUnit(t[0]) then 0 else 1 + NumberSpan(t[1..])
  }

  function Keyword(t: Text, word: Text, m: Json): (r: Option<(Json, Text)>)
    requires word != []
    ensures r.Some? ==> |r.value.1| < |t|
  {
    if word <= t then Some((m, t[|word|..])) else None
  }

  function ParseNumber(t: Text): (r: Option<(Json, Text)>)
    ensures r.Some? ==> |r.value.1| < |t|
  {
    var n := NumberSpan(t);
    if n == 0 then None else Some((Number(t[..n]), t[n..]))
  }

  function ParseString(t: Text): (r: Option<(Json, Text)>)
    ensures r.Some? ==> |r.value.1| < |t|
  {
    var (s, rest) :- ParseChars(t);
    Some((String(s), rest))
  }

  function ParseValue(t: Text): (r: Option<(Json, Text)>)
    ensures r.Some? ==> |r.value.1| < |t|
    decreases |t|, 1
  {
    if t == [] then None
    else if t[0] == QUOTE then ParseString(t[1..])
    else if t[0] == LBRACKET then ParseArray(t[1..])
    else if t[0] == LBRACE then ParseObject(t[1..])
    else if t[0] == NULL_TEXT[0] then Keyword(t, NULL_TEXT, Null)
    else if t[0] == TRUE_TEXT[0] then Keyword(t, TRUE_TEXT, Bool(true))
    else if t[0] == FALSE_TEXT[0] then Keyword(t, FALSE_TEXT, Bool(false))
    else ParseNumber(t)
  }

  /** What follows an opening bracket. */
  function ParseArray(t: Text): (r: Option<(Json, Text)>)
    ensures r.Some? ==> |r.value.1| < |t|
    decreases |t|, 2
  {
    if t != [] && t[0] == RBRACKET then Some((Array([]), t[1..]))
    else
      var (x, r1) :- ParseValue(t);
      var (xs, r2) :- ParseItems(r1);
      Some((Array([x] + xs), r2))
  }

  /** What follows an opening brace. */
  function ParseObject(t: Text): (r: Option<(Json, Text)>)
    ensures r.Some? ==> |r.value.1| < |t|
    decreases |t|, 3
  {
    if t != [] && t[0] == RBRACE then Some((Object([]), t[1..]))
    else
      var (k, x, r1) :- ParsePair(t);
      var (fields, r2) :- ParsePairs(r1);
      Some((Object([Field(k, x)] + fields), r2))
  }

  /** The items after the first, up to the closing bracket. */
  function ParseItems(t: Text): (r: Option<(seq<Json>, Text)>)
    ensures r.Some? ==> |r.value.1| < |t|
    decreases |t|, 0
  {
    if t == [] then None
    else if t[0] == RBRACKET then Some(([], t[1..]))
    else if t[0] == COMMA then
      var (x, r1) :- ParseValue(t[1..]);
      var (xs, r2) :- ParseItems(r1);
      Some(([x] + xs, r2))
    else None
  }

  function ParsePair(t: Text): (r: Option<(Text, Json, Text)>)
    ensures r.Some? ==> |r.value.2| < |t|
    decreases |t|, 2
  {
    if t == [] || t[0] != QUOTE then None
    else
      var (k, r1) :- ParseChars(t[1..]);
      if r1 == [] || r1[0] != COLON then None
      else
        var (x, r2) :- ParseValue(r1[1..]);
        Some((k, x, r2))
  }

  /** The members after the first, up to the closing brace. */
  function ParsePairs(t: Text): (r: Option<(seq<Field>, Text)>)
    ensures r.Some? ==> |r.value.1| < |t|
    decreases |t|, 0
  {
    if t == [] then None
    else if t[0] == RBRACE then Some(([], t[1..]))
    else if t[0] == COMMA then
      var (k, x, r1) :- ParsePair(t[1..]);
      var (fields, r2) :- ParsePairs(r1);
      Some(([Field(k, x)] + fields, r2))
    else None
  }

  // ---------------------------------------------------------------- strings and numbers invert

  function Prepend(u: CodeUnit, r: Option<(Text, Text)>): Option<(Text, Text)> {
    match r
    case None => None
    case Some((s, rest)) => Some(([u] + s, rest))
  }

  lemma HexInverts(n: nat)
    requires n < 16
    ensures HexValue(HexDigit(n)) == Some(n)
  {
  }

  lemma HexRoundTrip(u: CodeUnit)
    ensures UnicodeUnit(UnicodeEscape(u)) == Some(u)
  {
    hide HexValue, HexDigit;
    HexInverts(u / 4096);
    HexInverts(u / 256 % 16);
    HexInverts(u / 16 % 16);
    HexInverts(u % 16);
    HexParts(u);
  }

  lemma HexParts(u: CodeUnit)
    ensures u == u / 4096 * 4096 + u / 256 % 16 * 256 + u / 16 % 16 * 16 + u % 16
  {
    assert u == u / 16 * 16 + u % 16;
    assert u / 16 == u / 256 * 16 + u / 16 % 16;
    assert u / 256 == u / 4096 * 16 + u / 256 % 16;
  }

  lemma RawUnitInverts(u: CodeUnit, t: Text)
    requires u != QUOTE && u != BACKSLASH && u >= 32 && !High(u) && !Low(u)
    ensures ParseChars([u] + t) == Prepend(u, ParseChars(t))
  {
    assert ([u] + t)[1..] == t;
  }

  lemma SimpleEscapeInverts(u: CodeUnit, c: CodeUnit, t: Text)
    requires c != LETTER_U && SimpleEscape(c) == Some(u)
    ensures ParseChars([BACKSLASH, c] + t) == Prepend(u, ParseChars(t))
  {
    assert ([BACKSLASH, c] + t)[2..] == t;
  }

  lemma SixUnitEscape(e: Text, u: CodeUnit, t: Text)
    requires |e| == 6 && e[0] == BACKSLASH && e[1] == LETTER_U && UnicodeUnit(e) == Some(u)
    ensures ParseChars(e + t) == Prepend(u, ParseChars(t))
  {
    hide UnicodeUnit;
    assert (e + t)[6..] == t && (e + t)[..6] == e;
  }

  lemma UnicodeEscapeInverts(u: CodeUnit, t: Text)
    ensures ParseChars(UnicodeEscape(u) + t) == Prepend(u, ParseChars(t))
  {
    HexRoundTrip(u);
    SixUnitEscape(UnicodeEscape(u), u, t);
  }

  lemma EscapeUnitInverts(u: CodeUnit, t: Text)
    ensures ParseChars(EscapeUnit(u) + t) == Prepend(u, ParseChars(t))
  {
    var e := EscapeUnit(u);
    if |e| == 1 {
      RawUnitInverts(u, t);
    } else if |e| == 2 {
      SimpleEscapeInverts(u, e[1], t);
    } else {
      UnicodeEscapeInverts(u, t);
    }
  }

  lemma Associates(a: Text, b: Text, c: Text)
    ensures (a + b) + c == a + (b + c)
  {
  }

  lemma EscapeOfPair(s: Text, t: Text)
    requires StartsWithPair(s)
    ensures Escape(s) + t == [s[0]] + ([s[1]] + (Escape(s[2..]) + t))
  {
  }

  lemma EscapeOfUnit(s: Text, t: Text)
    requires s != [] && !StartsWithPair(s)
    ensures Escape(s) + t == EscapeUnit(s[0]) + (Escape(s[1..]) + t)
  {
    Associates(EscapeUnit(s[0]), Escape(s[1..]), t);
  }

  lemma PairInverts(s: Text, t: Text, rest: Text)
    requires StartsWithPair(s) && ParseChars(t) == Some((s[2..], rest))
    ensures ParseChars([s[0]] + ([s[1]] + t)) == Some((s, rest))
  {
    var x := [s[0]] + ([s[1]] + t);
    assert x[2..] == t && x[0] == s[0] && x[1] == s[1];
    assert s == [s[0], s[1]] + s[2..];
  }

  lemma {:induction false} EscapeInverts(s: Text, rest: Text)
    ensures ParseChars(Escape(s) + ([QUOTE] + rest)) == Some((s, rest))
    decreases |s|
  {
    var t := [QUOTE] + rest;
    if s == [] {
      assert t[1..] == rest && Escape(s) + t == t;
    } else if StartsWithPair(s) {
      EscapeInverts(s[2..], rest);
      EscapeOfPair(s, t);
      PairInverts(s, Escape(s[2..]) + t, rest);
    } else {
      EscapeInverts(s[1..], rest);
      EscapeOfUnit(s, t);
      EscapeUnitInverts(s[0], Escape(s[1..]) + t);
      assert s == [s[0]] + s[1..];
    }
  }

  // ---------------------------------------------------------------- the shortest way to write a string

  lemma HexIsCanonical(u: CodeUnit)
    requires HexValue(u).Some?
    ensures HexValue(u).value < 16 && HexDigit(HexValue(u).value) == u
  {
  }

  lemma HexPlaces(w: nat, x: nat, y: nat, z: nat)
    requires w < 16 && x < 16 && y < 16 && z < 16
    ensures var u := w * 4096 + x * 256 + y * 16 + z;
      u < 0x1_0000 && u / 4096 == w && u / 256 % 16 == x && u / 16 % 16 == y && u % 16 == z
  {
    var u := w * 4096 + x * 256 + y * 16 + z;
    assert u / 16 == w * 256 + x * 16 + y;
    assert u / 256 == w * 16 + x;
  }

  /** Four hexadecimal digits are the ones the printer writes for what they stand for. */
  lemma SixUnitsAreTheEscape(e: Text)
    requires |e| == 6 && e[0] == BACKSLASH && e[1] == LETTER_U && UnicodeUnit(e).Some?
    ensures UnicodeEscape(UnicodeUnit(e).value) == e
  {
    hide HexValue, HexDigit;
    HexIsCanonical(e[2]);
    HexIsCanonical(e[3]);
    HexIsCanonical(e[4]);
    HexIsCanonical(e[5]);
    HexPlaces(HexValue(e[2]).value, HexValue(e[3]).value, HexValue(e[4]).value, HexValue(e[5]).value);
  }

  /** One unit in front adds at most its own escape: less where it completes a pair. */
  lemma EscapeCons(u: CodeUnit, s: Text)
    ensures |Escape([u] + s)| <= |EscapeUnit(u)| + |Escape(s)|
    ensures |Escape([u] + s)| == |EscapeUnit(u)| + |Escape(s)| ==> Escape([u] + s) == EscapeUnit(u) + Escape(s)
  {
    var all := [u] + s;
    assert all[1..] == s;
    if StartsWithPair(all) {
      assert all[2..] == s[1..] && !StartsWithPair(s);
    }
  }

  /** A unit written any way the reader takes is written no shorter than the printer does, and no
      differently at that length. */
  lemma ChunkIsLonger(chunk: Text, u: CodeUnit, s: Text, t: Text)
    requires |EscapeUnit(u)| <= |chunk| && (|EscapeUnit(u)| == |chunk| ==> EscapeUnit(u) == chunk)
    requires |Escape(s)| <= |t| && (|Escape(s)| == |t| ==> Escape(s) == t)
    ensures |Escape([u] + s)| <= |chunk + t|
    ensures |Escape([u] + s)| == |chunk + t| ==> Escape([u] + s) == chunk + t
  {
    EscapeCons(u, s);
  }

  /** How many units the reader takes for the next unit of a string, or for a pair. */
  function ChunkLength(t: Text): nat
    requires t != []
  {
    if StartsWithPair(t) then 2
    else if t[0] != BACKSLASH then 1
    else if |t| >= 6 && t[1] == LETTER_U then 6
    else 2
  }

  lemma EscapeUnitShape(u: CodeUnit)
    ensures |EscapeUnit(u)| <= 2 || EscapeUnit(u) == UnicodeEscape(u)
  {
  }

  lemma ReadsRaw(t: Text, s: Text, rest: Text)
    requires t != [] && t[0] != QUOTE && t[0] != BACKSLASH && !StartsWithPair(t) && ParseChars(t) == Some((s, rest))
    ensures s != [] && ParseChars(t[1..]) == Some((s[1..], rest)) && EscapeUnit(s[0]) == t[..1]
  {
    hide HexValue, SimpleEscape, UnicodeUnit, UnicodeEscape;
  }

  lemma ReadsSix(t: Text, s: Text, rest: Text)
    requires |t| >= 6 && t[0] == BACKSLASH && t[1] == LETTER_U && ParseChars(t) == Some((s, rest))
    ensures s != [] && ParseChars(t[6..]) == Some((s[1..], rest)) && UnicodeEscape(s[0]) == t[..6]
  {
    hide UnicodeUnit, SimpleEscape, UnicodeEscape, EscapeUnit;
    assert UnicodeUnit(t[..6]) == Some(s[0]);
    SixUnitsAreTheEscape(t[..6]);
  }

  lemma ReadsSimple(t: Text, s: Text, rest: Text)
    requires t != [] && t[0] == BACKSLASH && !(|t| >= 6 && t[1] == LETTER_U) && ParseChars(t) == Some((s, rest))
    ensures |t| >= 2 && s != [] && ParseChars(t[2..]) == Some((s[1..], rest)) && SimpleEscape(t[1]) == Some(s[0])
  {
    hide HexValue, SimpleEscape, UnicodeUnit, UnicodeEscape, EscapeUnit;
  }

  lemma SimpleIsTheEscape(c: CodeUnit)
    requires SimpleEscape(c).Some?
    ensures var e := EscapeUnit(SimpleEscape(c).value); |e| == 1 || e == [BACKSLASH, c]
  {
  }

  /** One step of the reader: what it took and what it goes on with. */
  lemma ReadsOne(t: Text, s: Text, rest: Text)
    requires t != [] && t[0] != QUOTE && !StartsWithPair(t) && ParseChars(t) == Some((s, rest))
    ensures var n := ChunkLength(t);
      && n <= |t| && s != [] && ParseChars(t[n..]) == Some((s[1..], rest))
      && |EscapeUnit(s[0])| <= n && (|EscapeUnit(s[0])| == n ==> EscapeUnit(s[0]) == t[..n])
  {
    hide HexValue, SimpleEscape, UnicodeUnit, UnicodeEscape, EscapeUnit, ParseChars;
    if t[0] != BACKSLASH {
      ReadsRaw(t, s, rest);
    } else if |t| >= 6 && t[1] == LETTER_U {
      ReadsSix(t, s, rest);
      EscapeUnitShape(s[0]);
    } else {
      ReadsSimple(t, s, rest);
      SimpleIsTheEscape(t[1]);
      assert t[..2] == [BACKSLASH, t[1]];
    }
  }

  lemma ReadsPair(t: Text, s: Text, rest: Text)
    requires StartsWithPair(t) && ParseChars(t) == Some((s, rest))
    ensures StartsWithPair(s) && s[..2] == t[..2] && ParseChars(t[2..]) == Some((s[2..], rest))
    ensures Escape(s) == t[..2] + Escape(s[2..])
  {
  }

  /** Of all the ways the reader takes for a string's contents, the printer writes the shortest, and no
      other is as short: short escapes where there are any, four hexadecimal digits only for other
      control characters and lone surrogates, everything else, pairs included, as it is. */
  lemma {:induction false} EscapeIsShortest(t: Text, s: Text, body: Text, rest: Text)
    requires t == body + [QUOTE] + rest && ParseChars(t) == Some((s, rest))
    ensures |Escape(s)| <= |body| && (|Escape(s)| == |body| ==> Escape(s) == body)
    decreases |t|
  {
    StopsAtQuote(t, s, rest);
    hide ParseChars, Escape, EscapeUnit, ChunkLength;
    if body != [] {
      var n, k := ChunkLength(t), if StartsWithPair(t) then 2 else 1;
      if StartsWithPair(t) {
        ReadsPair(t, s, rest);
      } else {
        ReadsOne(t, s, rest);
      }
      LeavesLess(t[n..], s[k..], rest);
      TakenFrom(t, body, rest, n);
      var after := body[n..];
      EscapeIsShortest(t[n..], s[k..], after, rest);
      if k == 1 {
        ChunkIsLonger(body[..n], s[0], s[1..], after);
        assert s == [s[0]] + s[1..];
      }
    }
  }

  lemma TakenFrom(t: Text, body: Text, rest: Text, n: nat)
    requires t == body + [QUOTE] + rest && n <= |t| && |rest| < |t[n..]|
    ensures n <= |body| && t[n..] == body[n..] + [QUOTE] + rest && t[..n] == body[..n] && body == body[..n] + body[n..]
  {
  }

  lemma StopsAtQuote(t: Text, s: Text, rest: Text)
    requires ParseChars(t) == Some((s, rest))
    ensures t != [] && (t[0] == QUOTE <==> |rest| == |t| - 1)
    ensures t[0] == QUOTE ==> s == [] && Escape(s) == []
  {
    if t[0] != QUOTE {
      hide ParseChars, Escape, EscapeUnit;
      if StartsWithPair(t) {
        ReadsPair(t, s, rest);
        LeavesLess(t[2..], s[2..], rest);
      } else {
        ReadsOne(t, s, rest);
        LeavesLess(t[ChunkLength(t)..], s[1..], rest);
      }
    }
  }

  lemma LeavesLess(t: Text, s: Text, rest: Text)
    requires ParseChars(t) == Some((s, rest))
    ensures |rest| < |t|
  {
  }

  /** Nothing that could still belong to a number. */
  predicate Terminated(rest: Text) {
    rest == [] || !NumberUnit(rest[0])
  }

  lemma {:induction false} NumberSpanExact(t: Text, rest: Text)
    requires (forall u | u in t :: NumberUnit(u)) && Terminated(rest)
    ensures NumberSpan(t + rest) == |t|
  {
    if t == [] {
      assert t + rest == rest;
    } else {
      assert (t + rest)[1..] == t[1..] + rest;
      NumberSpanExact(t[1..], rest);
    }
  }

  /** The words and punctuation, spelled out. */
  lemma Spelled()
    ensures NULL_TEXT == Lit("null") && TRUE_TEXT == Lit("true") && FALSE_TEXT == Lit("false")
    ensures [LBRACKET, RBRACKET, LBRACE, RBRACE, COMMA, COLON, QUOTE, BACKSLASH, SLASH, LETTER_U] == Lit("[]{},:\"\\/u")
  {
  }

  // ---------------------------------------------------------------- the printer's outcome

  lemma {:induction false} SerializeOutcome(v: Json)
    ensures Serialize(v).Throws? <==> !Supported(v)
    ensures Serialize(v).Skip? <==> v.Absent?
    decreases v, 1, 0
  {
    match v
    case Array(items) => ItemTextsOutcome(v, items);
    case Object(fields) =>
      SortFieldsMembers(fields);
      PairTextsOutcome(v, SortFields(fields));
    case _ =>
  }

  lemma {:induction false} ItemTextsOutcome(parent: Json, items: seq<Json>)
    requires parent.Array? && forall x | x in items :: x in parent.items
    ensures ItemTexts(parent, items).None? <==> exists x | x in items :: !Supported(x)
    decreases parent, 0, |items|
  {
    if items != [] {
      assert items[0] in items;
      SerializeOutcome(items[0]);
      ItemTextsOutcome(parent, items[1..]);
      assert items == [items[0]] + items[1..];
    }
  }

  lemma {:induction false} PairTextsOutcome(parent: Json, fields: seq<Field>)
    requires parent.Object? && forall f | f in fields :: f in parent.fields
    ensures PairTexts(parent, fields).None? <==> exists f | f in fields :: !Supported(f.value)
    decreases parent, 0, |fields|
  {
    if fields != [] {
      assert fields[0] in fields;
      SerializeOutcome(fields[0].value);
      PairTextsOutcome(parent, fields[1..]);
      assert fields == [fields[0]] + fields[1..];
    }
  }

  // ---------------------------------------------------------------- the reader inverts the printer

  /** No printed value starts with a closing bracket or brace. */
  lemma FirstUnit(v: Json)
    requires WellFormed(v) && Serialize(v).Out?
    ensures var t := Serialize(v).text; |t| > 0 && t[0] != RBRACKET && t[0] != RBRACE
  {
  }

  lemma ReadKeyword(word: Text, rest: Text, m: Json)
    requires word != []
    ensures Keyword(word + rest, word, m) == Some((m, rest))
  {
  }

  lemma ReadNumber(t: Text, rest: Text)
    requires NumberText(t) && Terminated(rest)
    ensures ParseValue(t + rest) == Some((Number(t), rest))
  {
    NumberSpanExact(t, rest);
    var x := t + rest;
    assert x[0] == t[0] && x[..|t|] == t && x[|t|..] == rest;
    assert NULL_TEXT[0] == 110 && TRUE_TEXT[0] == 116 && FALSE_TEXT[0] == 102;
  }

  lemma ReadString(s: Text, rest: Text)
    ensures ParseValue(Quoted(s) + rest) == Some((String(s), rest))
  {
    var x := Quoted(s) + rest;
    EscapeInverts(s, rest);
    assert x[1..] == Escape(s) + ([QUOTE] + rest);
    assert x[0] == QUOTE;
  }

  /** An opening bracket reads like a comma between items: both expect a value next. */
  lemma ReadArray(body: Text, rest: Text, ms: seq<Json>)
    requires |body| > 0 && body[0] != RBRACKET
    requires ParseItems([COMMA] + body) == Some((ms, rest))
    ensures ParseArray(body) == Some((Array(ms), rest))
  {
    assert ([COMMA] + body)[1..] == body;
  }

  lemma ReadMoreItems(x: Text, more: Text, rest: Text, m: Json, ms: seq<Json>)
    requires ParseValue(x + more) == Some((m, more)) && ParseItems(more) == Some((ms, rest))
    ensures ParseItems([COMMA] + (x + more)) == Some(([m] + ms, rest))
  {
    assert ([COMMA] + (x + more))[1..] == x + more;
  }

  lemma ReadPair(k: Text, x: Text, more: Text, m: Json)
    requires ParseValue(x + more) == Some((m, more))
    ensures ParsePair((Quoted(k) + [COLON] + x) + more) == Some((k, m, more))
  {
    var after := [COLON] + (x + more);
    PairShape(k, x, more);
    EscapeInverts(k, after);
    assert after[1..] == x + more;
  }

  lemma PairShape(k: Text, x: Text, more: Text)
    ensures var t := (Quoted(k) + [COLON] + x) + more;
      && t[0] == QUOTE
      && t[1..] == Escape(k) + ([QUOTE] + ([COLON] + (x + more)))
  {
  }

  lemma ReadObject(body: Text, rest: Text, fields: seq<Field>)
    requires |body| > 0 && body[0] != RBRACE
    requires ParsePairs([COMMA] + body) == Some((fields, rest))
    ensures ParseObject(body) == Some((Object(fields), rest))
  {
    assert ([COMMA] + body)[1..] == body;
  }

  lemma ReadMorePairs(x: Text, more: Text, rest: Text, k: Text, m: Json, fields: seq<Field>)
    requires ParsePair(x + more) == Some((k, m, more)) && ParsePairs(more) == Some((fields, rest))
    ensures ParsePairs([COMMA] + (x + more)) == Some(([Field(k, m)] + fields, rest))
  {
    assert ([COMMA] + (x + more))[1..] == x + more;
  }

  lemma TailIsCommaJoin(texts: seq<Text>, close: Text)
    requires texts != []
    ensures Tail(texts) + close == [COMMA] + (Join(texts) + close)
    ensures Tail(texts) + close == [COMMA] + (texts[0] + (Tail(texts[1..]) + close))
  {
  }

  lemma MeaningOfCons(f: Field, fields: seq<Field>)
    ensures FieldMeanings([f] + fields) == Put(FieldMeanings(fields), f.key, f.value.Absent?, MeaningOf(f.value))
  {
    assert ([f] + fields)[1..] == fields;
  }

  lemma {:induction false} InsertKeepsMeaning(f: Field, sorted: seq<Field>)
    requires forall g | g in sorted :: g.key != f.key
    ensures FieldMeanings(InsertField(f, sorted)) == FieldMeanings([f] + sorted)
  {
    MeaningOfCons(f, sorted);
    if sorted != [] && Less(sorted[0].key, f.key) {
      var rest := sorted[1..];
      InsertKeepsMeaning(f, rest);
      MeaningOfCons(f, rest);
      MeaningOfCons(sorted[0], InsertField(f, rest));
      assert sorted[0] in sorted;
    }
  }

  /** Sorting the fields of an object leaves its meaning alone. */
  lemma {:induction false} SortKeepsMeaning(fields: seq<Field>)
    requires DistinctKeys(fields)
    ensures FieldMeanings(SortFields(fields)) == FieldMeanings(fields)
    ensures DistinctKeys(SortFields(fields))
  {
    if fields != [] {
      var rest := SortFields(fields[1..]);
      SortKeepsMeaning(fields[1..]);
      SortFieldsMembers(fields[1..]);
      InsertKeepsDistinct(fields[0], rest);
      InsertKeepsMeaning(fields[0], rest);
      MeaningOfCons(fields[0], rest);
    }
  }

  lemma {:induction false} InsertKeepsDistinct(f: Field, sorted: seq<Field>)
    requires DistinctKeys(sorted) && forall g | g in sorted :: g.key != f.key
    ensures DistinctKeys(InsertField(f, sorted)) && DistinctKeys([f] + sorted)
  {
    if sorted != [] && Less(sorted[0].key, f.key) {
      var rest := sorted[1..];
      InsertKeepsDistinct(f, rest);
      InsertFieldMembers(f, rest);
      var inserted := InsertField(f, rest);
      forall i | 0 <= i < |inserted| ensures inserted[i].key != sorted[0].key {
        assert inserted[i] in inserted;
      }
    }
  }

  // ---------------------------------------------------------------- key order

  predicate StrictlySorted(fields: seq<Field>) {
    forall i, j | 0 <= i < j < |fields| :: Less(fields[i].key, fields[j].key)
  }

  lemma {:induction false} InsertKeepsSorted(f: Field, sorted: seq<Field>)
    requires StrictlySorted(sorted) && forall g | g in sorted :: g.key != f.key
    ensures StrictlySorted(InsertField(f, sorted))
  {
    if sorted != [] {
      LessTotal(sorted[0].key, f.key);
      if Less(sorted[0].key, f.key) {
        var rest := sorted[1..];
        InsertKeepsSorted(f, rest);
        InsertFieldMembers(f, rest);
        forall g | g in InsertField(f, rest) ensures Less(sorted[0].key, g.key) {
        }
      } else {
        assert sorted[0] in sorted;
        forall g | g in sorted ensures Less(f.key, g.key) {
          if g != sorted[0] {
            LessTransitive(f.key, sorted[0].key, g.key);
          }
        }
      }
    }
  }

  lemma {:induction false} SortSorts(fields: seq<Field>)
    requires DistinctKeys(fields)
    ensures StrictlySorted(SortFields(fields))
  {
    if fields != [] {
      SortSorts(fields[1..]);
      SortFieldsMembers(fields[1..]);
      InsertKeepsSorted(fields[0], SortFields(fields[1..]));
    }
  }

  /** At every depth, members are listed in ascending order of their keys. */
  predicate KeysAscend(v: Json) {
    match v
    case Array(items) => forall x | x in items :: KeysAscend(x)
    case Object(fields) =>
      && (forall i, j | 0 <= i < j < |fields| :: Before(fields[i].key, fields[j].key))
      && forall f | f in fields :: KeysAscend(f.value)
    case _ => true
  }

  /** What the reader can return: nothing absent, refused or non-finite, no key twice. */
  predicate Plain(v: Json) {
    match v
    case Absent => false
    case Refused => false
    case NonFinite(_) => false
    case Array(items) => forall x | x in items :: Plain(x)
    case Object(fields) => DistinctKeys(fields) && forall f | f in fields :: Plain(f.value)
    case _ => true
  }

  lemma NoMembers()
    ensures KeysAscend(Object([])) && Plain(Object([]))
  {
  }

  /** A first member before members whose keys all come from a list it precedes. */
  lemma MemberFirst(first: Field, fields: seq<Field>, sorted: seq<Field>)
    requires StrictlySorted(sorted) && sorted != [] && sorted[0].key == first.key
    requires KeysAscend(Object(fields)) && KeysAscend(first.value)
    requires Plain(Object(fields)) && Plain(first.value)
    requires forall f | f in fields :: exists g | g in sorted[1..] :: g.key == f.key
    ensures KeysAscend(Object([first] + fields)) && Plain(Object([first] + fields))
  {
    var all := [first] + fields;
    forall i, j | 0 <= i < j < |all| ensures Before(all[i].key, all[j].key) && all[i].key != all[j].key {
      if i == 0 {
        assert all[j] == fields[j - 1] && fields[j - 1] in fields;
        var g :| g in sorted[1..] && g.key == all[j].key;
        var k :| 0 <= k < |sorted[1..]| && sorted[1..][k] == g;
        assert g == sorted[k + 1];
        LessTotal(sorted[0].key, sorted[k + 1].key);
        LessIsBefore(sorted[0].key, sorted[k + 1].key);
      } else {
        assert all[i] == fields[i - 1] && all[j] == fields[j - 1];
      }
    }
    forall f | f in all ensures KeysAscend(f.value) && Plain(f.value) {
      assert f == first || f in fields;
    }
  }

  // ---------------------------------------------------------------- whole values

  /** Reading a printed value gives back its meaning, members in ascending key order, and leaves the
      rest of the text alone. */
  lemma {:induction false} ParseInverts(v: Json, rest: Text) returns (r: Json)
    requires WellFormed(v) && Serialize(v).Out? && Terminated(rest)
    ensures ParseValue(Serialize(v).text + rest) == Some((r, rest))
    ensures MeaningOf(r) == MeaningOf(v) && KeysAscend(r) && Plain(r)
    decreases v, 2, 0
  {
    r := Null;
    match v
    case Null => ReadKeyword(NULL_TEXT, rest, Null);
    case NonFinite(_) => ReadKeyword(NULL_TEXT, rest, Null);
    case Bool(b) =>
      r := v;
      ReadKeyword(if b then TRUE_TEXT else FALSE_TEXT, rest, v);
    case Number(n) =>
      r := v;
      ReadNumber(n, rest);
    case String(s) =>
      r := v;
      ReadString(s, rest);
    case Array(items) => r := ArrayInverts(v, rest);
    case Object(fields) => r := ObjectInverts(v, rest);
  }

  lemma BracketShape(open: CodeUnit, body: Text, close: CodeUnit, rest: Text)
    ensures ([open] + body + [close]) + rest == [open] + (body + ([close] + rest))
    ensures ([open] + (body + ([close] + rest)))[1..] == body + ([close] + rest)
  {
  }

  lemma {:induction false} ArrayInverts(v: Json, rest: Text) returns (r: Json)
    requires v.Array? && WellFormed(v) && Serialize(v).Out?
    ensures ParseValue(Serialize(v).text + rest) == Some((r, rest))
    ensures MeaningOf(r) == MeaningOf(v) && KeysAscend(r) && Plain(r)
    decreases v, 1, |v.items| + 1
  {
    hide ParseItems, Escape;
    var texts := ItemTexts(v, v.items).value;
    var close := [RBRACKET] + rest;
    var items := ItemsInvert(v, v.items, rest);
    r := Array(items);
    BracketShape(LBRACKET, Join(texts), RBRACKET, rest);
    if texts != [] {
      TailIsCommaJoin(texts, close);
      ReadArray(Join(texts) + close, rest, items);
    } else {
      assert Join(texts) + close == close && close[1..] == rest;
    }
  }

  lemma {:induction false} ObjectInverts(v: Json, rest: Text) returns (r: Json)
    requires v.Object? && WellFormed(v) && Serialize(v).Out?
    ensures ParseValue(Serialize(v).text + rest) == Some((r, rest))
    ensures MeaningOf(r) == MeaningOf(v) && KeysAscend(r) && Plain(r)
    decreases v, 1, |v.fields| + 1
  {
    hide ParsePairs, KeysAscend, Plain, Escape, StrictlySorted, ParsePair, ParseItems;
    SortFieldsMembers(v.fields);
    SortSorts(v.fields);
    SortKeepsMeaning(v.fields);
    var texts := PairTexts(v, SortFields(v.fields)).value;
    var close := [RBRACE] + rest;
    var fields := PairsInvert(v, SortFields(v.fields), rest);
    r := Object(fields);
    BracketShape(LBRACE, Join(texts), RBRACE, rest);
    if texts != [] {
      TailIsCommaJoin(texts, close);
      ReadObject(Join(texts) + close, rest, fields);
    } else {
      assert Join(texts) + close == close && close[1..] == rest;
      assert Tail(texts) + close == close;
      NothingListed(rest);
    }
  }

  lemma NothingListed(rest: Text)
    ensures ParsePairs([RBRACE] + rest) == Some(([], rest)) && ParseItems([RBRACKET] + rest) == Some(([], rest))
  {
  }

  /** An absent item is printed, and read, as null. */
  lemma ReadNull(more: Text)
    ensures ParseValue(NULL_TEXT + more) == Some((Null, more))
    ensures KeysAscend(Null) && Plain(Null) && MeaningOf(Null) == MeaningOf(Absent)
  {
    ReadKeyword(NULL_TEXT, more, Null);
  }

  lemma {:induction false} ItemsInvert(parent: Json, items: seq<Json>, rest: Text) returns (read: seq<Json>)
    requires parent.Array? && forall x | x in items :: x in parent.items && WellFormed(x)
    requires ItemTexts(parent, items).Some?
    ensures var texts := ItemTexts(parent, items).value;
      && |texts| == |items|
      && (texts != [] ==> |texts[0]| > 0 && texts[0][0] != RBRACKET)
      && ParseItems(Tail(texts) + ([RBRACKET] + rest)) == Some((read, rest))
    ensures ItemMeanings(read) == ItemMeanings(items) && forall x | x in read :: KeysAscend(x) && Plain(x)
    decreases parent, 1, |items|
  {
    hide ParseValue, MeaningOf, KeysAscend, Plain, FieldMeanings;
    var close := [RBRACKET] + rest;
    var texts := ItemTexts(parent, items).value;
    read := [];
    if items == [] {
      assert Tail(texts) + close == close && close[1..] == rest;
    } else {
      var x := items[0];
      assert x in items;
      var others := ItemsInvert(parent, items[1..], rest);
      var more := Tail(texts[1..]) + close;
      SerializeOutcome(x);
      var first := Null;
      if Serialize(x).Out? {
        FirstUnit(x);
        first := ParseInverts(x, more);
      } else {
        ReadNull(more);
      }
      read := [first] + others;
      ReadMoreItems(texts[0], more, rest, first, others);
      TailIsCommaJoin(texts, close);
      assert read[1..] == others;
    }
  }

  lemma {:induction false} PairsInvert(parent: Json, fields: seq<Field>, rest: Text) returns (read: seq<Field>)
    requires parent.Object? && forall f | f in fields :: f in parent.fields && WellFormed(f.value)
    requires PairTexts(parent, fields).Some? && StrictlySorted(fields)
    ensures var texts := PairTexts(parent, fields).value;
      && (texts != [] ==> |texts[0]| > 0 && texts[0][0] != RBRACE)
      && ParsePairs(Tail(texts) + ([RBRACE] + rest)) == Some((read, rest))
    ensures FieldMeanings(read) == FieldMeanings(fields) && KeysAscend(Object(read)) && Plain(Object(read))
    ensures forall f | f in read :: exists g | g in fields :: g.key == f.key
    decreases parent, 1, |fields|
  {
    hide ParseValue, ParsePair, KeysAscend, Plain, MeaningOf;
    NoMembers();
    var close := [RBRACE] + rest;
    var texts := PairTexts(parent, fields).value;
    read := [];
    if fields == [] {
      assert Tail(texts) + close == close && close[1..] == rest;
    } else {
      var f := fields[0];
      assert f in fields;
      read := PairsInvert(parent, fields[1..], rest);
      SerializeOutcome(f.value);
      if Serialize(f.value).Out? {
        var more := Tail(texts[1..]) + close;
        var value := ParseInverts(f.value, more);
        var others, first := read, Field(f.key, value);
        ReadPair(f.key, Serialize(f.value).text, more, value);
        ReadMorePairs(texts[0], more, rest, f.key, value, others);
        TailIsCommaJoin(texts, close);
        MemberFirst(first, others, fields);
        MeaningOfCons(first, others);
        read := [first] + others;
      }
    }
  }
}
