/** Canonical printing identifies exactly the values with the same meaning; the shared
    `canonicalString` does so after dropping non-deterministic keys. */
module Canonical {
  import opened Texts
  import opened Json
  import opened JsonParser

  // ---------------------------------------------------------------- equal meaning, equal text

  lemma {:induction false} MeaningKeys(fields: seq<Field>, k: Text)
    ensures k in FieldMeanings(fields) ==> exists f | f in fields :: f.key == k
  {
    if fields != [] {
      MeaningKeys(fields[1..], k);
    }
  }

  /** In a strictly sorted list the first key occurs once, and no later key precedes it. */
  lemma SortedHead(fields: seq<Field>, k: Text)
    requires fields != [] && StrictlySorted(fields)
    ensures fields[0].key !in FieldMeanings(fields[1..])
    ensures k in FieldMeanings(fields) && k != fields[0].key ==> Less(fields[0].key, k)
  {
    MeaningKeys(fields[1..], fields[0].key);
    MeaningKeys(fields[1..], k);
    LessTotal(fields[0].key, fields[0].key);
  }

  /** Two sorted field lists with the same meaning start with the same key and member. */
  lemma SameHead(fa: seq<Field>, fb: seq<Field>)
    requires StrictlySorted(fa) && StrictlySorted(fb) && FieldMeanings(fa) == FieldMeanings(fb)
    requires fa != [] && !fa[0].value.Absent? && fb != [] && !fb[0].value.Absent?
    ensures fa[0].key == fb[0].key && MeaningOf(fa[0].value) == MeaningOf(fb[0].value)
    ensures FieldMeanings(fa[1..]) == FieldMeanings(fb[1..])
  {
    var ka, kb := fa[0].key, fb[0].key;
    var m := FieldMeanings(fa);
    assert ka in m && kb in m;
    SortedHead(fa, kb);
    SortedHead(fb, ka);
    LessTotal(ka, kb);
    assert FieldMeanings(fa[1..]) == m - {ka};
    assert FieldMeanings(fb[1..]) == m - {kb};
  }

  lemma {:induction false} SameText(a: Json, b: Json)
    requires WellFormed(a) && WellFormed(b) && Serialize(a).Out? && Serialize(b).Out?
    requires MeaningOf(a) == MeaningOf(b)
    ensures Serialize(a).text == Serialize(b).text
    decreases a, 1, 0
  {
    if a.Array? && b.Array? {
      SameItems(a, a.items, b, b.items);
    } else if a.Object? && b.Object? {
      SortFieldsMembers(a.fields);
      SortFieldsMembers(b.fields);
      SortSorts(a.fields);
      SortSorts(b.fields);
      SortKeepsMeaning(a.fields);
      SortKeepsMeaning(b.fields);
      SamePairs(a, SortFields(a.fields), b, SortFields(b.fields));
    }
  }

  lemma {:induction false} SameItems(a: Json, xs: seq<Json>, b: Json, ys: seq<Json>)
    requires a.Array? && (forall x | x in xs :: x in a.items && WellFormed(x)) && ItemTexts(a, xs).Some?
    requires b.Array? && (forall y | y in ys :: y in b.items && WellFormed(y)) && ItemTexts(b, ys).Some?
    requires ItemMeanings(xs) == ItemMeanings(ys)
    ensures ItemTexts(a, xs) == ItemTexts(b, ys)
    decreases a, 0, |xs|
  {
    assert |xs| == |ItemMeanings(xs)| == |ys|;
    if xs != [] {
      var x, y := xs[0], ys[0];
      assert x in xs && y in ys;
      assert MeaningOf(x) == ItemMeanings(xs)[0] == MeaningOf(y);
      assert ItemMeanings(xs[1..]) == ItemMeanings(xs)[1..] == ItemMeanings(ys[1..]);
      SameItems(a, xs[1..], b, ys[1..]);
      SerializeOutcome(x);
      SerializeOutcome(y);
      if Serialize(x).Out? && Serialize(y).Out? {
        SameText(x, y);
      }
    }
  }

  lemma {:induction false} SamePairs(a: Json, fa: seq<Field>, b: Json, fb: seq<Field>)
    requires a.Object? && (forall f | f in fa :: f in a.fields && WellFormed(f.value)) && PairTexts(a, fa).Some?
    requires b.Object? && (forall f | f in fb :: f in b.fields && WellFormed(f.value)) && PairTexts(b, fb).Some?
    requires StrictlySorted(fa) && StrictlySorted(fb) && FieldMeanings(fa) == FieldMeanings(fb)
    ensures PairTexts(a, fa) == PairTexts(b, fb)
    decreases a, 0, |fa| + |fb|
  {
    assert fa != [] && !fa[0].value.Absent? ==> fa[0].key in FieldMeanings(fa);
    assert fb != [] && !fb[0].value.Absent? ==> fb[0].key in FieldMeanings(fb);
    if fa != [] && fa[0].value.Absent? {
      SamePairs(a, fa[1..], b, fb);
    } else if fb != [] && fb[0].value.Absent? {
      SamePairs(a, fa, b, fb[1..]);
    } else if fa != [] && fb != [] {
      assert fa[0] in fa && fb[0] in fb;
      SameHead(fa, fb);
      SamePairs(a, fa[1..], b, fb[1..]);
      SerializeOutcome(fa[0].value);
      SerializeOutcome(fb[0].value);
      SameText(fa[0].value, fb[0].value);
    }
  }

  // ---------------------------------------------------------------- unique decodability

  /** Canonical printing throws exactly on absent values and on trees holding a BigInt or Date. */
  lemma PrintsUnlessRefused(v: Json)
    ensures CanonicalStringify(v).None? <==> v.Absent? || !Supported(v)
  {
    SerializeOutcome(v);
  }

  /** A member that is printed: one with a value, and for the shared printer not one of the two
      non-deterministic keys. */
  predicate IsPrinted(f: Field, shared: bool) {
    !f.value.Absent? && !(shared && (f.key == Lit("createdAt") || f.key == Lit("timestamp")))
  }

  /** What a value reads as once printed: itself, with exactly the printed members at every depth, null
      for an absent item, and for a non-finite number its name (shared printer) or null. */
  predicate ReadsAs(v: Json, r: Json, shared: bool) {
    match v
    case Absent => r == Null
    case Refused => false
    case NonFinite(name) => r == if shared then String(name) else Null
    case Array(items) =>
      r.Array? && |r.items| == |items| && forall i | 0 <= i < |items| :: ReadsAs(items[i], r.items[i], shared)
    case Object(fields) => r.Object? && MembersReadAs(fields, r.fields, shared)
    case _ => r == v
  }

  /** A printed member of that key whose value is what was read. */
  predicate ReadFrom(fields: seq<Field>, f: Field, shared: bool) {
    exists g | g in fields :: g.key == f.key && IsPrinted(g, shared) && ReadsAs(g.value, f.value, shared)
  }

  /** Exactly the printed members, each with its own value. */
  predicate MembersReadAs(fields: seq<Field>, read: seq<Field>, shared: bool) {
    && (forall f | f in read :: ReadFrom(fields, f, shared))
    && (forall g | g in fields && IsPrinted(g, shared) :: exists f | f in read :: f.key == g.key)
  }

  lemma {:induction false} MeaningAt(fields: seq<Field>, g: Field)
    requires DistinctKeys(fields) && g in fields
    ensures g.key in FieldMeanings(fields) <==> !g.value.Absent?
    ensures !g.value.Absent? ==> FieldMeanings(fields)[g.key] == MeaningOf(g.value)
  {
    hide MeaningOf;
    if g == fields[0] {
      MeaningKeys(fields[1..], g.key);
    } else {
      MeaningAt(fields[1..], g);
    }
  }

  /** A plain value with the meaning of `v` is what `v` reads as. */
  lemma {:induction false} MeaningIsReading(v: Json, r: Json)
    requires WellFormed(v) && Supported(v) && Plain(r) && MeaningOf(r) == MeaningOf(v)
    ensures ReadsAs(v, r, false)
    decreases v
  {
    match v
    case Array(items) =>
      forall i | 0 <= i < |items| ensures ReadsAs(items[i], r.items[i], false) {
        assert ItemMeanings(items)[i] == ItemMeanings(r.items)[i];
        MeaningIsReading(items[i], r.items[i]);
      }
    case Object(fields) =>
      forall f | f in r.fields
        ensures ReadFrom(fields, f, false)
      {
        MeaningAt(r.fields, f);
        MeaningKeys(fields, f.key);
        var g :| g in fields && g.key == f.key;
        MeaningAt(fields, g);
        MeaningIsReading(g.value, f.value);
      }
      forall g | g in fields && IsPrinted(g, false) ensures exists f | f in r.fields :: f.key == g.key {
        MeaningAt(fields, g);
        MeaningKeys(r.fields, g.key);
      }
    case _ =>
  }

  /** The reader takes the whole of every printed text: it reads the value itself, with exactly its
      printed members, listed at every depth in ascending order of their keys. */
  lemma ReaderInvertsPrinter(v: Json) returns (r: Json)
    requires WellFormed(v) && CanonicalStringify(v).Some?
    ensures ParseValue(CanonicalStringify(v).value) == Some((r, []))
    ensures ReadsAs(v, r, false) && KeysAscend(r) && MeaningOf(r) == MeaningOf(v) && Plain(r)
  {
    r := ParseInverts(v, []);
    assert Serialize(v).text + [] == Serialize(v).text;
    SerializeOutcome(v);
    MeaningIsReading(v, r);
  }

  /** Equal canonical texts are equal values up to object key order, and conversely. */
  lemma UniquelyDecodable(a: Json, b: Json)
    requires WellFormed(a) && CanonicalStringify(a).Some?
    requires WellFormed(b) && CanonicalStringify(b).Some?
    ensures CanonicalStringify(a) == CanonicalStringify(b) <==> MeaningOf(a) == MeaningOf(b)
  {
    var ra := ReaderInvertsPrinter(a);
    var rb := ReaderInvertsPrinter(b);
    if MeaningOf(a) == MeaningOf(b) {
      SameText(a, b);
    }
  }

  // ---------------------------------------------------------------- canonicalString

  const CREATED_AT: Text := Lit("createdAt")
  const TIMESTAMP: Text := Lit("timestamp")

  predicate Volatile(key: Text) {
    key == CREATED_AT || key == TIMESTAMP
  }

  /** Drops the volatile keys everywhere and names the non-finite numbers. */
  function Strip(v: Json): Json {
    match v
    case NonFinite(name) => String(name)
    case Array(items) => Array(StripItems(items))
    case Object(fields) => Object(StripFields(fields))
    case _ => v
  }

  function StripItems(items: seq<Json>): (r: seq<Json>)
    ensures |r| == |items| && forall i | 0 <= i < |items| :: r[i] == Strip(items[i])
  {
    if items == [] then [] else [Strip(items[0])] + StripItems(items[1..])
  }

  function StripFields(fields: seq<Field>): seq<Field> {
    if fields == [] then []
    else if Volatile(fields[0].key) then StripFields(fields[1..])
    else [Field(fields[0].key, Strip(fields[0].value))] + StripFields(fields[1..])
  }

  lemma {:induction false} StripIsData(v: Json)
    requires IsData(v)
    ensures IsData(Strip(v)) && (Strip(v).Absent? <==> v.Absent?)
    decreases v, 1
  {
    match v
    case Array(items) =>
      forall i | 0 <= i < |items| ensures IsData(Strip(items[i])) {
        StripIsData(items[i]);
      }
    case Object(fields) => StripFieldsIsData(fields);
    case _ =>
  }

  lemma {:induction false} StripFieldsIsData(fields: seq<Field>)
    requires DistinctKeys(fields) && forall f | f in fields :: IsData(f.value)
    ensures DistinctKeys(StripFields(fields))
    ensures forall f | f in StripFields(fields) ::
      IsData(f.value) && !Volatile(f.key) && exists g | g in fields :: g.key == f.key
    decreases fields, 0
  {
    if fields != [] {
      StripIsData(fields[0].value);
      StripFieldsIsData(fields[1..]);
      assert fields[0] in fields;
      forall f | f in StripFields(fields)
        ensures IsData(f.value) && !Volatile(f.key) && exists g | g in fields :: g.key == f.key
      {
        if f in StripFields(fields[1..]) {
          var g :| g in fields[1..] && g.key == f.key;
          assert g in fields;
        }
      }
    }
  }

  /** What a payload is once volatile keys are dropped: the value `canonicalString` preserves. */
  function Essence(v: Json): Meaning {
    MeaningOf(Strip(v))
  }

  /** `canonicalString` of a payload; an absent one has no text. */
  function CanonicalString(v: Payload): Text
    requires !v.Absent?
  {
    StripIsData(v);
    SerializeOutcome(Strip(v));
    Serialize(Strip(v)).text
  }

  /** Two payloads have one canonical string exactly when they differ only in volatile keys and
      in the order of keys. */
  lemma CanonicalStringDecodable(a: Payload, b: Payload)
    requires !a.Absent? && !b.Absent?
    ensures CanonicalString(a) == CanonicalString(b) <==> Essence(a) == Essence(b)
  {
    StripIsData(a);
    StripIsData(b);
    SerializeOutcome(Strip(a));
    SerializeOutcome(Strip(b));
    UniquelyDecodable(Strip(a), Strip(b));
  }

  lemma {:induction false} StrippedMember(fields: seq<Field>, g: Field)
    ensures g in StripFields(fields) <==>
      exists f | f in fields :: !Volatile(f.key) && g == Field(f.key, Strip(f.value))
  {
    hide Volatile, Strip;
    if fields != [] {
      StrippedMember(fields[1..], g);
      assert fields == [fields[0]] + fields[1..];
      if f :| f in fields && !Volatile(f.key) && g == Field(f.key, Strip(f.value)) {
        assert f == fields[0] || f in fields[1..];
      }
    }
  }

  lemma {:induction false} StrippedReading(v: Json, r: Json)
    requires ReadsAs(Strip(v), r, false)
    ensures ReadsAs(v, r, true)
    decreases v, 1
  {
    match v
    case Array(items) =>
      forall i | 0 <= i < |items| ensures ReadsAs(items[i], r.items[i], true) {
        StrippedReading(items[i], r.items[i]);
      }
    case Object(fields) =>
      assert MembersReadAs(StripFields(fields), r.fields, false);
      StrippedMembers(fields, r.fields);
    case _ =>
  }

  lemma {:induction false} StrippedMembers(fields: seq<Field>, read: seq<Field>)
    requires MembersReadAs(StripFields(fields), read, false)
    ensures MembersReadAs(fields, read, true)
    decreases fields, 0
  {
    hide ReadFrom, IsPrinted, ReadsAs, StripFields, Strip;
    forall f | f in read ensures ReadFrom(fields, f, true) {
      var g := StripOrigin(fields, read, f);
      StrippedReading(g.value, f.value);
      ReadFromOne(fields, f, g);
    }
    forall g | g in fields && IsPrinted(g, true) ensures exists f | f in read :: f.key == g.key {
      StripTarget(fields, read, g);
    }
  }

  lemma ReadFromOne(fields: seq<Field>, f: Field, g: Field)
    requires g in fields && g.key == f.key && IsPrinted(g, true) && ReadsAs(g.value, f.value, true)
    ensures ReadFrom(fields, f, true)
  {
  }

  lemma StripOrigin(fields: seq<Field>, read: seq<Field>, f: Field) returns (g: Field)
    requires MembersReadAs(StripFields(fields), read, false) && f in read
    ensures g in fields && g.key == f.key && IsPrinted(g, true) && ReadsAs(Strip(g.value), f.value, false)
  {
    hide ReadsAs, Strip, StripFields, IsPrinted;
    var h :| h in StripFields(fields) && h.key == f.key && IsPrinted(h, false) && ReadsAs(h.value, f.value, false);
    StrippedMember(fields, h);
    g :| g in fields && !Volatile(g.key) && h == Field(g.key, Strip(g.value));
    PrintedWhenStripped(g);
  }

  lemma StripTarget(fields: seq<Field>, read: seq<Field>, g: Field)
    requires MembersReadAs(StripFields(fields), read, false) && g in fields && IsPrinted(g, true)
    ensures exists f | f in read :: f.key == g.key
  {
    hide ReadsAs, Strip, StripFields, IsPrinted;
    var h := Field(g.key, Strip(g.value));
    PrintedWhenStripped(g);
    StrippedMember(fields, h);
    assert h in StripFields(fields) && IsPrinted(h, false);
  }

  /** The shared printer prints a member exactly when the key is kept and its stripped value printed. */
  lemma PrintedWhenStripped(g: Field)
    ensures IsPrinted(g, true) <==> !Volatile(g.key) && IsPrinted(Field(g.key, Strip(g.value)), false)
  {
  }

  /** What `canonicalString` prints reads back as the payload without its members named createdAt and
      timestamp, at every depth, every other member kept. */
  lemma CanonicalStringReads(v: Payload) returns (r: Json)
    requires !v.Absent?
    ensures ParseValue(CanonicalString(v)) == Some((r, [])) && ReadsAs(v, r, true) && KeysAscend(r)
    ensures MeaningOf(r) == Essence(v)
  {
    StripIsData(v);
    SerializeOutcome(Strip(v));
    r := ReaderInvertsPrinter(Strip(v));
    StrippedReading(v, r);
  }
}
