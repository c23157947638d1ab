/** The canonical texts that stand for transactions: sizes on the wire, replication hashes and
    state digests.  SHA-256 is taken to be injective, so a digest is kept as its text. */
module Digest {
  import opened Texts
  import opened Json
  import opened JsonParser
  import opened Canonical
  import opened EventLog
  import opened Utf8

  const TX_ID: Text := Lit("txId")
  const META_EVENTS: Text := Lit("metaEvents")
  const GRAPH_EVENTS: Text := Lit("graphEvents")
  const GRAPH_SPACE_ID: Text := Lit("graphSpaceId")
  const TX_BUNDLE: Text := Lit("txBundle")
  const PRINCIPAL_ID: Text := Lit("principalId")
  const PRINCIPAL_CURSOR: Text := Lit("principalCursor")
  const CURSOR: Text := Lit("cursor")
  const TXS: Text := Lit("txs")
  const STREAM: Text := Lit("stream")
  const SEQ: Text := Lit("seq")
  const EVENT_ID: Text := Lit("eventId")
  const PAYLOAD: Text := Lit("payload")

  // ---------------------------------------------------------------- objects with literal keys

  /** Keys that are distinct and survive stripping. */
  predicate PlainKeys(fields: seq<Field>) {
    DistinctKeys(fields) && forall f | f in fields :: !Volatile(f.key) && IsData(f.value) && !f.value.Absent?
  }

  lemma PlainTail(fields: seq<Field>)
    requires PlainKeys(fields) && fields != []
    ensures PlainKeys(fields[1..]) && fields[0].key !in FieldMeanings(StripFields(fields[1..]))
    ensures FieldMeanings(StripFields(fields)) ==
      FieldMeanings(StripFields(fields[1..]))[fields[0].key := Essence(fields[0].value)]
  {
    var f, rest := fields[0], fields[1..];
    assert f in fields;
    assert forall g | g in rest :: g in fields;
    StripIsData(f.value);
    StripFieldsIsData(rest);
    MeaningKeys(StripFields(rest), f.key);
    MeaningOfCons(Field(f.key, Strip(f.value)), StripFields(rest));
  }

  lemma {:induction false} PlainFieldsAgree(a: seq<Field>, b: seq<Field>)
    requires PlainKeys(a) && PlainKeys(b) && |a| == |b| && forall i | 0 <= i < |a| :: a[i].key == b[i].key
    ensures FieldMeanings(StripFields(a)) == FieldMeanings(StripFields(b)) <==>
            forall i | 0 <= i < |a| :: Essence(a[i].value) == Essence(b[i].value)
  {
    if a != [] {
      hide FieldMeanings, StripFields, Essence, PlainKeys;
      PlainTail(a);
      PlainTail(b);
      PlainFieldsAgree(a[1..], b[1..]);
      PutAgree(FieldMeanings(StripFields(a[1..])), FieldMeanings(StripFields(b[1..])), a[0].key, Essence(a[0].value),
        Essence(b[0].value));
      MembersAgreeSplit(a, b);
    }
  }

  lemma PutAgree<V>(ra: map<Text, V>, rb: map<Text, V>, k: Text, va: V, vb: V)
    requires k !in ra && k !in rb
    ensures ra[k := va] == rb[k := vb] <==> va == vb && ra == rb
  {
    var ma, mb := ra[k := va], rb[k := vb];
    assert ra == ma - {k} && rb == mb - {k};
    if ma == mb {
      assert ma[k] == mb[k];
    }
  }

  lemma MembersAgreeSplit(a: seq<Field>, b: seq<Field>)
    requires |a| == |b| > 0
    ensures (forall i | 0 <= i < |a| :: Essence(a[i].value) == Essence(b[i].value)) <==>
            Essence(a[0].value) == Essence(b[0].value) &&
            forall i | 0 <= i < |a[1..]| :: Essence(a[1..][i].value) == Essence(b[1..][i].value)
  {
    hide Essence;
    if forall i | 0 <= i < |a[1..]| :: Essence(a[1..][i].value) == Essence(b[1..][i].value) {
      forall i | 1 <= i < |a| ensures Essence(a[i].value) == Essence(b[i].value) {
        assert a[i] == a[1..][i - 1] && b[i] == b[1..][i - 1];
      }
    }
  }

  /** Two plain objects with the same keys in the same order have one canonical string exactly
      when they agree member by member. */
  lemma PlainObjectsAgree(a: seq<Field>, b: seq<Field>)
    requires PlainKeys(a) && PlainKeys(b) && |a| == |b| && forall i | 0 <= i < |a| :: a[i].key == b[i].key
    ensures Essence(Object(a)) == Essence(Object(b)) <==>
      forall i | 0 <= i < |a| :: Essence(a[i].value) == Essence(b[i].value)
  {
    PlainFieldsAgree(a, b);
  }

  lemma EssenceOfArray(xs: seq<Json>, ys: seq<Json>)
    ensures Essence(Array(xs)) == Essence(Array(ys)) <==>
      |xs| == |ys| && forall i | 0 <= i < |xs| :: Essence(xs[i]) == Essence(ys[i])
  {
    var mx, my := ItemMeanings(StripItems(xs)), ItemMeanings(StripItems(ys));
    assert Essence(Array(xs)) == MArray(mx) && Essence(Array(ys)) == MArray(my);
    assert forall i | 0 <= i < |xs| :: mx[i] == Essence(xs[i]);
    assert forall i | 0 <= i < |ys| :: my[i] == Essence(ys[i]);
    if mx == my {
      forall i | 0 <= i < |xs| ensures Essence(xs[i]) == Essence(ys[i]) {
        assert mx[i] == my[i];
      }
    }
  }

  lemma EssenceOfString(a: Text, b: Text)
    ensures Essence(String(a)) == Essence(String(b)) <==> a == b
  {
    assert Essence(String(a)) == MString(a) && Essence(String(b)) == MString(b);
  }

  // ---------------------------------------------------------------- bundles

  function BundleFields(b: TxBundle): (fields: seq<Field>)
    ensures |fields| == 3 && PlainKeys(fields)
  {
    LiteralKeysDiffer();
    [Field(TX_ID, String(b.txId)), Field(META_EVENTS, Array(b.metaEvents)), Field(GRAPH_EVENTS, Array(b.graphEvents))]
  }

  lemma LiteralKeysDiffer()
    ensures |TX_ID| == 4 && |META_EVENTS| == 10 && |GRAPH_EVENTS| == 11 && |GRAPH_SPACE_ID| == 12 && |TX_BUNDLE| == 8
    ensures |PRINCIPAL_ID| == 11 && |PRINCIPAL_CURSOR| == 15 && |CURSOR| == 6 && |TXS| == 3
    ensures |CREATED_AT| == 9 && |TIMESTAMP| == 9
    ensures |STREAM| == 6 && |SEQ| == 3 && |EVENT_ID| == |PAYLOAD| == 7 && EVENT_ID[0] != PAYLOAD[0]
  {
  }

  function BundleJson(b: TxBundle): (v: Payload)
    ensures v.Object?
  {
    Object(BundleFields(b))
  }

  /** Same id, same number of events, and each event the same up to volatile keys and key order. */
  ghost predicate SamePayloads(a: seq<Payload>, b: seq<Payload>) {
    |a| == |b| && forall i | 0 <= i < |a| :: Essence(a[i]) == Essence(b[i])
  }

  ghost predicate SameBundle(a: TxBundle, b: TxBundle) {
    a.txId == b.txId && SamePayloads(a.metaEvents, b.metaEvents) && SamePayloads(a.graphEvents, b.graphEvents)
  }

  lemma BundleEssence(a: TxBundle, b: TxBundle)
    ensures Essence(BundleJson(a)) == Essence(BundleJson(b)) <==> SameBundle(a, b)
  {
    hide Essence, PlainKeys, TX_ID, META_EVENTS, GRAPH_EVENTS;
    var fa, fb := BundleFields(a), BundleFields(b);
    PlainObjectsAgree(fa, fb);
    EssenceOfString(a.txId, b.txId);
    EssenceOfArray(a.metaEvents, b.metaEvents);
    EssenceOfArray(a.graphEvents, b.graphEvents);
    if forall i | 0 <= i < 3 :: Essence(fa[i].value) == Essence(fb[i].value) {
      assert Essence(fa[0].value) == Essence(fb[0].value);
      assert Essence(fa[1].value) == Essence(fb[1].value) && Essence(fa[2].value) == Essence(fb[2].value);
    }
  }

  // ---------------------------------------------------------------- sizes

  /** `canonicalString(txBundle)`. */
  function BundleText(b: TxBundle): Text {
    CanonicalString(BundleJson(b))
  }

  /** The bytes a bundle takes on the wire. */
  function BundleBytes(b: TxBundle): nat {
    |Encode(BundleText(b))|
  }

  /** As the gateway counts them. */
  function BundleSize(b: TxBundle): (n: nat)
    ensures n == BundleBytes(b)
  {
    EncodedLength(BundleText(b));
    Utf8Length(BundleText(b))
  }

  function StreamText(s: Stream): Text { if s.Meta? then Lit("meta") else Lit("graph") }

  function EventIdText(id: EventId): Text {
    id.txId + (if id.stream.Meta? then Lit("-m-") else Lit("-g-")) + Decimal(id.ordinal)
  }

  function EnvelopeFields(space: Text, e: EventEnvelope): (fields: seq<Field>)
    ensures |fields| == 6 && DistinctKeys(fields) && forall f | f in fields :: IsData(f.value)
  {
    LiteralKeysDiffer();
    [Field(GRAPH_SPACE_ID, String(space)), Field(STREAM, String(StreamText(e.stream))),
     Field(SEQ, JsonInt(e.seqNo)), Field(TX_ID, String(e.txId)),
     Field(EVENT_ID, String(EventIdText(e.eventId))), Field(PAYLOAD, e.payload)]
  }

  function JsonInt(n: int): (v: Payload)
    ensures v == Number(Decimal(n))
  {
    DecimalIsNumber(n);
    Number(Decimal(n))
  }

  lemma DecimalIsNumber(n: int)
    ensures NumberText(Decimal(n))
  {
    var t := Decimal(n);
    if n < 0 {
      assert t[1..] == Digits(-n);
      forall u | u in t ensures NumberUnit(u) {
        assert u == t[0] || u in t[1..];
      }
    } else {
      assert t[0] in t;
    }
  }

  function EnvelopeJson(space: Text, e: EventEnvelope): (v: Payload)
    ensures v.Object?
  {
    Object(EnvelopeFields(space, e))
  }

  /** A run of envelopes printed as one array. */
  function EventsText(space: Text, es: seq<EventEnvelope>): Text {
    var items: seq<Payload> := seq(|es|, i requires 0 <= i < |es| => EnvelopeJson(space, es[i]));
    CanonicalString(Array(items))
  }

  /** The bytes a run of envelopes takes on the wire. */
  function EventsBytes(space: Text, es: seq<EventEnvelope>): nat {
    |Encode(EventsText(space, es))|
  }

  /** As the gateway counts them. */
  function EventsSize(space: Text, es: seq<EventEnvelope>): (n: nat)
    ensures n == EventsBytes(space, es)
  {
    EncodedLength(EventsText(space, es));
    Utf8Length(EventsText(space, es))
  }

  // ---------------------------------------------------------------- replication hashes

  function EnvelopeHashFields(space: Text, b: TxBundle): (fields: seq<Field>)
    ensures |fields| == 2 && PlainKeys(fields)
  {
    LiteralKeysDiffer();
    [Field(GRAPH_SPACE_ID, String(space)), Field(TX_BUNDLE, BundleJson(b))]
  }

  /** `canonicalString({ graphSpaceId, txBundle })`, the hash replicated bundles carry. */
  function CanonicalHash(space: Text, b: TxBundle): Text {
    CanonicalString(Object(EnvelopeHashFields(space, b)))
  }

  /** The payload hash of a replicated append. */
  function BundleHash(b: TxBundle): Text {
    BundleText(b)
  }

  /** Payload hashes of replicated appends are equal exactly for bundles equal up to volatile keys. */
  lemma BundleHashesAgree(a: TxBundle, b: TxBundle)
    ensures BundleHash(a) == BundleHash(b) <==> SameBundle(a, b)
  {
    hide CanonicalString, BundleJson, Essence;
    CanonicalStringDecodable(BundleJson(a), BundleJson(b));
    BundleEssence(a, b);
  }

  /** Replication hashes are equal exactly for equal spaces and bundles equal up to volatile keys. */
  lemma HashesAgree(spaceA: Text, a: TxBundle, spaceB: Text, b: TxBundle)
    ensures CanonicalHash(spaceA, a) == CanonicalHash(spaceB, b) <==> spaceA == spaceB && SameBundle(a, b)
  {
    hide CanonicalString, BundleJson, Essence, GRAPH_SPACE_ID, TX_BUNDLE;
    var fa, fb := EnvelopeHashFields(spaceA, a), EnvelopeHashFields(spaceB, b);
    CanonicalStringDecodable(Object(fa), Object(fb));
    PlainObjectsAgree(fa, fb);
    BundleEssence(a, b);
    EssenceOfString(spaceA, spaceB);
    if forall i | 0 <= i < 2 :: Essence(fa[i].value) == Essence(fb[i].value) {
      assert Essence(fa[0].value) == Essence(fb[0].value) && Essence(fa[1].value) == Essence(fb[1].value);
    }
  }

  // ---------------------------------------------------------------- state digests

  /** A bundle with the visible rank a gateway gave it; hostile frames may carry any rank. */
  datatype VisibleTxBundle = VisibleTxBundle(principalCursor: int, txBundle: TxBundle)

  function EntryFields(e: VisibleTxBundle): (fields: seq<Field>)
    ensures |fields| == 2 && PlainKeys(fields)
  {
    LiteralKeysDiffer();
    [Field(PRINCIPAL_CURSOR, JsonInt(e.principalCursor)), Field(TX_BUNDLE, BundleJson(e.txBundle))]
  }

  function EntryJson(e: VisibleTxBundle): (v: Payload)
    ensures v.Object?
  {
    Object(EntryFields(e))
  }

  function DumpEntries(state: seq<VisibleTxBundle>): (items: seq<Payload>)
    ensures |items| == |state| && forall i | 0 <= i < |state| :: items[i] == EntryJson(state[i])
  {
    if state == [] then [] else [EntryJson(state[0])] + DumpEntries(state[1..])
  }

  lemma DumpIsPlain(principal: Text, space: Text, cursor: Payload, items: seq<Payload>)
    requires !cursor.Absent?
    ensures PlainKeys([Field(PRINCIPAL_ID, String(principal)), Field(GRAPH_SPACE_ID, String(space)),
      Field(CURSOR, cursor), Field(TXS, Array(items))])
  {
    LiteralKeysDiffer();
    hide Lit;
    assert IsData(String(principal)) && IsData(String(space)) && IsData(Array(items));
    FourPlain(Field(PRINCIPAL_ID, String(principal)), Field(GRAPH_SPACE_ID, String(space)), Field(CURSOR, cursor),
      Field(TXS, Array(items)));
  }

  lemma FourPlain(a: Field, b: Field, c: Field, d: Field)
    requires a.key != b.key && a.key != c.key && a.key != d.key && b.key != c.key && b.key != d.key && c.key != d.key
    requires forall f | f in [a, b, c, d] :: !Volatile(f.key) && IsData(f.value) && !f.value.Absent?
    ensures PlainKeys([a, b, c, d])
  {
  }

  function DumpFields(principal: Text, space: Text, cursor: int, state: seq<VisibleTxBundle>): (fields: seq<Field>)
    ensures |fields| == 4 && PlainKeys(fields)
  {
    DumpIsPlain(principal, space, JsonInt(cursor), DumpEntries(state));
    [Field(PRINCIPAL_ID, String(principal)), Field(GRAPH_SPACE_ID, String(space)),
     Field(CURSOR, JsonInt(cursor)), Field(TXS, Array(DumpEntries(state)))]
  }

  /** `computeCanonicalStateDigest`: the digest of a client state at a cursor. */
  function StateDigest(principal: Text, space: Text, state: seq<VisibleTxBundle>, cursor: int): Text {
    CanonicalString(Object(DumpFields(principal, space, cursor, state)))
  }

  ghost predicate SameEntry(a: VisibleTxBundle, b: VisibleTxBundle) {
    a.principalCursor == b.principalCursor && SameBundle(a.txBundle, b.txBundle)
  }

  ghost predicate SameState(a: seq<VisibleTxBundle>, b: seq<VisibleTxBundle>) {
    |a| == |b| && forall i | 0 <= i < |a| :: SameEntry(a[i], b[i])
  }

  lemma IntEssence(m: int, n: int)
    ensures Essence(JsonInt(m)) == Essence(JsonInt(n)) <==> m == n
  {
    assert Essence(JsonInt(m)) == MNumber(Decimal(m)) && Essence(JsonInt(n)) == MNumber(Decimal(n));
    if Decimal(m) == Decimal(n) {
      DecimalInjective(m, n);
    }
  }

  lemma EntryEssence(a: VisibleTxBundle, b: VisibleTxBundle)
    ensures Essence(EntryJson(a)) == Essence(EntryJson(b)) <==> SameEntry(a, b)
  {
    hide BundleJson, Essence, JsonInt;
    var fa, fb := EntryFields(a), EntryFields(b);
    PlainObjectsAgree(fa, fb);
    IntEssence(a.principalCursor, b.principalCursor);
    BundleEssence(a.txBundle, b.txBundle);
    if forall i | 0 <= i < 2 :: Essence(fa[i].value) == Essence(fb[i].value) {
      assert Essence(fa[0].value) == Essence(fb[0].value) && Essence(fa[1].value) == Essence(fb[1].value);
    }
  }

  lemma DumpEntriesAgree(a: seq<VisibleTxBundle>, b: seq<VisibleTxBundle>)
    ensures Essence(Array(DumpEntries(a))) == Essence(Array(DumpEntries(b))) <==> SameState(a, b)
  {
    hide EntryJson, Essence, SameEntry;
    EssenceOfArray(DumpEntries(a), DumpEntries(b));
    forall i | 0 <= i < |a| && i < |b|
      ensures Essence(DumpEntries(a)[i]) == Essence(DumpEntries(b)[i]) <==> SameEntry(a[i], b[i])
    {
      EntryEssence(a[i], b[i]);
    }
  }

  /** Two digests of one principal and space agree exactly when the cursors are equal and the
      states hold the same transactions at the same ranks. */
  lemma DigestsAgree(principal: Text, space: Text, a: seq<VisibleTxBundle>, cursorA: int, b: seq<VisibleTxBundle>,
      cursorB: int)
    ensures StateDigest(principal, space, a, cursorA) == StateDigest(principal, space, b, cursorB) <==>
            cursorA == cursorB && SameState(a, b)
  {
    hide CanonicalString, EntryJson, JsonInt, Essence, DumpEntries, SameState, PRINCIPAL_ID, GRAPH_SPACE_ID, CURSOR,
      TXS;
    var fa, fb := DumpFields(principal, space, cursorA, a), DumpFields(principal, space, cursorB, b);
    CanonicalStringDecodable(Object(fa), Object(fb));
    PlainObjectsAgree(fa, fb);
    IntEssence(cursorA, cursorB);
    DumpEntriesAgree(a, b);
    EssenceOfString(principal, principal);
    if forall i | 0 <= i < 4 :: Essence(fa[i].value) == Essence(fb[i].value) {
      assert Essence(fa[2].value) == Essence(fb[2].value) && Essence(fa[3].value) == Essence(fb[3].value);
    }
  }
}
