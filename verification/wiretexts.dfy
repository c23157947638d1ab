/** What the texts whose bytes are counted say: read back, they list the very transactions and
    envelopes, under the names the wire uses. */
module WireTexts {
  import opened Texts
  import opened Json
  import opened JsonParser
  import opened Canonical
  import opened EventLog
  import opened Digest
  import opened Utf8

  /** A member read under a key. */
  ghost predicate Holds(r: Json, key: Text, value: Json) {
    r.Object? && Field(key, value) in r.fields
  }

  /** A member read under a key, stripped; nothing for an absent payload. */
  ghost predicate HoldsPayload(r: Json, key: Text, payload: Payload) {
    r.Object? && if payload.Absent? then forall f | f in r.fields :: f.key != key
                 else exists y :: Field(key, y) in r.fields && ReadsAs(payload, y, true)
  }

  ghost predicate PayloadsReadAs(payloads: seq<Payload>, ys: seq<Json>) {
    |ys| == |payloads| && forall i | 0 <= i < |ys| :: ReadsAs(payloads[i], ys[i], true)
  }

  /** Payload by payload; an absent one reads as null. */
  ghost predicate HoldsPayloads(r: Json, key: Text, payloads: seq<Payload>) {
    r.Object? && exists ys :: Field(key, Array(ys)) in r.fields && PayloadsReadAs(payloads, ys)
  }

  ghost predicate OnlyKeys(r: Json, keys: set<Text>) {
    r.Object? && forall f | f in r.fields :: f.key in keys
  }

  /** A bundle as it reads on the wire. */
  ghost predicate IsBundle(r: Json, b: TxBundle) {
    && Holds(r, Lit("txId"), String(b.txId))
    && HoldsPayloads(r, Lit("metaEvents"), b.metaEvents) && HoldsPayloads(r, Lit("graphEvents"), b.graphEvents)
    && OnlyKeys(r, {Lit("txId"), Lit("metaEvents"), Lit("graphEvents")})
  }

  /** An envelope as it reads on the wire: its place in its stream in decimal digits, its id made of its
      transaction's, its stream's letter and its place in the transaction, and its payload. */
  ghost predicate IsEnvelope(r: Json, space: Text, e: EventEnvelope) {
    && Holds(r, Lit("graphSpaceId"), String(space))
    && Holds(r, Lit("stream"), String(if e.stream == Meta then Lit("meta") else Lit("graph")))
    && Holds(r, Lit("seq"), Number(Digits(e.seqNo)))
    && Holds(r, Lit("txId"), String(e.txId))
    && Holds(r, Lit("eventId"), String(e.eventId.txId
         + (if e.eventId.stream == Meta then Lit("-m-") else Lit("-g-")) + Digits(e.eventId.ordinal)))
    && HoldsPayload(r, Lit("payload"), e.payload)
    && OnlyKeys(r, {Lit("graphSpaceId"), Lit("stream"), Lit("seq"), Lit("txId"), Lit("eventId"), Lit("payload")})
  }

  /** A member that is printed is read. */
  lemma MemberIsRead(fields: seq<Field>, r: Json, g: Field) returns (y: Json)
    requires DistinctKeys(fields) && ReadsAs(Object(fields), r, true) && g in fields && IsPrinted(g, true)
    ensures r.Object? && Field(g.key, y) in r.fields && ReadsAs(g.value, y, true)
  {
    var f :| f in r.fields && f.key == g.key;
    assert ReadFrom(fields, f, true);
    var h :| h in fields && h.key == f.key && IsPrinted(h, true) && ReadsAs(h.value, f.value, true);
    assert h == g;
    y := f.value;
    assert f == Field(g.key, y);
  }

  lemma StringReads(s: Text, y: Json)
    requires ReadsAs(String(s), y, true)
    ensures y == String(s)
  {
  }

  lemma NumberReads(n: Text, y: Json)
    requires ReadsAs(Number(n), y, true)
    ensures y == Number(n)
  {
  }

  lemma PayloadsRead(r: Json, key: Text, payloads: seq<Payload>, y: Json)
    requires r.Object? && Field(key, y) in r.fields && ReadsAs(Array(payloads), y, true)
    ensures HoldsPayloads(r, key, payloads)
  {
    assert y == Array(y.items) && PayloadsReadAs(payloads, y.items);
  }

  lemma KeysRead(fields: seq<Field>, r: Json, keys: set<Text>)
    requires ReadsAs(Object(fields), r, true) && forall f | f in fields :: f.key in keys
    ensures OnlyKeys(r, keys)
  {
    hide IsPrinted;
    forall f | f in r.fields ensures f.key in keys {
      assert ReadFrom(fields, f, true);
      var g :| g in fields && g.key == f.key && IsPrinted(g, true) && ReadsAs(g.value, f.value, true);
    }
  }

  lemma BundleReadsAs(b: TxBundle, r: Json)
    requires ReadsAs(BundleJson(b), r, true)
    ensures IsBundle(r, b)
  {
    hide ReadsAs;
    LiteralKeysDiffer();
    var fields := BundleFields(b);
    var id := MemberIsRead(fields, r, fields[0]);
    StringReads(b.txId, id);
    var meta := MemberIsRead(fields, r, fields[1]);
    PayloadsRead(r, META_EVENTS, b.metaEvents, meta);
    var graph := MemberIsRead(fields, r, fields[2]);
    PayloadsRead(r, GRAPH_EVENTS, b.graphEvents, graph);
    KeysRead(fields, r, {Lit("txId"), Lit("metaEvents"), Lit("graphEvents")});
  }

  /** The text whose bytes count for a bundle reads back as that bundle. */
  lemma BundleTextReads(b: TxBundle) returns (r: Json)
    ensures Decode(Encode(BundleText(b))) == Some(BundleText(b))
    ensures ParseValue(BundleText(b)) == Some((r, [])) && IsBundle(r, b)
  {
    r := CanonicalStringReads(BundleJson(b));
    BundleReadsAs(b, r);
    TextDecodes(BundleJson(b));
  }

  /** The bytes of a canonical string decode to it. */
  lemma TextDecodes(v: Payload)
    requires !v.Absent?
    ensures Decode(Encode(CanonicalString(v))) == Some(CanonicalString(v))
  {
    StripIsData(v);
    SerializeOutcome(Strip(v));
    PrintedIsPaired(Strip(v));
    DecodeInverts(CanonicalString(v));
  }

  lemma StringIsRead(fields: seq<Field>, r: Json, key: Text, value: Text)
    requires DistinctKeys(fields) && ReadsAs(Object(fields), r, true) && Field(key, String(value)) in fields
    requires !Volatile(key)
    ensures Holds(r, key, String(value))
  {
    var y := MemberIsRead(fields, r, Field(key, String(value)));
    StringReads(value, y);
  }

  lemma NumberIsRead(fields: seq<Field>, r: Json, key: Text, n: Text)
    requires DistinctKeys(fields) && ReadsAs(Object(fields), r, true) && Field(key, Number(n)) in fields
    requires !Volatile(key)
    ensures Holds(r, key, Number(n))
  {
    var y := MemberIsRead(fields, r, Field(key, Number(n)));
    NumberReads(n, y);
  }

  lemma EnvelopeReadsAs(space: Text, e: EventEnvelope, r: Json)
    requires ReadsAs(EnvelopeJson(space, e), r, true)
    ensures IsEnvelope(r, space, e)
  {
    hide ReadsAs, Digits, HoldsPayload, Holds, OnlyKeys;
    EnvelopeKeys(space, e);
    var fields := EnvelopeFields(space, e);
    StringIsRead(fields, r, GRAPH_SPACE_ID, space);
    StringIsRead(fields, r, STREAM, StreamText(e.stream));
    NumberIsRead(fields, r, SEQ, Decimal(e.seqNo));
    StringIsRead(fields, r, TX_ID, e.txId);
    StringIsRead(fields, r, EVENT_ID, EventIdText(e.eventId));
    PayloadReads(fields, r, e.payload);
    KeysRead(fields, r, {Lit("graphSpaceId"), Lit("stream"), Lit("seq"), Lit("txId"), Lit("eventId"), Lit("payload")});
  }

  lemma EnvelopeKeys(space: Text, e: EventEnvelope)
    ensures var fields := EnvelopeFields(space, e);
      && Field(GRAPH_SPACE_ID, String(space)) in fields && Field(STREAM, String(StreamText(e.stream))) in fields
      && Field(SEQ, Number(Decimal(e.seqNo))) in fields && Field(TX_ID, String(e.txId)) in fields
      && Field(EVENT_ID, String(EventIdText(e.eventId))) in fields && Field(PAYLOAD, e.payload) in fields
      && (forall f | f in fields :: f.key in {GRAPH_SPACE_ID, STREAM, SEQ, TX_ID, EVENT_ID, PAYLOAD})
    ensures forall k | k in {GRAPH_SPACE_ID, STREAM, SEQ, TX_ID, EVENT_ID, PAYLOAD} :: !Volatile(k)
  {
    LiteralKeysDiffer();
    var fields := EnvelopeFields(space, e);
    assert fields[0] in fields && fields[1] in fields && fields[2] in fields;
    assert fields[3] in fields && fields[4] in fields && fields[5] in fields;
  }

  lemma PayloadReads(fields: seq<Field>, r: Json, payload: Payload)
    requires DistinctKeys(fields) && ReadsAs(Object(fields), r, true) && Field(PAYLOAD, payload) in fields
    ensures HoldsPayload(r, Lit("payload"), payload)
  {
    hide ReadsAs;
    LiteralKeysDiffer();
    if payload.Absent? {
      AbsentIsNotRead(fields, r, Field(PAYLOAD, payload));
    } else {
      var y := MemberIsRead(fields, r, Field(PAYLOAD, payload));
    }
  }

  lemma AbsentIsNotRead(fields: seq<Field>, r: Json, g: Field)
    requires DistinctKeys(fields) && ReadsAs(Object(fields), r, true) && g in fields && g.value.Absent?
    ensures r.Object? && forall f | f in r.fields :: f.key != g.key
  {
    forall f | f in r.fields ensures f.key != g.key {
      assert ReadFrom(fields, f, true);
      var h :| h in fields && h.key == f.key && IsPrinted(h, true) && ReadsAs(h.value, f.value, true);
    }
  }

  /** The text whose bytes count for a run of envelopes reads back as the array of those envelopes, in
      order. */
  lemma EventsTextReads(space: Text, es: seq<EventEnvelope>) returns (rs: seq<Json>)
    ensures Decode(Encode(EventsText(space, es))) == Some(EventsText(space, es))
    ensures ParseValue(EventsText(space, es)) == Some((Array(rs), []))
    ensures |rs| == |es| && forall i | 0 <= i < |es| :: IsEnvelope(rs[i], space, es[i])
  {
    hide CanonicalString, IsEnvelope, Decode;
    var items: seq<Payload> := seq(|es|, i requires 0 <= i < |es| => EnvelopeJson(space, es[i]));
    var v: Payload := Array(items);
    var r := CanonicalStringReads(v);
    TextDecodes(v);
    rs := r.items;
    forall i | 0 <= i < |es| ensures IsEnvelope(rs[i], space, es[i]) {
      assert ReadsAs(items[i], rs[i], true);
      EnvelopeReadsAs(space, es[i], rs[i]);
    }
  }

  // ---------------------------------------------------------------- hashes and digests

  lemma ObjectIsRead(fields: seq<Field>, r: Json, key: Text, value: Json) returns (y: Json)
    requires DistinctKeys(fields) && ReadsAs(Object(fields), r, true) && Field(key, value) in fields
    requires !Volatile(key) && !value.Absent?
    ensures r.Object? && Field(key, y) in r.fields && ReadsAs(value, y, true)
  {
    y := MemberIsRead(fields, r, Field(key, value));
  }

  /** The text a replicated bundle's hash is taken of names the space and the bundle. */
  lemma HashTextReads(space: Text, b: TxBundle) returns (r: Json, bundle: Json)
    ensures ParseValue(CanonicalHash(space, b)) == Some((r, []))
    ensures Holds(r, Lit("graphSpaceId"), String(space)) && Holds(r, Lit("txBundle"), bundle) && IsBundle(bundle, b)
    ensures OnlyKeys(r, {Lit("graphSpaceId"), Lit("txBundle")})
  {
    hide ReadsAs, IsBundle;
    LiteralKeysDiffer();
    var fields := EnvelopeHashFields(space, b);
    r := CanonicalStringReads(Object(fields));
    assert fields[0] in fields && fields[1] in fields;
    StringIsRead(fields, r, GRAPH_SPACE_ID, space);
    bundle := ObjectIsRead(fields, r, TX_BUNDLE, BundleJson(b));
    BundleReadsAs(b, bundle);
    KeysRead(fields, r, {Lit("graphSpaceId"), Lit("txBundle")});
  }

  /** An entry of a state as it reads in a digest's text. */
  ghost predicate IsEntry(r: Json, e: VisibleTxBundle) {
    && Holds(r, Lit("principalCursor"), Number(Decimal(e.principalCursor)))
    && (exists bundle :: Holds(r, Lit("txBundle"), bundle) && IsBundle(bundle, e.txBundle))
    && OnlyKeys(r, {Lit("principalCursor"), Lit("txBundle")})
  }

  lemma EntryReadsAs(e: VisibleTxBundle, r: Json)
    requires ReadsAs(EntryJson(e), r, true)
    ensures IsEntry(r, e)
  {
    hide ReadsAs, IsBundle, Decimal;
    LiteralKeysDiffer();
    var fields := EntryFields(e);
    assert fields[0] in fields && fields[1] in fields;
    NumberIsRead(fields, r, PRINCIPAL_CURSOR, Decimal(e.principalCursor));
    var bundle := ObjectIsRead(fields, r, TX_BUNDLE, BundleJson(e.txBundle));
    BundleReadsAs(e.txBundle, bundle);
    assert Holds(r, Lit("txBundle"), bundle);
    KeysRead(fields, r, {Lit("principalCursor"), Lit("txBundle")});
  }

  /** The text a state digest is taken of names the principal, the space, the cursor and the entries, in
      order. */
  lemma DigestTextReads(principal: Text, space: Text, state: seq<VisibleTxBundle>, cursor: int)
    returns (r: Json, entries: seq<Json>)
    ensures ParseValue(StateDigest(principal, space, state, cursor)) == Some((r, []))
    ensures Holds(r, Lit("principalId"), String(principal)) && Holds(r, Lit("graphSpaceId"), String(space))
    ensures Holds(r, Lit("cursor"), Number(Decimal(cursor))) && Holds(r, Lit("txs"), Array(entries))
    ensures |entries| == |state| && forall i | 0 <= i < |state| :: IsEntry(entries[i], state[i])
    ensures OnlyKeys(r, {Lit("principalId"), Lit("graphSpaceId"), Lit("cursor"), Lit("txs")})
  {
    r := CanonicalStringReads(Object(DumpFields(principal, space, cursor, state)));
    hide ReadsAs, IsEntry, Decimal, CanonicalString, OnlyKeys;
    entries := DumpReads(principal, space, state, cursor, r);
  }

  lemma DumpReads(principal: Text, space: Text, state: seq<VisibleTxBundle>, cursor: int, r: Json)
    returns (entries: seq<Json>)
    requires ReadsAs(Object(DumpFields(principal, space, cursor, state)), r, true)
    ensures Holds(r, Lit("principalId"), String(principal)) && Holds(r, Lit("graphSpaceId"), String(space))
    ensures Holds(r, Lit("cursor"), Number(Decimal(cursor))) && Holds(r, Lit("txs"), Array(entries))
    ensures |entries| == |state| && forall i | 0 <= i < |state| :: IsEntry(entries[i], state[i])
    ensures OnlyKeys(r, {Lit("principalId"), Lit("graphSpaceId"), Lit("cursor"), Lit("txs")})
  {
    hide ReadsAs, IsEntry, Decimal, OnlyKeys;
    LiteralKeysDiffer();
    var fields := DumpFields(principal, space, cursor, state);
    assert fields[0] in fields && fields[1] in fields && fields[2] in fields && fields[3] in fields;
    StringIsRead(fields, r, PRINCIPAL_ID, principal);
    StringIsRead(fields, r, GRAPH_SPACE_ID, space);
    NumberIsRead(fields, r, CURSOR, Decimal(cursor));
    var txs := ObjectIsRead(fields, r, TXS, Array(DumpEntries(state)));
    entries := EntriesRead(state, txs);
    KeysRead(fields, r, {Lit("principalId"), Lit("graphSpaceId"), Lit("cursor"), Lit("txs")});
  }

  lemma EntriesRead(state: seq<VisibleTxBundle>, y: Json) returns (entries: seq<Json>)
    requires ReadsAs(Array(DumpEntries(state)), y, true)
    ensures y == Array(entries)
    ensures |entries| == |state| && forall i | 0 <= i < |state| :: IsEntry(entries[i], state[i])
  {
    ArrayReads(DumpEntries(state), y);
    hide ReadsAs, IsEntry;
    entries := y.items;
    forall i | 0 <= i < |state| ensures IsEntry(entries[i], state[i]) {
      EntryReadsAs(state[i], entries[i]);
    }
  }

  lemma ArrayReads(items: seq<Json>, y: Json)
    requires ReadsAs(Array(items), y, true)
    ensures y == Array(y.items) && |y.items| == |items|
    ensures forall i | 0 <= i < |items| :: ReadsAs(items[i], y.items[i], true)
  {
  }
}
