/** Which transactions a principal sees, and the bundles a store rebuilds for its readers. */
module Visibility {
  import opened Texts
  import opened Json
  import opened EventLog
  import opened StoreSpec

  // ---------------------------------------------------------------- policies

  datatype Effect = Allow | Deny | Mask
  datatype Policy = DefaultPolicy | AclPolicy | EntitySecretPolicy

  const ACL_KEY: Text := Lit("_acl")
  const WILDCARD: Text := Lit("*")
  const ENTITY_ID: Text := Lit("entityId")
  const SECRET_ENTITY: Text := Lit("E-secret")
  const MASKED_USER: Text := Lit("user")

  function Property(fields: seq<Field>, key: Text): Json {
    if fields == [] then Absent
    else if fields[0].key == key then fields[0].value
    else Property(fields[1..], key)
  }

  /** `value[key]` for a property lookup on a data object. */
  function Member(v: Json, key: Text): Json {
    if v.Object? then Property(v.fields, key) else Absent
  }

  predicate Nullish(v: Json) { v.Null? || v.Absent? }

  function EffectOf(v: Json): Effect {
    if v == String(Lit("deny")) then Deny else if v == String(Lit("mask")) then Mask else Allow
  }

  /** `acl[principal] ?? acl["*"] ?? "allow"`; no list at all allows. */
  function EventAccess(payload: Json, principal: Text): Effect {
    var acl := Member(payload, ACL_KEY);
    var own := Member(acl, principal);
    if Nullish(own) then EffectOf(Member(acl, WILDCARD)) else EffectOf(own)
  }

  predicate HasSecret(payload: Json) {
    Member(payload, ENTITY_ID) == String(SECRET_ENTITY)
  }

  /** Deny wins over mask, mask over allow. */
  function Decide(policy: Policy, principal: Text, payloads: seq<Payload>): Effect {
    match policy
    case DefaultPolicy => Allow
    case AclPolicy =>
      if exists p | p in payloads :: EventAccess(p, principal) == Deny then Deny
      else if exists p | p in payloads :: EventAccess(p, principal) == Mask then Mask
      else Allow
    case EntitySecretPolicy =>
      if principal == MASKED_USER && exists p | p in payloads :: HasSecret(p) then Mask else Allow
  }

  datatype Viewer = Viewer(policy: Policy, principal: Text) {
    predicate Sees(b: TxBundle) {
      Decide(policy, principal, b.metaEvents + b.graphEvents).Allow?
    }

    predicate SeesView(v: TxView) {
      Decide(policy, principal, Payloads(v.meta) + Payloads(v.graph)).Allow?
    }
  }

  // ---------------------------------------------------------------- what a policy hides

  /** A member of a payload, by name. */
  predicate Has(v: Json, key: Text, value: Json) {
    v.Object? && Field(key, value) in v.fields
  }

  predicate Refusal(v: Json) {
    v == String(Lit("deny")) || v == String(Lit("mask"))
  }

  /** An access list that speaks of a principal: an own entry that is not null. */
  predicate SpeaksOf(acl: Json, principal: Text) {
    acl.Object? && exists f | f in acl.fields :: f.key == principal && !f.value.Null? && !f.value.Absent?
  }

  /** An access list refuses a principal by its own entry or, for want of one, by the entry for
      everyone. */
  predicate ListRefuses(acl: Json, principal: Text) {
    acl.Object? && exists e | e in acl.fields ::
      Refusal(e.value) && e.key == if SpeaksOf(acl, principal) then principal else Lit("*")
  }

  predicate Refuses(payload: Json, principal: Text) {
    payload.Object? && exists f | f in payload.fields :: f.key == Lit("_acl") && ListRefuses(f.value, principal)
  }

  /** Shown to the viewer: under the access lists, no event refuses it; under the entity secret, it is
      not `user`, or no event is of the entity `E-secret`. */
  predicate Shown(viewer: Viewer, payloads: seq<Payload>) {
    match viewer.policy
    case DefaultPolicy => true
    case AclPolicy => forall p | p in payloads :: !Refuses(p, viewer.principal)
    case EntitySecretPolicy =>
      viewer.principal != Lit("user") || forall p | p in payloads :: !Has(p, Lit("entityId"), String(Lit("E-secret")))
  }

  lemma {:induction false} PropertyIs(fields: seq<Field>, key: Text)
    requires DistinctKeys(fields)
    ensures forall f | f in fields && f.key == key :: Property(fields, key) == f.value
    ensures (forall f | f in fields :: f.key != key) ==> Property(fields, key) == Absent
    ensures Property(fields, key) != Absent ==> Field(key, Property(fields, key)) in fields
  {
    if fields != [] {
      PropertyIs(fields[1..], key);
      assert fields == [fields[0]] + fields[1..];
    }
  }

  lemma EffectRefuses(v: Json)
    ensures EffectOf(v) != Allow <==> Refusal(v)
  {
  }

  lemma OwnEntry(acl: Json, principal: Text)
    requires WellFormed(acl)
    ensures SpeaksOf(acl, principal) <==> !Nullish(Member(acl, principal))
    ensures Refusal(Member(acl, principal)) <==>
      acl.Object? && exists e | e in acl.fields :: Refusal(e.value) && e.key == principal
  {
    if acl.Object? {
      PropertyIs(acl.fields, principal);
    }
  }

  lemma AccessRefuses(payload: Payload, principal: Text)
    ensures EventAccess(payload, principal) != Allow <==> Refuses(payload, principal)
  {
    hide EffectOf, Refusal, Nullish, SpeaksOf;
    var acl := Member(payload, ACL_KEY);
    if payload.Object? {
      PropertyIs(payload.fields, ACL_KEY);
      if acl.Object? {
        assert Field(ACL_KEY, acl) in payload.fields;
      }
    }
    OwnEntry(acl, principal);
    OwnEntry(acl, WILDCARD);
    EffectRefuses(Member(acl, principal));
    EffectRefuses(Member(acl, WILDCARD));
  }

  lemma SecretIs(payload: Payload)
    ensures HasSecret(payload) <==> Has(payload, Lit("entityId"), String(Lit("E-secret")))
  {
    if payload.Object? {
      PropertyIs(payload.fields, ENTITY_ID);
    }
  }

  /** The policies allow exactly what is shown. */
  lemma AllowedIsShown(viewer: Viewer, payloads: seq<Payload>)
    ensures Decide(viewer.policy, viewer.principal, payloads).Allow? <==> Shown(viewer, payloads)
  {
    hide EventAccess, Refuses, HasSecret, Has;
    forall p | p in payloads
      ensures EventAccess(p, viewer.principal) != Allow <==> Refuses(p, viewer.principal)
      ensures HasSecret(p) <==> Has(p, Lit("entityId"), String(Lit("E-secret")))
    {
      AccessRefuses(p, viewer.principal);
      SecretIs(p);
    }
  }

  // ---------------------------------------------------------------- grouping events by transaction

  function OfTx(events: seq<EventEnvelope>, txId: Text): seq<EventEnvelope> {
    if events == [] then []
    else
      var init, last := events[..|events| - 1], events[|events| - 1];
      OfTx(init, txId) + if last.txId == txId then [last] else []
  }

  /** One pass over a stream collecting each transaction's events in order. */
  method GroupByTx(events: seq<EventEnvelope>) returns (grouped: map<Text, seq<EventEnvelope>>)
    ensures forall id :: id in grouped <==> OfTx(events, id) != []
    ensures forall id | id in grouped :: grouped[id] == OfTx(events, id)
  {
    grouped := map[];
    for i := 0 to |events|
      invariant forall id :: id in grouped <==> OfTx(events[..i], id) != []
      invariant forall id | id in grouped :: grouped[id] == OfTx(events[..i], id)
    {
      var event := events[i];
      assert events[..i + 1][..i] == events[..i] && events[..i + 1][i] == event;
      if event.txId in grouped {
        grouped := grouped[event.txId := grouped[event.txId] + [event]];
      } else {
        grouped := grouped[event.txId := [event]];
      }
    }
    assert events[..|events|] == events;
  }

  function ViewFor(e: TxIndexEntry, meta: seq<EventEnvelope>, graph: seq<EventEnvelope>): TxView {
    TxView(e.txId, e.txIndex, OfTx(meta, e.txId), OfTx(graph, e.txId))
  }

  function ViewsFrom(index: seq<TxIndexEntry>, meta: seq<EventEnvelope>, graph: seq<EventEnvelope>)
    : (views: seq<TxView>)
    ensures |views| == |index|
  {
    seq(|index|, i requires 0 <= i < |index| => ViewFor(index[i], meta, graph))
  }

  method BuildTxBundles(index: seq<TxIndexEntry>, meta: seq<EventEnvelope>, graph: seq<EventEnvelope>)
      returns (views: seq<TxView>)
    ensures views == ViewsFrom(index, meta, graph)
  {
    var metaByTx := GroupByTx(meta);
    var graphByTx := GroupByTx(graph);
    views := seq(|index|, i requires 0 <= i < |index| =>
      TxView(index[i].txId, index[i].txIndex,
             if index[i].txId in metaByTx then metaByTx[index[i].txId] else [],
             if index[i].txId in graphByTx then graphByTx[index[i].txId] else []));
  }

  lemma {:induction false} OfTxConcat(a: seq<EventEnvelope>, b: seq<EventEnvelope>, txId: Text)
    ensures OfTx(a + b, txId) == OfTx(a, txId) + OfTx(b, txId)
  {
    if b == [] {
      assert a + b == a;
    } else {
      var init := b[..|b| - 1];
      assert (a + b)[..|a + b| - 1] == a + init;
      OfTxConcat(a, init, txId);
    }
  }

  lemma {:induction false} OfTxUniform(events: seq<EventEnvelope>, owner: Text, txId: Text)
    requires forall e | e in events :: e.txId == owner
    ensures OfTx(events, txId) == if txId == owner then events else []
  {
    if events != [] {
      OfTxUniform(events[..|events| - 1], owner, txId);
    }
  }

  lemma {:induction false} NoEventsOfStranger(log: Log, s: Stream, txId: Text)
    requires !HasTx(log, txId)
    ensures OfTx(Events(log, s), txId) == []
  {
    if log != [] {
      var init, last := log[..|log| - 1], log[|log| - 1];
      assert last in log;
      NoEventsOfStranger(init, s, txId);
      OfTxConcat(Events(init, s), Envelopes(last, s, Count(init, s)), txId);
      OfTxUniform(Envelopes(last, s, Count(init, s)), last.txId, txId);
    }
  }

  /** In a log with unique ids the events carrying an id are those of its transaction. */
  lemma {:induction false} EventsCarryingId(log: Log, k: nat, s: Stream)
    requires UniqueIds(log) && k < |log|
    ensures OfTx(Events(log, s), log[k].txId) == Envelopes(log[k], s, Count(log[..k], s))
  {
    hide UniqueIds, OfTx;
    var init, last := log[..|log| - 1], log[|log| - 1];
    var tail := Envelopes(last, s, Count(init, s));
    UniqueLast(log);
    OfTxConcat(Events(init, s), tail, log[k].txId);
    OfTxUniform(tail, last.txId, log[k].txId);
    if k < |init| {
      EventsCarryingId(init, k, s);
      assert init[..k] == log[..k];
      assert init[k] in init;
    } else {
      NoEventsOfStranger(init, s, last.txId);
    }
  }

  /** Transaction k as readers of the whole log see it. */
  function ViewOfTx(log: Log, k: nat): TxView
    requires k < |log|
  {
    TxView(log[k].txId, k + 1, Envelopes(log[k], Meta, Count(log[..k], Meta)),
      Envelopes(log[k], Graph, Count(log[..k], Graph)))
  }

  /** Rebuilding bundles from the index and the two streams gives back the appended
      transactions, each with its own events, in order. */
  lemma BundlesOfLog(log: Log)
    requires UniqueIds(log)
    ensures var views := ViewsFrom(IndexOf(log), Events(log, Meta), Events(log, Graph));
      && |views| == |log|
      && forall k | 0 <= k < |log| :: views[k] == ViewOfTx(log, k)
  {
    forall k | 0 <= k < |log|
      ensures ViewFor(IndexOf(log)[k], Events(log, Meta), Events(log, Graph)) == ViewOfTx(log, k)
    {
      IndexOfAt(log, k);
      EventsCarryingId(log, k, Meta);
      EventsCarryingId(log, k, Graph);
    }
  }

  // ---------------------------------------------------------------- the visible log

  function FilterViews(views: seq<TxView>, viewer: Viewer): seq<TxView> {
    if views == [] then []
    else
      var init, last := views[..|views| - 1], views[|views| - 1];
      FilterViews(init, viewer) + if viewer.SeesView(last) then [last] else []
  }

  /** The bundles of the log a viewer is allowed to see, in log order. */
  function VisibleLog(log: Log, viewer: Viewer): Log {
    if log == [] then []
    else
      var init, last := log[..|log| - 1], log[|log| - 1];
      VisibleLog(init, viewer) + if viewer.Sees(last) then [last] else []
  }

  /** A view shows a bundle when it holds its events under some numbering. */
  ghost predicate Shows(v: TxView, b: TxBundle) {
    && v.txId == b.txId
    && (exists before: nat :: v.meta == Envelopes(b, Meta, before))
    && (exists before: nat :: v.graph == Envelopes(b, Graph, before))
  }

  ghost predicate ShowsLog(views: seq<TxView>, log: Log) {
    |views| == |log| && forall k | 0 <= k < |log| :: Shows(views[k], log[k])
  }

  lemma ShownVisibility(v: TxView, b: TxBundle, viewer: Viewer)
    requires Shows(v, b)
    ensures viewer.SeesView(v) == viewer.Sees(b)
  {
    var m: nat :| v.meta == Envelopes(b, Meta, m);
    var g: nat :| v.graph == Envelopes(b, Graph, g);
    PayloadsOfEnvelopes(b, Meta, m);
    PayloadsOfEnvelopes(b, Graph, g);
  }

  lemma {:induction false} FilterShows(views: seq<TxView>, log: Log, viewer: Viewer)
    requires ShowsLog(views, log)
    ensures ShowsLog(FilterViews(views, viewer), VisibleLog(log, viewer))
  {
    hide Shows;
    if log != [] {
      FilterShows(views[..|log| - 1], log[..|log| - 1], viewer);
      ShownVisibility(views[|log| - 1], log[|log| - 1], viewer);
    }
  }

  lemma ViewsShowLog(log: Log)
    requires UniqueIds(log)
    ensures ShowsLog(ViewsFrom(IndexOf(log), Events(log, Meta), Events(log, Graph)), log)
  {
    hide UniqueIds, ViewsFrom, Events, IndexOf;
    BundlesOfLog(log);
  }

  lemma {:induction false} VisibleConcat(a: Log, b: Log, viewer: Viewer)
    ensures VisibleLog(a + b, viewer) == VisibleLog(a, viewer) + VisibleLog(b, viewer)
  {
    if b == [] {
      assert a + b == a;
    } else {
      var init := b[..|b| - 1];
      assert (a + b)[..|a + b| - 1] == a + init;
      VisibleConcat(a, init, viewer);
    }
  }

  /** Appending never changes the ranks a viewer already has. */
  lemma VisibleGrows(a: Log, b: Log, viewer: Viewer)
    requires a <= b
    ensures VisibleLog(a, viewer) <= VisibleLog(b, viewer)
  {
    assert b == a + b[|a|..];
    VisibleConcat(a, b[|a|..], viewer);
  }

  /** The positions of a log a viewer is shown. */
  ghost function ShownPositions(log: Log, viewer: Viewer): set<nat> {
    set k: nat | k < |log| && Shown(viewer, log[k].metaEvents + log[k].graphEvents)
  }

  lemma ShownPositionsStep(log: Log, viewer: Viewer)
    requires log != []
    ensures var n := |log| - 1;
      ShownPositions(log, viewer) == ShownPositions(log[..n], viewer) + if viewer.Sees(log[n]) then {n} else {}
  {
    hide Shown, Decide;
    var n := |log| - 1;
    AllowedIsShown(viewer, log[n].metaEvents + log[n].graphEvents);
    forall k: nat | k < n ensures log[..n][k] == log[k] {
    }
  }

  /** The visible log is the shown transactions in order: each stands at the rank of how many shown ones
      come before it, and there are no others. */
  lemma {:induction false} VisibleRanks(log: Log, viewer: Viewer)
    ensures |VisibleLog(log, viewer)| == |ShownPositions(log, viewer)|
    ensures forall k | k in ShownPositions(log, viewer) ::
      var rank := |ShownPositions(log[..k], viewer)|;
      rank < |VisibleLog(log, viewer)| && VisibleLog(log, viewer)[rank] == log[k]
  {
    hide ShownPositions, Decide;
    if log == [] {
      assert ShownPositions(log, viewer) == {} by { NothingShown(viewer); }
    } else {
      var n := |log| - 1;
      var init := log[..n];
      VisibleRanks(init, viewer);
      ShownPositionsStep(log, viewer);
      ShownBelow(init, viewer);
      forall k | k in ShownPositions(log, viewer)
        ensures |ShownPositions(log[..k], viewer)| < |VisibleLog(log, viewer)|
        ensures VisibleLog(log, viewer)[|ShownPositions(log[..k], viewer)|] == log[k]
      {
        if k < n {
          assert init[..k] == log[..k] && init[k] == log[k];
        }
      }
    }
  }

  lemma NothingShown(viewer: Viewer)
    ensures ShownPositions([], viewer) == {}
  {
  }

  lemma ShownBelow(log: Log, viewer: Viewer)
    ensures forall k | k in ShownPositions(log, viewer) :: k < |log|
  {
  }

  /** `wide` is `narrow` with transactions the viewer cannot see put in anywhere. */
  predicate AddsOnlyHidden(narrow: Log, wide: Log, viewer: Viewer) {
    if wide == [] then narrow == []
    else
      var init, last := wide[..|wide| - 1], wide[|wide| - 1];
      || (!viewer.Sees(last) && AddsOnlyHidden(narrow, init, viewer))
      || (narrow != [] && narrow[|narrow| - 1] == last && AddsOnlyHidden(narrow[..|narrow| - 1], init, viewer))
  }

  lemma {:induction false} HiddenLeavesVisibleLog(narrow: Log, wide: Log, viewer: Viewer)
    requires AddsOnlyHidden(narrow, wide, viewer)
    ensures VisibleLog(wide, viewer) == VisibleLog(narrow, viewer)
  {
    if wide != [] {
      var init, last := wide[..|wide| - 1], wide[|wide| - 1];
      if !viewer.Sees(last) && AddsOnlyHidden(narrow, init, viewer) {
        HiddenLeavesVisibleLog(narrow, init, viewer);
      } else {
        HiddenLeavesVisibleLog(narrow[..|narrow| - 1], init, viewer);
      }
    }
  }

  /** A visible log contains no repeated id and no empty bundle if the log has none. */
  lemma {:induction false} VisibleKeepsShape(log: Log, viewer: Viewer)
    ensures forall b | b in VisibleLog(log, viewer) :: b in log && viewer.Sees(b)
    ensures NonEmptyTxs(log) ==> NonEmptyTxs(VisibleLog(log, viewer))
    ensures UniqueIds(log) ==> UniqueIds(VisibleLog(log, viewer))
  {
    if log != [] {
      var init, last := log[..|log| - 1], log[|log| - 1];
      VisibleKeepsShape(init, viewer);
      var v := VisibleLog(init, viewer);
      if UniqueIds(log) {
        UniqueLast(log);
        forall i | 0 <= i < |v| ensures v[i].txId != last.txId {
          assert v[i] in init;
        }
      }
    }
  }

  // ---------------------------------------------------------------- paging by rank

  /** The part of a list `slice(from, from + limit)` returns for a cursor clipped at zero. */
  function Window<T>(xs: seq<T>, from: int, limit: nat): seq<T> {
    var lo := if from < 0 then 0 else if from <= |xs| then from else |xs|;
    xs[lo..Min(lo + limit, |xs|)]
  }

  function SafeCursor(from: int): nat { if from < 0 then 0 else from }

  /** `filterVisibleTxs`: a window of the visible transactions, renumbered by visible rank. */
  function FilterVisibleTxs(views: seq<TxView>, from: int, limit: nat, viewer: Viewer): (seq<TxView>, int) {
    var page := Window(FilterViews(views, viewer), from, limit);
    (seq(|page|, i requires 0 <= i < |page| => page[i].(txIndex := SafeCursor(from) + i + 1)),
      SafeCursor(from) + |page|)
  }

  function CountVisibleTxs(views: seq<TxView>, viewer: Viewer): nat {
    |FilterViews(views, viewer)|
  }

  lemma WindowShows(views: seq<TxView>, log: Log, from: int, limit: nat, viewer: Viewer)
    requires ShowsLog(views, log)
    ensures var (txs, cursor) := FilterVisibleTxs(views, from, limit, viewer);
      && ShowsLog(txs, Window(VisibleLog(log, viewer), from, limit))
      && (forall i | 0 <= i < |txs| :: txs[i].txIndex == SafeCursor(from) + i + 1)
      && cursor == SafeCursor(from) + |txs|
      && CountVisibleTxs(views, viewer) == |VisibleLog(log, viewer)|
  {
    hide FilterViews, VisibleLog, Envelopes;
    FilterShows(views, log, viewer);
    var vs, bs := FilterViews(views, viewer), VisibleLog(log, viewer);
    var page, bundles := Window(vs, from, limit), Window(bs, from, limit);
    assert |page| == |bundles|;
    forall i | 0 <= i < |page| ensures Shows(page[i].(txIndex := SafeCursor(from) + i + 1), bundles[i]) {
      var lo := if from < 0 then 0 else if from <= |vs| then from else |vs|;
      assert page[i] == vs[lo + i] && bundles[i] == bs[lo + i];
    }
  }

  /** What a growing log looks like at each of some later moments. */
  ghost predicate GrowingViews(v: Log, views: seq<Log>)
    decreases |views|
  {
    views == [] || (v <= views[0] && UniqueIds(views[0]) && NonEmptyTxs(views[0]) && GrowingViews(views[0], views[1..]))
  }

  lemma {:induction false} ViewsOnlyGrow(v: Log, views: seq<Log>, i: nat)
    requires GrowingViews(v, views) && i < |views|
    ensures v <= views[i] <= views[|views| - 1] && UniqueIds(views[i]) && NonEmptyTxs(views[i])
    decreases |views|
  {
    hide UniqueIds, NonEmptyTxs;
    if i > 0 {
      ViewsOnlyGrow(views[0], views[1..], i - 1);
    } else if |views| > 1 {
      ViewsOnlyGrow(views[0], views[1..], 0);
    }
  }

  /** A page of what a viewer is shown: as many transactions as are left after `from`, up to the limit,
      numbered by rank, and each shown transaction of those ranks in its place. */
  ghost predicate PageOfShown(txs: seq<TxView>, log: Log, from: int, limit: nat, viewer: Viewer) {
    var first, all := if from < 0 then 0 else from, |ShownPositions(log, viewer)|;
    && |txs| == (if all <= first then 0 else if all <= first + limit then all - first else limit)
    && (forall i | 0 <= i < |txs| :: txs[i].txIndex == first + i + 1)
    && forall k | k in ShownPositions(log, viewer) && first <= |ShownPositions(log[..k], viewer)| < first + |txs| ::
         Shows(txs[|ShownPositions(log[..k], viewer)| - first], log[k])
  }

  lemma PageIsOfShown(txs: seq<TxView>, log: Log, from: int, limit: nat, viewer: Viewer)
    requires ShowsLog(txs, Window(VisibleLog(log, viewer), from, limit))
    requires forall i | 0 <= i < |txs| :: txs[i].txIndex == SafeCursor(from) + i + 1
    ensures PageOfShown(txs, log, from, limit, viewer)
  {
    hide Shows, ShownPositions, VisibleLog;
    VisibleRanks(log, viewer);
    ShownBelow(log, viewer);
    var first, v := if from < 0 then 0 else from, VisibleLog(log, viewer);
    forall k | k in ShownPositions(log, viewer) && first <= |ShownPositions(log[..k], viewer)| < first + |txs|
      ensures Shows(txs[|ShownPositions(log[..k], viewer)| - first], log[k])
    {
      var rank := |ShownPositions(log[..k], viewer)|;
      assert Window(v, from, limit)[rank - first] == v[rank];
    }
  }
}
