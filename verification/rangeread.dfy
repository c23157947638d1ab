/** `readRange`: the shortest transaction-closed run holding the requested number of events. */
module RangeRead {
  import opened Texts
  import opened EventLog
  import opened StoreSpec

  /** `readRange` on a store holding `log`. */
  function ReadRange(log: Log, s: Stream, from: nat, limit: nat, cap: Option<nat>): seq<EventEnvelope> {
    ReadRangeFrom(Events(log, s), LastEntries(IndexOf(log)), s, from, limit, cap)
  }

  /** No cap, or one at a head the log once had (or beyond its end). */
  predicate CapOk(log: Log, s: Stream, cap: Option<nat>) {
    cap.None? || cap.value >= Count(log, s) || Boundary(log, s, cap.value)
  }

  function Limit(log: Log, s: Stream, cap: Option<nat>): nat {
    if cap.Some? then Min(cap.value, Count(log, s)) else Count(log, s)
  }

  /** No boundary lies strictly inside a transaction. */
  lemma NextBoundary(log: Log, s: Stream, k: nat, q: int)
    requires k < |log| && Boundary(log, s, q) && q > Count(log[..k], s)
    ensures q >= Count(log[..k + 1], s)
  {
    var j: nat :| j <= |log| && q == Count(log[..j], s);
    if j <= k {
      CountMonotone(log, j, k, s);
    } else {
      CountMonotone(log, k + 1, j, s);
    }
  }

  lemma WholeLogBoundary(log: Log, s: Stream)
    ensures Boundary(log, s, Count(log, s))
  {
    assert log[..|log|] == log;
  }

  /** Position `end` is the first transaction-closed one with at least `wanted` events after `from`. */
  ghost predicate ShortestClosed(log: Log, s: Stream, from: nat, wanted: nat, end: nat) {
    && Boundary(log, s, end) && end - from >= wanted
    && forall q: nat | Boundary(log, s, q) && q - from >= wanted :: end <= q
  }

  lemma BoundsSlice(events: seq<EventEnvelope>, from: nat, cap: Option<nat>)
    requires from <= Min(|events|, cap.GetOr(|events|))
    ensures SliceBySeqBounds(events, from + 1, cap) == events[from..Min(|events|, cap.GetOr(|events|))]
  {
  }

  lemma SliceOfSlice<T>(xs: seq<T>, from: nat, hi: nat, n: nat)
    requires from + n <= hi <= |xs|
    ensures xs[from..hi][..n] == xs[from..from + n]
  {
  }

  /** readRange on any arrays: everything, nothing, the page as cut, or the page extended. */
  lemma ReadRangeCases(events: seq<EventEnvelope>, byId: map<Text, TxIndexEntry>, s: Stream, from: nat, limit: nat,
      cap: Option<nat>)
    requires from <= Min(|events|, cap.GetOr(|events|))
    ensures var hi, r := Min(|events|, cap.GetOr(|events|)), ReadRangeFrom(events, byId, s, from, limit, cap);
      && (hi - from <= limit ==> r == events[from..hi])
      && (hi - from > limit == 0 ==> r == [])
      && (hi - from > limit > 0 && events[from + limit - 1].txId in byId ==>
            var end := byId[events[from + limit - 1].txId].Part(s).end;
            && (events[from + limit - 1].seqNo >= end ==> r == events[from..from + limit])
            && (events[from + limit - 1].seqNo < end && from <= end <= hi ==> r == events[from..end]))
  {
    hide SliceBySeqBounds;
    var hi := Min(|events|, cap.GetOr(|events|));
    BoundsSlice(events, from, cap);
    if hi - from > limit > 0 && events[from + limit - 1].txId in byId {
      var end := byId[events[from + limit - 1].txId].Part(s).end;
      SliceOfSlice(events, from, hi, limit);
      assert events[from..from + limit][limit - 1] == events[from + limit - 1];
      if from <= end <= hi {
        BoundsSlice(events, from, Some(if cap.Some? then Min(cap.value, end) else end));
      }
    }
  }

  /** The transaction holding the last event of a page of p events, as the id map knows it. */
  lemma TxAtCut(log: Log, s: Stream, p: nat, cap: Option<nat>) returns (k: nat)
    requires UniqueIds(log) && CapOk(log, s, cap) && 0 < p <= Limit(log, s, cap)
    ensures k < |log| && Count(log[..k], s) < p <= Count(log[..k + 1], s) <= Limit(log, s, cap)
    ensures Events(log, s)[p - 1].txId == log[k].txId && Events(log, s)[p - 1].seqNo == p
  {
    hide UniqueIds, Events;
    k := TxOfEvent(log, p - 1, s);
    SeqNumbersDense(log, s);
    CountMonotone(log, k + 1, |log|, s);
    assert log[..|log|] == log;
    if cap.Some? && cap.value < Count(log, s) {
      NextBoundary(log, s, k, cap.value);
    }
  }

  lemma EntryEnd(log: Log, k: nat, s: Stream)
    requires UniqueIds(log) && k < |log| && Count(log[..k], s) < Count(log[..k + 1], s)
    ensures log[k].txId in LastEntries(IndexOf(log))
    ensures LastEntries(IndexOf(log))[log[k].txId].Part(s).end == Count(log[..k + 1], s)
  {
    LastEntriesOfLog(log, k);
    CountStep(log, k, s);
  }

  /** A page cut inside a transaction is extended to that transaction's end. */
  lemma CutPage(log: Log, s: Stream, from: nat, limit: nat, cap: Option<nat>) returns (k: nat)
    requires UniqueIds(log) && CapOk(log, s, cap) && limit > 0 && from + limit < Limit(log, s, cap)
    ensures k < |log| && Count(log[..k], s) < from + limit <= Count(log[..k + 1], s) <= Limit(log, s, cap)
    ensures ReadRange(log, s, from, limit, cap) == Events(log, s)[from..Count(log[..k + 1], s)]
  {
    hide UniqueIds, Events, Count, IndexOf, LastEntries, ReadRangeFrom;
    k := TxAtCut(log, s, from + limit, cap);
    EntryEnd(log, k, s);
    ReadRangeCases(Events(log, s), LastEntries(IndexOf(log)), s, from, limit, cap);
  }

  lemma LimitIsBoundary(log: Log, s: Stream, cap: Option<nat>)
    requires CapOk(log, s, cap)
    ensures Limit(log, s, cap) == Min(Count(log, s), cap.GetOr(Count(log, s))) && Boundary(log, s, Limit(log, s, cap))
  {
    WholeLogBoundary(log, s);
  }

  lemma TxEndIsShortest(log: Log, s: Stream, from: nat, limit: nat, k: nat)
    requires k < |log| && Count(log[..k], s) < from + limit <= Count(log[..k + 1], s)
    ensures ShortestClosed(log, s, from, limit, Count(log[..k + 1], s))
  {
    forall q: nat | Boundary(log, s, q) && q - from >= limit ensures Count(log[..k + 1], s) <= q {
      NextBoundary(log, s, k, q);
    }
    assert Boundary(log, s, Count(log[..k + 1], s));
  }

  lemma BoundaryIsShortest(log: Log, s: Stream, from: nat, end: nat)
    requires Boundary(log, s, end) && from <= end
    ensures ShortestClosed(log, s, from, end - from, end)
  {
  }

  /** readRange from a transaction boundary, uncapped or capped at a past head, returns the
      shortest transaction-closed run with at least min(limit, available) events. */
  lemma RangeIsShortestClosed(log: Log, s: Stream, from: nat, limit: nat, cap: Option<nat>)
    requires UniqueIds(log) && Boundary(log, s, from) && CapOk(log, s, cap) && from <= Limit(log, s, cap)
    ensures var r, hi := ReadRange(log, s, from, limit, cap), Limit(log, s, cap);
      && from + |r| <= hi <= Count(log, s)
      && r == Events(log, s)[from..from + |r|]
      && ShortestClosed(log, s, from, Min(limit, hi - from), from + |r|)
  {
    hide UniqueIds, Events, Count, Boundary, CapOk, Limit, ShortestClosed, IndexOf, LastEntries, ReadRangeFrom;
    var events, hi := Events(log, s), Limit(log, s, cap);
    LimitIsBoundary(log, s, cap);
    ReadRangeCases(events, LastEntries(IndexOf(log)), s, from, limit, cap);
    if hi - from > limit > 0 {
      var k := CutPage(log, s, from, limit, cap);
      TxEndIsShortest(log, s, from, limit, k);
    } else {
      BoundaryIsShortest(log, s, from, if hi - from <= limit then hi else from);
    }
  }

  lemma BoundaryOfPrefix(log: Log, more: Log, s: Stream, p: nat)
    ensures Boundary(log, s, p) ==> Boundary(log + more, s, p)
    ensures Boundary(log + more, s, p) && p <= Count(log, s) ==> Boundary(log, s, p)
  {
    var all := log + more;
    if Boundary(log, s, p) {
      var k: nat :| k <= |log| && p == Count(log[..k], s);
      assert all[..k] == log[..k];
    }
    if Boundary(all, s, p) && p <= Count(log, s) {
      var k: nat :| k <= |all| && p == Count(all[..k], s);
      if k <= |log| {
        assert all[..k] == log[..k];
      } else {
        CountMonotone(all, |log|, k, s);
        assert all[..|log|] == log == log[..|log|];
      }
    }
  }

  lemma UniquePrefix(log: Log, more: Log)
    requires UniqueIds(log + more)
    ensures UniqueIds(log)
  {
    forall i, j | 0 <= i < j < |log| ensures log[i].txId != log[j].txId {
      assert (log + more)[i] == log[i] && (log + more)[j] == log[j];
    }
  }

  lemma EventsOfPrefix(log: Log, more: Log, s: Stream)
    ensures Count(log, s) <= Count(log + more, s)
    ensures Events(log + more, s)[..Count(log, s)] == Events(log, s)
  {
    EventsPrefix(log + more, |log|, s);
    assert (log + more)[..|log|] == log;
  }

  /** A capped read is a snapshot: transactions appended later do not change it. */
  lemma CappedReadIsStable(log: Log, more: Log, s: Stream, from: nat, limit: nat, cap: nat)
    requires UniqueIds(log + more) && Boundary(log, s, from) && Boundary(log, s, cap) && from <= cap <= Count(log, s)
    ensures ReadRange(log + more, s, from, limit, Some(cap)) == ReadRange(log, s, from, limit, Some(cap))
  {
    hide UniqueIds, Events, Count, ReadRange, Boundary;
    var all := log + more;
    UniquePrefix(log, more);
    EventsOfPrefix(log, more, s);
    BoundaryOfPrefix(log, more, s, from);
    BoundaryOfPrefix(log, more, s, cap);
    RangeIsShortestClosed(log, s, from, limit, Some(cap));
    RangeIsShortestClosed(all, s, from, limit, Some(cap));
    var r, r' := ReadRange(log, s, from, limit, Some(cap)), ReadRange(all, s, from, limit, Some(cap));
    BoundaryOfPrefix(log, more, s, from + |r|);
    BoundaryOfPrefix(log, more, s, from + |r'|);
    assert |r| == |r'|;
    assert Events(all, s)[from..from + |r|] == Events(all, s)[..Count(log, s)][from..from + |r|];
  }

  /** Reading page after page until one comes back empty. */
  function ReadPages(log: Log, s: Stream, from: nat, limit: nat, cap: Option<nat>): seq<EventEnvelope>
    decreases if from <= Count(log, s) then Count(log, s) - from else 0
  {
    var page := ReadRange(log, s, from, limit, cap);
    if page == [] || from + |page| > Count(log, s) then page
    else page + ReadPages(log, s, from + |page|, limit, cap)
  }

  /** Paging with a positive limit ends having read the stream once, in order. */
  lemma {:induction false} PagesReadEverything(log: Log, s: Stream, from: nat, limit: nat, cap: Option<nat>)
    requires UniqueIds(log) && Boundary(log, s, from) && CapOk(log, s, cap) && from <= Limit(log, s, cap) && limit > 0
    ensures ReadPages(log, s, from, limit, cap) == Events(log, s)[from..Limit(log, s, cap)]
    decreases Count(log, s) - from
  {
    hide ReadRange, Events, Count, UniqueIds, CapOk;
    RangeIsShortestClosed(log, s, from, limit, cap);
    var page := ReadRange(log, s, from, limit, cap);
    if page != [] {
      PagesReadEverything(log, s, from + |page|, limit, cap);
    }
  }
}
