/** The simulated network: a queue that drops, duplicates, reorders and partitions, with counters.
    Random choices are inputs, so statements hold for every seed. */
module NetworkSpec {
  import opened Texts

  datatype Message<T> = Message(from: Text, to: Text, payload: T)
  datatype Stats = Stats(delivered: nat, dropped: nat, duplicated: nat, reordered: nat, partitions: nat, heals: nat)

  const ZeroStats := Stats(0, 0, 0, 0, 0, 0)

  /** The network as a value; no bound on the queue is `None`. */
  datatype Net<T> = Net(queue: seq<Message<T>>, partitions: set<(Text, Text)>, maxQueueSize: Option<nat>,
      counters: Stats)

  /** An unordered pair of peers. */
  function PairKey(a: Text, b: Text): (Text, Text) {
    if Less(a, b) then (a, b) else (b, a)
  }

  function Send<T>(n: Net<T>, m: Message<T>): Net<T> {
    if PairKey(m.from, m.to) in n.partitions then n.(counters := n.counters.(dropped := n.counters.dropped + 1))
    else if n.maxQueueSize.Some? && |n.queue| >= n.maxQueueSize.value then
      n.(queue := (if n.queue == [] then [] else n.queue[1..]) + [m],
         counters := n.counters.(dropped := n.counters.dropped + 1))
    else n.(queue := n.queue + [m])
  }

  function SendAll<T>(n: Net<T>, ms: seq<Message<T>>): Net<T> {
    if ms == [] then n else Send(SendAll(n, ms[..|ms| - 1]), ms[|ms| - 1])
  }

  function Tick<T>(n: Net<T>): (Net<T>, Option<Message<T>>) {
    if n.queue == [] then (n, None)
    else (n.(queue := n.queue[1..], counters := n.counters.(delivered := n.counters.delivered + 1)), Some(n.queue[0]))
  }

  /** The elements whose choice is false. */
  function Spared<X>(xs: seq<X>, hit: seq<bool>): seq<X>
    requires |hit| == |xs|
  {
    if xs == [] then [] else (if hit[0] then [] else [xs[0]]) + Spared(xs[1..], hit[1..])
  }

  /** Every element, the chosen ones twice in a row. */
  function Doubled<X>(xs: seq<X>, hit: seq<bool>): seq<X>
    requires |hit| == |xs|
  {
    if xs == [] then [] else (if hit[0] then [xs[0], xs[0]] else [xs[0]]) + Doubled(xs[1..], hit[1..])
  }

  function Hits(hit: seq<bool>): nat {
    if hit == [] then 0 else (if hit[0] then 1 else 0) + Hits(hit[1..])
  }

  function Drop<T>(n: Net<T>, hit: seq<bool>): Net<T>
    requires |hit| == |n.queue|
  {
    n.(queue := Spared(n.queue, hit), counters := n.counters.(dropped := n.counters.dropped + Hits(hit)))
  }

  function Duplicate<T>(n: Net<T>, hit: seq<bool>): Net<T>
    requires |hit| == |n.queue|
  {
    n.(queue := Doubled(n.queue, hit), counters := n.counters.(duplicated := n.counters.duplicated + Hits(hit)))
  }

  function Swapped<X>(xs: seq<X>, i: nat, j: nat): seq<X>
    requires i < |xs| && j < |xs|
  {
    xs[i := xs[j]][j := xs[i]]
  }

  function Reorder<T>(n: Net<T>, left: nat, right: nat): Net<T>
    requires |n.queue| >= 2 ==> left < |n.queue| && right < |n.queue|
  {
    if |n.queue| < 2 then n
    else
      var right' := if left == right then (right + 1) % |n.queue| else right;
      n.(queue := Swapped(n.queue, left, right'), counters := n.counters.(reordered := n.counters.reordered + 1))
  }

  function Partition<T>(n: Net<T>, a: Text, b: Text): Net<T> {
    n.(partitions := n.partitions + {PairKey(a, b)}, counters := n.counters.(partitions := n.counters.partitions + 1))
  }

  function Heal<T>(n: Net<T>): Net<T> {
    n.(partitions := {}, counters := n.counters.(heals := n.counters.heals + 1))
  }

  // ---------------------------------------------------------------- the queue only holds what was sent

  lemma {:induction false} SparedMembers<X>(xs: seq<X>, hit: seq<bool>)
    requires |hit| == |xs|
    ensures forall x | x in Spared(xs, hit) :: x in xs
    ensures |Spared(xs, hit)| == |xs| - Hits(hit)
  {
    if xs != [] {
      SparedMembers(xs[1..], hit[1..]);
    }
  }

  lemma {:induction false} DoubledMembers<X>(xs: seq<X>, hit: seq<bool>)
    requires |hit| == |xs|
    ensures (forall x | x in Doubled(xs, hit) :: x in xs) && (forall x | x in xs :: x in Doubled(xs, hit))
    ensures |Doubled(xs, hit)| == |xs| + Hits(hit)
  {
    if xs != [] {
      DoubledMembers(xs[1..], hit[1..]);
      assert xs == [xs[0]] + xs[1..];
    }
  }

  lemma ReorderMembers<T>(n: Net<T>, left: nat, right: nat)
    requires |n.queue| >= 2 ==> left < |n.queue| && right < |n.queue|
    ensures multiset(Reorder(n, left, right).queue) == multiset(n.queue)
    ensures forall m :: m in Reorder(n, left, right).queue <==> m in n.queue
  {
    var q, q' := n.queue, Reorder(n, left, right).queue;
    assert multiset(q') == multiset(q);
    forall m ensures m in q' <==> m in q {
      assert m in multiset(q') <==> m in multiset(q);
    }
  }

  predicate Between<T>(m: Message<T>, a: Text, b: Text) {
    (m.from == a && m.to == b) || (m.from == b && m.to == a)
  }

  /** A partition stops what is sent between the two peers, in either direction, and nothing else. */
  lemma PartitionStops<T>(n: Net<T>, a: Text, b: Text, m: Message<T>)
    ensures var p := Partition(n, a, b);
      if Between(m, a, b) then Send(p, m).queue == n.queue && Send(p, m).counters.dropped == n.counters.dropped + 1
      else Send(p, m).queue == Send(n, m).queue && Send(p, m).counters.dropped == Send(n, m).counters.dropped
  {
    LessTotal(a, b);
    LessTotal(m.from, m.to);
  }

  /** Healing lets every message through again. */
  lemma HealLetsThrough<T>(n: Net<T>, m: Message<T>)
    ensures var q := Send(Heal(n), m).queue; q != [] && q[|q| - 1] == m
  {
  }

  /** Messages put on the network and not accounted for yet: every send adds one, and nothing
      else changes it, unless the bound is zero and an empty queue "overflows". */
  function Accounted<T>(n: Net<T>): int {
    |n.queue| + n.counters.delivered + n.counters.dropped - n.counters.duplicated
  }

  lemma SendAccounts<T>(n: Net<T>, m: Message<T>)
    ensures Accounted(Send(n, m)) == Accounted(n) + 1 <==>
      PairKey(m.from, m.to) in n.partitions || n.queue != [] || n.maxQueueSize != Some(0)
  {
  }

  /** Delivering, dropping, duplicating, reordering, partitioning and healing conserve messages. */
  lemma OthersConserve<T>(n: Net<T>, hit: seq<bool>, left: nat, right: nat, a: Text, b: Text)
    requires |hit| == |n.queue| && (|n.queue| >= 2 ==> left < |n.queue| && right < |n.queue|)
    ensures Accounted(Tick(n).0) == Accounted(Drop(n, hit)) == Accounted(Duplicate(n, hit)) ==
      Accounted(Reorder(n, left, right))
      == Accounted(Partition(n, a, b)) == Accounted(Heal(n)) == Accounted(n)
  {
    SparedMembers(n.queue, hit);
    DoubledMembers(n.queue, hit);
  }

  /** On a healed network with room for them, messages just sent are the end of the queue: what
      overflows is older. */
  lemma {:induction false} SentStays<T>(n: Net<T>, ms: seq<Message<T>>)
    requires n.partitions == {} && (n.maxQueueSize.Some? ==> n.maxQueueSize.value >= |ms|)
    ensures var n' := SendAll(n, ms);
      && n'.partitions == {} && n'.maxQueueSize == n.maxQueueSize
      && |ms| <= |n'.queue| <= |n.queue| + |ms|
      && n'.queue[|n'.queue| - |ms|..] == ms
      && (forall m | m in n'.queue :: m in n.queue || m in ms)
  {
    hide Send;
    if ms != [] {
      var init, last := ms[..|ms| - 1], ms[|ms| - 1];
      SentStays(n, init);
      SendKeepsEnd(SendAll(n, init), init, last);
      assert ms == init + [last];
    }
  }

  lemma SendKeepsEnd<T>(n: Net<T>, sent: seq<Message<T>>, m: Message<T>)
    requires n.partitions == {} && (n.maxQueueSize.Some? ==> n.maxQueueSize.value > |sent|)
    requires |sent| <= |n.queue| && n.queue[|n.queue| - |sent|..] == sent
    ensures var n' := Send(n, m);
      && n'.partitions == {} && n'.maxQueueSize == n.maxQueueSize
      && |sent| + 1 <= |n'.queue| <= |n.queue| + 1
      && n'.queue[|n'.queue| - |sent| - 1..] == sent + [m]
      && (forall x | x in n'.queue :: x in n.queue || x == m)
  {
    var q, q' := n.queue, Send(n, m).queue;
    var rest := if n.maxQueueSize.Some? && |q| >= n.maxQueueSize.value then q[1..] else q;
    assert q' == rest + [m];
    assert rest[|rest| - |sent|..] == sent;
  }

  // ---------------------------------------------------------------- splicing in copies

  /** The chosen elements, each with the position its copy goes to. */
  function CopiesOf<X>(xs: seq<X>, hit: seq<bool>): seq<(nat, X)>
    requires |hit| == |xs|
  {
    if xs == [] then []
    else
      var n := |xs| - 1;
      CopiesOf(xs[..n], hit[..n]) + if hit[n] then [(n + 1, xs[n])] else []
  }

  /** Position of the last chosen element. */
  ghost function LastCopy<X>(xs: seq<X>, hit: seq<bool>): (p: nat)
    requires |hit| == |xs| && CopiesOf(xs, hit) != []
    ensures p < |xs| && hit[p] && (forall i | p < i < |xs| :: !hit[i])
    ensures CopiesOf(xs, hit) == CopiesOf(xs[..p], hit[..p]) + [(p + 1, xs[p])]
  {
    var n := |xs| - 1;
    if hit[n] then n
    else
      var p := LastCopy(xs[..n], hit[..n]);
      assert xs[..n][..p] == xs[..p] && hit[..n][..p] == hit[..p];
      p
  }

  lemma {:induction false} NoCopiesNoHits<X>(xs: seq<X>, hit: seq<bool>)
    requires |hit| == |xs| && CopiesOf(xs, hit) == []
    ensures forall i | 0 <= i < |xs| :: !hit[i]
  {
    if xs != [] {
      NoCopiesNoHits(xs[..|xs| - 1], hit[..|xs| - 1]);
    }
  }

  lemma {:induction false} SkipUnhit<X>(xs: seq<X>, hit: seq<bool>, from: nat, to: nat)
    requires |hit| == |xs| && from <= to <= |xs| && forall i | from <= i < to :: !hit[i]
    ensures xs[..from] + Doubled(xs[from..], hit[from..]) == xs[..to] + Doubled(xs[to..], hit[to..])
    ensures Hits(hit[from..]) == Hits(hit[to..])
  {
    if from < to {
      SkipUnhit(xs, hit, from, to - 1);
      assert xs[to - 1..][1..] == xs[to..] && hit[to - 1..][1..] == hit[to..];
      assert xs[..to] == xs[..to - 1] + [xs[to - 1]];
    }
  }

  lemma DoubleOne<X>(xs: seq<X>, hit: seq<bool>, p: nat)
    requires |hit| == |xs| && p < |xs| && hit[p]
    ensures xs[..p] + Doubled(xs[p..], hit[p..]) == xs[..p + 1] + [xs[p]] + Doubled(xs[p + 1..], hit[p + 1..])
    ensures Hits(hit[p..]) == 1 + Hits(hit[p + 1..])
  {
    assert xs[p..][1..] == xs[p + 1..] && hit[p..][1..] == hit[p + 1..];
  }

  lemma NothingSparedYet<X>(xs: seq<X>, hit: seq<bool>)
    requires |hit| == |xs|
    ensures xs[..|xs|] + Spared(xs[|xs|..], hit[|xs|..]) == xs && Hits(hit[|xs|..]) == 0
  {
  }

  /** Splicing out element p when it is chosen, everything after it done. */
  lemma SpareStep<X>(xs: seq<X>, hit: seq<bool>, p: nat)
    requires |hit| == |xs| && p < |xs|
    ensures var q := xs[..p + 1] + Spared(xs[p + 1..], hit[p + 1..]);
      xs[..p] + Spared(xs[p..], hit[p..]) == if hit[p] then q[..p] + q[p + 1..] else q
    ensures Hits(hit[p..]) == Hits(hit[p + 1..]) + if hit[p] then 1 else 0
  {
    assert xs[p..][1..] == xs[p + 1..] && hit[p..][1..] == hit[p + 1..];
    assert xs[..p + 1] == xs[..p] + [xs[p]];
  }

  lemma CopiesStep<X>(xs: seq<X>, hit: seq<bool>, k: nat)
    requires |hit| == |xs| && k < |xs|
    ensures CopiesOf(xs[..k + 1], hit[..k + 1]) == CopiesOf(xs[..k], hit[..k]) + if hit[k] then [(k + 1, xs[k])] else []
  {
    assert xs[..k + 1][..k] == xs[..k] && hit[..k + 1][..k] == hit[..k];
  }

  /** Splicing in the last remaining copy doubles the last chosen element before `upto`. */
  lemma SpliceLast<X>(xs: seq<X>, hit: seq<bool>, upto: nat) returns (p: nat)
    requires |hit| == |xs| && upto <= |xs| && CopiesOf(xs[..upto], hit[..upto]) != []
    ensures p < upto && CopiesOf(xs[..upto], hit[..upto]) == CopiesOf(xs[..p], hit[..p]) + [(p + 1, xs[p])]
    ensures var q := xs[..upto] + Doubled(xs[upto..], hit[upto..]);
      xs[..p] + Doubled(xs[p..], hit[p..]) == q[..p + 1] + [xs[p]] + q[p + 1..]
    ensures Hits(hit[p..]) == 1 + Hits(hit[upto..])
  {
    hide CopiesOf, Doubled, Hits;
    p := LastCopy(xs[..upto], hit[..upto]);
    assert xs[..upto][..p] == xs[..p] && hit[..upto][..p] == hit[..p];
    forall i | p < i < upto ensures !hit[i] {
      assert hit[..upto][i] == hit[i];
    }
    SkipUnhit(xs, hit, p + 1, upto);
    DoubleOne(xs, hit, p);
  }

  /** With no copy left to splice in, everything before `upto` stays single. */
  lemma NothingToSplice<X>(xs: seq<X>, hit: seq<bool>, upto: nat)
    requires |hit| == |xs| && upto <= |xs| && CopiesOf(xs[..upto], hit[..upto]) == []
    ensures xs[..upto] + Doubled(xs[upto..], hit[upto..]) == Doubled(xs, hit)
    ensures Hits(hit[upto..]) == Hits(hit)
  {
    hide CopiesOf, Doubled, Hits;
    NoCopiesNoHits(xs[..upto], hit[..upto]);
    forall i | 0 <= i < upto ensures !hit[i] {
      assert hit[..upto][i] == hit[i];
    }
    SkipUnhit(xs, hit, 0, upto);
    assert xs[0..] == xs && hit[0..] == hit;
  }

  lemma NothingLeft<X>(xs: seq<X>, hit: seq<bool>)
    requires |hit| == |xs|
    ensures xs == xs[..|xs|] + Doubled(xs[|xs|..], hit[|xs|..]) && Hits(hit[|xs|..]) == 0
      && CopiesOf(xs[..0], hit[..0]) == []
    ensures xs[..|xs|] == xs && hit[..|xs|] == hit
  {
  }
}

/** The network object, updated in place. */
module Network {
  import opened Texts
  import opened NetworkSpec

  class SimNetwork<T> {
    var queue: seq<Message<T>>
    var partitions: set<(Text, Text)>
    var counters: Stats
    const maxQueueSize: Option<nat>

    function State(): Net<T>
      reads this
    {
      Net(queue, partitions, maxQueueSize, counters)
    }

    constructor (maxQueueSize: Option<nat>)
      ensures State() == Net([], {}, maxQueueSize, ZeroStats)
    {
      this.maxQueueSize := maxQueueSize;
      queue, partitions, counters := [], {}, ZeroStats;
    }

    method Send(message: Message<T>)
      modifies this
      ensures State() == NetworkSpec.Send(old(State()), message)
    {
      if PairKey(message.from, message.to) in partitions {
        counters := counters.(dropped := counters.dropped + 1);
        return;
      }
      if maxQueueSize.Some? && |queue| >= maxQueueSize.value {
        if |queue| > 0 {
          queue := queue[1..];
        }
        counters := counters.(dropped := counters.dropped + 1);
      }
      queue := queue + [message];
    }

    method Tick() returns (message: Option<Message<T>>)
      modifies this
      ensures (State(), message) == NetworkSpec.Tick(old(State()))
    {
      if |queue| == 0 {
        return None;
      }
      message := Some(queue[0]);
      queue := queue[1..];
      counters := counters.(delivered := counters.delivered + 1);
    }

    /** Splices out each chosen position, last first. */
    method Drop(hit: seq<bool>)
      requires |hit| == |queue|
      modifies this
      ensures State() == NetworkSpec.Drop(old(State()), hit)
    {
      hide Spared, Hits;
      ghost var was := queue;
      NothingSparedYet(was, hit);
      var index := |queue|;
      while index > 0
        invariant 0 <= index <= |was| && |queue| >= index
        invariant queue == was[..index] + Spared(was[index..], hit[index..])
        invariant State() == old(State()).(queue := queue,
          counters := old(counters).(dropped := old(counters).dropped + Hits(hit[index..])))
      {
        index := index - 1;
        SpareStep(was, hit, index);
        if hit[index] {
          queue := queue[..index] + queue[index + 1..];
          counters := counters.(dropped := counters.dropped + 1);
        }
      }
      assert was[0..] == was && hit[0..] == hit && was[..0] == [];
    }

    /** Collects the chosen messages, then splices each copy in after its original, last first. */
    method Duplicate(hit: seq<bool>)
      requires |hit| == |queue|
      modifies this
      ensures State() == NetworkSpec.Duplicate(old(State()), hit)
    {
      hide CopiesOf, Doubled, Hits;
      ghost var was := queue;
      NothingLeft(was, hit);
      var copies: seq<(nat, Message<T>)> := [];
      for index := 0 to |queue|
        invariant unchanged(this)
        invariant copies == CopiesOf(was[..index], hit[..index])
      {
        CopiesStep(was, hit, index);
        if hit[index] {
          copies := copies + [(index + 1, queue[index])];
        }
      }
      ghost var upto: nat := |was|;
      var c := |copies|;
      while c > 0
        invariant 0 <= c <= |copies| && upto <= |was| && copies[..c] == CopiesOf(was[..upto], hit[..upto])
        invariant queue == was[..upto] + Doubled(was[upto..], hit[upto..])
        invariant State() == old(State()).(queue := queue,
          counters := old(counters).(duplicated := old(counters).duplicated + Hits(hit[upto..])))
      {
        c := c - 1;
        ghost var p := SpliceLast(was, hit, upto);
        assert copies[..c + 1] == copies[..c] + [copies[c]];
        queue := queue[..copies[c].0] + [copies[c].1] + queue[copies[c].0..];
        counters := counters.(duplicated := counters.duplicated + 1);
        upto := p;
      }
      NothingToSplice(was, hit, upto);
    }

    method Reorder(left: nat, right: nat)
      requires |queue| >= 2 ==> left < |queue| && right < |queue|
      modifies this
      ensures State() == NetworkSpec.Reorder(old(State()), left, right)
    {
      if |queue| < 2 { return; }
      var other := if left == right then (right + 1) % |queue| else right;
      var tmp := queue[left];
      queue := queue[left := queue[other]];
      queue := queue[other := tmp];
      counters := counters.(reordered := counters.reordered + 1);
    }

    method Partition(peerA: Text, peerB: Text)
      modifies this
      ensures State() == NetworkSpec.Partition(old(State()), peerA, peerB)
    {
      partitions := partitions + {PairKey(peerA, peerB)};
      counters := counters.(partitions := counters.partitions + 1);
    }

    method Heal()
      modifies this
      ensures State() == NetworkSpec.Heal(old(State()))
    {
      partitions := {};
      counters := counters.(heals := counters.heals + 1);
    }
  }
}
