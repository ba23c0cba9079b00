/** What every run of allReduce comes to. */
module AllReduceProof {
  import opened Wrappers
  import opened Network
  import opened OrderedTree
  import opened AllReduce
  import opened AllReduceRun
  import opened AllReduceRound

  // ----- the reference: reduce what the nodes bring in node order, leaf by leaf -----

  ghost predicate Associative<T(!new)>(reduce: (T, T) -> T) {
    forall a, b, c :: reduce(reduce(a, b), c) == reduce(a, reduce(b, c))
  }

  ghost predicate SameWidth<T>(vs: seq<seq<T>>, w: nat) {
    forall j :: 0 <= j < |vs| ==> |vs[j]| == w
  }

  /** ((x1 reduced with x2) reduced with x3) ... reduced with xn. */
  ghost function Fold<T>(reduce: (T, T) -> T, xs: seq<T>): T
    requires |xs| > 0
  {
    if |xs| == 1 then xs[0] else reduce(Fold(reduce, xs[..|xs| - 1]), xs[|xs| - 1])
  }

  /** Every value has w leaves, and a node that ends without a value of its own has a last one. */
  ghost predicate WellPlanned<T>(job: Job<T>, w: nat) {
    && job.tree.n >= 2 && |job.plans| == job.tree.n
    && (forall j :: 0 <= j < |job.plans| ==> SameWidth(job.plans[j].plain, w) && ProperEnding(job.plans[j], w))
  }

  ghost predicate ProperEnding<T>(plan: Plan<T>, w: nat) {
    match plan.ending
    case Stop => true
    case Zero(Some(v)) => |v| == w
    case Zero(None) => |plan.plain| >= 1
  }

  /** Every node is in a call in round r. */
  ghost predicate Active<T>(job: Job<T>, r: nat) {
    forall j :: 0 <= j < |job.plans| ==> r < |job.plans[j].plain| || job.plans[j].ending.Zero?
  }

  /** All rounds before r have every node in a call. */
  ghost predicate ActiveBefore<T>(job: Job<T>, r: nat) {
    forall k: nat :: k < r ==> Active(job, k)
  }

  /** Leaf i of what node j brings to round r: that of its plain call number r; once it has none left,
      `zero` of the leaf it gave with its zero call, and from then on (or at once, if it gave none)
      `zero` of what the round before left. */
  ghost function Brings<T>(job: Job<T>, w: nat, j: nat, r: nat, i: nat): T
    requires WellPlanned(job, w) && ActiveBefore(job, r + 1) && j < |job.plans| && i < w
    decreases r, 0
  {
    var plan := job.plans[j];
    assert Active(job, r) && ProperEnding(plan, w);
    if r < |plan.plain| then plan.plain[r][i]
    else if r == |plan.plain| && plan.ending.arg.Some? then job.zero(plan.ending.arg.value[i], i + 1)
    else job.zero(RoundLeaf(job, w, r - 1, i), i + 1)
  }

  /** Leaf i of what round r leaves at every node: the leaves brought, reduced in node order. */
  ghost function RoundLeaf<T>(job: Job<T>, w: nat, r: nat, i: nat): T
    requires WellPlanned(job, w) && ActiveBefore(job, r + 1) && i < w
    decreases r, 1
  {
    Fold(job.reduce, seq(|job.plans|, j requires 0 <= j < |job.plans| => Brings(job, w, j, r, i)))
  }

  /** The reference for round r, with no tree in it, leaf by leaf. */
  ghost function RoundValue<T>(job: Job<T>, w: nat, r: nat): (v: seq<T>)
    requires WellPlanned(job, w) && ActiveBefore(job, r + 1)
    ensures |v| == w
  {
    seq(w, i requires 0 <= i < w => RoundLeaf(job, w, r, i))
  }

  // ----- a subtree's total is the total of its interval -----

  function Range<T>(job: Job<T>, ps: seq<Payload<T>>, lo: nat, hi: nat): Payload<T>
    requires lo < hi <= |ps|
  {
    if hi == lo + 1 then ps[lo] else Merge(job, Range(job, ps, lo, hi - 1), ps[hi - 1])
  }

  ghost predicate Level<T>(ps: seq<Payload<T>>, w: nat) {
    forall j :: 0 <= j < |ps| ==> |ps[j].value| == w
  }

  lemma {:induction false} RangeWidth<T>(job: Job<T>, ps: seq<Payload<T>>, w: nat, lo: nat, hi: nat)
    requires lo < hi <= |ps| && Level(ps, w)
    ensures |Range(job, ps, lo, hi).value| == w
  {
    if hi > lo + 1 { RangeWidth(job, ps, w, lo, hi - 1); }
  }

  lemma MergeAssociates<T(!new)>(job: Job<T>, a: Payload<T>, b: Payload<T>, c: Payload<T>)
    requires Associative(job.reduce) && |a.value| == |b.value| == |c.value|
    ensures Merge(job, Merge(job, a, b), c) == Merge(job, a, Merge(job, b, c))
  {
    var l, r := Merge(job, Merge(job, a, b), c).value, Merge(job, a, Merge(job, b, c)).value;
    assert forall i :: 0 <= i < |a.value| ==> l[i] == r[i];
  }

  lemma {:induction false} RangeSplits<T(!new)>(job: Job<T>, ps: seq<Payload<T>>, w: nat, lo: nat, mid: nat, hi: nat)
    requires lo < mid < hi <= |ps| && Level(ps, w) && Associative(job.reduce)
    ensures Merge(job, Range(job, ps, lo, mid), Range(job, ps, mid, hi)) == Range(job, ps, lo, hi)
    decreases hi
  {
    if hi > mid + 1 {
      RangeSplits(job, ps, w, lo, mid, hi - 1);
      RangeWidth(job, ps, w, lo, mid);
      RangeWidth(job, ps, w, mid, hi - 1);
      MergeAssociates(job, Range(job, ps, lo, mid), Range(job, ps, mid, hi - 1), ps[hi - 1]);
    }
  }

  lemma {:induction false} MergedIsRange<T(!new)>(
    job: Job<T>, ps: seq<Payload<T>>, w: nat, end: nat -> nat, j: nat, k: nat)
    requires Contiguous(job.tree, end) && |ps| == job.tree.n && j < |ps| && k <= |Children(job.tree, j)|
    requires Level(ps, w) && Associative(job.reduce)
    ensures j < StartOf(Children(job.tree, j), end(j), k) <= |ps|
    ensures Merged(job, ps, j, k) == Range(job, ps, j, StartOf(Children(job.tree, j), end(j), k))
    decreases job.tree.n - j, k
  {
    var cs := Children(job.tree, j);
    ChildrenTile(job.tree, end, j);
    TilesAt(end, cs, j + 1, end(j), k);
    if k > 0 {
      var c := cs[k - 1];
      MergedIsRange(job, ps, w, end, j, k - 1);
      ChildrenTile(job.tree, end, c);
      MergedIsRange(job, ps, w, end, c, |Children(job.tree, c)|);
      RangeSplits(job, ps, w, j, c, end(c));
    }
  }

  /** The number of finished nodes among lo..hi-1. */
  function DoneIn<T>(ps: seq<Payload<T>>, lo: nat, hi: nat): nat
    requires lo <= hi <= |ps|
  {
    if lo == hi then 0 else DoneIn(ps, lo, hi - 1) + ps[hi - 1].numDone
  }

  lemma {:induction false} DoneSplits<T>(ps: seq<Payload<T>>, lo: nat, mid: nat, hi: nat)
    requires lo <= mid <= hi <= |ps|
    ensures DoneIn(ps, lo, mid) + DoneIn(ps, mid, hi) == DoneIn(ps, lo, hi)
  {
    if mid < hi { DoneSplits(ps, lo, mid, hi - 1); }
  }

  lemma {:induction false} MergedCounts<T>(f: Round<T>, w: nat, end: nat -> nat, j: nat, k: nat)
    requires Proper(f, w) && Contiguous(f.job.tree, end) && j < |f.ps| && k <= |Children(f.job.tree, j)|
    ensures j < StartOf(Children(f.job.tree, j), end(j), k) <= |f.ps|
    ensures Sum(f, j, k).numDone == DoneIn(f.ps, j, StartOf(Children(f.job.tree, j), end(j), k))
    decreases f.job.tree.n - j, k
  {
    if k == 0 {
      OwnCount(f, end, j);
    } else {
      var c := Children(f.job.tree, j)[k - 1];
      NextChild(f.job.tree, end, j, k - 1, c);
      MergedCounts(f, w, end, j, k - 1);
      SubCounts(f, w, end, c);
      CountsAdd(f, w, j, k);
      AddsUp(f.ps, j, c, end(c), Sum(f, j, k - 1).numDone, Sub(f, c).numDone);
    }
  }

  lemma {:induction false} SubCounts<T>(f: Round<T>, w: nat, end: nat -> nat, c: nat)
    requires Proper(f, w) && Contiguous(f.job.tree, end) && c < |f.ps| && c < end(c) <= |f.ps|
    ensures Sub(f, c).numDone == DoneIn(f.ps, c, end(c))
    decreases f.job.tree.n - c, |Children(f.job.tree, c)| + 1
  {
    MergedCounts(f, w, end, c, |Children(f.job.tree, c)|);
    ChildrenTile(f.job.tree, end, c);
    TilesAt(end, Children(f.job.tree, c), c + 1, end(c), |Children(f.job.tree, c)|);
  }

  lemma OwnCount<T>(f: Round<T>, end: nat -> nat, j: nat)
    requires Contiguous(f.job.tree, end) && |f.ps| == f.job.tree.n && j < |f.ps|
    ensures StartOf(Children(f.job.tree, j), end(j), 0) == j + 1 && Sum(f, j, 0).numDone == DoneIn(f.ps, j, j + 1)
  {
    ChildrenTile(f.job.tree, end, j);
    TilesAt(end, Children(f.job.tree, j), j + 1, end(j), 0);
    assert DoneIn(f.ps, j, j + 1) == DoneIn(f.ps, j, j) + f.ps[j].numDone;
  }

  lemma AddsUp<T>(ps: seq<Payload<T>>, lo: nat, mid: nat, hi: nat, a: nat, b: nat)
    requires lo <= mid <= hi <= |ps| && a == DoneIn(ps, lo, mid) && b == DoneIn(ps, mid, hi)
    ensures a + b == DoneIn(ps, lo, hi)
  {
    DoneSplits(ps, lo, mid, hi);
  }

  lemma CountsAdd<T>(f: Round<T>, w: nat, j: nat, k: nat)
    requires Proper(f, w) && j < |f.ps| && 0 < k <= |Children(f.job.tree, j)|
    ensures Sum(f, j, k).numDone == Sum(f, j, k - 1).numDone + Sub(f, Children(f.job.tree, j)[k - 1]).numDone
  {
    var c := Children(f.job.tree, j)[k - 1];
    SumWidth(f, w, j, k - 1);
    SumWidth(f, w, c, |Children(f.job.tree, c)|);
    assert Sum(f, j, k) == Merge(f.job, Sum(f, j, k - 1), Sub(f, c));
  }

  /** Leaf i of the total of the first hi payloads is the fold of their leaves i. */
  lemma {:induction false} RangeFolds<T>(job: Job<T>, ps: seq<Payload<T>>, w: nat, hi: nat, i: nat, xs: seq<T>)
    requires 0 < hi <= |ps| && Level(ps, w) && |xs| == hi && i < w
    requires forall j :: 0 <= j < hi ==> xs[j] == ps[j].value[i]
    ensures |Range(job, ps, 0, hi).value| == w && Range(job, ps, 0, hi).value[i] == Fold(job.reduce, xs)
  {
    if hi > 1 {
      RangeFolds(job, ps, w, hi - 1, i, xs[..hi - 1]);
    }
  }

  // ----- the value and the count of round r -----

  lemma ContributionWidth<T>(job: Job<T>, w: nat, j: nat, r: nat, last: seq<T>)
    requires WellPlanned(job, w) && Active(job, r) && (r > 0 ==> |last| == w) && j < |job.plans|
    ensures |Contribution(job, j, r, last)| == w
  {
    assert job.plans[j].plain == PlanOf(job, j).plain;
    assert ProperEnding(job.plans[j], w);
  }

  ghost function RoundOf<T>(job: Job<T>, r: nat): Round<T> {
    Round(job, r, Payloads(job, r, LastAfter(job, r)), seq(job.tree.n, (j: nat) => LogAfter(job, j, r)))
  }

  lemma {:induction false} RoundIsProper<T>(job: Job<T>, w: nat, r: nat)
    requires Rooted(job.tree) && WellPlanned(job, w) && ActiveBefore(job, r + 1)
    ensures Proper(RoundOf(job, r), w)
    ensures |Total(job, r).value| == w
  {
    if r > 0 {
      RoundIsProper(job, w, r - 1);
    }
    assert Active(job, r);
    var f := RoundOf(job, r);
    forall j | 0 <= j < |f.ps|
      ensures |f.ps[j].value| == w
    {
      ContributionWidth(job, w, j, r, LastAfter(job, r));
    }
    SumWidth(f, w, 0, |Children(job.tree, 0)|);
  }

  /** What node j puts into round r is, leaf by leaf, what it brings. */
  lemma ContributionIsBrought<T>(job: Job<T>, w: nat, j: nat, r: nat, i: nat, last: seq<T>)
    requires WellPlanned(job, w) && ActiveBefore(job, r + 1) && j < |job.plans| && i < w
    requires r > 0 ==> last == RoundValue(job, w, r - 1)
    ensures |Contribution(job, j, r, last)| == w && Contribution(job, j, r, last)[i] == Brings(job, w, j, r, i)
  {
    assert Active(job, r) && ProperEnding(job.plans[j], w);
    ContributionWidth(job, w, j, r, last);
  }

  lemma {:induction false} TotalIsRoundValue<T(!new)>(job: Job<T>, w: nat, end: nat -> nat, r: nat)
    requires Contiguous(job.tree, end) && WellPlanned(job, w) && ActiveBefore(job, r + 1) && Associative(job.reduce)
    ensures Total(job, r).value == RoundValue(job, w, r)
  {
    if r > 0 {
      TotalIsRoundValue(job, w, end, r - 1);
    }
    RoundIsProper(job, w, r);
    var f := RoundOf(job, r);
    MergedIsRange(job, f.ps, w, end, 0, |Children(job.tree, 0)|);
    forall i | 0 <= i < w
      ensures Total(job, r).value[i] == RoundLeaf(job, w, r, i)
    {
      RangeIsRoundLeaf(job, w, r, i, f.ps);
    }
  }

  lemma RangeIsRoundLeaf<T>(job: Job<T>, w: nat, r: nat, i: nat, ps: seq<Payload<T>>)
    requires WellPlanned(job, w) && ActiveBefore(job, r + 1) && i < w && Level(ps, w)
    requires ps == Payloads(job, r, LastAfter(job, r))
    requires r > 0 ==> LastAfter(job, r) == RoundValue(job, w, r - 1)
    ensures |Range(job, ps, 0, |ps|).value| == w && Range(job, ps, 0, |ps|).value[i] == RoundLeaf(job, w, r, i)
  {
    var xs := seq(|job.plans|, j requires 0 <= j < |job.plans| => Brings(job, w, j, r, i));
    forall j | 0 <= j < |ps|
      ensures xs[j] == ps[j].value[i]
    {
      ContributionIsBrought(job, w, j, r, i, LastAfter(job, r));
    }
    RangeFolds(job, ps, w, |ps|, i, xs);
  }

  /** The nodes below hi that still make a plain call in round r. */
  ghost function PlainBelow<T>(job: Job<T>, r: nat, hi: nat): set<nat>
    requires hi <= |job.plans|
  {
    set j: nat | j < hi && r < |job.plans[j].plain|
  }

  ghost function Contributors<T>(job: Job<T>, r: nat): set<nat> {
    PlainBelow(job, r, |job.plans|)
  }

  lemma PlainGrows<T>(job: Job<T>, r: nat, hi: nat)
    requires hi < |job.plans|
    ensures |PlainBelow(job, r, hi + 1)| == |PlainBelow(job, r, hi)| + if r < |job.plans[hi].plain| then 1 else 0
  {
    var before := PlainBelow(job, r, hi);
    assert PlainBelow(job, r, hi + 1) == if r < |job.plans[hi].plain| then before + {hi} else before;
  }

  lemma {:induction false} DoneIsRest<T>(job: Job<T>, ps: seq<Payload<T>>, r: nat, hi: nat)
    requires hi <= |job.plans| == |ps|
    requires forall j :: 0 <= j < |ps| ==> ps[j].numDone == if r < |job.plans[j].plain| then 0 else 1
    ensures DoneIn(ps, 0, hi) + |PlainBelow(job, r, hi)| == hi
  {
    if hi == 0 {
    } else {
      DoneIsRest(job, ps, r, hi - 1);
      PlainGrows(job, r, hi - 1);
    }
  }

  lemma TotalCounts<T>(job: Job<T>, w: nat, end: nat -> nat, r: nat)
    requires Contiguous(job.tree, end) && WellPlanned(job, w) && ActiveBefore(job, r + 1)
    ensures Total(job, r).numDone == job.tree.n - |Contributors(job, r)|
  {
    RoundIsProper(job, w, r);
    var f := RoundOf(job, r);
    MergedCounts(f, w, end, 0, |Children(job.tree, 0)|);
    DoneIsRest(job, f.ps, r, job.tree.n);
  }

  // ----- from round to round -----

  lemma RunOneRound<T>(job: Job<T>, w: nat, r: nat) returns (sched: seq<nat>, d: Nodes<T>)
    requires Rooted(job.tree) && WellPlanned(job, w) && ActiveBefore(job, r + 1)
    ensures Reaches(Processes(job), RoundStart(job, r), sched, d)
    ensures d.queues == map[] && |d.locals| == job.tree.n
    ensures forall j :: 0 <= j < |d.locals| ==> d.locals[j] == Ended(RoundOf(job, r), j)
  {
    RoundIsProper(job, w, r);
    assert Active(job, r);
    sched, d := RunRound(RoundOf(job, r), w, RoundStart(job, r));
  }

  lemma EndedIs<T>(job: Job<T>, r: nat, j: nat)
    requires j < job.tree.n
    ensures Ended(RoundOf(job, r), j) ==
            FinishRound(job, j, Local(r, Idle, Total(job, r).value, Total(job, r).numDone, LogAfter(job, j, r)))
  {
    assert Sub(RoundOf(job, r), 0) == Total(job, r);
  }

  lemma LogUnfolds<T>(job: Job<T>, r: nat, j: nat, t: Payload<T>)
    requires j < job.tree.n && t == Total(job, r) && (Zeroing(job, j, r) ==> t.numDone < job.tree.n)
    ensures LogAfter(job, j, r + 1) ==
            LogAfter(job, j, r) + if Zeroing(job, j, r) then [] else [Reply(t.value, job.tree.n - t.numDone)]
    ensures LastAfter(job, r + 1) == t.value
  {
  }

  lemma EndStartsNext<T>(job: Job<T>, r: nat, j: nat)
    requires j < job.tree.n
    requires Zeroing(job, j, r) ==> Total(job, r).numDone < job.tree.n
    ensures Ended(RoundOf(job, r), j) == EnterRound(job, j, r + 1, LastAfter(job, r + 1), LogAfter(job, j, r + 1))
  {
    var t := Total(job, r);
    EndedIs(job, r, j);
    LogUnfolds(job, r, j, t);
    NextLog(job, j, r, LogAfter(job, j, r), t);
  }

  lemma NextLog<T>(job: Job<T>, j: nat, r: nat, log: seq<Reply<T>>, t: Payload<T>)
    requires Zeroing(job, j, r) ==> t.numDone < job.tree.n
    ensures var more := if Zeroing(job, j, r) then [] else [Reply(t.value, job.tree.n - t.numDone)];
            FinishRound(job, j, Local(r, Idle, t.value, t.numDone, log)) ==
              EnterRound(job, j, r + 1, t.value, log + more)
  {
    assert log + [] == log;
  }

  /** Some node is still making plain calls, or nobody is zeroing. */
  ghost predicate GoesOn<T>(job: Job<T>, r: nat) {
    forall j :: 0 <= j < |job.plans| && Zeroing(job, j, r) ==> |Contributors(job, r)| > 0
  }

  lemma RunToNextRound<T>(job: Job<T>, w: nat, end: nat -> nat, r: nat) returns (sched: seq<nat>)
    requires Contiguous(job.tree, end) && WellPlanned(job, w) && ActiveBefore(job, r + 1) && GoesOn(job, r)
    ensures Reaches(Processes(job), RoundStart(job, r), sched, RoundStart(job, r + 1))
  {
    var d;
    sched, d := RunOneRound(job, w, r);
    TotalCounts(job, w, end, r);
    forall j | 0 <= j < job.tree.n
      ensures d.locals[j] == RoundStart(job, r + 1).locals[j]
    {
      EndStartsNext(job, r, j);
    }
    assert d.locals == RoundStart(job, r + 1).locals;
  }

  lemma RunRounds<T>(job: Job<T>, w: nat, end: nat -> nat, r: nat) returns (sched: seq<nat>)
    requires Contiguous(job.tree, end) && WellPlanned(job, w) && ActiveBefore(job, r)
    requires forall k: nat :: k < r ==> GoesOn(job, k)
    ensures Reaches(Processes(job), Initial(job), sched, RoundStart(job, r))
  {
    var starts := (k: nat) => RoundStart(job, k);
    forall k: nat | k < r
      ensures StepOf(Processes(job), starts, k)
    {
      assert ActiveBefore(job, k + 1) && GoesOn(job, k);
      var s := RunToNextRound(job, w, end, k);
    }
    sched := Chain(Processes(job), starts, r);
  }

  // ----- every run, when all nodes make the same number of plain calls -----

  ghost predicate EvenCalls<T>(job: Job<T>, calls: nat) {
    forall j :: 0 <= j < |job.plans| ==> job.plans[j].ending.Stop? && |job.plans[j].plain| == calls
  }

  /** No node has a call left, and nothing is in flight. */
  ghost predicate Finished<T>(c: Nodes<T>) {
    c.queues == map[] && forall j :: 0 <= j < |c.locals| ==> c.locals[j].phase.Idle?
  }

  lemma FinishedIsQuiescent<T>(job: Job<T>, c: Nodes<T>)
    requires Finished(c)
    ensures Quiescent(Processes(job), c)
  {
    Halted(Processes(job), c);
  }

  lemma EvenRuns<T>(job: Job<T>, w: nat, end: nat -> nat, calls: nat) returns (sched: seq<nat>)
    requires Contiguous(job.tree, end) && WellPlanned(job, w) && EvenCalls(job, calls)
    ensures Reaches(Processes(job), Initial(job), sched, RoundStart(job, calls))
    ensures Finished(RoundStart(job, calls))
  {
    sched := RunRounds(job, w, end, calls);
  }

  /** What round r adds to node j's log. */
  lemma EvenRound<T(!new)>(job: Job<T>, w: nat, end: nat -> nat, calls: nat, j: nat, r: nat)
    requires Contiguous(job.tree, end) && WellPlanned(job, w) && EvenCalls(job, calls) && Associative(job.reduce)
    requires r < calls && j < job.tree.n
    ensures ActiveBefore(job, r + 1)
    ensures LogAfter(job, j, r + 1) == LogAfter(job, j, r) + [Reply(RoundValue(job, w, r), job.tree.n)]
  {
    assert ActiveBefore(job, r + 1);
    TotalIsRoundValue(job, w, end, r);
    TotalCounts(job, w, end, r);
    EvenContributors(job, calls, r);
    LogUnfolds(job, r, j, Total(job, r));
  }

  lemma {:induction false} EvenLog<T(!new)>(job: Job<T>, w: nat, end: nat -> nat, calls: nat, j: nat, r: nat)
    requires Contiguous(job.tree, end) && WellPlanned(job, w) && EvenCalls(job, calls) && Associative(job.reduce)
    requires r <= calls && j < job.tree.n
    ensures ActiveBefore(job, r)
    ensures LogsAll(job, w, r, LogAfter(job, j, r))
  {
    if r == 0 {
    } else {
      EvenLog(job, w, end, calls, j, r - 1);
      EvenRound(job, w, end, calls, j, r - 1);
      EvenLogStep(job, w, r - 1, LogAfter(job, j, r - 1), LogAfter(job, j, r));
    }
  }

  /** The log has an entry for each of the first r rounds, in which every node contributed. */
  ghost predicate LogsAll<T>(job: Job<T>, w: nat, r: nat, log: seq<Reply<T>>)
    requires WellPlanned(job, w) && ActiveBefore(job, r)
  {
    |log| == r && forall k: nat :: k < r ==> log[k] == Reply(RoundValue(job, w, k), job.tree.n)
  }

  lemma EvenLogStep<T>(job: Job<T>, w: nat, r: nat, log: seq<Reply<T>>, next: seq<Reply<T>>)
    requires WellPlanned(job, w) && ActiveBefore(job, r + 1) && LogsAll(job, w, r, log)
    requires next == log + [Reply(RoundValue(job, w, r), job.tree.n)]
    ensures LogsAll(job, w, r + 1, next)
  {
  }

  lemma EvenContributors<T>(job: Job<T>, calls: nat, r: nat)
    requires EvenCalls(job, calls) && r < calls
    ensures |Contributors(job, r)| == |job.plans|
  {
    EvenPlain(job, calls, r, |job.plans|);
  }

  lemma {:induction false} EvenPlain<T>(job: Job<T>, calls: nat, r: nat, hi: nat)
    requires EvenCalls(job, calls) && r < calls && hi <= |job.plans|
    ensures |PlainBelow(job, r, hi)| == hi
  {
    if hi == 0 {
    } else {
      EvenPlain(job, calls, r, hi - 1);
      PlainGrows(job, r, hi - 1);
    }
  }

  /** Whatever the schedule, every run ends, and when it has ended every call of every node has
      returned the tables of all nodes reduced in node order, and every node holds the last
      of them.  Nothing but associativity is asked of `reduce`. */
  lemma EvenAllReduce<T(!new)>(job: Job<T>, w: nat, end: nat -> nat, calls: nat) returns (total: nat, e: Nodes<T>)
    requires Contiguous(job.tree, end) && WellPlanned(job, w) && EvenCalls(job, calls) && Associative(job.reduce)
    ensures AlwaysEnds(Processes(job), Initial(job), e, total) && Finished(e)
    ensures |e.locals| == job.tree.n && ActiveBefore(job, calls)
    ensures forall j :: 0 <= j < job.tree.n ==>
              && LogsAll(job, w, calls, e.locals[j].log)
              && (calls > 0 ==> e.locals[j].value == RoundValue(job, w, calls - 1))
  {
    var sched := EvenRuns(job, w, end, calls);
    e := RoundStart(job, calls);
    total := |sched|;
    FinishedIsQuiescent(job, e);
    OneRunIsEnough(Processes(job), Initial(job), sched, e);
    forall j | 0 <= j < job.tree.n
      ensures e.locals[j].log == LogAfter(job, j, calls)
      ensures ActiveBefore(job, calls) && LogsAll(job, w, calls, e.locals[j].log)
    {
      EvenLog(job, w, end, calls, j, calls);
    }
    if calls > 0 {
      TotalIsRoundValue(job, w, end, calls - 1);
    }
  }

  /** Leaf i of all nodes' tables in their call number r, in node order. */
  ghost function Leaves<T>(job: Job<T>, w: nat, calls: nat, r: nat, i: nat): seq<T>
    requires WellPlanned(job, w) && EvenCalls(job, calls) && r < calls && i < w
  {
    seq(|job.plans|, j requires 0 <= j < |job.plans| => job.plans[j].plain[r][i])
  }

  /** When everybody makes as many calls, call number r reduces the tables given to it. */
  lemma EvenRoundLeaf<T>(job: Job<T>, w: nat, calls: nat, r: nat, i: nat)
    requires WellPlanned(job, w) && EvenCalls(job, calls) && r < calls && i < w
    ensures ActiveBefore(job, r + 1)
    ensures RoundValue(job, w, r)[i] == Fold(job.reduce, Leaves(job, w, calls, r, i))
  {
    assert ActiveBefore(job, r + 1);
    var brought := seq(|job.plans|, j requires 0 <= j < |job.plans| => Brings(job, w, j, r, i));
    assert brought == Leaves(job, w, calls, r, i);
  }

  /** What one allReduce leaves at every node: x1 reduced with x2 ... reduced with xn at every leaf, held
      and handed to the caller. */
  ghost predicate AllReduced<T>(job: Job<T>, w: nat, e: Nodes<T>)
    requires WellPlanned(job, w) && EvenCalls(job, 1)
  {
    && |e.locals| == job.tree.n
    && (forall j :: 0 <= j < job.tree.n ==>
          && |e.locals[j].value| == w && e.locals[j].log == [Reply(e.locals[j].value, job.tree.n)])
    && (forall j, i :: 0 <= j < job.tree.n && 0 <= i < w ==>
          e.locals[j].value[i] == Fold(job.reduce, Leaves(job, w, 1, 0, i)))
  }

  /** One allReduce: whatever the schedule, the run ends, and has reduced in node order. */
  lemma OneAllReduce<T(!new)>(job: Job<T>, w: nat, end: nat -> nat) returns (total: nat, e: Nodes<T>)
    requires Contiguous(job.tree, end) && WellPlanned(job, w) && EvenCalls(job, 1) && Associative(job.reduce)
    ensures AlwaysEnds(Processes(job), Initial(job), e, total) && Finished(e)
    ensures AllReduced(job, w, e)
  {
    total, e := EvenAllReduce(job, w, end, 1);
    var v := RoundValue(job, w, 0);
    forall i | 0 <= i < w
      ensures v[i] == Fold(job.reduce, Leaves(job, w, 1, 0, i))
    {
      EvenRoundLeaf(job, w, 1, 0, i);
    }
    forall j | 0 <= j < job.tree.n
      ensures e.locals[j].log == [Reply(v, job.tree.n)]
    {
      assert e.locals[j].log[0] == Reply(v, job.tree.n);
    }
  }

  /** On the binary tree, for every number of nodes. */
  lemma BinaryAllReduce<T(!new)>(job: Job<T>, w: nat) returns (total: nat, e: Nodes<T>)
    requires job.tree == BinaryTree(job.tree.n) && WellPlanned(job, w) && EvenCalls(job, 1) && Associative(job.reduce)
    ensures AlwaysEnds(Processes(job), Initial(job), e, total) && Finished(e)
    ensures AllReduced(job, w, e)
  {
    BinaryIsContiguous(job.tree.n);
    total, e := OneAllReduce(job, w, BinaryEnd(job.tree.n));
  }

  /** On the tree of a wider base, as far as it spans. */
  lemma WideAllReduce<T(!new)>(job: Job<T>, w: nat, b: nat) returns (total: nat, e: Nodes<T>)
    requires b > 2 && job.tree == WideTree(b, job.tree.n) && job.tree.n <= 2 * b
    requires WellPlanned(job, w) && EvenCalls(job, 1) && Associative(job.reduce)
    ensures AlwaysEnds(Processes(job), Initial(job), e, total) && Finished(e)
    ensures AllReduced(job, w, e)
  {
    WideIsContiguous(b, job.tree.n);
    total, e := OneAllReduce(job, w, WideEnd(b, job.tree.n));
  }

  // ----- every run, when nodes end at different times -----

  /** Every node ends with a zero call; `most` is the largest number of plain calls. */
  ghost predicate UnevenCalls<T>(job: Job<T>, most: nat) {
    && (forall j :: 0 <= j < |job.plans| ==> job.plans[j].ending.Zero? && |job.plans[j].plain| <= most)
    && (exists j :: 0 <= j < |job.plans| && |job.plans[j].plain| == most)
  }

  lemma SomeoneContributes<T>(job: Job<T>, most: nat, r: nat)
    requires UnevenCalls(job, most)
    ensures |Contributors(job, r)| > 0 <==> r < most
  {
    if r < most {
      var j :| 0 <= j < |job.plans| && |job.plans[j].plain| == most;
      assert j in Contributors(job, r);
    } else {
      assert Contributors(job, r) == {};
    }
  }

  lemma {:induction false} UnevenLog<T(!new)>(job: Job<T>, w: nat, end: nat -> nat, most: nat, j: nat, r: nat)
    requires Contiguous(job.tree, end) && WellPlanned(job, w) && UnevenCalls(job, most) && Associative(job.reduce)
    requires r <= most && j < job.tree.n
    ensures ActiveBefore(job, r)
    ensures LogsPlain(job, w, j, r, LogAfter(job, j, r))
  {
    if r == 0 {
    } else {
      UnevenLog(job, w, end, most, j, r - 1);
      UnevenRound(job, w, end, most, j, r - 1);
      UnevenLogStep(job, w, j, r - 1, LogAfter(job, j, r - 1), LogAfter(job, j, r));
    }
  }

  /** What round r adds to node j's log. */
  lemma UnevenRound<T(!new)>(job: Job<T>, w: nat, end: nat -> nat, most: nat, j: nat, r: nat)
    requires Contiguous(job.tree, end) && WellPlanned(job, w) && UnevenCalls(job, most) && Associative(job.reduce)
    requires r < most && j < job.tree.n
    ensures ActiveBefore(job, r + 1)
    ensures LogAfter(job, j, r + 1) ==
            LogAfter(job, j, r) + if Zeroing(job, j, r) then []
              else [Reply(RoundValue(job, w, r), |Contributors(job, r)|)]
  {
    assert ActiveBefore(job, r + 1);
    TotalIsRoundValue(job, w, end, r);
    TotalCounts(job, w, end, r);
    SomeoneContributes(job, most, r);
    LogUnfolds(job, r, j, Total(job, r));
  }

  /** The log has an entry for every plain call among the first r rounds. */
  ghost predicate LogsPlain<T>(job: Job<T>, w: nat, j: nat, r: nat, log: seq<Reply<T>>)
    requires WellPlanned(job, w) && ActiveBefore(job, r) && j < |job.plans|
  {
    && |log| == (if r <= |job.plans[j].plain| then r else |job.plans[j].plain|)
    && forall k: nat :: k < |log| ==> log[k] == Reply(RoundValue(job, w, k), |Contributors(job, k)|)
  }

  lemma UnevenLogStep<T>(job: Job<T>, w: nat, j: nat, r: nat, log: seq<Reply<T>>, next: seq<Reply<T>>)
    requires WellPlanned(job, w) && ActiveBefore(job, r + 1) && j < |job.plans| && LogsPlain(job, w, j, r, log)
    requires next == log + if Zeroing(job, j, r) then [] else [Reply(RoundValue(job, w, r), |Contributors(job, r)|)]
    ensures LogsPlain(job, w, j, r + 1, next)
  {
  }

  lemma UnevenRuns<T>(job: Job<T>, w: nat, end: nat -> nat, most: nat) returns (sched: seq<nat>, e: Nodes<T>)
    requires Contiguous(job.tree, end) && WellPlanned(job, w) && UnevenCalls(job, most)
    ensures Reaches(Processes(job), Initial(job), sched, e)
    ensures |e.locals| == job.tree.n && e.queues == map[]
    ensures forall j :: 0 <= j < job.tree.n ==> e.locals[j] == LastLocal(job, most, j)
  {
    forall k: nat | k < most
      ensures GoesOn(job, k)
    {
      SomeoneContributes(job, most, k);
    }
    var first := RunRounds(job, w, end, most);
    var last;
    last, e := RunOneRound(job, w, most);
    sched := first + last;
    Then(Processes(job), Initial(job), first, RoundStart(job, most), last, e);
    forall j | 0 <= j < job.tree.n
      ensures e.locals[j] == LastLocal(job, most, j)
    {
      LastRoundEnds(job, w, end, most, j);
    }
  }

  /** A node after the round in which everybody was done. */
  ghost function LastLocal<T>(job: Job<T>, most: nat, j: nat): Local<T>
    requires job.tree.n > 0
  {
    var t := Total(job, most);
    Local(most + 1, Idle, t.value, job.tree.n, LogAfter(job, j, most) + [Reply(t.value, 0)])
  }

  lemma LastRoundEnds<T>(job: Job<T>, w: nat, end: nat -> nat, most: nat, j: nat)
    requires Contiguous(job.tree, end) && WellPlanned(job, w) && UnevenCalls(job, most) && j < job.tree.n
    ensures Ended(RoundOf(job, most), j) == LastLocal(job, most, j)
  {
    TotalCounts(job, w, end, most);
    SomeoneContributes(job, most, most);
    EndedIs(job, most, j);
  }

  /** Uneven endings.  Whatever the schedule, every run ends after most + 1 rounds of every
      node.  The plain call number k of any node returns the reduction of that round, in
      which the finished nodes contributed zeros, and how many nodes were not finished; the
      closing zero call returns the last round's reduction and 0. */
  lemma UnevenAllReduce<T(!new)>(job: Job<T>, w: nat, end: nat -> nat, most: nat) returns (total: nat, e: Nodes<T>)
    requires Contiguous(job.tree, end) && WellPlanned(job, w) && UnevenCalls(job, most) && Associative(job.reduce)
    ensures AlwaysEnds(Processes(job), Initial(job), e, total) && Finished(e)
    ensures |e.locals| == job.tree.n && ActiveBefore(job, most + 1)
    ensures forall j :: 0 <= j < job.tree.n ==>
              && e.locals[j].round == most + 1 && e.locals[j].value == RoundValue(job, w, most)
              && UnevenReplies(job, w, most, j, e.locals[j].log)
  {
    var sched;
    sched, e := UnevenRuns(job, w, end, most);
    total := |sched|;
    FinishedIsQuiescent(job, e);
    OneRunIsEnough(Processes(job), Initial(job), sched, e);
    TotalIsRoundValue(job, w, end, most);
    forall j | 0 <= j < job.tree.n
      ensures UnevenReplies(job, w, most, j, e.locals[j].log)
    {
      UnevenLog(job, w, end, most, j, most);
    }
  }

  /** What node j's calls have returned, the zero call last. */
  ghost predicate UnevenReplies<T>(job: Job<T>, w: nat, most: nat, j: nat, log: seq<Reply<T>>)
    requires WellPlanned(job, w) && ActiveBefore(job, most + 1) && j < |job.plans| && |job.plans[j].plain| <= most
  {
    var calls := |job.plans[j].plain|;
    && |log| == calls + 1
    && log[calls] == Reply(RoundValue(job, w, most), 0)
    && forall k: nat :: k < calls ==> log[k] == Reply(RoundValue(job, w, k), |Contributors(job, k)|)
  }
}
