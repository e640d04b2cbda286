// The capacity over a run, and what growing to it costs.
module Costs {
  import opened Allocation
  import opened Sequences
  import opened Growing
  import opened Model
  import opened Conservation

  // A state that a deque can be in: what it holds fits, and its capacity is a rounded one.
  predicate Reachable<T>(lay: Layout, s: State<T>)
    requires lay.Ok()
  {
    |s.elems| <= s.cap == Capacity(lay, s.cap)
  }

  // How much longer a call makes the contents at most.
  function More<T>(op: Op<T>): (n: nat) {
    if op.Extend? || op.Splice? then |op.xs| else if op.Reserve? then 0 else Room(op)
  }

  lemma RoomIsEnough<T>(c: seq<T>, op: Op<T>, stale: T, tail: Option<seq<T>>)
    requires Legal(c, op) && (op.Splice? && tail.Some? ==> |tail.value| == |c| - op.b)
    ensures |After(c, op, stale, tail)| <= |c| + More(op)
    ensures op.Splice? ==> |After(c, op, stale, tail)| == |c| - (op.b - op.a) + |op.xs|
  {
    if op.DedupBy? || op.Retain? || op.DrainFilter? {
      hide Filter, Dedup;
    }
  }

  lemma EffectStaysReachable<T>(lay: Layout, s: State<T>, op: Op<T>, ans: Answer<T>)
    requires lay.Ok() && Reachable(lay, s) && Legal(s.elems, op)
    ensures var t := Effect(lay, s, op, ans);
            && Reachable(lay, t)
            && (!op.ShrinkToFit? ==> s.cap <= t.cap)
            && (op.ShrinkToFit? ==> t.cap <= s.cap)
  {
    hide Capacity, After, HandedBack, Discarded, Twice, Extending, LosesTail, SpliceGrowth;
    var n, g := |s.elems|, Growth(s.cap, s.copied, 0);
    RoomIsEnough(s.elems, op, ans.stale, NewTail(s, op, ans));
    if op.Extend? {
      ExtendingFits(lay, n, g, op.lower, op.upper, 0, |op.xs|);
    } else if op.Splice? {
      if op.b < n {
        SpliceHasRoom(lay, RequestOf(s, op), n - op.b);
      } else {
        ExtendingFits(lay, op.a, g, op.lower, op.upper, 0, |op.xs|);
      }
    } else if op.ShrinkToFit? {
      CapacityIsClosure(lay, n);
      CapacityMonotone(lay, n, s.cap);
    } else {
      CapacityIsClosure(lay, GrowPolicy(n, s.cap, Room(op)));
    }
  }

  lemma FailureStaysReachable<T>(lay: Layout, s: State<T>, op: Op<T>, ans: Answer<T>)
    requires lay.Ok() && Reachable(lay, s) && Halts(s, op, ans)
    ensures var t := Failure(lay, s, op, ans).0; Reachable(lay, t) && s.cap <= t.cap
  {
    hide Capacity, After, HandedBack, Discarded, Extending, LosesTail, HintedGrowth;
    var n, g, placed := |s.elems|, Growth(s.cap, s.copied, 0), Halt(s, op, ans).0;
    CutIsLegal(s.elems, op, placed);
    RoomIsEnough(s.elems, Cut(op, placed), ans.stale, NewTail(s, op, ans));
    if HasTail(s, op) {
      SpliceHasRoom(lay, RequestOf(s, op), n - op.b);
    } else {
      ExtendingFits(lay, if op.Extend? then n else op.a, g, op.lower, op.upper, 0, placed);
    }
  }

  lemma CutIsLegal<T>(c: seq<T>, op: Op<T>, n: nat)
    requires (op.Extend? || op.Splice?) && Legal(c, op) && n <= |op.xs|
    ensures var less := Cut(op, n);
            && Legal(c, less) && less.Splice? == op.Splice? && less.Extend? == op.Extend? && |less.xs| == n
            && (op.Splice? ==> less.a == op.a && less.b == op.b)
  {}

  lemma StepStaysReachable<T>(lay: Layout, s: State<T>, op: Op<T>, ans: Answer<T>)
    requires lay.Ok() && Reachable(lay, s)
    ensures Reachable(lay, Step(lay, s, op, ans).0)
    ensures !op.ShrinkToFit? ==> s.cap <= Step(lay, s, op, ans).0.cap
    ensures op.ShrinkToFit? ==> Step(lay, s, op, ans).0.cap <= s.cap
  {
    hide Reachable, Effect, Failure, Made, Legal, Halts, HandedBack;
    HaltsWhen(s, op, ans);
    if Made(s, op, ans) {
      EffectStaysReachable(lay, s, op, ans);
    } else if Halts(s, op, ans) {
      FailureStaysReachable(lay, s, op, ans);
    } else if Legal(s.elems, op) {
      RefusalIsPlain(lay, s, op, ans);
    }
  }

  lemma RefusalIsPlain<T>(lay: Layout, s: State<T>, op: Op<T>, ans: Answer<T>)
    requires lay.Ok() && Legal(s.elems, op) && !Made(s, op, ans) && !Halts(s, op, ans)
    ensures Failure(lay, s, op, ans) == (s, Denied([], []))
  {
    hide Legal, Made;
  }

  lemma {:induction false} RunStaysReachable<T>(lay: Layout, s: State<T>, ops: seq<Op<T>>, answers: seq<Answer<T>>)
    requires lay.Ok() && |answers| == |ops| && Reachable(lay, s)
    ensures Reachable(lay, Run(lay, s, ops, answers).0)
    decreases |ops|
  {
    if ops != [] {
      hide Reachable, Step;
      RunStaysReachable(lay, s, ButLast(ops), ButLast(answers));
      StepStaysReachable(lay, Run(lay, s, ButLast(ops), ButLast(answers)).0, Last(ops), Last(answers));
    }
  }

  // A call that makes room only for what comes, and not before a tail.
  predicate ByNeed<T>(s: State<T>, op: Op<T>, ans: Answer<T>) {
    !op.Reserve? && !op.ShrinkToFit? && !(op.Splice? && Exposes(s, op, ans))
  }

  predicate ByNeedAt<T>(lay: Layout, s: State<T>, ops: seq<Op<T>>, answers: seq<Answer<T>>, k: nat)
    requires lay.Ok() && |answers| == |ops| && k < |ops|
  {
    ByNeed(StateAt(lay, s, ops, answers, k), ops[k], answers[k])
  }

  ghost predicate GrowsByNeed<T>(lay: Layout, s: State<T>, ops: seq<Op<T>>, answers: seq<Answer<T>>)
    requires lay.Ok() && |answers| == |ops|
  {
    forall k | 0 <= k < |ops| :: ByNeedAt(lay, s, ops, answers, k)
  }

  lemma GrowsByNeedBefore<T>(lay: Layout, s: State<T>, ops: seq<Op<T>>, answers: seq<Answer<T>>)
    requires lay.Ok() && |answers| == |ops| > 0 && GrowsByNeed(lay, s, ops, answers)
    ensures GrowsByNeed(lay, s, ButLast(ops), ButLast(answers))
    ensures ByNeed(Run(lay, s, ButLast(ops), ButLast(answers)).0, Last(ops), Last(answers))
  {
    hide StateAt, ByNeed;
    PrefixStates(lay, s, ops, answers);
    assert ByNeedAt(lay, s, ops, answers, |ops| - 1);
    forall k | 0 <= k < |ops| - 1
      ensures ByNeedAt(lay, s, ButLast(ops), ButLast(answers), k)
    {
      assert ByNeedAt(lay, s, ops, answers, k);
    }
  }

  // What growing has moved so far is no more than the capacity, and no more than twice the `given`
  // elements that went in, of which `len` are still there.
  ghost predicate Paid(lay: Layout, len: nat, g: Growth, given: nat)
    requires lay.Ok()
  {
    && g.copied <= g.cap && g.copied <= 2 * given
    && len <= given && len <= g.cap == Capacity(lay, g.cap)
  }

  // Room is made for as many elements as come, or else only once the deque is full.
  lemma MadeRoomPaid(lay: Layout, len: nat, g: Growth, n: nat, wanted: nat, given: nat)
    requires lay.Ok() && Paid(lay, len, g, given) && n <= wanted && (n == wanted || len == g.cap)
    ensures Paid(lay, len + n, MadeRoom(lay, len, g, wanted), given + n)
  {
    CapacityIsClosure(lay, GrowPolicy(len, g.cap, wanted));
    hide Capacity;
  }

  // Over runs from a new deque that neither reserve nor shrink, nor make room before a tail by
  // reallocating, all the elements that growing ever moved are no more than the capacity reached,
  // and no more than twice the elements that went in.
  lemma {:induction false} GrowthIsAmortised<T>(lay: Layout, ops: seq<Op<T>>, answers: seq<Answer<T>>)
    requires lay.Ok() && |answers| == |ops| && GrowsByNeed(lay, State([], 0, multiset{}, 0), ops, answers)
    ensures var (t, outs) := Run(lay, State([], 0, multiset{}, 0), ops, answers);
            Paid(lay, |t.elems|, Growth(t.cap, t.copied, 0), |GivenIn(ops, outs)|)
    decreases |ops|
  {
    if ops != [] {
      hide *;
      GrowsByNeedBefore(lay, State([], 0, multiset{}, 0), ops, answers);
      GrowthIsAmortised(lay, ButLast(ops), ButLast(answers));
      RunLast(lay, State([], 0, multiset{}, 0), ops, answers);
      var (t, outs) := Run(lay, State([], 0, multiset{}, 0), ButLast(ops), ButLast(answers));
      StepPaid(lay, t, Last(ops), Last(answers), |GivenIn(ButLast(ops), outs)|);
    }
  }

  lemma StepPaid<T>(lay: Layout, s: State<T>, op: Op<T>, ans: Answer<T>, given: nat)
    requires lay.Ok() && ByNeed(s, op, ans)
    requires Paid(lay, |s.elems|, Growth(s.cap, s.copied, 0), given)
    ensures var (t, out) := Step(lay, s, op, ans);
            Paid(lay, |t.elems|, Growth(t.cap, t.copied, 0), given + |Given(op, out)|)
  {
    hide Paid, Effect, Failure, Made, Legal, Halts, HandedBack, More, ByNeed;
    HaltsWhen(s, op, ans);
    if Made(s, op, ans) {
      EffectPaid(lay, s, op, ans, given);
      GivenIsMore(op, HandedBack(s.elems, op));
    } else if Halts(s, op, ans) {
      FailurePaid(lay, s, op, ans, given);
    } else if Legal(s.elems, op) {
      RefusalIsPlain(lay, s, op, ans);
    }
  }

  lemma GivenIsMore<T>(op: Op<T>, returned: seq<T>)
    ensures |Given(op, Done(returned))| == More(op)
  {}

  lemma EffectPaid<T>(lay: Layout, s: State<T>, op: Op<T>, ans: Answer<T>, given: nat)
    requires lay.Ok() && ByNeed(s, op, ans) && Made(s, op, ans)
    requires Paid(lay, |s.elems|, Growth(s.cap, s.copied, 0), given)
    ensures var t := Effect(lay, s, op, ans);
            Paid(lay, |t.elems|, Growth(t.cap, t.copied, 0), given + More(op))
  {
    hide Capacity, After, Discarded, Twice, Extending, Paid, Made, LosesTail, SpliceGrowth;
    var n, g := |s.elems|, Growth(s.cap, s.copied, 0);
    var after := |After(s.elems, op, ans.stale, NewTail(s, op, ans))|;
    RoomIsEnough(s.elems, op, ans.stale, NewTail(s, op, ans));
    if op.Extend? {
      ExtendingPaid(lay, n, g, given, op.lower, op.upper, 0, |op.xs|);
      PaidByMore(lay, n + |op.xs|, GrownBy(lay, s, op), given + |op.xs|, after, given + |op.xs|);
    } else if op.Splice? {
      SplicePaid(lay, s, op, ans, given);
      PaidByMore(lay, n - (op.b - op.a) + |op.xs|, GrownBy(lay, s, op), given + |op.xs|, after, given + |op.xs|);
    } else {
      MadeRoomPaid(lay, n, g, Room(op), Room(op), given);
      PaidByMore(lay, n + Room(op), GrownBy(lay, s, op), given + Room(op), after, given + Room(op));
    }
  }

  lemma SplicePaid<T>(lay: Layout, s: State<T>, op: Op<T>, ans: Answer<T>, given: nat)
    requires lay.Ok() && op.Splice? && ByNeed(s, op, ans) && Made(s, op, ans)
    requires Paid(lay, |s.elems|, Growth(s.cap, s.copied, 0), given)
    ensures Paid(lay, |s.elems| - (op.b - op.a) + |op.xs|, GrownBy(lay, s, op), given + |op.xs|)
  {
    ExposesWhen(s, op, ans);
    hide Capacity, Extending, Made, Exposes;
    if op.b == |s.elems| {
      ExtendingPaid(lay, op.a, Growth(s.cap, s.copied, 0), given, op.lower, op.upper, 0, |op.xs|);
    }
  }

  lemma FailurePaid<T>(lay: Layout, s: State<T>, op: Op<T>, ans: Answer<T>, given: nat)
    requires lay.Ok() && ByNeed(s, op, ans) && Halts(s, op, ans)
    requires Paid(lay, |s.elems|, Growth(s.cap, s.copied, 0), given)
    ensures var (t, out) := Failure(lay, s, op, ans);
            Paid(lay, |t.elems|, Growth(t.cap, t.copied, 0), given + |Given(op, out)|)
  {
    hide Capacity, After, HandedBack, Discarded, Extending, Paid, Made, NeedsMemory, Legal;
    var (placed, taken) := Halt(s, op, ans);
    var n, g, less := |s.elems|, Growth(s.cap, s.copied, 0), Cut(op, placed);
    CutIsLegal(s.elems, op, placed);
    RoomIsEnough(s.elems, less, ans.stale, NewTail(s, op, ans));
    var after := |After(s.elems, less, ans.stale, NewTail(s, op, ans))|;
    if HasTail(s, op) {
      ExposesWhen(s, op, ans);
      FitsInCapacity(lay, n, g, given);
      HaltsInPlace(lay, s, op, ans);
      SmallerThan(s.elems, op);
      PaidInPlace(lay, n, g, given, after, given + taken);
    } else {
      var from := if op.Extend? then n else op.a;
      SmallerThan(s.elems, op);
      PaidByMore(lay, n, g, given, from, given);
      ExtendingPaid(lay, from, g, given, op.lower, op.upper, 0, placed);
      PaidByMore(lay, from + placed, HaltedGrowth(lay, s, op, placed), given + placed, after, given + taken);
    }
  }

  lemma HaltsInPlace<T>(lay: Layout, s: State<T>, op: Op<T>, ans: Answer<T>)
    requires lay.Ok() && Halts(s, op, ans) && HasTail(s, op) && !LosesTail(s, op, ans) && |s.elems| <= s.cap
    ensures var placed := Halt(s, op, ans).0;
            && HaltedGrowth(lay, s, op, placed) == Growth(s.cap, s.copied, 0)
            && |s.elems| - (op.b - op.a) + placed <= s.cap
  {
    hide Made, NeedsMemory;
  }

  lemma PaidInPlace(lay: Layout, len: nat, g: Growth, given: nat, len': nat, more: nat)
    requires lay.Ok() && Paid(lay, len, g, given) && given <= more && len' <= more && len' <= g.cap
    ensures Paid(lay, len', g, more)
  {}

  lemma FitsInCapacity(lay: Layout, len: nat, g: Growth, given: nat)
    requires lay.Ok() && Paid(lay, len, g, given)
    ensures len <= g.cap && len <= given
  {}

  lemma SmallerThan<T>(c: seq<T>, op: Op<T>)
    requires Legal(c, op)
    ensures op.Splice? ==> op.a <= op.b <= |c|
  {}

  lemma PaidByMore(lay: Layout, len: nat, g: Growth, given: nat, less: nat, more: nat)
    requires lay.Ok() && Paid(lay, len, g, given) && less <= len && given <= more
    ensures Paid(lay, less, Growth(g.cap, g.copied, 0), more)
  {}

  lemma {:induction false} ExtendingPaid(lay: Layout, len: nat, g: Growth, given: nat,
                                         lower: nat -> nat, upper: nat -> Option<nat>, p: nat, k: nat)
    requires lay.Ok() && p <= k && Paid(lay, len, g, given)
    ensures Paid(lay, len + (k - p), Extending(lay, len, g, lower, upper, p, k), given + (k - p))
    decreases k
  {
    if p < k {
      var h, n, gave := Extending(lay, len, g, lower, upper, p, k - 1), len + (k - 1 - p), given + (k - 1 - p);
      ExtendingPaid(lay, len, g, given, lower, upper, p, k - 1);
      NextPaid(lay, n, h, gave, lower, upper, k);
      hide Paid, RoomForNext;
    }
  }

  lemma NextPaid(lay: Layout, len: nat, g: Growth, given: nat,
                 lower: nat -> nat, upper: nat -> Option<nat>, taken: nat)
    requires lay.Ok() && Paid(lay, len, g, given)
    ensures Paid(lay, len + 1, RoomForNext(lay, len, g, lower, upper, taken), given + 1)
  {
    hide MadeRoom, Capacity;
    if len == g.cap {
      MadeRoomPaid(lay, len, g, 1, Hinted(lower, upper, taken), given);
    }
  }
}
