// Runs of operations on a deque in mirrored memory, whatever the size of an element relative to
// the region and however the head wraps: they do what the plain model does.
module Runs {
  import opened Allocation
  import opened Mirror
  import opened Sequences
  import opened Growing
  import opened Buffers
  import opened Iterators
  import opened SliceDeques
  import opened IntoIters
  import Drains
  import DrainFilters
  import Splices
  import opened Model
  import opened Conservation
  import opened Costs
  import opened Agreement
  import opened Meaning

  ghost function Abs(d: SliceDeque): (s: State<Elem>)
    requires d.len <= |d.slots|
    reads d
  {
    State(d.Contents(), d.Capacity(), multiset(d.drops), d.copied)
  }

  // The elements that a call passes in have the size of an element.
  predicate WellSized(op: Op<Elem>, size: nat) {
    match op
    case PushFront(x) => |x| == size
    case PushBack(x) => |x| == size
    case Insert(_, x) => |x| == size
    case Append(xs) => forall x | x in xs :: |x| == size
    case Extend(xs, _, _) => forall x | x in xs :: |x| == size
    case Splice(_, _, _, xs, _, _) => forall x | x in xs :: |x| == size
    case _ => true
  }

  predicate AsksForMemory<T>(s: State<T>, op: Op<T>) {
    Legal(s.elems, op) && NeedsMemory(s, op)
  }

  // Ways to recognise a step of the model.
  lemma StepStill(lay: Layout, s: State<Elem>, t: State<Elem>, op: Op<Elem>, ans: Answer<Elem>)
    requires lay.Ok() && Legal(s.elems, op) && Room(op) == 0 && |s.elems| <= s.cap
    requires !op.ShrinkToFit? && !op.Append? && !op.Extend? && !op.Splice?
    requires t.elems == After(s.elems, op, ans.stale, None) && t.cap == s.cap && t.copied == s.copied
    requires t.dropped == s.dropped + Discarded(s.elems, op)
    ensures NeedsMemory(s, op) ==> op.SplitOff?
    ensures AsksForMemory(s, op) ==> op.SplitOff?
    ensures ans.granted || !NeedsMemory(s, op) ==> Step(lay, s, op, ans) == (t, Done(HandedBack(s.elems, op)))
  {
    hide After, Discarded, HandedBack, Legal, Capacity;
    assert t.dropped + multiset{} == t.dropped;
    assert Effect(lay, s, op, ans) == t;
  }

  lemma StepGrows(lay: Layout, s: State<Elem>, t: State<Elem>, op: Op<Elem>, ans: Answer<Elem>)
    requires lay.Ok() && Legal(s.elems, op) && t.elems == After(s.elems, op, ans.stale, None) && ans.granted
    requires op.PushFront? || op.PushBack? || op.Insert? || op.Append? || op.Reserve?
    requires t.cap == GrownCapacity(lay, |s.elems|, s.cap, Room(op))
    requires t.copied == s.copied + GrowthCost(|s.elems|, s.cap, Room(op))
    requires t.dropped == s.dropped
    ensures Step(lay, s, op, ans) == (t, Done([]))
  {
    hide After, Legal, Capacity, GrownCapacity, GrowthCost;
    assert t.dropped + multiset{} + multiset{} == t.dropped;
    assert Effect(lay, s, op, ans) == t;
  }

  lemma StepFails(lay: Layout, s: State<Elem>, t: State<Elem>, op: Op<Elem>, ans: Answer<Elem>)
    requires lay.Ok() && Legal(s.elems, op) && NeedsMemory(s, op) && t == s && !ans.granted
    requires !op.Extend? && !op.Splice?
    ensures Step(lay, s, op, ans) == (t, Denied([], []))
  {}

  method PerformPush(d: SliceDeque, op: Op<Elem>) returns (out: Outcome<Elem>, ghost ans: Answer<Elem>)
    requires d.Valid() && d.Owns() && WellSized(op, d.lay.size)
    requires op.PushFront? || op.PushBack?
    modifies d, d.buf.mem, d.os
    ensures d.Valid() && (d.buf.mem == old(d.buf.mem) || fresh(d.buf.mem))
    ensures d.Owns() && d.Others() == old(d.Others()) && ans.granted == !out.Denied?
    ensures d.os.Refusals() == old(d.os.Refusals()) + (if out.Denied? then 1 else 0)
    ensures old(d.os.attempts) < d.os.attempts <==> AsksForMemory(old(Abs(d)), op)
    ensures (Abs(d), out) == Step(d.lay, old(Abs(d)), op, ans)
  {
    hide SliceDeque.Valid, Step, Capacity, GrownCapacity, GrowthCost;
    ghost var s := Abs(d);
    out, ans := Done([]), Answer(true, 0, [], []);
    var r;
    if op.PushFront? {
      r := d.TryPushFront(op.x);
    } else {
      r := d.TryPushBack(op.x);
    }
    if r.OutOfMemory? {
      out, ans := Denied([], []), Answer(false, 0, [], []);
      StepFails(d.lay, s, Abs(d), op, ans);
    } else {
      StepGrows(d.lay, s, Abs(d), op, ans);
    }
  }

  method PerformPop(d: SliceDeque, op: Op<Elem>) returns (out: Outcome<Elem>, ghost ans: Answer<Elem>)
    requires d.Valid() && d.Owns() && WellSized(op, d.lay.size)
    requires op.PopFront? || op.PopBack?
    modifies d, d.buf.mem, d.os
    ensures d.Valid() && (d.buf.mem == old(d.buf.mem) || fresh(d.buf.mem))
    ensures d.Owns() && d.Others() == old(d.Others()) && ans.granted == !out.Denied?
    ensures d.os.Refusals() == old(d.os.Refusals()) + (if out.Denied? then 1 else 0)
    ensures old(d.os.attempts) < d.os.attempts <==> AsksForMemory(old(Abs(d)), op)
    ensures (Abs(d), out) == Step(d.lay, old(Abs(d)), op, ans)
  {
    hide SliceDeque.Valid, Step, Capacity, GrownCapacity, GrowthCost;
    ghost var s := Abs(d);
    out, ans := Done([]), Answer(true, 0, [], []);
    var r;
    if op.PopFront? {
      r := d.PopFront();
    } else {
      r := d.PopBack();
    }
    if r.Some? {
      out := Done([r.value]);
    }
    StepStill(d.lay, s, Abs(d), op, ans);
  }

  method PerformTruncate(d: SliceDeque, op: Op<Elem>) returns (out: Outcome<Elem>, ghost ans: Answer<Elem>)
    requires d.Valid() && d.Owns() && WellSized(op, d.lay.size)
    requires op.TruncateFront? || op.TruncateBack? || op.Clear?
    modifies d, d.buf.mem, d.os
    ensures d.Valid() && (d.buf.mem == old(d.buf.mem) || fresh(d.buf.mem))
    ensures d.Owns() && d.Others() == old(d.Others()) && ans.granted == !out.Denied?
    ensures d.os.Refusals() == old(d.os.Refusals()) + (if out.Denied? then 1 else 0)
    ensures old(d.os.attempts) < d.os.attempts <==> AsksForMemory(old(Abs(d)), op)
    ensures (Abs(d), out) == Step(d.lay, old(Abs(d)), op, ans)
  {
    hide SliceDeque.Valid, Step, Capacity, KeepFirst, BeyondFirst, KeepLast, BeforeLast;
    ghost var s := Abs(d);
    out, ans := Done([]), Answer(true, 0, [], []);
    match op {
      case TruncateFront(n) => d.TruncateFront(n);
      case TruncateBack(n) => d.TruncateBack(n);
      case Clear => d.Clear();
    }
    StepStill(d.lay, s, Abs(d), op, ans);
  }

  method PerformInsert(d: SliceDeque, op: Op<Elem>) returns (out: Outcome<Elem>, ghost ans: Answer<Elem>)
    requires d.Valid() && d.Owns() && WellSized(op, d.lay.size)
    requires op.Insert?
    modifies d, d.buf.mem, d.os
    ensures d.Valid() && (d.buf.mem == old(d.buf.mem) || fresh(d.buf.mem))
    ensures d.Owns() && d.Others() == old(d.Others()) && ans.granted == !out.Denied?
    ensures d.os.Refusals() == old(d.os.Refusals()) + (if out.Denied? then 1 else 0)
    ensures old(d.os.attempts) < d.os.attempts <==> AsksForMemory(old(Abs(d)), op)
    ensures ans.stale == old(d.NextBeforeHead()) || !out.Done?
    ensures (Abs(d), out) == Step(d.lay, old(Abs(d)), op, ans)
  {
    hide SliceDeque.Valid, Step, Capacity, GrownCapacity, GrowthCost, InsertOutcome, Inserted;
    ghost var s := Abs(d);
    out, ans := Done([]), Answer(true, 0, [], []);
    if !(op.i <= d.len) {
      NoCall(d.lay, s, op, ans);
      return NotCalled, ans;
    }
    ans := Answer(true, 0, d.NextBeforeHead(), []);
    var ok := d.Insert(op.i, op.x);
    if ok {
      StepGrows(d.lay, s, Abs(d), op, ans);
    } else {
      out, ans := Denied([], []), Answer(false, 0, [], []);
      StepFails(d.lay, s, Abs(d), op, ans);
    }
  }

  method PerformRemove(d: SliceDeque, op: Op<Elem>) returns (out: Outcome<Elem>, ghost ans: Answer<Elem>)
    requires d.Valid() && d.Owns() && WellSized(op, d.lay.size)
    requires op.Remove?
    modifies d, d.buf.mem, d.os
    ensures d.Valid() && (d.buf.mem == old(d.buf.mem) || fresh(d.buf.mem))
    ensures d.Owns() && d.Others() == old(d.Others()) && ans.granted == !out.Denied?
    ensures d.os.Refusals() == old(d.os.Refusals()) + (if out.Denied? then 1 else 0)
    ensures old(d.os.attempts) < d.os.attempts <==> AsksForMemory(old(Abs(d)), op)
    ensures (Abs(d), out) == Step(d.lay, old(Abs(d)), op, ans)
  {
    hide SliceDeque.Valid, Step, Capacity, GrownCapacity, GrowthCost;
    ghost var s := Abs(d);
    out, ans := Done([]), Answer(true, 0, [], []);
    if !(op.i < d.len) {
      NoCall(d.lay, s, op, ans);
      return NotCalled, ans;
    }
    var x := d.Remove(op.i);
    out := Done([x]);
    StepStill(d.lay, s, Abs(d), op, ans);
  }

  method PerformReserve(d: SliceDeque, op: Op<Elem>) returns (out: Outcome<Elem>, ghost ans: Answer<Elem>)
    requires d.Valid() && d.Owns() && WellSized(op, d.lay.size)
    requires op.Reserve?
    modifies d, d.buf.mem, d.os
    ensures d.Valid() && (d.buf.mem == old(d.buf.mem) || fresh(d.buf.mem))
    ensures d.Owns() && d.Others() == old(d.Others()) && ans.granted == !out.Denied?
    ensures d.os.Refusals() == old(d.os.Refusals()) + (if out.Denied? then 1 else 0)
    ensures old(d.os.attempts) < d.os.attempts <==> AsksForMemory(old(Abs(d)), op)
    ensures (Abs(d), out) == Step(d.lay, old(Abs(d)), op, ans)
  {
    hide SliceDeque.Valid, Step, Capacity, GrownCapacity, GrowthCost;
    ghost var s := Abs(d);
    out, ans := Done([]), Answer(true, 0, [], []);
    var ok := d.TryReserve(op.n);
    if ok {
      StepGrows(d.lay, s, Abs(d), op, ans);
    } else {
      out, ans := Denied([], []), Answer(false, 0, [], []);
      StepFails(d.lay, s, Abs(d), op, ans);
    }
  }

  method PerformShrink(d: SliceDeque, op: Op<Elem>) returns (out: Outcome<Elem>, ghost ans: Answer<Elem>)
    requires d.Valid() && d.Owns() && WellSized(op, d.lay.size)
    requires op.ShrinkToFit?
    modifies d, d.buf.mem, d.os
    ensures d.Valid() && (d.buf.mem == old(d.buf.mem) || fresh(d.buf.mem))
    ensures d.Owns() && d.Others() == old(d.Others()) && ans.granted == !out.Denied?
    ensures d.os.Refusals() == old(d.os.Refusals()) + (if out.Denied? then 1 else 0)
    ensures old(d.os.attempts) < d.os.attempts <==> AsksForMemory(old(Abs(d)), op)
    ensures (Abs(d), out) == Step(d.lay, old(Abs(d)), op, ans)
  {
    hide SliceDeque.Valid, Step, Capacity, GrownCapacity, GrowthCost;
    ghost var s := Abs(d);
    out, ans := Done([]), Answer(true, 0, [], []);
    d.CapacityFixed();
    var ok := d.ShrinkToFit();
    if ok {
      StepShrinks(d.lay, s, Abs(d), ans);
    } else {
      out, ans := Denied([], []), Answer(false, 0, [], []);
      StepFails(d.lay, s, Abs(d), op, ans);
    }
  }

  method PerformInPlace(d: SliceDeque, op: Op<Elem>) returns (out: Outcome<Elem>, ghost ans: Answer<Elem>)
    requires d.Valid() && d.Owns() && WellSized(op, d.lay.size)
    requires op.Retain? || op.DedupBy?
    modifies d, d.buf.mem, d.os
    ensures d.Valid() && (d.buf.mem == old(d.buf.mem) || fresh(d.buf.mem))
    ensures d.Owns() && d.Others() == old(d.Others()) && ans.granted == !out.Denied?
    ensures d.os.Refusals() == old(d.os.Refusals()) + (if out.Denied? then 1 else 0)
    ensures old(d.os.attempts) < d.os.attempts <==> AsksForMemory(old(Abs(d)), op)
    ensures (Abs(d), out) == Step(d.lay, old(Abs(d)), op, ans)
  {
    hide AsksForMemory, DedupForward, SliceDeque.Contents, SliceDeque.Owns, SliceDeque.Others;
    hide SliceDeque.Valid, Step, Capacity, Filter, Dedup, Not;
    ghost var s := Abs(d);
    d.ContentsAre();
    out, ans := Done([]), Answer(true, 0, [], []);
    match op {
      case Retain(f) =>
        ghost var rejected := d.Retain(f);
      case DedupBy(same) =>
        ghost var rejected := d.DedupBy(same);
    }
    StepStill(d.lay, s, Abs(d), op, ans);
  }

  method PerformAppend(d: SliceDeque, op: Op<Elem>) returns (out: Outcome<Elem>, ghost ans: Answer<Elem>)
    requires d.Valid() && d.Owns() && WellSized(op, d.lay.size)
    requires op.Append?
    modifies d, d.buf.mem, d.os
    ensures d.Valid() && (d.buf.mem == old(d.buf.mem) || fresh(d.buf.mem))
    ensures d.Owns() && d.Others() == old(d.Others()) && ans.granted == !out.Denied?
    ensures d.os.Refusals() == old(d.os.Refusals()) + (if out.Denied? then 1 else 0)
    ensures old(d.os.attempts) < d.os.attempts <==> AsksForMemory(old(Abs(d)), op)
    ensures (Abs(d), out) == Step(d.lay, old(Abs(d)), op, ans)
  {
    hide SliceDeque.Valid, ItemIter.Valid, Step, Capacity, GrownCapacity, GrowthCost;
    ghost var s := Abs(d);
    out, ans := Done([]), Answer(true, 0, [], []);
    var os := new Os(_ => true, (_, _) => 0);
    var other := Filled(os, d.lay, op.xs);
    var ok := d.Append(other);
    if ok {
      StepGrows(d.lay, s, Abs(d), op, ans);
    } else {
      out, ans := Denied([], []), Answer(false, 0, [], []);
      StepFails(d.lay, s, Abs(d), op, ans);
    }
    other.Drop();
  }

  // A deque elsewhere that holds `xs`.
  method Filled(os: Os, lay: Layout, xs: seq<Elem>) returns (d: SliceDeque)
    requires lay.Ok() && os.Generous() && forall x | x in xs :: |x| == lay.size
    modifies os
    ensures fresh(d) && fresh(d.buf.mem) && d.Valid() && d.Owns() && d.os == os && d.lay == lay
    ensures d.Contents() == xs
  {
    hide SliceDeque.Valid, SliceDeque.Contents, ItemIter.Valid, Extending;
    d := SliceDeque.New(os, lay);
    d.ContentsAre();
    var it := new ItemIter(lay.size, xs, _ => 0, _ => None);
    var ok := d.ExtendDesugared(it);
    assert [] + xs[0..] == xs;
  }

  // The two ways an extension comes out: with all items in place, or with `k` in place and one more
  // in hand.
  lemma StepExtends(lay: Layout, s: State<Elem>, t: State<Elem>, op: Op<Elem>, ans: Answer<Elem>, k: nat, a: nat)
    requires lay.Ok() && op.Extend? && k <= |op.xs|
    requires if ans.granted then k == |op.xs| else k + 1 == ans.taken <= |op.xs| && s.cap < |s.elems| + |op.xs|
    requires t.elems == s.elems + op.xs[..k]
    requires t.dropped == s.dropped + (if ans.granted then multiset{} else multiset(op.xs[k..k + 1]))
    requires var g := Extending(lay, |s.elems|, Growth(s.cap, s.copied, a), op.lower, op.upper, 0, k);
             t.cap == g.cap && t.copied == g.copied
    ensures Step(lay, s, op, ans) == (t, if ans.granted then Done([]) else Denied([], op.xs[..k + 1]))
  {
    AttemptsApart(lay, |s.elems|, Growth(s.cap, s.copied, a), 0, op.lower, op.upper, 0, k);
    hide Extending;
    assert op.xs[..k] == KeepFirst(op.xs, k);
    assert s.dropped + multiset{} == s.dropped;
    if ans.granted {
      assert s.dropped + multiset{} + multiset{} == t.dropped;
      assert Effect(lay, s, op, ans) == t;
    } else {
      assert Halt(s, op, ans) == (k, k + 1);
      assert Failure(lay, s, op, ans).0 == t;
    }
  }

  method PerformExtend(d: SliceDeque, op: Op<Elem>) returns (out: Outcome<Elem>, ghost ans: Answer<Elem>)
    requires d.Valid() && d.Owns() && WellSized(op, d.lay.size)
    requires op.Extend?
    modifies d, d.buf.mem, d.os
    ensures d.Valid() && (d.buf.mem == old(d.buf.mem) || fresh(d.buf.mem))
    ensures d.Owns() && d.Others() == old(d.Others()) && ans.granted == !out.Denied?
    ensures d.os.Refusals() == old(d.os.Refusals()) + (if out.Denied? then 1 else 0)
    ensures old(d.os.attempts) < d.os.attempts <==> AsksForMemory(old(Abs(d)), op)
    ensures (Abs(d), out) == Step(d.lay, old(Abs(d)), op, ans)
  {
    hide AsksForMemory;
    hide SliceDeque.Valid, SliceDeque.Contents, ItemIter.Valid, Step, Extending;
    ghost var s, a := Abs(d), d.os.attempts;
    d.ContentsAre();
    var it := new ItemIter(d.lay.size, op.xs, op.lower, op.upper);
    var ok := d.ExtendDesugared(it);
    var k := if ok then |op.xs| else it.pos - 1;
    out, ans := if ok then Done([]) else Denied([], op.xs[..it.pos]), Answer(ok, it.pos, [], []);
    assert op.xs[0..] == op.xs[..|op.xs|] && op.xs[0..k] == op.xs[..k];
    assert ok || op.xs[k..k + 1] == [op.xs[k]];
    StepExtends(d.lay, s, Abs(d), op, ans, k, a);
    ExtendAsks(d.lay, s, op, k, ok, a, d.os.attempts);
  }

  lemma ExtendAsks(lay: Layout, s: State<Elem>, op: Op<Elem>, k: nat, ok: bool, a: nat, a': nat)
    requires lay.Ok() && op.Extend? && |s.elems| <= s.cap && k <= |op.xs|
    requires var h := Extending(lay, |s.elems|, Growth(s.cap, s.copied, a), op.lower, op.upper, 0, k);
             if ok then k == |op.xs| && a' == h.attempts else a' == h.attempts + 1 && s.cap < |s.elems| + |op.xs|
    ensures a < a' <==> AsksForMemory(s, op)
  {
    hide Extending;
    ExtendingAsks(lay, |s.elems|, Growth(s.cap, s.copied, a), op.lower, op.upper, 0, k);
  }

  // What a splice asks for, mappings included, when its items come from the start of an iterator.
  ghost function AskedBy(d: SliceDeque, a: nat, b: nat, xs: seq<Elem>, lower: nat -> nat, upper: nat -> Option<nat>)
    : (q: Request)
    requires d.lay.Ok() && a <= b
    reads d`buf, d`len, d`copied, d.os`attempts
  {
    var n := b - a + lower(b - a);
    Request(d.Capacity(), d.len, b - a, |xs|, lower(b - a), d.copied, d.os.attempts,
            if n <= |xs| then CollectAttempts(d.lay, lower, upper, n, |xs|) else 0)
  }

  // The ways a splice comes out, with `k` items in place and `p` taken.
  lemma StepSplicesAtEnd(lay: Layout, s: State<Elem>, t: State<Elem>, op: Op<Elem>, ans: Answer<Elem>,
                         k: nat, p: nat, q: Request)
    requires lay.Ok() && op.Splice? && op.a <= op.b == |s.elems| && k <= p <= |op.xs|
    requires q.(attempts := 0, collecting := 0) == RequestOf(s, op)
    requires if ans.granted then k == p == |op.xs| else k + 1 == p == ans.taken && MustAllocate(q, 0)
    requires t.elems == s.elems[..op.a] + op.xs[..k] + []
    requires t.dropped == s.dropped + multiset(TakeEnds(s.elems[op.a..op.b], op.calls).1) + multiset(op.xs[k..p])
    requires var g := Extending(lay, op.a, Growth(s.cap, s.copied, q.attempts), op.lower, op.upper, 0, k);
             t.cap == g.cap && t.copied == g.copied
    ensures var returned := TakeEnds(s.elems[op.a..op.b], op.calls).0;
            Step(lay, s, op, ans) == (t, if ans.granted then Done(returned) else Denied(returned, op.xs[..p]))
  {
    AttemptsDoNotMatter(lay, q, RequestOf(s, op), 0);
    AttemptsApart(lay, op.a, Growth(s.cap, s.copied, q.attempts), 0, op.lower, op.upper, 0, k);
    hide Extending, TakeEnds, Fits, MustAllocate;
    assert op.xs[..k] == KeepFirst(op.xs, k) && s.elems[op.b..] == [];
    if ans.granted {
      assert op.xs[k..p] == [];
      assert Effect(lay, s, op, ans) == t;
    } else {
      assert Halt(s, op, ans) == (k, p);
      assert Failure(lay, s, op, ans).0 == t;
    }
  }

  // What a splice with a tail leaves, told by what the model knows of the request.
  ghost predicate SpliceLeaves(lay: Layout, r: Request, tail: seq<Elem>, ok: bool, k: nat, g: Growth, tail': seq<Elem>)
    requires lay.Ok() && |tail| <= r.len
  {
    var h := if ok then SpliceGrowth(lay, r, |tail|)
             else if k == r.hole then Growth(r.cap, r.copied, 0) else HintedGrowth(lay, r, |tail|);
    && |tail'| == |tail| && g.cap == h.cap && g.copied == h.copied
    && (ok ==> k == r.items && (Fits(r, |tail|) ==> tail' == tail))
    && (!ok && (k == r.hole || r.len + r.lower <= r.cap) ==> tail' == tail)
  }

  lemma ReplacedMeans(fill: (nat, nat) -> Byte, lay: Layout, q: Request, r: Request, tail: seq<Elem>,
                      ok: bool, k: nat, g: Growth, tail': seq<Elem>)
    requires lay.Ok() && 0 < |tail| <= q.len <= q.cap && q.(attempts := 0, collecting := 0) == r
    requires Splices.Replaced(fill, lay, q, tail, ok, k, g, tail')
    ensures SpliceLeaves(lay, r, tail, ok, k, g, tail')
    ensures ok ==> tail' == Splices.TailAfter(fill, lay, q, tail)
  {
    AttemptsDoNotMatter(lay, q, r, |tail|);
    Splices.FitsMovesNothing(fill, lay, q, tail, ok, k, g, tail');
    hide Capacity, Splices.FreshTail, SpliceGrowth, Fits;
  }

  // Where a splice with a tail halts: `k` items in place and `p` taken.
  predicate HaltedAt(q: Request, k: nat, p: nat) {
    || (k == p == q.hole && q.cap < q.len + q.lower)
    || k == q.hole + q.lower < p
  }

  lemma StepSplices(lay: Layout, s: State<Elem>, t: State<Elem>, op: Op<Elem>, ans: Answer<Elem>,
                    k: nat, p: nat, g: Growth)
    requires lay.Ok() && op.Splice? && op.a <= op.b < |s.elems| && k <= p <= |op.xs|
    requires t.elems == s.elems[..op.a] + op.xs[..k] + ans.tail && t.cap == g.cap && t.copied == g.copied
    requires t.dropped == s.dropped + multiset(TakeEnds(s.elems[op.a..op.b], op.calls).1) + multiset(op.xs[k..p])
    requires SpliceLeaves(lay, RequestOf(s, op), s.elems[op.b..], ans.granted, k, g, ans.tail)
    requires if ans.granted then k == p == |op.xs| else p == ans.taken && HaltedAt(RequestOf(s, op), k, p)
    ensures var returned := TakeEnds(s.elems[op.a..op.b], op.calls).0;
            Step(lay, s, op, ans) == (t, if ans.granted then Done(returned) else Denied(returned, op.xs[..p]))
  {
    hide TakeEnds, SpliceGrowth, HintedGrowth, Fits;
    assert op.xs[..k] == KeepFirst(op.xs, k);
    if ans.granted {
      assert op.xs[k..p] == [];
      assert Effect(lay, s, op, ans) == t;
    } else {
      assert Halt(s, op, ans) == (k, p);
      assert Failure(lay, s, op, ans).0 == t;
    }
  }

  // What the tail of a splice will hold, as far as the memory is granted.
  ghost function TailToCome(d: SliceDeque, op: Op<Elem>): (tail: seq<Elem>)
    requires d.Valid() && op.Splice? && op.a <= op.b < d.len
    reads d, d.buf.mem, d.os`attempts
  {
    var q := AskedBy(d, op.a, op.b, op.xs, op.lower, op.upper);
    Splices.TailAfter(d.os.fill, d.lay, q, d.Contents()[op.b..])
  }

  method PerformSplice(d: SliceDeque, op: Op<Elem>) returns (out: Outcome<Elem>, ghost ans: Answer<Elem>)
    requires d.Valid() && d.Owns() && WellSized(op, d.lay.size)
    requires op.Splice?
    modifies d, d.buf.mem, d.os
    ensures d.Valid() && (d.buf.mem == old(d.buf.mem) || fresh(d.buf.mem))
    ensures d.Owns() && d.Others() == old(d.Others()) && ans.granted == !out.Denied?
    ensures d.os.Refusals() == old(d.os.Refusals()) + (if out.Denied? then 1 else 0)
    ensures old(d.os.attempts) < d.os.attempts <==> AsksForMemory(old(Abs(d)), op)
    ensures (Abs(d), out) == Step(d.lay, old(Abs(d)), op, ans)
    ensures out.Done? && op.a <= op.b < old(d.len) ==> ans.tail == old(TailToCome(d, op))
  {
    hide AsksForMemory, Os.Refusals;
    hide SliceDeque.Valid, SliceDeque.Contents, SliceDeque.Owns, SliceDeque.Others, SliceDeque.Grown, ItemIter.Valid;
    hide Step, TakeEnds, Spliced, CollectAttempts, Splices.TailAfter, WellSized, AskedBy, RequestOf, TailToCome;
    ghost var s := Abs(d);
    out, ans := NotCalled, Answer(true, 0, [], []);
    d.ContentsAre();
    if !(op.a <= op.b <= d.len) {
      NoCall(d.lay, s, op, ans);
      return;
    }
    SizesOf(op, d.lay.size);
    AskedAlike(d, op);
    d.os.RefusalsAre();
    ghost var q := AskedBy(d, op.a, op.b, op.xs, op.lower, op.upper);
    var it := new ItemIter(d.lay.size, op.xs, op.lower, op.upper);
    var ok, taken, k;
    ghost var tail;
    ok, taken, k, tail := SpliceIn(d, op.a, op.b, op.calls, it);
    out, ans := if ok then Done(taken) else Denied(taken, op.xs[..it.pos]), Answer(ok, it.pos, [], tail);
    d.GrownAre();
    StepSpliced(d.lay, d.os.fill, q, s, Abs(d), op, ans, k, it.pos, d.Grown());
    SpliceAsks(d.lay, d.os.fill, q, s, op, ok, k, it.pos, d.Grown(), tail);
    MoreRefusals(d.os.grants, q.attempts, d.os.attempts);
    d.os.RefusalsAre();
  }

  lemma MoreRefusals(grants: nat -> bool, a: nat, b: nat)
    ensures RefusedBefore(grants, b) == RefusedBefore(grants, a) + 1 ==> a < b
  {
    RefusalsAreAttempts(grants, a, b);
  }

  lemma SpliceAsks(lay: Layout, fill: (nat, nat) -> Byte, q: Request, s: State<Elem>, op: Op<Elem>,
                   ok: bool, k: nat, p: nat, g: Growth, tail: seq<Elem>)
    requires lay.Ok() && op.Splice? && op.a <= op.b <= |s.elems| <= s.cap
    requires q.(attempts := 0, collecting := 0) == RequestOf(s, op)
    requires q.hole <= q.items ==> (0 < q.collecting <==> q.hole + q.lower < q.items)
    requires Spliced(lay, fill, q, s.elems, op.a, op.b, op.lower, op.upper, ok, k, p, g, tail)
    ensures if ok then q.attempts < g.attempts <==> AsksForMemory(s, op) else AsksForMemory(s, op)
  {
    AttemptsDoNotMatter(lay, q, RequestOf(s, op), |s.elems| - op.b);
    if op.b == |s.elems| {
      ExtendingAsks(lay, op.a, Growth(q.cap, q.copied, q.attempts), op.lower, op.upper, 0, k);
    } else {
      SplicingAsks(lay, q, |s.elems| - op.b);
    }
    hide Extending, SpliceGrowth, Splices.TailAfter, HintedGrowth, Splices.HintedTail;
  }

  lemma AskedAlike(d: SliceDeque, op: Op<Elem>)
    requires d.Valid() && op.Splice? && op.a <= op.b <= d.len
    ensures |d.Contents()| == d.len <= d.Capacity()
    ensures var q := AskedBy(d, op.a, op.b, op.xs, op.lower, op.upper);
            && q.(attempts := 0, collecting := 0) == RequestOf(Abs(d), op)
            && q.len == d.len && q.cap == d.Capacity() && q.attempts == d.os.attempts
            && (q.hole <= q.items ==> (0 < q.collecting <==> q.hole + q.lower < q.items))
            && (op.b < d.len ==>
                  TailToCome(d, op) == Splices.TailAfter(d.os.fill, d.lay, q, d.Contents()[op.b..]))
  {
    var n := op.b - op.a + op.lower(op.b - op.a);
    if n <= |op.xs| {
      CollectingAsks(d.lay, op.lower, op.upper, n, |op.xs|);
    }
    hide SliceDeque.Valid, CollectAttempts, Splices.TailAfter;
  }

  lemma SizesOf(op: Op<Elem>, size: nat)
    requires op.Splice? && WellSized(op, size)
    ensures forall x | x in op.xs :: |x| == size
  {}

  // How a splice of items from the start of an iterator comes out on contents `c`.
  ghost predicate Spliced(lay: Layout, fill: (nat, nat) -> Byte, q: Request, c: seq<Elem>, a: nat, b: nat,
                          lower: nat -> nat, upper: nat -> Option<nat>,
                          ok: bool, k: nat, p: nat, g: Growth, tail: seq<Elem>)
    requires lay.Ok() && a <= b <= |c| == q.len <= q.cap
  {
    && k <= p <= q.items && (ok ==> k == p == q.items)
    && if b == |c| then
         var h := Extending(lay, a, Growth(q.cap, q.copied, q.attempts), lower, upper, 0, k);
         && tail == [] && g.cap == h.cap && g.copied == h.copied
         && (if ok then g.attempts == h.attempts else k + 1 == p && MustAllocate(q, 0))
       else Splices.Replaced(fill, lay, q, c[b..], ok, k, g, tail) && (ok || HaltedAt(q, k, p))
  }

  lemma StepSpliced(lay: Layout, fill: (nat, nat) -> Byte, q: Request, s: State<Elem>, t: State<Elem>, op: Op<Elem>,
                    ans: Answer<Elem>, k: nat, p: nat, g: Growth)
    requires lay.Ok() && op.Splice? && op.a <= op.b <= |s.elems| <= s.cap
    requires q.(attempts := 0, collecting := 0) == RequestOf(s, op) && p == ans.taken
    requires Spliced(lay, fill, q, s.elems, op.a, op.b, op.lower, op.upper, ans.granted, k, p, g, ans.tail)
    requires k <= p <= |op.xs| && t.elems == s.elems[..op.a] + op.xs[..k] + ans.tail
    requires t.dropped == s.dropped + multiset(TakeEnds(s.elems[op.a..op.b], op.calls).1) + multiset(op.xs[k..p])
    requires t.cap == g.cap && t.copied == g.copied
    ensures var returned := TakeEnds(s.elems[op.a..op.b], op.calls).0;
            Step(lay, s, op, ans) == (t, if ans.granted then Done(returned) else Denied(returned, op.xs[..p]))
    ensures ans.granted && op.b < |s.elems| ==> ans.tail == Splices.TailAfter(fill, lay, q, s.elems[op.b..])
  {
    hide Step, TakeEnds, Extending, Splices.Replaced, SpliceLeaves, HaltedAt, MustAllocate, Splices.TailAfter;
    if op.b == |s.elems| {
      StepSplicesAtEnd(lay, s, t, op, ans, k, p, q);
    } else {
      ReplacedMeans(fill, lay, q, RequestOf(s, op), s.elems[op.b..], ans.granted, k, g, ans.tail);
      SameHalt(q, RequestOf(s, op), k, p);
      StepSplices(lay, s, t, op, ans, k, p, g);
    }
  }

  lemma SameHalt(q: Request, r: Request, k: nat, p: nat)
    requires q.(attempts := 0, collecting := 0) == r
    ensures HaltedAt(q, k, p) == HaltedAt(r, k, p)
  {}

  lemma AsksFor(splice: Splices.Splice, q: Request)
    requires var drain, it := splice.drain, splice.replaceWith;
             && drain.deq.lay.Ok() && drain.start <= drain.end && it.pos == 0
             && q.cap == drain.deq.Capacity() && q.len == |drain.orig| && q.hole == drain.end - drain.start
             && q.items == |it.items| && q.lower == it.lower(q.hole)
             && q.copied == drain.deq.copied && q.attempts == drain.deq.os.attempts
             && q.collecting == if q.hole + q.lower <= |it.items|
                                then CollectAttempts(drain.deq.lay, it.lower, it.upper, q.hole + q.lower, |it.items|)
                                else 0
    ensures splice.replaceWith.pos <= |splice.replaceWith.items| && splice.Asked() == q
  {
    hide CollectAttempts;
  }

  // A splice, from its beginning to its end.
  method SpliceIn(d: SliceDeque, a: nat, b: nat, calls: seq<bool>, it: ItemIter)
    returns (ok: bool, taken: seq<Elem>, k: nat, ghost tail: seq<Elem>)
    requires d.Valid() && d.Owns() && a <= b <= d.len && it.Valid() && it.pos == 0 && it.size == d.lay.size
    modifies d, d.buf.mem, d.os, it
    ensures d.Valid() && (d.buf.mem == old(d.buf.mem) || fresh(d.buf.mem))
    ensures d.Owns() && d.Others() == old(d.Others())
    ensures d.os.Refusals() == old(d.os.Refusals()) + (if ok then 0 else 1)
    ensures k <= it.pos <= |it.items|
    ensures var c := old(d.Contents());
            && d.Contents() == c[..a] + it.items[..k] + tail
            && taken == TakeEnds(c[a..b], calls).0
            && multiset(d.drops)
               == old(multiset(d.drops)) + multiset(TakeEnds(c[a..b], calls).1) + multiset(it.items[k..it.pos])
    ensures Spliced(d.lay, d.os.fill, old(AskedBy(d, a, b, it.items, it.lower, it.upper)), old(d.Contents()), a, b,
                    it.lower, it.upper, ok, k, it.pos, d.Grown(), tail)
  {
    hide *;
    ghost var log := d.drops;
    var splice;
    ghost var left, wasted;
    splice, taken, left := StartSplice(d, a, b, calls, it);
    ok, k, wasted := splice.Drop();
    tail := splice.drain.tail;
    SplicedMeans(splice, old(AskedBy(d, a, b, it.items, it.lower, it.upper)), ok, k, wasted);
    DropsInOrder(log, left, wasted);
    assert it.items[0..0 + k] == it.items[..k];
  }

  // The part of it before the replacement is put in place.
  method StartSplice(d: SliceDeque, a: nat, b: nat, calls: seq<bool>, it: ItemIter)
    returns (splice: Splices.Splice, taken: seq<Elem>, ghost left: seq<Elem>)
    requires d.Valid() && d.Owns() && a <= b <= d.len && it.Valid() && it.pos == 0 && it.size == d.lay.size
    modifies d`len
    ensures d.lay.Ok() && old(d.len) <= d.Capacity() && fresh(splice) && fresh(splice.drain) && splice.Valid()
    ensures splice.drain.deq == d && splice.replaceWith == it && splice.drain.Unstarted()
    ensures splice.drain.start == a && splice.drain.end == b && splice.drain.orig == old(d.Contents())
    ensures |splice.drain.orig| == old(d.len) && d.len == a
    ensures (taken, left) == TakeEnds(old(d.Contents())[a..b], calls) && left == splice.drain.Unread()
    ensures splice.Asked() == old(AskedBy(d, a, b, it.items, it.lower, it.upper))
    ensures var q := splice.Asked(); q.len == old(d.len) <= q.cap && q.items == |it.items|
    ensures var q := splice.Asked();
            forall k :: splice.AskedAtEnd(k)
                     == Extending(d.lay, a, Growth(q.cap, q.copied, q.attempts), it.lower, it.upper, 0, k)
  {
    hide SliceDeque.Valid, SliceDeque.Contents, SliceDeque.Owns, SliceDeque.Others, SliceDeque.Grown, ItemIter.Valid;
    hide Drains.Drain.Valid, Drains.Drain.Unstarted, TakeEnds, CollectAttempts, Fits, Extending;
    hide Splices.Splice.Asked, Splices.Splice.AskedAtEnd;
    d.ContentsAre();
    ghost var q := AskedBy(d, a, b, it.items, it.lower, it.upper);
    splice := new Splices.Splice(d, a, b, it);
    taken := DrainEnds(splice.drain, calls);
    left := splice.drain.Unread();
    AsksFor(splice, q);
    EndAsks(splice, q);
    d.ContentsAre();
  }

  lemma DropsInOrder(log: seq<Elem>, left: seq<Elem>, wasted: seq<Elem>)
    ensures multiset(log + left + wasted) == multiset(log) + multiset(left) + multiset(wasted)
  {}

  lemma EndAsks(splice: Splices.Splice, q: Request)
    requires var d := splice.drain.deq;
             d.lay.Ok() && q.cap == d.Capacity() && q.copied == d.copied && q.attempts == d.os.attempts
    requires splice.replaceWith.pos == 0
    ensures var d, it := splice.drain.deq, splice.replaceWith;
            forall k :: splice.AskedAtEnd(k)
                     == Extending(d.lay, d.len, Growth(q.cap, q.copied, q.attempts), it.lower, it.upper, 0, k)
  {
    hide Extending;
  }

  lemma SplicedMeans(splice: Splices.Splice, q: Request, ok: bool, k: nat, wasted: seq<Elem>)
    requires var drain, it := splice.drain, splice.replaceWith;
             && drain.deq.lay.Ok() && drain.start <= drain.end <= |drain.orig| == q.len <= q.cap
             && q.items == |it.items| && splice.Taken(0, ok, k, wasted)
             && (drain.end == |drain.orig| ==>
                   && splice.Appended(q, Extending(drain.deq.lay, drain.start, Growth(q.cap, q.copied, q.attempts),
                                                   it.lower, it.upper, 0, k), ok)
                   && (ok || it.pos == k + 1))
             && (drain.end < |drain.orig| ==>
                   && Splices.Replaced(drain.deq.os.fill, drain.deq.lay, q, drain.orig[drain.end..], ok, k,
                                       drain.deq.Grown(), drain.tail)
                   && (ok || splice.Halted(q, 0, k)))
    ensures var drain, it := splice.drain, splice.replaceWith;
            Spliced(drain.deq.lay, drain.deq.os.fill, q, drain.orig, drain.start, drain.end, it.lower, it.upper,
                    ok, k, it.pos, drain.deq.Grown(), drain.tail)
    ensures var it := splice.replaceWith; k <= it.pos <= |it.items| && multiset(wasted) == multiset(it.items[k..it.pos])
  {
    hide MustAllocate, Extending, Splices.Replaced;
  }

  // Uses up a deque from front to back.
  method MoveAllOut(d: SliceDeque) returns (items: seq<Elem>)
    requires d.Valid() && d.Owns()
    modifies d`gone, d.os`live
    ensures items == old(d.Contents()) && d.os.live == old(d.Others())
  {
    hide SliceDeque.Valid, SliceDeque.Contents, SliceDeque.Owns, SliceDeque.Others, IntoIter.Valid, IntoIter.Owns;
    hide IntoIter.Others;
    var it := new IntoIter(d);
    items := Collect(it);
    it.Drop();
  }

  method PerformSplit(d: SliceDeque, op: Op<Elem>) returns (out: Outcome<Elem>, ghost ans: Answer<Elem>)
    requires d.Valid() && d.Owns() && WellSized(op, d.lay.size)
    requires op.SplitOff?
    modifies d, d.buf.mem, d.os
    ensures d.Valid() && (d.buf.mem == old(d.buf.mem) || fresh(d.buf.mem))
    ensures d.Owns() && d.Others() == old(d.Others()) && ans.granted == !out.Denied?
    ensures d.os.Refusals() == old(d.os.Refusals()) + (if out.Denied? then 1 else 0)
    ensures old(d.os.attempts) < d.os.attempts <==> AsksForMemory(old(Abs(d)), op)
    ensures (Abs(d), out) == Step(d.lay, old(Abs(d)), op, ans)
  {
    hide SliceDeque.Valid, IntoIter.Valid, Step, Capacity, GrownCapacity, GrowthCost;
    ghost var s := Abs(d);
    out, ans := Done([]), Answer(true, 0, [], []);
    if !(op.at <= d.len) {
      NoCall(d.lay, s, op, ans);
      return NotCalled, ans;
    }
    var r := d.SplitOff(op.at);
    if r.AllocError? {
      out, ans := Denied([], []), Answer(false, 0, [], []);
      StepFails(d.lay, s, Abs(d), op, ans);
      return;
    }
    StepStill(d.lay, s, Abs(d), op, ans);
    var items := MoveAllOut(r.value);
    out := Done(items);
  }

  method PerformDrain(d: SliceDeque, op: Op<Elem>) returns (out: Outcome<Elem>, ghost ans: Answer<Elem>)
    requires d.Valid() && d.Owns() && WellSized(op, d.lay.size)
    requires op.Drain?
    modifies d, d.buf.mem, d.os
    ensures d.Valid() && (d.buf.mem == old(d.buf.mem) || fresh(d.buf.mem))
    ensures d.Owns() && d.Others() == old(d.Others()) && ans.granted == !out.Denied?
    ensures d.os.Refusals() == old(d.os.Refusals()) + (if out.Denied? then 1 else 0)
    ensures old(d.os.attempts) < d.os.attempts <==> AsksForMemory(old(Abs(d)), op)
    ensures (Abs(d), out) == Step(d.lay, old(Abs(d)), op, ans)
  {
    hide SliceDeque.Valid, Drains.Drain.Valid, Step, Capacity, GrownCapacity, GrowthCost, TakeEnds;
    ghost var s := Abs(d);
    out, ans := Done([]), Answer(true, 0, [], []);
    if !(op.a <= op.b <= d.len) {
      NoCall(d.lay, s, op, ans);
      return NotCalled, ans;
    }
    var drain := new Drains.Drain(d, op.a, op.b);
    var taken := DrainEnds(drain, op.calls);
    ghost var left := drain.Unread();
    drain.Drop();
    assert s.elems[..op.a] + [] + s.elems[op.b..] == After(s.elems, op, ans.stale, None);
    out := Done(taken);
    StepStill(d.lay, s, Abs(d), op, ans);
  }

  method PerformDrainFilter(d: SliceDeque, op: Op<Elem>) returns (out: Outcome<Elem>, ghost ans: Answer<Elem>)
    requires d.Valid() && d.Owns() && WellSized(op, d.lay.size)
    requires op.DrainFilter?
    modifies d, d.buf.mem, d.os
    ensures d.Valid() && (d.buf.mem == old(d.buf.mem) || fresh(d.buf.mem))
    ensures d.Owns() && d.Others() == old(d.Others()) && ans.granted == !out.Denied?
    ensures d.os.Refusals() == old(d.os.Refusals()) + (if out.Denied? then 1 else 0)
    ensures old(d.os.attempts) < d.os.attempts <==> AsksForMemory(old(Abs(d)), op)
    ensures (Abs(d), out) == Step(d.lay, old(Abs(d)), op, ans)
  {
    hide SliceDeque.Valid, SliceDeque.Owns, SliceDeque.Others, DrainFilters.DrainFilter.Valid, Step, Capacity;
    hide Filter, Not, RemoveLoop, KeepFirst, BeyondFirst;
    ghost var s := Abs(d);
    out, ans := Done([]), Answer(true, 0, [], []);
    var filter := new DrainFilters.DrainFilter(d, op.p);
    var taken := TakeSome(filter, op.n);
    ghost var discarded := filter.Drop();
    TakenThenRest(taken, discarded, op.n);
    out := Done(taken);
    StepStill(d.lay, s, Abs(d), op, ans);
  }

  lemma TakenThenRest(taken: seq<Elem>, rest: seq<Elem>, n: nat)
    requires |taken| == n || (|taken| < n && rest == [])
    ensures KeepFirst(taken + rest, n) == taken && BeyondFirst(taken + rest, n) == rest
  {}

  // Calls `next` and `next_back` in any interleaving.
  method DrainEnds(drain: Drains.Drain, calls: seq<bool>) returns (taken: seq<Elem>)
    requires drain.Valid() && drain.lo == drain.start && drain.hi == drain.end
    modifies drain`lo, drain`hi, drain`fronts, drain`backs
    ensures drain.Valid()
    ensures (taken, drain.Unread()) == TakeEnds(drain.orig[drain.start..drain.end], calls)
  {
    hide Drains.Drain.Valid, TakeEnds, Last, ButLast;
    ghost var range := drain.orig[drain.start..drain.end];
    taken := [];
    TakeNone(range);
    assert calls[..0] == [];
    for k := 0 to |calls|
      invariant drain.Valid() && (taken, drain.Unread()) == TakeEnds(range, calls[..k])
    {
      TakeOneMore(range, calls, k);
      var items := DrainOne(drain, calls[k]);
      assert taken + [] == taken;
      taken := taken + items;
    }
    assert calls[..|calls|] == calls;
  }

  method DrainOne(drain: Drains.Drain, front: bool) returns (items: seq<Elem>)
    requires drain.Valid()
    modifies drain`lo, drain`hi, drain`fronts, drain`backs
    ensures drain.Valid()
    ensures var left := old(drain.Unread());
            (items, drain.Unread()) == if left == [] then ([], left)
                                       else if front then ([left[0]], left[1..])
                                       else ([Last(left)], ButLast(left))
  {
    hide Drains.Drain.Valid;
    UnreadEnds(drain.orig, drain.lo, drain.hi);
    var item;
    if front {
      item := drain.Next();
    } else {
      item := drain.NextBack();
    }
    items := if item.Some? then [item.value] else [];
  }

  lemma UnreadEnds(s: seq<Elem>, lo: nat, hi: nat)
    requires lo <= hi <= |s|
    ensures lo < hi ==>
              var left := s[lo..hi];
              left[0] == s[lo] && left[1..] == s[lo + 1..hi]
              && Last(left) == s[hi - 1] && ButLast(left) == s[lo..hi - 1]
  {}

  lemma TakeNone(s: seq<Elem>)
    ensures TakeEnds(s, []) == ([], s)
  {}

  lemma TakeOneMore(s: seq<Elem>, calls: seq<bool>, k: nat)
    requires k < |calls|
    ensures var (taken, left) := TakeEnds(s, calls[..k]);
            TakeEnds(s, calls[..k + 1]) == if left == [] then (taken, left)
                                           else if calls[k] then (taken + [left[0]], left[1..])
                                           else (taken + [Last(left)], ButLast(left))
  {
    assert ButLast(calls[..k + 1]) == calls[..k];
  }

  // Calls `next` up to `n` times.
  method TakeSome(filter: DrainFilters.DrainFilter, n: nat) returns (taken: seq<Elem>)
    requires filter.Valid() && filter.yielded == []
    modifies filter, filter.deq`slots, filter.deq.buf.mem
    ensures filter.Valid() && taken == filter.yielded
    ensures |taken| == n || (|taken| < n && taken == Filter(filter.orig, filter.pred))
  {
    hide DrainFilters.DrainFilter.Valid, Filter;
    taken := [];
    for k := 0 to n
      invariant filter.Valid() && taken == filter.yielded && |taken| == k
    {
      var item := filter.Next();
      if item.None? {
        filter.AllLookedAt();
        return;
      }
      taken := taken + [item.value];
    }
  }

  lemma NoCall(lay: Layout, s: State<Elem>, op: Op<Elem>, ans: Answer<Elem>)
    requires lay.Ok() && !Legal(s.elems, op)
    ensures Step(lay, s, op, ans) == (s, NotCalled)
    ensures !AsksForMemory(s, op)
  {}

  lemma StepShrinks(lay: Layout, s: State<Elem>, t: State<Elem>, ans: Answer<Elem>)
    requires lay.Ok() && ans.granted && t.elems == s.elems && t.copied == s.copied && |s.elems| <= s.cap
    requires t.cap == if s.elems == [] then s.cap else Capacity(lay, |s.elems|)
    requires t.dropped == s.dropped + (if t.cap < s.cap then multiset(s.elems) else multiset{})
    ensures Step(lay, s, ShrinkToFit, ans) == (t, Done([]))
  {
    hide Capacity;
    var twice := Twice(lay, s, ShrinkToFit);
    assert s.dropped + multiset{} + twice == s.dropped + twice;
    assert Effect(lay, s, ShrinkToFit, ans) == t;
  }

  // What a call does to the deque and hands back is what the model says.
  method Perform(d: SliceDeque, op: Op<Elem>) returns (out: Outcome<Elem>, ghost ans: Answer<Elem>)
    requires d.Valid() && d.Owns() && WellSized(op, d.lay.size)
    modifies d, d.buf.mem, d.os
    ensures d.Valid() && (d.buf.mem == old(d.buf.mem) || fresh(d.buf.mem))
    ensures d.Owns() && d.Others() == old(d.Others()) && ans.granted == !out.Denied?
    ensures d.os.Refusals() == old(d.os.Refusals()) + (if out.Denied? then 1 else 0)
    ensures old(d.os.attempts) < d.os.attempts <==> AsksForMemory(old(Abs(d)), op)
    ensures op.Insert? && out.Done? ==> ans.stale == old(d.NextBeforeHead())
    ensures op.Splice? && out.Done? && op.a <= op.b < old(d.len) ==> ans.tail == old(TailToCome(d, op))
    ensures Means(old(Abs(d)), op, Abs(d), out)
    ensures (Abs(d), out) == Step(d.lay, old(Abs(d)), op, ans)
  {
    hide SliceDeque.Valid, Step, Abs, WellSized, Means, Reachable, AsksForMemory;
    ghost var s := Abs(d);
    AbsIsReachable(d);
    match op {
      case PushFront(_) => out, ans := PerformPush(d, op);
      case PushBack(_) => out, ans := PerformPush(d, op);
      case PopFront => out, ans := PerformPop(d, op);
      case PopBack => out, ans := PerformPop(d, op);
      case Insert(_, _) => out, ans := PerformInsert(d, op);
      case Remove(_) => out, ans := PerformRemove(d, op);
      case Append(_) => out, ans := PerformAppend(d, op);
      case Extend(_, _, _) => out, ans := PerformExtend(d, op);
      case Splice(_, _, _, _, _, _) => out, ans := PerformSplice(d, op);
      case SplitOff(_) => out, ans := PerformSplit(d, op);
      case TruncateFront(_) => out, ans := PerformTruncate(d, op);
      case TruncateBack(_) => out, ans := PerformTruncate(d, op);
      case Clear => out, ans := PerformTruncate(d, op);
      case Reserve(_) => out, ans := PerformReserve(d, op);
      case ShrinkToFit => out, ans := PerformShrink(d, op);
      case Retain(_) => out, ans := PerformInPlace(d, op);
      case DedupBy(_) => out, ans := PerformInPlace(d, op);
      case Drain(_, _, _) => out, ans := PerformDrain(d, op);
      case DrainFilter(_, _) => out, ans := PerformDrainFilter(d, op);
    }
    StepMeans(d.lay, s, op, ans);
  }

  lemma AbsIsReachable(d: SliceDeque)
    requires d.Valid()
    ensures Reachable(d.lay, Abs(d))
  {
    d.CapacityFixed();
    hide SliceDeque.Valid, Capacity;
  }

  // Any run refines the run of the model, and leaves the head aligned; what else is mapped stays.
  method Execute(d: SliceDeque, ops: seq<Op<Elem>>) returns (outs: seq<Outcome<Elem>>, ghost answers: seq<Answer<Elem>>)
    requires d.Valid() && d.Owns() && forall k | 0 <= k < |ops| :: WellSized(ops[k], d.lay.size)
    modifies d, d.buf.mem, d.os
    ensures d.Valid() && d.head % d.lay.align == 0 && (d.buf.mem == old(d.buf.mem) || fresh(d.buf.mem))
    ensures d.Owns() && d.Others() == old(d.Others())
    ensures |answers| == |ops| && (Abs(d), outs) == Run(d.lay, old(Abs(d)), ops, answers)
    ensures forall k | 0 <= k < |ops| :: MeansAt(d.lay, old(Abs(d)), ops, answers, k)
    ensures d.os.Refusals() == old(d.os.Refusals()) + DeniedIn(outs)
    ensures DeniedIn(outs) == 0 <==> AllGranted(answers)
  {
    hide *;
    outs, answers := [], [];
    ghost var s := Abs(d);
    AbsIsReachable(d);
    RunNothing(d.lay, s);
    NothingDenied();
    assert ops[..0] == [];
    for k := 0 to |ops|
      invariant d.Valid() && (d.buf.mem == old(d.buf.mem) || fresh(d.buf.mem))
      invariant d.Owns() && d.Others() == old(d.Others())
      invariant |answers| == k && (Abs(d), outs) == Run(d.lay, s, ops[..k], answers)
      invariant d.os.Refusals() == old(d.os.Refusals()) + DeniedIn(outs)
      invariant DeniedIn(outs) == 0 <==> AllGranted(answers)
    {
      var out;
      ghost var ans, t := Answer(true, 0, [], []), Abs(d);
      out, ans := Perform(d, ops[k]);
      RunOneMore(d.lay, s, ops, k, answers, t, outs, ans, Abs(d), out);
      OneMoreGranted(answers, ans);
      OneMoreDenied(outs, out);
      outs, answers := outs + [out], answers + [ans];
    }
    assert ops[..|ops|] == ops;
    RunMeans(d.lay, s, ops, answers);
    HeadIsAligned(d);
  }

  lemma RunNothing(lay: Layout, s: State<Elem>)
    requires lay.Ok()
    ensures Run(lay, s, [], []) == (s, [])
  {}

  // How many calls of a run were refused memory.
  function DeniedIn(outs: seq<Outcome<Elem>>): (n: nat) {
    if outs == [] then 0 else DeniedIn(ButLast(outs)) + (if Last(outs).Denied? then 1 else 0)
  }

  lemma NothingDenied()
    ensures DeniedIn([]) == 0 && AllGranted<Elem>([])
  {}

  lemma OneMoreDenied(outs: seq<Outcome<Elem>>, out: Outcome<Elem>)
    ensures DeniedIn(outs + [out]) == DeniedIn(outs) + (if out.Denied? then 1 else 0)
  {
    assert ButLast(outs + [out]) == outs;
  }

  lemma OneMoreGranted(answers: seq<Answer<Elem>>, ans: Answer<Elem>)
    ensures AllGranted(answers + [ans]) <==> AllGranted(answers) && ans.granted
  {
    assert AllGranted(answers + [ans]) ==> ans.granted by {
      assert (answers + [ans])[|answers|] == ans;
    }
    assert forall k | 0 <= k < |answers| :: (answers + [ans])[k] == answers[k];
  }

  lemma HeadIsAligned(d: SliceDeque)
    requires d.Valid()
    ensures d.head % d.lay.align == 0
  {}

  // Two deques with the same contents, however they are laid out in memory and wherever that comes
  // from: if there is enough of it, the same calls hand back the same and leave the same contents.
  method ExecuteBoth(d: SliceDeque, d': SliceDeque, ops: seq<Op<Elem>>)
    returns (outs: seq<Outcome<Elem>>, outs': seq<Outcome<Elem>>,
             ghost answers: seq<Answer<Elem>>, ghost answers': seq<Answer<Elem>>)
    requires d.Valid() && d.Owns() && forall k | 0 <= k < |ops| :: WellSized(ops[k], d.lay.size)
    requires d'.Valid() && d'.Owns() && forall k | 0 <= k < |ops| :: WellSized(ops[k], d'.lay.size)
    requires d != d' && d.buf.mem != d'.buf.mem && d.os != d'.os && d.os.Generous() && d'.os.Generous()
    requires d.Contents() == d'.Contents()
    modifies d, d.buf.mem, d.os, d', d'.buf.mem, d'.os
    ensures d.Valid() && d.Owns() && d'.Valid() && d'.Owns()
    ensures |outs| == |outs'| == |answers| == |answers'| == |ops|
    ensures NeverExposes(d.lay, old(Abs(d)), ops, answers) && NeverExposes(d'.lay, old(Abs(d')), ops, answers')
            ==> outs == outs' && d.Contents() == d'.Contents()
  {
    hide SliceDeque.Valid, SliceDeque.Contents, SliceDeque.Owns, WellSized, Run, NeverExposes, AllGranted, DeniedIn;
    hide Os.Generous, Os.Refusals;
    ghost var s, s' := Abs(d), Abs(d');
    d.os.NeverRefuses();
    d'.os.NeverRefuses();
    outs, answers := Execute(d, ops);
    ghost var c := d.Contents();
    d.os.NeverRefuses();
    outs', answers' := Execute(d', ops);
    d'.os.NeverRefuses();
    assert d.Valid() && d.Contents() == c;
    if NeverExposes(d.lay, s, ops, answers) && NeverExposes(d'.lay, s', ops, answers') {
      RunsAgree(d.lay, s, answers, d'.lay, s', answers', ops);
    }
  }

  // A run from a new deque, where only what goes in pays for growing, and where elements are
  // conserved unless a call shrinks a deque that holds some, inserts in front or loses a tail.
  method ExecuteFromNew(os: Os, lay: Layout, ops: seq<Op<Elem>>)
    returns (d: SliceDeque, outs: seq<Outcome<Elem>>, ghost answers: seq<Answer<Elem>>)
    requires lay.Ok() && forall k | 0 <= k < |ops| :: WellSized(ops[k], lay.size)
    modifies os
    ensures fresh(d) && d.Valid() && d.os == os && d.lay == lay && |outs| == |ops| == |answers|
    ensures d.Owns() && d.Others() == old(os.live)
    ensures (Abs(d), outs) == Run(lay, State([], 0, multiset{}, 0), ops, answers)
    ensures d.Capacity() == Capacity(lay, d.Capacity())
    ensures GrowsByNeed(lay, State([], 0, multiset{}, 0), ops, answers) ==>
              d.copied <= d.Capacity() && d.copied <= 2 * |GivenIn(ops, outs)|
    ensures var even := GivenIn(ops, outs) == multiset(d.Contents()) + multiset(d.drops) + ReturnedIn(outs);
            var s: State<Elem> := State([], 0, multiset{}, 0);
            && (even ==> NeverShrinks(lay, s, ops, answers))
            && (NeverExposes(lay, s, ops, answers) ==> (even <==> NeverShrinks(lay, s, ops, answers)))
  {
    hide SliceDeque.Valid, SliceDeque.Contents, Run, Capacity, WellSized, GrowsByNeed;
    hide NeverShrinks, NeverExposes, GivenIn, ReturnedIn;
    d := SliceDeque.New(os, lay);
    d.ContentsAre();
    ghost var s: State<Elem> := State([], 0, multiset{}, 0);
    assert Abs(d) == s;
    outs, answers := Execute(d, ops);
    d.CapacityFixed();
    if GrowsByNeed(lay, s, ops, answers) {
      GrowthIsAmortised(lay, ops, answers);
    }
    ConservedIffNeverShrinks(lay, s, ops, answers);
    assert multiset(s.elems) + s.dropped + GivenIn(ops, outs) + multiset{} == GivenIn(ops, outs);
    ghost var sum := multiset(d.Contents()) + multiset(d.drops) + ReturnedIn(outs);
    assert sum + multiset{} == sum;
  }

  // A whole life, from a new deque to its destructor: every mapping made on the way is released,
  // and every element that went in is handed back or dropped, and exactly once, if and only if no
  // call shrinks a deque that holds some, unless a call inserts in front or loses a tail.
  method Live(os: Os, lay: Layout, ops: seq<Op<Elem>>)
    returns (d: SliceDeque, outs: seq<Outcome<Elem>>, ghost answers: seq<Answer<Elem>>)
    requires lay.Ok() && forall k | 0 <= k < |ops| :: WellSized(ops[k], lay.size)
    modifies os
    ensures os.live == old(os.live)
    ensures |outs| == |ops| == |answers|
    ensures var even := GivenIn(ops, outs) == multiset(d.drops) + ReturnedIn(outs);
            var s: State<Elem> := State([], 0, multiset{}, 0);
            && (even ==> NeverShrinks(lay, s, ops, answers))
            && (NeverExposes(lay, s, ops, answers) ==> (even <==> NeverShrinks(lay, s, ops, answers)))
  {
    hide *;
    d, outs, answers := ExecuteFromNew(os, lay, ops);
    ghost var c, log := d.Contents(), d.drops;
    d.Drop();
    assert multiset(c) + multiset(log) == multiset(log + c);
  }

  // The same when the deque is consumed instead: what is not moved out is dropped with the iterator.
  method LiveAndMoveOut(os: Os, lay: Layout, ops: seq<Op<Elem>>, calls: seq<bool>)
    returns (outs: seq<Outcome<Elem>>, taken: seq<Elem>, ghost answers: seq<Answer<Elem>>, ghost dropped: seq<Elem>)
    requires lay.Ok() && forall k | 0 <= k < |ops| :: WellSized(ops[k], lay.size)
    modifies os
    ensures os.live == old(os.live)
    ensures |outs| == |ops| == |answers|
    ensures var even := GivenIn(ops, outs) == multiset(taken) + multiset(dropped) + ReturnedIn(outs);
            var s: State<Elem> := State([], 0, multiset{}, 0);
            && (even ==> NeverShrinks(lay, s, ops, answers))
            && (NeverExposes(lay, s, ops, answers) ==> (even <==> NeverShrinks(lay, s, ops, answers)))
  {
    hide *;
    var d;
    d, outs, answers := ExecuteFromNew(os, lay, ops);
    ghost var c, log := d.Contents(), d.drops;
    var it;
    it, taken := MoveOutEnds(d, calls);
    ghost var left := it.Rest();
    TakeEndsConserves(c, calls);
    it.Drop();
    dropped := log + left;
    assert multiset(c) + multiset(log) == multiset(taken) + multiset(log + left);
  }

  // Moving out of a deque from both ends in any interleaving yields each element once, in the
  // order of the deque from each end, and the size hint keeps telling how many are left.
  method MoveOutEnds(d: SliceDeque, calls: seq<bool>) returns (it: IntoIter, taken: seq<Elem>)
    requires d.Valid() && d.Owns()
    modifies d`gone
    ensures fresh(it) && it.Valid() && it.os == d.os && it.Owns() && it.Others() == old(d.Others())
    ensures it.drops == [] && (taken, it.Rest()) == TakeEnds(old(d.Contents()), calls)
    ensures |taken| <= |calls|
    ensures TakenBy(true, taken, calls) + it.Rest() + Reverse(TakenBy(false, taken, calls)) == old(d.Contents())
    ensures it.ptr <= it.end && it.SizeHint() == |old(d.Contents())| - |taken|
  {
    hide SliceDeque.Valid, IntoIter.Valid, IntoIter.Owns, IntoIter.Others, TakeEnds, TakenBy, Last, ButLast;
    ghost var all := d.Contents();
    it := new IntoIter(d);
    taken := [];
    TakeNone(all);
    assert calls[..0] == [];
    for k := 0 to |calls|
      invariant fresh(it) && it.Valid() && (taken, it.Rest()) == TakeEnds(all, calls[..k])
      invariant it.os == d.os && it.Owns() && it.Others() == old(d.Others()) && it.drops == []
    {
      TakeOneMore(all, calls, k);
      var items := MoveOutOne(it, calls[k]);
      assert taken + [] == taken;
      taken := taken + items;
    }
    assert calls[..|calls|] == calls;
    TakeEndsInOrder(all, calls);
    it.SizeHintIsExact();
  }

  method MoveOutOne(it: IntoIter, front: bool) returns (items: seq<Elem>)
    requires it.Valid()
    modifies it`ptr, it`end, it`lo, it`hi
    ensures it.Valid()
    ensures var left := old(it.Rest());
            (items, it.Rest()) == if left == [] then ([], left)
                                  else if front then ([left[0]], left[1..])
                                  else ([Last(left)], ButLast(left))
  {
    hide IntoIter.Valid;
    UnreadEnds(it.orig, it.lo, it.hi);
    var item;
    if front {
      item := it.Next();
    } else {
      item := it.NextBack();
    }
    items := if item.Some? then [item.value] else [];
  }

  // Moving the head over some slots and back restores the deque.
  method MoveHeadThereAndBack(d: SliceDeque, x: int)
    requires d.Valid() && d.len - d.Capacity() <= x <= d.len
    modifies d`head, d`len, d`slots
    ensures d.Valid() && d.head == old(d.head) && d.len == old(d.len) && d.slots == old(d.slots)
  {
    hide *;
    ghost var head, region := d.head, d.buf.mem.Length;
    HeadLies(d);
    d.SlotsAre();
    d.MoveHeadUnchecked(x);
    ghost var mid := d.head;
    d.MoveHeadUnchecked(0 - x);
    if d.buf.len > 0 {
      ThereAndBack(head, mid, d.head, x, d.lay.size, region);
    }
    HeadLies(d);
    d.SlotsAre();
  }

  lemma ThereAndBack(head: nat, mid: nat, back: nat, x: int, size: nat, region: nat)
    requires head < region && mid == (head + x * size) % region && back == (mid + (0 - x) * size) % region
    ensures back == head
  {
    StepAndBack(head, x * size, region);
    assert (0 - x) * size == 0 - x * size;
  }

  lemma HeadLies(d: SliceDeque)
    requires d.Valid()
    ensures if d.buf.len == 0 then d.head == 0 else d.head < d.buf.mem.Length
  {}
}
