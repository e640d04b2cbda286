// The deque as a plain sequence with a capacity, and runs of operations on it.
module Model {
  import opened Allocation
  import opened Sequences
  import opened Growing

  // `dropped` and `copied` are the elements dropped and the number of elements moved by growing,
  // from the beginning on.
  datatype State<!T> = State(elems: seq<T>, cap: nat, dropped: multiset<T>, copied: nat)

  datatype Op<!T> =
    | PushFront(x: T)
    | PushBack(x: T)
    | PopFront
    | PopBack
    | Insert(i: nat, x: T)
    | Remove(i: nat)
    | Append(xs: seq<T>)
    | Extend(xs: seq<T>, lower: nat -> nat, upper: nat -> Option<nat>)
    | Splice(a: nat, b: nat, calls: seq<bool>, xs: seq<T>, lower: nat -> nat, upper: nat -> Option<nat>)
    | SplitOff(at: nat)
    | TruncateFront(n: nat)
    | TruncateBack(n: nat)
    | Clear
    | Reserve(n: nat)
    | ShrinkToFit
    | Retain(f: T -> bool)
    | DedupBy(same: (T, T) -> bool)
    | Drain(a: nat, b: nat, calls: seq<bool>)  // then dropped
    | DrainFilter(p: T -> bool, n: nat)  // `n` times `next`, then dropped

  // What the surroundings decide about a call: whether it gets the memory it asks for, how many
  // items it takes out of an iterator before it does not, and what memory holds where it should not
  // look: in the slot before the head, and in new slots where a splice looks for its tail.
  datatype Answer<T> = Answer(granted: bool, taken: nat, stale: T, tail: seq<T>)

  // A call either completes, handing values back, or fails to allocate. What it fails with is
  // unchanged, except that of the items taken by then those in place stay and the others are
  // dropped. Calls that the code asserts against are not made.
  datatype Outcome<T> = Done(returned: seq<T>) | Denied(returned: seq<T>, taken: seq<T>) | NotCalled

  predicate Legal<T>(c: seq<T>, op: Op<T>) {
    match op
    case Insert(i, _) => i <= |c|
    case Remove(i) => i < |c|
    case SplitOff(at) => at <= |c|
    case Drain(a, b, _) => a <= b <= |c|
    case Splice(a, b, _, _, _, _) => a <= b <= |c|
    case _ => true
  }

  function RequestOf<T>(s: State<T>, op: Op<T>): (q: Request)
    requires op.Splice? && Legal(s.elems, op)
  {
    var hole := op.b - op.a;
    Request(s.cap, |s.elems|, hole, |op.xs|, op.lower(hole), s.copied, 0, 0)
  }

  // The contents after a call, what it hands back, and what it drops. A splice keeps its tail, or
  // else has another one in its place.
  function After<T>(c: seq<T>, op: Op<T>, stale: T, tail: Option<seq<T>>): (c': seq<T>)
    requires Legal(c, op)
  {
    match op
    case PushFront(x) => [x] + c
    case PushBack(x) => c + [x]
    case PopFront => if c == [] then [] else c[1..]
    case PopBack => if c == [] then [] else ButLast(c)
    case Insert(i, x) => InsertOutcome(c, i, x, stale)
    case Remove(i) => c[..i] + c[i + 1..]
    case Append(xs) => c + xs
    case Extend(xs, _, _) => c + xs
    case Splice(a, b, _, xs, _, _) => c[..a] + xs + (if tail.Some? then tail.value else c[b..])
    case SplitOff(at) => c[..at]
    case TruncateFront(n) => KeepLast(c, n)
    case TruncateBack(n) => KeepFirst(c, n)
    case Clear => []
    case Reserve(_) => c
    case ShrinkToFit => c
    case Retain(f) => Filter(c, f)
    case DedupBy(same) => Dedup(c, same)
    case Drain(a, b, _) => c[..a] + c[b..]
    case DrainFilter(p, _) => Filter(c, Not(p))
  }

  function HandedBack<T>(c: seq<T>, op: Op<T>): (xs: seq<T>)
    requires Legal(c, op)
  {
    match op
    case PopFront => if c == [] then [] else [c[0]]
    case PopBack => if c == [] then [] else [Last(c)]
    case Remove(i) => [c[i]]
    case SplitOff(at) => c[at..]
    case Splice(a, b, calls, _, _, _) => TakeEnds(c[a..b], calls).0
    case Drain(a, b, calls) => TakeEnds(c[a..b], calls).0
    case DrainFilter(p, n) => KeepFirst(Filter(c, p), n)
    case _ => []
  }

  function Discarded<T>(c: seq<T>, op: Op<T>): (xs: multiset<T>)
    requires Legal(c, op)
  {
    match op
    case TruncateFront(n) => multiset(BeforeLast(c, n))
    case TruncateBack(n) => multiset(BeyondFirst(c, n))
    case Clear => multiset(c)
    case Retain(f) => multiset(Filter(c, Not(f)))
    case DedupBy(same) => multiset(c) - multiset(Dedup(c, same))
    case Splice(a, b, calls, _, _, _) => multiset(TakeEnds(c[a..b], calls).1)
    case Drain(a, b, calls) => multiset(TakeEnds(c[a..b], calls).1)
    case DrainFilter(p, n) => multiset(BeyondFirst(Filter(c, p), n))
    case _ => multiset{}
  }

  // How many more elements a call makes room for at once.
  function Room<T>(op: Op<T>): (additional: nat) {
    match op
    case PushFront(_) => 1
    case PushBack(_) => 1
    case Insert(_, _) => 1
    case Append(xs) => |xs|
    case Reserve(n) => n
    case _ => 0
  }

  predicate NeedsMemory<T>(s: State<T>, op: Op<T>)
    requires Legal(s.elems, op)
  {
    match op
    case Append(_) => s.cap < |s.elems| + |op.xs|
    case Extend(_, _, _) => s.cap < |s.elems| + |op.xs|
    case Splice(_, _, _, _, _, _) => MustAllocate(RequestOf(s, op), |s.elems| - op.b)
    case SplitOff(at) => at < |s.elems|
    case ShrinkToFit => s.elems != []
    case _ => s.cap < |s.elems| + Room(op)
  }

  // A call of shrink_to_fit that replaces the buffer of a non-empty deque.
  predicate Replaces<T>(lay: Layout, s: State<T>, op: Op<T>)
    requires lay.Ok()
  {
    op.ShrinkToFit? && s.elems != [] && Capacity(lay, |s.elems|) < s.cap
  }

  // The elements that such a call drops while they stay in the deque.
  function Twice<T>(lay: Layout, s: State<T>, op: Op<T>): (xs: multiset<T>)
    requires lay.Ok()
  {
    if Replaces(lay, s, op) then multiset(s.elems) else multiset{}
  }

  // The capacity a call leaves, and the number of elements that growing has moved by then.
  function GrownBy<T>(lay: Layout, s: State<T>, op: Op<T>): (g: Growth)
    requires lay.Ok() && Legal(s.elems, op)
  {
    var n, g := |s.elems|, Growth(s.cap, s.copied, 0);
    match op
    case ShrinkToFit => if n == 0 then g else g.(cap := Capacity(lay, n))
    case Extend(xs, lower, upper) => Extending(lay, n, g, lower, upper, 0, |xs|)
    case Splice(a, b, _, xs, lower, upper) =>
      if b < n then SpliceGrowth(lay, RequestOf(s, op), n - b) else Extending(lay, a, g, lower, upper, 0, |xs|)
    case _ => MadeRoom(lay, n, g, Room(op))
  }

  function Effect<T>(lay: Layout, s: State<T>, op: Op<T>, ans: Answer<T>): (t: State<T>)
    requires lay.Ok() && Legal(s.elems, op)
  {
    State(After(s.elems, op, ans.stale, NewTail(s, op, ans)),
          GrownBy(lay, s, op).cap,
          s.dropped + Discarded(s.elems, op) + Twice(lay, s, op),
          GrownBy(lay, s, op).copied)
  }

  // The call is made, and gets the memory it needs.
  predicate Made<T>(s: State<T>, op: Op<T>, ans: Answer<T>)
    ensures Made(s, op, ans) ==> Legal(s.elems, op)
  {
    Legal(s.elems, op) && (NeedsMemory(s, op) ==> ans.granted)
  }

  // It goes on to take items out of an iterator, but does not get the memory it needs for them.
  predicate Halts<T>(s: State<T>, op: Op<T>, ans: Answer<T>) {
    (op.Extend? || op.Splice?) && Legal(s.elems, op) && !Made(s, op, ans)
  }

  lemma HaltsWhen<T>(s: State<T>, op: Op<T>, ans: Answer<T>)
    ensures Halts(s, op, ans) <==> (op.Extend? || op.Splice?) && Legal(s.elems, op) && !Made(s, op, ans)
  {}

  predicate HasTail<T>(s: State<T>, op: Op<T>) {
    op.Splice? && op.b < |s.elems|
  }

  // The items in place and the items taken by then.
  function Halt<T>(s: State<T>, op: Op<T>, ans: Answer<T>): (r: (nat, nat))
    requires Halts(s, op, ans)
    ensures r.0 <= r.1 <= |op.xs|
  {
    if HasTail(s, op) then
      var q := RequestOf(s, op);
      var placed := q.hole + q.lower;
      if q.cap < q.len + q.lower && (ans.taken <= q.hole || |op.xs| <= placed) then (q.hole, q.hole)
      else (placed, if placed <= ans.taken <= |op.xs| then ans.taken else |op.xs|)
    else if |op.xs| == 0 then (0, 0)
    else
      var taken := if 1 <= ans.taken <= |op.xs| then ans.taken else |op.xs|;
      (taken - 1, taken)
  }

  // A splice makes room before its tail by reallocating, and does not find the tail again.
  predicate LosesTail<T>(s: State<T>, op: Op<T>, ans: Answer<T>) {
    && HasTail(s, op) && Legal(s.elems, op)
    && var q := RequestOf(s, op);
       if Made(s, op, ans) then !Fits(q, |s.elems| - op.b)
       else q.cap < q.len + q.lower && q.hole < Halt(s, op, ans).0
  }

  function NewTail<T>(s: State<T>, op: Op<T>, ans: Answer<T>): (tail: Option<seq<T>>)
    requires Legal(s.elems, op)
  {
    if LosesTail(s, op, ans) && |ans.tail| == |s.elems| - op.b then Some(ans.tail) else None
  }

  // The same call with only the first `n` items.
  function Cut<T>(op: Op<T>, n: nat): (less: Op<T>)
    requires op.Extend? || op.Splice?
  {
    match op
    case Extend(xs, lower, upper) => Extend(KeepFirst(xs, n), lower, upper)
    case Splice(a, b, calls, xs, lower, upper) => Splice(a, b, calls, KeepFirst(xs, n), lower, upper)
  }

  function HaltedGrowth<T>(lay: Layout, s: State<T>, op: Op<T>, placed: nat): (g: Growth)
    requires lay.Ok() && (op.Extend? || op.Splice?) && Legal(s.elems, op)
  {
    var g := Growth(s.cap, s.copied, 0);
    if HasTail(s, op) then
      if placed == op.b - op.a then g else HintedGrowth(lay, RequestOf(s, op), |s.elems| - op.b)
    else Extending(lay, if op.Extend? then |s.elems| else op.a, g, op.lower, op.upper, 0, placed)
  }

  function Failure<T>(lay: Layout, s: State<T>, op: Op<T>, ans: Answer<T>): (r: (State<T>, Outcome<T>))
    requires lay.Ok() && Legal(s.elems, op) && !Made(s, op, ans)
  {
    if op.Extend? || op.Splice? then
      var (placed, taken) := Halt(s, op, ans);
      var less, g := Cut(op, placed), HaltedGrowth(lay, s, op, placed);
      (State(After(s.elems, less, ans.stale, NewTail(s, op, ans)),
             g.cap,
             s.dropped + Discarded(s.elems, less) + multiset(op.xs[placed..taken]),
             g.copied),
       Denied(HandedBack(s.elems, less), op.xs[..taken]))
    else (s, Denied([], []))
  }

  function Step<T>(lay: Layout, s: State<T>, op: Op<T>, ans: Answer<T>): (r: (State<T>, Outcome<T>))
    requires lay.Ok()
  {
    if Made(s, op, ans) then (Effect(lay, s, op, ans), Done(HandedBack(s.elems, op)))
    else if Legal(s.elems, op) then Failure(lay, s, op, ans)
    else (s, NotCalled)
  }

  // The last state and the outcomes of a run.
  function Run<T>(lay: Layout, s: State<T>, ops: seq<Op<T>>, answers: seq<Answer<T>>)
    : (r: (State<T>, seq<Outcome<T>>))
    requires lay.Ok() && |answers| == |ops|
    ensures |r.1| == |ops|
    decreases |ops|
  {
    if ops == [] then (s, [])
    else
      var (t, outs) := Run(lay, s, ButLast(ops), ButLast(answers));
      var (u, out) := Step(lay, t, Last(ops), Last(answers));
      (u, outs + [out])
  }

  // One more call.
  lemma RunOneMore<T>(lay: Layout, s: State<T>, ops: seq<Op<T>>, k: nat, answers: seq<Answer<T>>,
                      t: State<T>, outs: seq<Outcome<T>>, ans: Answer<T>, u: State<T>, out: Outcome<T>)
    requires lay.Ok() && k < |ops| && |answers| == k
    requires (t, outs) == Run(lay, s, ops[..k], answers) && (u, out) == Step(lay, t, ops[k], ans)
    ensures (u, outs + [out]) == Run(lay, s, ops[..k + 1], answers + [ans])
  {
    hide Step;
    assert ButLast(ops[..k + 1]) == ops[..k] && ButLast(answers + [ans]) == answers;
  }

  // The state before the `k`-th call.
  function StateAt<T>(lay: Layout, s: State<T>, ops: seq<Op<T>>, answers: seq<Answer<T>>, k: nat): (t: State<T>)
    requires lay.Ok() && |answers| == |ops| && k <= |ops|
  {
    Run(lay, s, ops[..k], answers[..k]).0
  }

  lemma PrefixStates<T>(lay: Layout, s: State<T>, ops: seq<Op<T>>, answers: seq<Answer<T>>)
    requires lay.Ok() && |answers| == |ops| > 0
    ensures StateAt(lay, s, ops, answers, |ops| - 1) == Run(lay, s, ButLast(ops), ButLast(answers)).0
    ensures forall k | 0 <= k < |ops| ::
              StateAt(lay, s, ButLast(ops), ButLast(answers), k) == StateAt(lay, s, ops, answers, k)
  {
    hide Run;
    forall k | 0 <= k < |ops|
      ensures StateAt(lay, s, ButLast(ops), ButLast(answers), k) == StateAt(lay, s, ops, answers, k)
    {
      assert ButLast(ops)[..k] == ops[..k] && ButLast(answers)[..k] == answers[..k];
    }
  }

  // ---- what goes in and comes out ------------------------------------------------------------

  // The values that went into the deque, and those handed back, by the calls of a run.
  function Given<T>(op: Op<T>, out: Outcome<T>): (xs: multiset<T>) {
    match out
    case NotCalled => multiset{}
    case Denied(_, taken) => multiset(taken)
    case Done(_) =>
      match op
      case PushFront(x) => multiset{x}
      case PushBack(x) => multiset{x}
      case Insert(_, x) => multiset{x}
      case Append(xs) => multiset(xs)
      case Extend(xs, _, _) => multiset(xs)
      case Splice(_, _, _, xs, _, _) => multiset(xs)
      case _ => multiset{}
  }

  function GivenIn<T>(ops: seq<Op<T>>, outs: seq<Outcome<T>>): (xs: multiset<T>)
    requires |ops| == |outs|
    decreases |ops|
  {
    if ops == [] then multiset{}
    else GivenIn(ButLast(ops), ButLast(outs)) + Given(Last(ops), Last(outs))
  }

  function Returned<T>(out: Outcome<T>): (xs: multiset<T>) {
    if out.NotCalled? then multiset{} else multiset(out.returned)
  }

  function ReturnedIn<T>(outs: seq<Outcome<T>>): (xs: multiset<T>) {
    if outs == [] then multiset{} else ReturnedIn(ButLast(outs)) + Returned(Last(outs))
  }

  // What the last call adds to a run.
  lemma RunLast<T>(lay: Layout, s: State<T>, ops: seq<Op<T>>, answers: seq<Answer<T>>)
    requires lay.Ok() && |answers| == |ops| > 0
    ensures var (t, outs) := Run(lay, s, ButLast(ops), ButLast(answers));
            var (u, out) := Step(lay, t, Last(ops), Last(answers));
            && Run(lay, s, ops, answers) == (u, outs + [out])
            && GivenIn(ops, outs + [out]) == GivenIn(ButLast(ops), outs) + Given(Last(ops), out)
            && ReturnedIn(outs + [out]) == ReturnedIn(outs) + Returned(out)
  {
    hide Step, Given, Returned;
    var (t, outs) := Run(lay, s, ButLast(ops), ButLast(answers));
    var (u, out) := Step(lay, t, Last(ops), Last(answers));
    assert ButLast(outs + [out]) == outs;
  }
}
