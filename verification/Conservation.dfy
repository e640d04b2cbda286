// What becomes of the elements over a run: which are lost, which count twice, and when neither happens.
module Conservation {
  import opened Allocation
  import opened Sequences
  import opened Growing
  import opened Model

  // An insertion between the third position and the middle takes in what the slot before the head
  // holds, copies an element instead of another one, and overwrites a third.
  predicate InFront<T>(c: seq<T>, op: Op<T>) {
    op.Insert? && 2 <= op.i <= |c| / 2
  }

  // What such a call, or a splice that loses its tail, takes in, and what it overwrites or loses.
  function Exposed<T>(c: seq<T>, op: Op<T>, stale: T, tail: Option<seq<T>>): (xs: multiset<T>) {
    if InFront(c, op) then multiset{stale, c[2 * op.i - 2]}
    else if op.Splice? && tail.Some? then multiset(tail.value)
    else multiset{}
  }

  function Overwritten<T>(c: seq<T>, op: Op<T>, tail: Option<seq<T>>): (xs: multiset<T>) {
    if InFront(c, op) then multiset{c[op.i - 2], c[op.i]}
    else if op.Splice? && op.b <= |c| && tail.Some? then multiset(c[op.b..])
    else multiset{}
  }

  // What a call counts too often, and what it loses.
  function Extra<T>(lay: Layout, s: State<T>, op: Op<T>, ans: Answer<T>): (xs: multiset<T>)
    requires lay.Ok()
  {
    if Made(s, op, ans) then Exposed(s.elems, op, ans.stale, NewTail(s, op, ans)) + Twice(lay, s, op)
    else if Halts(s, op, ans) then Exposed(s.elems, op, ans.stale, NewTail(s, op, ans))
    else multiset{}
  }

  function Lost<T>(lay: Layout, s: State<T>, op: Op<T>, ans: Answer<T>): (xs: multiset<T>)
    requires lay.Ok()
  {
    if Made(s, op, ans) || Halts(s, op, ans) then Overwritten(s.elems, op, NewTail(s, op, ans)) else multiset{}
  }

  function ExtraIn<T>(lay: Layout, s: State<T>, ops: seq<Op<T>>, answers: seq<Answer<T>>): (xs: multiset<T>)
    requires lay.Ok() && |answers| == |ops|
    decreases |ops|
  {
    if ops == [] then multiset{}
    else
      ExtraIn(lay, s, ButLast(ops), ButLast(answers))
      + Extra(lay, Run(lay, s, ButLast(ops), ButLast(answers)).0, Last(ops), Last(answers))
  }

  function LostIn<T>(lay: Layout, s: State<T>, ops: seq<Op<T>>, answers: seq<Answer<T>>): (xs: multiset<T>)
    requires lay.Ok() && |answers| == |ops|
    decreases |ops|
  {
    if ops == [] then multiset{}
    else
      LostIn(lay, s, ButLast(ops), ButLast(answers))
      + Lost(lay, Run(lay, s, ButLast(ops), ButLast(answers)).0, Last(ops), Last(answers))
  }

  // Between `s` and `t`, what was there, what went in and what counts too often is in the deque,
  // was dropped, was handed back or is lost.
  ghost predicate Balanced<T>(s: State<T>, given: multiset<T>, extra: multiset<T>,
                              t: State<T>, returned: multiset<T>, lost: multiset<T>) {
    multiset(s.elems) + s.dropped + given + extra == multiset(t.elems) + t.dropped + returned + lost
  }

  // A call on contents `c` comes out even.
  ghost predicate Even<T>(c: seq<T>, op: Op<T>, stale: T, tail: Option<seq<T>>)
    requires Legal(c, op)
  {
    Sums(multiset(c), Given(op, Done(HandedBack(c, op))), Exposed(c, op, stale, tail),
         multiset(After(c, op, stale, tail)), Discarded(c, op), multiset(HandedBack(c, op)), Overwritten(c, op, tail))
  }

  ghost predicate Sums<T>(before: multiset<T>, given: multiset<T>, exposed: multiset<T>,
                          after: multiset<T>, discarded: multiset<T>, returned: multiset<T>, lost: multiset<T>) {
    before + given + exposed == after + discarded + returned + lost
  }

  lemma Takes<T>(before: multiset<T>, after: multiset<T>, discarded: multiset<T>, returned: multiset<T>)
    requires before == after + discarded + returned
    ensures Sums(before, multiset{}, multiset{}, after, discarded, returned, multiset{})
  {}

  lemma HandsOut<T>(before: multiset<T>, after: multiset<T>, returned: multiset<T>)
    requires before == after + returned
    ensures Sums(before, multiset{}, multiset{}, after, multiset{}, returned, multiset{})
  {}

  lemma Drops<T>(before: multiset<T>, after: multiset<T>, discarded: multiset<T>)
    requires before == after + discarded
    ensures Sums(before, multiset{}, multiset{}, after, discarded, multiset([]), multiset{})
  {}

  lemma Stays<T>(before: multiset<T>)
    ensures Sums(before, multiset{}, multiset{}, before, multiset{}, multiset([]), multiset{})
  {}

  lemma Adds<T>(before: multiset<T>, given: multiset<T>, after: multiset<T>)
    requires before + given == after
    ensures Sums(before, given, multiset{}, after, multiset{}, multiset([]), multiset{})
  {}

  lemma ContentsEven<T>(c: seq<T>, op: Op<T>, stale: T, tail: Option<seq<T>>)
    requires Legal(c, op)
    ensures Even(c, op, stale, tail)
  {
    hide Even;
    match op {
      case PopFront => PopsEven(c, stale, tail);
      case PopBack => PopsEven(c, stale, tail);
      case Insert(i, x) => InsertEven(c, i, x, stale, tail);
      case Remove(i) => RemoveEven(c, i, stale, tail);
      case SplitOff(at) => SplitEven(c, at, stale, tail);
      case TruncateFront(n) => TruncateFrontEven(c, n, stale, tail);
      case TruncateBack(n) => TruncateBackEven(c, n, stale, tail);
      case Retain(f) => RetainEven(c, f, stale, tail);
      case DedupBy(same) => DedupEven(c, same, stale, tail);
      case DrainFilter(p, n) => DrainFilterEven(c, p, n, stale, tail);
      case Drain(a, b, calls) => DrainEven(c, a, b, calls, stale, tail);
      case Splice(_, _, _, _, _, _) => SpliceEven(c, op, stale, tail);
      case PushFront(x) => PushFrontEven(c, x, stale, tail);
      case PushBack(x) => PushBackEven(c, x, stale, tail);
      case Append(xs) => AppendEven(c, xs, stale, tail);
      case Extend(_, _, _) => ExtendEven(c, op, stale, tail);
      case Clear => ClearEven(c, stale, tail);
      case Reserve(n) => ReserveEven(c, n, stale, tail);
      case ShrinkToFit => ShrinkEven(c, stale, tail);
    }
  }

  lemma PopsEven<T>(c: seq<T>, stale: T, tail: Option<seq<T>>)
    ensures Even(c, PopFront, stale, tail) && Even(c, PopBack, stale, tail)
  {
    hide Sums;
    if c == [] {
      Stays(multiset(c));
    } else {
      SplitEnds(c);
      HandsOut(multiset(c), multiset(c[1..]), multiset([c[0]]));
      HandsOut(multiset(c), multiset(ButLast(c)), multiset([Last(c)]));
    }
  }

  lemma InsertEven<T>(c: seq<T>, i: nat, x: T, stale: T, tail: Option<seq<T>>)
    requires i <= |c|
    ensures Even(c, Insert(i, x), stale, tail)
  {
    hide Sums, InsertOutcome;
    var after := multiset(InsertOutcome(c, i, x, stale));
    if InFront(c, Insert(i, x)) {
      InsertInFront(c, i, x, stale);
      Swaps(multiset(c), multiset{x}, multiset{stale, c[2 * i - 2]}, after, multiset{c[i - 2], c[i]});
    } else {
      InsertElsewhere(c, i, x, stale);
      Adds(multiset(c), multiset{x}, after);
    }
  }

  lemma Swaps<T>(before: multiset<T>, given: multiset<T>, exposed: multiset<T>, after: multiset<T>, lost: multiset<T>)
    requires before + given + exposed == after + lost
    ensures Sums(before, given, exposed, after, multiset{}, multiset([]), lost)
  {}

  lemma InsertElsewhere<T>(c: seq<T>, i: nat, x: T, stale: T)
    requires i <= |c| && !(2 <= i <= |c| / 2)
    ensures multiset(c) + multiset{x} == multiset(InsertOutcome(c, i, x, stale))
  {
    InsertAsDocumented(c, i, x, stale);
    hide InsertOutcome;
    CutInTwo(c, i);
  }

  lemma RemoveEven<T>(c: seq<T>, i: nat, stale: T, tail: Option<seq<T>>)
    requires i < |c|
    ensures Even(c, Remove(i), stale, tail)
  {
    hide Sums;
    CutOneOut(c, i);
    HandsOut(multiset(c), multiset(c[..i] + c[i + 1..]), multiset([c[i]]));
  }

  lemma SplitEven<T>(c: seq<T>, at: nat, stale: T, tail: Option<seq<T>>)
    requires at <= |c|
    ensures Even(c, SplitOff(at), stale, tail)
  {
    hide Sums;
    CutInTwo(c, at);
    HandsOut(multiset(c), multiset(c[..at]), multiset(c[at..]));
  }

  lemma TruncateFrontEven<T>(c: seq<T>, n: nat, stale: T, tail: Option<seq<T>>)
    ensures Even(c, TruncateFront(n), stale, tail)
  {
    hide Sums, KeepLast, BeforeLast;
    KeepLastPartitions(c, n);
    Drops(multiset(c), multiset(KeepLast(c, n)), multiset(BeforeLast(c, n)));
  }

  lemma TruncateBackEven<T>(c: seq<T>, n: nat, stale: T, tail: Option<seq<T>>)
    ensures Even(c, TruncateBack(n), stale, tail)
  {
    hide Sums, KeepFirst, BeyondFirst;
    KeepFirstPartitions(c, n);
    Drops(multiset(c), multiset(KeepFirst(c, n)), multiset(BeyondFirst(c, n)));
  }

  lemma RetainEven<T>(c: seq<T>, f: T -> bool, stale: T, tail: Option<seq<T>>)
    ensures Even(c, Retain(f), stale, tail)
  {
    hide Sums, Filter;
    FilterPartitions(c, f);
    Drops(multiset(c), multiset(Filter(c, f)), multiset(Filter(c, Not(f))));
  }

  lemma DedupEven<T>(c: seq<T>, same: (T, T) -> bool, stale: T, tail: Option<seq<T>>)
    ensures Even(c, DedupBy(same), stale, tail)
  {
    hide Sums, Dedup;
    DedupKeeps(c, same);
    Drops(multiset(c), multiset(Dedup(c, same)), multiset(c) - multiset(Dedup(c, same)));
  }

  lemma DrainFilterEven<T>(c: seq<T>, p: T -> bool, n: nat, stale: T, tail: Option<seq<T>>)
    ensures Even(c, DrainFilter(p, n), stale, tail)
  {
    hide Sums, Filter, KeepFirst, BeyondFirst;
    var items := Filter(c, p);
    FilterPartitions(c, p);
    KeepFirstPartitions(items, n);
    Takes(multiset(c), multiset(Filter(c, Not(p))), multiset(BeyondFirst(items, n)), multiset(KeepFirst(items, n)));
  }

  lemma DrainEven<T>(c: seq<T>, a: nat, b: nat, calls: seq<bool>, stale: T, tail: Option<seq<T>>)
    requires a <= b <= |c|
    ensures Even(c, Drain(a, b, calls), stale, tail)
  {
    hide Sums, TakeEnds;
    var (taken, left) := TakeEnds(c[a..b], calls);
    CutOut(c, a, b);
    TakeEndsConserves(c[a..b], calls);
    Takes(multiset(c), multiset(c[..a] + c[b..]), multiset(left), multiset(taken));
  }

  lemma SpliceEven<T>(c: seq<T>, op: Op<T>, stale: T, tail: Option<seq<T>>)
    requires op.Splice? && Legal(c, op)
    ensures Even(c, op, stale, tail)
  {
    hide Sums, TakeEnds;
    var (taken, left) := TakeEnds(c[op.a..op.b], op.calls);
    CutOut(c, op.a, op.b);
    TakeEndsConserves(c[op.a..op.b], op.calls);
    Exchanges(c[..op.a], c[op.b..], op.xs, multiset(c), multiset(left), multiset(taken), tail);
  }

  lemma Exchanges<T>(front: seq<T>, back: seq<T>, xs: seq<T>, c: multiset<T>, left: multiset<T>, taken: multiset<T>,
                     tail: Option<seq<T>>)
    requires c == multiset(front + back) + (taken + left)
    ensures var (shown, lost) := if tail.Some? then (multiset(tail.value), multiset(back))
                                 else (multiset{}, multiset{});
            var back' := if tail.Some? then tail.value else back;
            Sums(c, multiset(xs), shown, multiset(front + xs + back'), left, taken, lost)
  {}

  lemma PushFrontEven<T>(c: seq<T>, x: T, stale: T, tail: Option<seq<T>>)
    ensures Even(c, PushFront(x), stale, tail)
  {
    hide Sums, Filter, Dedup, TakeEnds, InsertOutcome, KeepFirst, KeepLast, BeyondFirst, BeforeLast, Last, ButLast;
    OneAdded(c, x);
    Adds(multiset(c), multiset{x}, multiset([x] + c));
  }

  lemma PushBackEven<T>(c: seq<T>, x: T, stale: T, tail: Option<seq<T>>)
    ensures Even(c, PushBack(x), stale, tail)
  {
    hide Sums, Filter, Dedup, TakeEnds, InsertOutcome, KeepFirst, KeepLast, BeyondFirst, BeforeLast, Last, ButLast;
    OneAdded(c, x);
    Adds(multiset(c), multiset{x}, multiset(c + [x]));
  }

  lemma OneAdded<T>(c: seq<T>, x: T)
    ensures multiset(c) + multiset{x} == multiset([x] + c) == multiset(c + [x])
  {}

  lemma AppendEven<T>(c: seq<T>, xs: seq<T>, stale: T, tail: Option<seq<T>>)
    ensures Even(c, Append(xs), stale, tail)
  {
    hide Sums, Filter, Dedup, TakeEnds, InsertOutcome, KeepFirst, KeepLast, BeyondFirst, BeforeLast, Last, ButLast;
    Joined(c, xs);
  }

  lemma ExtendEven<T>(c: seq<T>, op: Op<T>, stale: T, tail: Option<seq<T>>)
    requires op.Extend?
    ensures Even(c, op, stale, tail)
  {
    hide Sums, Filter, Dedup, TakeEnds, InsertOutcome, KeepFirst, KeepLast, BeyondFirst, BeforeLast, Last, ButLast;
    Joined(c, op.xs);
  }

  lemma Joined<T>(c: seq<T>, xs: seq<T>)
    ensures Sums(multiset(c), multiset(xs), multiset{}, multiset(c + xs), multiset{}, multiset([]), multiset{})
  {
    Adds(multiset(c), multiset(xs), multiset(c + xs));
  }

  lemma ClearEven<T>(c: seq<T>, stale: T, tail: Option<seq<T>>)
    ensures Even(c, Clear, stale, tail)
  {
    hide Sums;
    Drops(multiset(c), multiset([]), multiset(c));
  }

  lemma ReserveEven<T>(c: seq<T>, n: nat, stale: T, tail: Option<seq<T>>)
    ensures Even(c, Reserve(n), stale, tail)
  {
    hide Sums, Filter, Dedup, TakeEnds, InsertOutcome, KeepFirst, KeepLast, BeyondFirst, BeforeLast, Last, ButLast;
    Stays(multiset(c));
  }

  lemma ShrinkEven<T>(c: seq<T>, stale: T, tail: Option<seq<T>>)
    ensures Even(c, ShrinkToFit, stale, tail)
  {
    hide Sums, Filter, Dedup, TakeEnds, InsertOutcome, KeepFirst, KeepLast, BeyondFirst, BeforeLast, Last, ButLast;
    Stays(multiset(c));
  }

  lemma BalancedInTurn<T>(s: State<T>, g: multiset<T>, e: multiset<T>, t: State<T>, r: multiset<T>, l: multiset<T>,
                          g': multiset<T>, e': multiset<T>, u: State<T>, r': multiset<T>, l': multiset<T>)
    requires Balanced(s, g, e, t, r, l) && Balanced(t, g', e', u, r', l')
    ensures Balanced(s, g + g', e + e', u, r + r', l + l')
  {
    assert multiset(s.elems) + s.dropped + (g + g') + (e + e')
        == multiset(s.elems) + s.dropped + g + e + g' + e';
    assert multiset(t.elems) + t.dropped + r + l + g' + e' == multiset(t.elems) + t.dropped + g' + e' + r + l;
  }

  // Whatever the calls and the answers, the elements in the deque, dropped, handed back and lost
  // account for those that were there, went in or count too often.
  lemma {:induction false} RunAccounts<T>(lay: Layout, s: State<T>, ops: seq<Op<T>>, answers: seq<Answer<T>>)
    requires lay.Ok() && |answers| == |ops|
    ensures var (t, outs) := Run(lay, s, ops, answers);
            Balanced(s, GivenIn(ops, outs), ExtraIn(lay, s, ops, answers),
                     t, ReturnedIn(outs), LostIn(lay, s, ops, answers))
    decreases |ops|
  {
    if ops != [] {
      RunLast(lay, s, ops, answers);
      hide Balanced, Step, Run, GivenIn, ReturnedIn, Extra, Lost, Given, Returned;
      var (t, outs) := Run(lay, s, ButLast(ops), ButLast(answers));
      var (u, out) := Step(lay, t, Last(ops), Last(answers));
      RunAccounts(lay, s, ButLast(ops), ButLast(answers));
      StepAccounts(lay, t, Last(ops), Last(answers));
      BalancedInTurn(s, GivenIn(ButLast(ops), outs), ExtraIn(lay, s, ButLast(ops), ButLast(answers)),
                     t, ReturnedIn(outs), LostIn(lay, s, ButLast(ops), ButLast(answers)),
                     Given(Last(ops), out), Extra(lay, t, Last(ops), Last(answers)),
                     u, Returned(out), Lost(lay, t, Last(ops), Last(answers)));
    }
  }

  lemma StepAccounts<T>(lay: Layout, s: State<T>, op: Op<T>, ans: Answer<T>)
    requires lay.Ok()
    ensures var (t, out) := Step(lay, s, op, ans);
            Balanced(s, Given(op, out), Extra(lay, s, op, ans), t, Returned(out), Lost(lay, s, op, ans))
  {
    hide Balanced, Made, Halts, Effect, Failure, HandedBack, Given, Twice, Exposed, Overwritten, NewTail;
    HaltsWhen(s, op, ans);
    if Made(s, op, ans) {
      EffectAccounts(lay, s, op, ans);
    } else if Halts(s, op, ans) {
      FailureAccounts(lay, s, op, ans);
    } else {
      RefusalChangesNothing(lay, s, op, ans);
    }
  }

  lemma RefusalChangesNothing<T>(lay: Layout, s: State<T>, op: Op<T>, ans: Answer<T>)
    requires lay.Ok() && !Made(s, op, ans) && !Halts(s, op, ans)
    ensures var (t, out) := Step(lay, s, op, ans);
            Balanced(s, Given(op, out), multiset{}, t, Returned(out), multiset{})
  {
    hide Made, Legal;
  }

  lemma EffectAccounts<T>(lay: Layout, s: State<T>, op: Op<T>, ans: Answer<T>)
    requires lay.Ok() && Legal(s.elems, op)
    ensures var returned, tail := HandedBack(s.elems, op), NewTail(s, op, ans);
            Balanced(s, Given(op, Done(returned)), Exposed(s.elems, op, ans.stale, tail) + Twice(lay, s, op),
                     Effect(lay, s, op, ans), multiset(returned), Overwritten(s.elems, op, tail))
  {
    hide After, HandedBack, Discarded, Legal, GrownBy, Given, Twice, Exposed, Overwritten, Sums, NewTail;
    var c, returned, tail := s.elems, HandedBack(s.elems, op), NewTail(s, op, ans);
    ContentsEven(c, op, ans.stale, tail);
    Settle(multiset(c), s.dropped, Given(op, Done(returned)), Exposed(c, op, ans.stale, tail), Twice(lay, s, op),
           multiset(After(c, op, ans.stale, tail)), Discarded(c, op), multiset(returned), Overwritten(c, op, tail));
  }

  // The items taken by then are in place or dropped.
  lemma FailureAccounts<T>(lay: Layout, s: State<T>, op: Op<T>, ans: Answer<T>)
    requires lay.Ok() && Halts(s, op, ans)
    ensures var (t, out) := Failure(lay, s, op, ans);
            Balanced(s, Given(op, out), Exposed(s.elems, op, ans.stale, NewTail(s, op, ans)),
                     t, Returned(out), Overwritten(s.elems, op, NewTail(s, op, ans)))
  {
    var (placed, taken) := Halt(s, op, ans);
    var less, c, tail := Cut(op, placed), s.elems, NewTail(s, op, ans);
    CutShowsTheSame(c, op, placed, ans.stale, tail);
    hide KeepFirst, After, Discarded, HaltedGrowth, HandedBack, Exposed, Overwritten, Sums;
    hide NewTail, Halt, Made, Legal, Halts;
    ContentsEven(c, less, ans.stale, tail);
    SettlePart(multiset(c), s.dropped, multiset(op.xs[..placed]), Exposed(c, op, ans.stale, tail),
               multiset(op.xs[placed..taken]), multiset(After(c, less, ans.stale, tail)), Discarded(c, less),
               multiset(HandedBack(c, less)), Overwritten(c, op, tail));
    Split(op.xs, placed, taken);
  }

  lemma CutShowsTheSame<T>(c: seq<T>, op: Op<T>, n: nat, stale: T, tail: Option<seq<T>>)
    requires (op.Extend? || op.Splice?) && n <= |op.xs| && Legal(c, op)
    ensures var less := Cut(op, n);
            && Legal(c, less)
            && Given(less, Done(HandedBack(c, less))) == multiset(op.xs[..n])
            && Exposed(c, less, stale, tail) == Exposed(c, op, stale, tail)
            && Overwritten(c, less, tail) == Overwritten(c, op, tail)
  {
    hide TakeEnds;
    assert KeepFirst(op.xs, n) == op.xs[..n];
  }

  lemma SettlePart<T>(c: multiset<T>, d: multiset<T>, given: multiset<T>, exposed: multiset<T>, wasted: multiset<T>,
                      c': multiset<T>, d': multiset<T>, returned: multiset<T>, lost: multiset<T>)
    requires Sums(c, given, exposed, c', d', returned, lost)
    ensures c + d + (given + wasted) + exposed == c' + (d + d' + wasted) + returned + lost
  {
    assert c + d + (given + wasted) + exposed == c + given + exposed + (d + wasted);
    assert c' + (d + d' + wasted) + returned + lost == c' + d' + returned + lost + (d + wasted);
  }

  lemma Settle<T>(c: multiset<T>, d: multiset<T>, given: multiset<T>, exposed: multiset<T>, twice: multiset<T>,
                  c': multiset<T>, d': multiset<T>, returned: multiset<T>, lost: multiset<T>)
    requires Sums(c, given, exposed, c', d', returned, lost)
    ensures c + d + given + (exposed + twice) == c' + (d + d' + twice) + returned + lost
  {
    assert c + d + given + (exposed + twice) == c + given + exposed + (d + twice);
    assert c' + (d + d' + twice) + returned + lost == c' + d' + returned + lost + (d + twice);
  }

  // ---- conservation --------------------------------------------------------------------------

  // No element is lost or made up.
  ghost predicate Conserves<T>(lay: Layout, s: State<T>, ops: seq<Op<T>>, answers: seq<Answer<T>>)
    requires lay.Ok() && |answers| == |ops|
  {
    var (t, outs) := Run(lay, s, ops, answers);
    Balanced(s, GivenIn(ops, outs), multiset{}, t, ReturnedIn(outs), multiset{})
  }

  // A call that replaces the buffer of a non-empty deque by a smaller one.
  predicate Shrinks<T>(lay: Layout, s: State<T>, op: Op<T>, ans: Answer<T>)
    requires lay.Ok()
  {
    Replaces(lay, s, op) && ans.granted
  }

  // A call that does insert between the third position and the middle.
  predicate InsertsInFront<T>(s: State<T>, op: Op<T>, ans: Answer<T>) {
    InFront(s.elems, op) && (s.cap < |s.elems| + 1 ==> ans.granted)
  }

  // A call that takes in what memory happens to hold, told by index, length, capacity and hint: an
  // insertion between the third position and the middle, or a splice that reallocates before its
  // tail, for the items hinted at or for all of them.
  predicate Exposes<T>(s: State<T>, op: Op<T>, ans: Answer<T>) {
    var n := |s.elems|;
    match op
    case Insert(i, _) => 2 <= i <= n / 2 && (n == s.cap ==> ans.granted) && (s.cap < n ==> ans.granted)
    case Splice(a, b, _, xs, lower, _) =>
      && a <= b < n && b - a <= |xs|
      && var hole := b - a;
         if s.cap < n + lower(hole)
         then ans.granted || (0 < lower(hole) < |xs| - hole && hole < ans.taken)
         else ans.granted && s.cap < n + (|xs| - hole)
    case _ => false
  }

  lemma ExposesWhen<T>(s: State<T>, op: Op<T>, ans: Answer<T>)
    ensures Exposes(s, op, ans) <==> InsertsInFront(s, op, ans) || LosesTail(s, op, ans)
  {}

  // Whatever else memory holds, a completed splice leaves the same contents exactly when its tail is
  // empty or no step before it reallocates.
  lemma TailShowsUnlessFits<T(!new)>(lay: Layout, s: State<T>, op: Op<T>, ans: Answer<T>, x: T, y: T)
    requires lay.Ok() && op.Splice? && Step(lay, s, op, ans).1.Done? && op.a <= op.b <= |s.elems| && x != y
    ensures (forall t, u | |t| == |u| == |s.elems| - op.b ::
               Step(lay, s, op, ans.(tail := t)).0.elems == Step(lay, s, op, ans.(tail := u)).0.elems)
            <==> Fits(RequestOf(s, op), |s.elems| - op.b)
  {
    var n := |s.elems| - op.b;
    hide Fits, RequestOf, NeedsMemory, Discarded, HandedBack, GrownBy, Twice;
    if Fits(RequestOf(s, op), n) {
      FittingIsEmptyOrKeeps(s, op, ans);
    } else {
      NotFittingHasTail(s, op);
      var t, u := Repeat(x, n), Repeat(y, n);
      RepeatAt(x, n);
      RepeatAt(y, n);
      var k := op.a + |op.xs|;
      assert Step(lay, s, op, ans.(tail := t)).0.elems[k] == x;
      assert Step(lay, s, op, ans.(tail := u)).0.elems[k] == y;
    }
  }

  lemma FittingIsEmptyOrKeeps<T>(s: State<T>, op: Op<T>, ans: Answer<T>)
    requires op.Splice? && Legal(s.elems, op) && Made(s, op, ans) && Fits(RequestOf(s, op), |s.elems| - op.b)
    ensures forall t :: !LosesTail(s, op, ans.(tail := t))
  {}

  lemma NotFittingHasTail<T>(s: State<T>, op: Op<T>)
    requires op.Splice? && Legal(s.elems, op) && !Fits(RequestOf(s, op), |s.elems| - op.b)
    ensures op.b < |s.elems|
  {}

  // One that is refused memory on the way leaves the same unless the first step before the tail was
  // granted and reallocated, and the second was not.
  lemma TailShowsWhenHalted<T(!new)>(lay: Layout, s: State<T>, op: Op<T>, ans: Answer<T>, x: T, y: T)
    requires lay.Ok() && op.Splice? && Step(lay, s, op, ans).1.Denied? && op.a <= op.b <= |s.elems| && x != y
    ensures (forall t, u | |t| == |u| == |s.elems| - op.b ::
               Step(lay, s, op, ans.(tail := t)).0.elems == Step(lay, s, op, ans.(tail := u)).0.elems)
            <==>
            var hole, hint := op.b - op.a, op.lower(op.b - op.a);
            !(op.b < |s.elems| && s.cap < |s.elems| + hint && 0 < hint && hole + hint < |op.xs| && hole < ans.taken)
  {
    var n := |s.elems| - op.b;
    HaltedLoses(s, op, ans);
    var k := op.a + Halt(s, op, ans).0;
    hide Made, Halt, LosesTail, RequestOf, NeedsMemory, Discarded, HandedBack, HaltedGrowth, TakeEnds;
    var t, u := Repeat(x, n), Repeat(y, n);
    RepeatAt(x, n);
    RepeatAt(y, n);
    if LosesTail(s, op, ans) {
      assert Step(lay, s, op, ans.(tail := t)).0.elems[k] == x;
      assert Step(lay, s, op, ans.(tail := u)).0.elems[k] == y;
    }
  }

  lemma HaltedLoses<T>(s: State<T>, op: Op<T>, ans: Answer<T>)
    requires op.Splice? && Legal(s.elems, op) && !Made(s, op, ans)
    ensures Halts(s, op, ans)
    ensures forall t :: !Made(s, op, ans.(tail := t)) && Halt(s, op, ans.(tail := t)) == Halt(s, op, ans)
    ensures forall t :: LosesTail(s, op, ans.(tail := t)) == LosesTail(s, op, ans)
    ensures var hole, hint := op.b - op.a, op.lower(op.b - op.a);
            LosesTail(s, op, ans)
            <==> op.b < |s.elems| && s.cap < |s.elems| + hint && 0 < hint && hole + hint < |op.xs| && hole < ans.taken
    ensures LosesTail(s, op, ans) ==> op.b < |s.elems|
  {}

  // And a completed insertion exactly in the first two positions and the back half.
  lemma StaleShowsInFront<T(!new)>(lay: Layout, s: State<T>, op: Op<T>, ans: Answer<T>, x: T, y: T)
    requires lay.Ok() && op.Insert? && Step(lay, s, op, ans).1.Done? && x != y
    ensures (forall t, u :: Step(lay, s, op, ans.(stale := t)).0.elems == Step(lay, s, op, ans.(stale := u)).0.elems)
            <==> op.i <= 1 || op.i > |s.elems| / 2
  {
    var c := s.elems;
    hide InsertOutcome, Discarded, HandedBack, GrownBy;
    if op.i <= 1 || op.i > |c| / 2 {
      forall t
        ensures Step(lay, s, op, ans.(stale := t)).0.elems == Inserted(c, op.i, op.x)
      {
        InsertAsDocumented(c, op.i, op.x, t);
      }
    } else {
      InsertExposesStale(c, op.i, op.x, x);
      InsertExposesStale(c, op.i, op.x, y);
      assert Step(lay, s, op, ans.(stale := x)).0.elems[0] == x;
      assert Step(lay, s, op, ans.(stale := y)).0.elems[0] == y;
    }
  }

  predicate ShrinksAt<T>(lay: Layout, s: State<T>, ops: seq<Op<T>>, answers: seq<Answer<T>>, k: nat)
    requires lay.Ok() && |answers| == |ops| && k < |ops|
  {
    Shrinks(lay, StateAt(lay, s, ops, answers, k), ops[k], answers[k])
  }

  predicate ExposesAt<T>(lay: Layout, s: State<T>, ops: seq<Op<T>>, answers: seq<Answer<T>>, k: nat)
    requires lay.Ok() && |answers| == |ops| && k < |ops|
  {
    Exposes(StateAt(lay, s, ops, answers, k), ops[k], answers[k])
  }

  ghost predicate NeverShrinks<T>(lay: Layout, s: State<T>, ops: seq<Op<T>>, answers: seq<Answer<T>>)
    requires lay.Ok() && |answers| == |ops|
  {
    forall k | 0 <= k < |ops| :: !ShrinksAt(lay, s, ops, answers, k)
  }

  ghost predicate NeverExposes<T>(lay: Layout, s: State<T>, ops: seq<Op<T>>, answers: seq<Answer<T>>)
    requires lay.Ok() && |answers| == |ops|
  {
    forall k | 0 <= k < |ops| :: !ExposesAt(lay, s, ops, answers, k)
  }

  lemma PrefixCalls<T>(lay: Layout, s: State<T>, ops: seq<Op<T>>, answers: seq<Answer<T>>)
    requires lay.Ok() && |answers| == |ops| > 0
    ensures forall k | 0 <= k < |ops| - 1 ::
              ShrinksAt(lay, s, ButLast(ops), ButLast(answers), k) == ShrinksAt(lay, s, ops, answers, k)
    ensures forall k | 0 <= k < |ops| - 1 ::
              ExposesAt(lay, s, ButLast(ops), ButLast(answers), k) == ExposesAt(lay, s, ops, answers, k)
  {
    hide Shrinks, Exposes, StateAt;
    PrefixStates(lay, s, ops, answers);
  }

  // What a call counts too often and what it loses, told by what it exposes and by shrinking.
  ghost predicate Accounted<T>(lay: Layout, s: State<T>, op: Op<T>, ans: Answer<T>)
    requires lay.Ok()
  {
    && (Exposes(s, op, ans) ==> Legal(s.elems, op))
    && Extra(lay, s, op, ans)
       == (if Exposes(s, op, ans) then Exposed(s.elems, op, ans.stale, NewTail(s, op, ans))
           else if Shrinks(lay, s, op, ans) then multiset(s.elems)
           else multiset{})
    && Lost(lay, s, op, ans)
       == if Exposes(s, op, ans) then Overwritten(s.elems, op, NewTail(s, op, ans)) else multiset{}
  }

  lemma StepAccounted<T>(lay: Layout, s: State<T>, op: Op<T>, ans: Answer<T>)
    requires lay.Ok()
    ensures Accounted(lay, s, op, ans)
  {
    hide *;
    if op.Insert? {
      InsertAccounted(lay, s, op, ans);
    } else if op.Splice? {
      SpliceAccounted(lay, s, op, ans);
    } else if op.ShrinkToFit? {
      ShrinkAccounted(lay, s, op, ans);
    } else {
      OthersAccounted(lay, s, op, ans);
    }
  }

  lemma InsertAccounted<T>(lay: Layout, s: State<T>, op: Op<T>, ans: Answer<T>)
    requires lay.Ok() && op.Insert?
    ensures Accounted(lay, s, op, ans)
  {
    InsertMade(s, op, ans);
    NoTail(s, op, ans);
    hide Made, Halts, LosesTail, NewTail, Capacity;
    if Made(s, op, ans) {
      var shown := Exposed(s.elems, op, ans.stale, None);
      assert shown + multiset{} == shown;
    }
  }

  lemma InsertMade<T>(s: State<T>, op: Op<T>, ans: Answer<T>)
    requires op.Insert?
    ensures Made(s, op, ans) <==> op.i <= |s.elems| && (s.cap < |s.elems| + 1 ==> ans.granted)
    ensures !Halts(s, op, ans)
  {}

  lemma NoTail<T>(s: State<T>, op: Op<T>, ans: Answer<T>)
    requires !op.Splice?
    ensures !LosesTail(s, op, ans)
    ensures Legal(s.elems, op) ==> NewTail(s, op, ans) == None
  {}

  lemma SpliceAccounted<T>(lay: Layout, s: State<T>, op: Op<T>, ans: Answer<T>)
    requires lay.Ok() && op.Splice?
    ensures Accounted(lay, s, op, ans)
  {
    ExposesWhen(s, op, ans);
    HaltsWhen(s, op, ans);
    hide Exposes, Made, Halts, Capacity, Fits, MustAllocate, RequestOf, Halt;
    if Legal(s.elems, op) {
      var shown := Exposed(s.elems, op, ans.stale, NewTail(s, op, ans));
      assert shown + multiset{} == shown;
    }
  }

  lemma ShrinkAccounted<T>(lay: Layout, s: State<T>, op: Op<T>, ans: Answer<T>)
    requires lay.Ok() && op.ShrinkToFit?
    ensures Accounted(lay, s, op, ans)
  {
    hide Capacity, Fits, MustAllocate, RequestOf, Halt;
    assert multiset{} + Twice(lay, s, op) == Twice(lay, s, op);
  }

  lemma OthersAccounted<T>(lay: Layout, s: State<T>, op: Op<T>, ans: Answer<T>)
    requires lay.Ok() && !op.Insert? && !op.Splice? && !op.ShrinkToFit?
    ensures Accounted(lay, s, op, ans)
  {
    hide Made, Halts, Capacity, Fits, MustAllocate, RequestOf, Halt, Legal;
  }

  lemma AccountsLast<T>(lay: Layout, s: State<T>, ops: seq<Op<T>>, answers: seq<Answer<T>>)
    requires lay.Ok() && |answers| == |ops| > 0
    ensures var t := StateAt(lay, s, ops, answers, |ops| - 1);
            && ExtraIn(lay, s, ops, answers)
               == ExtraIn(lay, s, ButLast(ops), ButLast(answers)) + Extra(lay, t, Last(ops), Last(answers))
            && LostIn(lay, s, ops, answers)
               == LostIn(lay, s, ButLast(ops), ButLast(answers)) + Lost(lay, t, Last(ops), Last(answers))
  {
    hide Extra, Lost, Run;
  }

  // What counts too often outnumbers what is lost exactly by what shrinking calls drop.
  lemma {:induction false} ShrinkingAddsUp<T>(lay: Layout, s: State<T>, ops: seq<Op<T>>, answers: seq<Answer<T>>)
    requires lay.Ok() && |answers| == |ops|
    ensures |LostIn(lay, s, ops, answers)| <= |ExtraIn(lay, s, ops, answers)|
    ensures |LostIn(lay, s, ops, answers)| == |ExtraIn(lay, s, ops, answers)| <==> NeverShrinks(lay, s, ops, answers)
    decreases |ops|
  {
    if ops != [] {
      hide *;
      var t := StateAt(lay, s, ops, answers, |ops| - 1);
      ShrinkingAddsUp(lay, s, ButLast(ops), ButLast(answers));
      NeverShrinksLast(lay, s, ops, answers);
      AccountsLast(lay, s, ops, answers);
      ShrinkingStep(lay, t, Last(ops), Last(answers));
      LastShrinks(lay, s, ops, answers);
    }
  }

  lemma LastShrinks<T>(lay: Layout, s: State<T>, ops: seq<Op<T>>, answers: seq<Answer<T>>)
    requires lay.Ok() && |answers| == |ops| > 0
    ensures ShrinksAt(lay, s, ops, answers, |ops| - 1)
            <==> Shrinks(lay, StateAt(lay, s, ops, answers, |ops| - 1), Last(ops), Last(answers))
  {}

  lemma ShrinkingStep<T>(lay: Layout, s: State<T>, op: Op<T>, ans: Answer<T>)
    requires lay.Ok()
    ensures |Lost(lay, s, op, ans)| <= |Extra(lay, s, op, ans)|
    ensures |Lost(lay, s, op, ans)| == |Extra(lay, s, op, ans)| <==> !Shrinks(lay, s, op, ans)
  {
    hide Extra, Lost, Capacity, Made, Halt, Fits, RequestOf;
    StepAccounted(lay, s, op, ans);
  }

  lemma NeverShrinksLast<T>(lay: Layout, s: State<T>, ops: seq<Op<T>>, answers: seq<Answer<T>>)
    requires lay.Ok() && |answers| == |ops| > 0
    ensures NeverShrinks(lay, s, ops, answers) <==>
              && NeverShrinks(lay, s, ButLast(ops), ButLast(answers))
              && !ShrinksAt(lay, s, ops, answers, |ops| - 1)
  {
    hide ShrinksAt;
    PrefixCalls(lay, s, ops, answers);
  }

  // The calls from the `n`-th on neither shrink nor take in what memory happens to hold.
  ghost predicate SettledFrom<T>(lay: Layout, s: State<T>, ops: seq<Op<T>>, answers: seq<Answer<T>>, n: nat)
    requires lay.Ok() && |answers| == |ops|
  {
    && (forall k | n <= k < |ops| :: !ShrinksAt(lay, s, ops, answers, k))
    && (forall k | n <= k < |ops| :: !ExposesAt(lay, s, ops, answers, k))
  }

  // Such calls change nothing in the balance.
  lemma {:induction false} Settled<T>(lay: Layout, s: State<T>, ops: seq<Op<T>>, answers: seq<Answer<T>>, n: nat)
    requires lay.Ok() && |answers| == |ops| && n <= |ops| && SettledFrom(lay, s, ops, answers, n)
    ensures ExtraIn(lay, s, ops, answers) == ExtraIn(lay, s, ops[..n], answers[..n])
    ensures LostIn(lay, s, ops, answers) == LostIn(lay, s, ops[..n], answers[..n])
    decreases |ops|
  {
    hide ExtraIn, LostIn, SettledFrom;
    if n == |ops| {
      assert ops[..n] == ops && answers[..n] == answers;
    } else {
      SettledLast(lay, s, ops, answers, n);
      AccountsLast(lay, s, ops, answers);
      Settled(lay, s, ButLast(ops), ButLast(answers), n);
      assert ButLast(ops)[..n] == ops[..n] && ButLast(answers)[..n] == answers[..n];
    }
  }

  lemma SettledLast<T>(lay: Layout, s: State<T>, ops: seq<Op<T>>, answers: seq<Answer<T>>, n: nat)
    requires lay.Ok() && |answers| == |ops| > n && SettledFrom(lay, s, ops, answers, n)
    ensures SettledFrom(lay, s, ButLast(ops), ButLast(answers), n)
    ensures var t := StateAt(lay, s, ops, answers, |ops| - 1);
            Extra(lay, t, Last(ops), Last(answers)) == multiset{} == Lost(lay, t, Last(ops), Last(answers))
  {
    hide Extra, Lost, Shrinks, Exposes, Exposed, Overwritten, StateAt;
    PrefixCalls(lay, s, ops, answers);
    assert !ShrinksAt(lay, s, ops, answers, |ops| - 1) && !ExposesAt(lay, s, ops, answers, |ops| - 1);
    StepAccounted(lay, StateAt(lay, s, ops, answers, |ops| - 1), Last(ops), Last(answers));
  }

  lemma ConservesIffEven<T>(lay: Layout, s: State<T>, ops: seq<Op<T>>, answers: seq<Answer<T>>)
    requires lay.Ok() && |answers| == |ops|
    ensures Conserves(lay, s, ops, answers) <==> ExtraIn(lay, s, ops, answers) == LostIn(lay, s, ops, answers)
  {
    hide Run, ExtraIn, LostIn, GivenIn, ReturnedIn;
    var (t, outs) := Run(lay, s, ops, answers);
    RunAccounts(lay, s, ops, answers);
    BalancedIffEven(s, GivenIn(ops, outs), ExtraIn(lay, s, ops, answers), t, ReturnedIn(outs),
                    LostIn(lay, s, ops, answers));
  }

  lemma BalancedIffEven<T>(s: State<T>, given: multiset<T>, extra: multiset<T>,
                           t: State<T>, returned: multiset<T>, lost: multiset<T>)
    requires Balanced(s, given, extra, t, returned, lost)
    ensures Balanced(s, given, multiset{}, t, returned, multiset{}) <==> extra == lost
  {
    var m, m' := multiset(s.elems) + s.dropped + given, multiset(t.elems) + t.dropped + returned;
    assert m + multiset{} == m && m' + multiset{} == m';
    Cancel(m, extra, m', lost);
  }

  // Any run that conserves elements never shrinks a non-empty deque; and of the runs that never take
  // in what memory happens to hold, all that never shrink one conserve elements.
  lemma ConservedIffNeverShrinks<T>(lay: Layout, s: State<T>, ops: seq<Op<T>>, answers: seq<Answer<T>>)
    requires lay.Ok() && |answers| == |ops|
    ensures Conserves(lay, s, ops, answers) ==> NeverShrinks(lay, s, ops, answers)
    ensures NeverExposes(lay, s, ops, answers) ==>
              (Conserves(lay, s, ops, answers) <==> NeverShrinks(lay, s, ops, answers))
  {
    hide Conserves, ShrinksAt, ExposesAt;
    ConservesIffEven(lay, s, ops, answers);
    ShrinkingAddsUp(lay, s, ops, answers);
    if NeverExposes(lay, s, ops, answers) && NeverShrinks(lay, s, ops, answers) {
      hide ExtraIn, LostIn;
      Settled(lay, s, ops, answers, 0);
      assert ops[..0] == [] && answers[..0] == [];
    }
  }

  // The same answers, except for what memory holds.
  ghost predicate Alike<T>(answers: seq<Answer<T>>, answers': seq<Answer<T>>) {
    && |answers| == |answers'|
    && forall k | 0 <= k < |answers| ::
         answers'[k].granted == answers[k].granted && answers'[k].taken == answers[k].taken
  }

  // Elements are conserved, whatever memory holds, exactly when, whatever it holds, no call shrinks
  // a non-empty deque, inserts in front, or is a splice that reallocates before its tail.
  lemma ConservedWhateverMemoryHolds<T(!new)>(lay: Layout, s: State<T>, ops: seq<Op<T>>, answers: seq<Answer<T>>,
                                          a: T, b: T)
    requires lay.Ok() && |answers| == |ops| && a != b
    ensures AlwaysConserves(lay, s, ops, answers)
            <==> (forall w | Alike(answers, w) :: NeverShrinks(lay, s, ops, w) && NeverExposes(lay, s, ops, w))
  {
    hide Conserves, NeverShrinks, NeverExposes, Alike;
    forall w | Alike(answers, w)
      ensures |w| == |ops|
      ensures Conserves(lay, s, ops, w) ==> NeverShrinks(lay, s, ops, w)
      ensures NeverShrinks(lay, s, ops, w) && NeverExposes(lay, s, ops, w) ==> Conserves(lay, s, ops, w)
    {
      AlikeLengths(answers, w);
      ConservedIffNeverShrinks(lay, s, ops, w);
    }
    if AlwaysConserves(lay, s, ops, answers) {
      forall w | Alike(answers, w)
        ensures NeverExposes(lay, s, ops, w)
      {
        ExposureShows(lay, s, ops, answers, w, 0, a, b);
        NoneExposes(lay, s, ops, w);
      }
    }
  }

  ghost predicate AlwaysConserves<T(!new)>(lay: Layout, s: State<T>, ops: seq<Op<T>>, answers: seq<Answer<T>>)
    requires lay.Ok()
  {
    forall w | Alike(answers, w) :: |w| == |ops| && Conserves(lay, s, ops, w)
  }

  lemma AlikeLengths<T>(answers: seq<Answer<T>>, answers': seq<Answer<T>>)
    requires Alike(answers, answers')
    ensures |answers| == |answers'|
  {}

  // No call from the `n`-th on takes in what memory happens to hold.
  ghost predicate NoneExposesFrom<T>(lay: Layout, s: State<T>, ops: seq<Op<T>>, answers: seq<Answer<T>>, n: nat)
    requires lay.Ok() && |answers| == |ops|
  {
    forall k | n <= k < |ops| :: !ExposesAt(lay, s, ops, answers, k)
  }

  lemma NoneExposes<T>(lay: Layout, s: State<T>, ops: seq<Op<T>>, answers: seq<Answer<T>>)
    requires lay.Ok() && |answers| == |ops| && NoneExposesFrom(lay, s, ops, answers, 0)
    ensures NeverExposes(lay, s, ops, answers)
  {}

  lemma NoneExposesBefore<T>(lay: Layout, s: State<T>, ops: seq<Op<T>>, answers: seq<Answer<T>>, n: nat)
    requires lay.Ok() && |answers| == |ops|
    ensures n == |ops| ==> NoneExposesFrom(lay, s, ops, answers, n)
    ensures n < |ops| && NoneExposesFrom(lay, s, ops, answers, n + 1) ==>
              (NoneExposesFrom(lay, s, ops, answers, n)
               <==> !ExposesAt(lay, s, ops, answers, n))
  {
    hide ExposesAt;
  }

  // What memory holds at the last call that takes it in would decide the balance.
  lemma {:induction false} ExposureShows<T(!new)>(lay: Layout, s: State<T>, ops: seq<Op<T>>, answers: seq<Answer<T>>,
                                                  w: seq<Answer<T>>, n: nat, a: T, b: T)
    requires lay.Ok() && |answers| == |ops| == |w| && a != b && n <= |ops|
    requires AlwaysConserves(lay, s, ops, answers) && Alike(answers, w)
    ensures NoneExposesFrom(lay, s, ops, w, n)
    decreases |ops| - n, 1
  {
    hide *;
    NoneExposesBefore(lay, s, ops, w, n);
    if n < |ops| {
      ExposureShows(lay, s, ops, answers, w, n + 1, a, b);
      if ExposesAt(lay, s, ops, w, n) {
        var t := StateAt(lay, s, ops, w, n);
        var extra, lost := ExtraIn(lay, s, ops[..n], w[..n]), LostIn(lay, s, ops[..n], w[..n]);
        WhereExposed(lay, s, ops, w, n);
        ExposedWith(lay, s, ops, answers, w, n, a, b, a);
        ExposedWith(lay, s, ops, answers, w, n, a, b, b);
        MemoryTells(a, b, extra, lost, t.elems, ops[n]);
      }
    }
  }

  // Where memory shows: at an insertion in front, or behind the range of a splice.
  predicate Shows<T>(c: seq<T>, op: Op<T>) {
    InFront(c, op) || (op.Splice? && op.a <= op.b < |c|)
  }

  lemma WhereExposed<T>(lay: Layout, s: State<T>, ops: seq<Op<T>>, answers: seq<Answer<T>>, n: nat)
    requires lay.Ok() && |answers| == |ops| && n < |ops| && ExposesAt(lay, s, ops, answers, n)
    ensures Exposes(StateAt(lay, s, ops, answers, n), ops[n], answers[n])
    ensures Shows(StateAt(lay, s, ops, answers, n).elems, ops[n])
  {
    hide StateAt, Made, Halt, Fits, RequestOf;
  }

  // How a run comes out whose last call to take in what memory holds is its `n`-th, if that is `x`.
  lemma {:induction false} ExposedWith<T(!new)>(lay: Layout, s: State<T>, ops: seq<Op<T>>, answers: seq<Answer<T>>,
                                                w: seq<Answer<T>>, n: nat, a: T, b: T, x: T)
    requires lay.Ok() && |answers| == |ops| == |w| && a != b && n < |ops|
    requires AlwaysConserves(lay, s, ops, answers) && Alike(answers, w) && ExposesAt(lay, s, ops, w, n)
    requires Shows(StateAt(lay, s, ops, w, n).elems, ops[n])
    ensures LeftTo(x, ExtraIn(lay, s, ops[..n], w[..n]), LostIn(lay, s, ops[..n], w[..n]),
                   StateAt(lay, s, ops, w, n).elems, ops[n])
    decreases |ops| - n, 0
  {
    hide *;
    var v := w[n := Holding(w[n], StateAt(lay, s, ops, w, n).elems, ops[n], x)];
    MemoryIsAlike(answers, w, n, StateAt(lay, s, ops, w, n).elems, ops[n], x);
    AlikeConserves(lay, s, ops, answers, v);
    OtherMemory(lay, s, ops, w, v, n, x);
    ExposureShows(lay, s, ops, answers, v, n + 1, a, b);
    ConservedIffNeverShrinks(lay, s, ops, v);
    ConservesIffEven(lay, s, ops, v);
    SettledAfter(lay, s, ops, v, n + 1);
    Settled(lay, s, ops, v, n + 1);
    ExposureAddsUp(lay, s, ops, v, n, x);
  }

  // The same answer with memory that holds `x` everywhere.
  function Holding<T>(ans: Answer<T>, c: seq<T>, op: Op<T>, x: T): (ans': Answer<T>)
    requires Shows(c, op)
  {
    ans.(stale := x, tail := if op.Splice? then Repeat(x, |c| - op.b) else [])
  }

  lemma MemoryIsAlike<T>(answers: seq<Answer<T>>, w: seq<Answer<T>>, n: nat, c: seq<T>, op: Op<T>, x: T)
    requires Alike(answers, w) && n < |w| && Shows(c, op)
    ensures Alike(answers, w[n := Holding(w[n], c, op, x)])
  {}

  lemma AlikeConserves<T(!new)>(lay: Layout, s: State<T>, ops: seq<Op<T>>, answers: seq<Answer<T>>, w: seq<Answer<T>>)
    requires lay.Ok() && AlwaysConserves(lay, s, ops, answers) && Alike(answers, w)
    ensures |w| == |ops| && Conserves(lay, s, ops, w)
  {}

  lemma OtherMemory<T>(lay: Layout, s: State<T>, ops: seq<Op<T>>, w: seq<Answer<T>>, v: seq<Answer<T>>, n: nat, x: T)
    requires lay.Ok() && |ops| == |w| > n && ExposesAt(lay, s, ops, w, n)
    requires Shows(StateAt(lay, s, ops, w, n).elems, ops[n])
    requires v == w[n := Holding(w[n], StateAt(lay, s, ops, w, n).elems, ops[n], x)]
    ensures v[..n] == w[..n] && StateAt(lay, s, ops, v, n) == StateAt(lay, s, ops, w, n)
    ensures ExposesAt(lay, s, ops, v, n) && v[n] == Holding(v[n], StateAt(lay, s, ops, v, n).elems, ops[n], x)
  {
    hide Run;
    assert v[..n] == w[..n];
    SameExposure(StateAt(lay, s, ops, w, n), ops[n], w[n], v[n]);
    hide Exposes;
  }

  lemma SameExposure<T>(s: State<T>, op: Op<T>, ans: Answer<T>, ans': Answer<T>)
    requires ans.granted == ans'.granted && ans.taken == ans'.taken
    ensures Exposes(s, op, ans) == Exposes(s, op, ans')
  {
    hide Fits, RequestOf, NeedsMemory;
  }

  lemma SettledAfter<T>(lay: Layout, s: State<T>, ops: seq<Op<T>>, answers: seq<Answer<T>>, n: nat)
    requires lay.Ok() && |answers| == |ops| && n <= |ops|
    requires NeverShrinks(lay, s, ops, answers) && NoneExposesFrom(lay, s, ops, answers, n)
    ensures SettledFrom(lay, s, ops, answers, n)
  {
    hide ShrinksAt, ExposesAt;
  }

  lemma ExposureAddsUp<T>(lay: Layout, s: State<T>, ops: seq<Op<T>>, answers: seq<Answer<T>>, n: nat, x: T)
    requires lay.Ok() && |answers| == |ops| && n < |ops| && ExposesAt(lay, s, ops, answers, n)
    requires var c := StateAt(lay, s, ops, answers, n).elems;
             Shows(c, ops[n]) && answers[n] == Holding(answers[n], c, ops[n], x)
    requires ExtraIn(lay, s, ops[..n + 1], answers[..n + 1]) == LostIn(lay, s, ops[..n + 1], answers[..n + 1])
    ensures LeftTo(x, ExtraIn(lay, s, ops[..n], answers[..n]), LostIn(lay, s, ops[..n], answers[..n]),
                   StateAt(lay, s, ops, answers, n).elems, ops[n])
  {
    var xs, ws, t := ops[..n + 1], answers[..n + 1], StateAt(lay, s, ops, answers, n);
    WhereExposed(lay, s, ops, answers, n);
    hide ExtraIn, LostIn, Extra, Lost, StateAt, Exposes, Shrinks, Exposed, Overwritten;
    UpTo(lay, s, ops, answers, n);
    AccountsLast(lay, s, xs, ws);
    StepAccounted(lay, t, ops[n], answers[n]);
    HoldingShows(t, ops[n], answers[n], x);
  }

  lemma HoldingShows<T>(s: State<T>, op: Op<T>, ans: Answer<T>, x: T)
    requires Exposes(s, op, ans) && Legal(s.elems, op) && Shows(s.elems, op) && ans == Holding(ans, s.elems, op, x)
    ensures Exposed(s.elems, op, ans.stale, NewTail(s, op, ans)) == Exposed(s.elems, op, x, Showing(s.elems, op, x))
    ensures Overwritten(s.elems, op, NewTail(s, op, ans)) == Overwritten(s.elems, op, Showing(s.elems, op, x))
  {
    ExposesWhen(s, op, ans);
    hide Made, Halt, Fits, RequestOf;
  }

  function Showing<T>(c: seq<T>, op: Op<T>, x: T): (tail: Option<seq<T>>)
    requires Shows(c, op)
  {
    if op.Splice? then Some(Repeat(x, |c| - op.b)) else None
  }

  lemma UpTo<T>(lay: Layout, s: State<T>, ops: seq<Op<T>>, answers: seq<Answer<T>>, n: nat)
    requires lay.Ok() && |answers| == |ops| && n < |ops|
    ensures ButLast(ops[..n + 1]) == ops[..n] && ButLast(answers[..n + 1]) == answers[..n]
    ensures StateAt(lay, s, ops[..n + 1], answers[..n + 1], n) == StateAt(lay, s, ops, answers, n)
  {
    hide Run;
    assert ops[..n + 1][..n] == ops[..n] && answers[..n + 1][..n] == answers[..n];
  }

  ghost predicate LeftTo<T>(x: T, extra: multiset<T>, lost: multiset<T>, c: seq<T>, op: Op<T>)
    requires Shows(c, op)
  {
    extra + Exposed(c, op, x, Showing(c, op, x)) == lost + Overwritten(c, op, Showing(c, op, x))
  }

  lemma MemoryTells<T>(a: T, b: T, extra: multiset<T>, lost: multiset<T>, c: seq<T>, op: Op<T>)
    requires Shows(c, op) && LeftTo(a, extra, lost, c, op) && LeftTo(b, extra, lost, c, op)
    ensures a == b
  {
    hide LeftTo, Exposed, Overwritten, Showing, Repeat;
    LeftMeans(a, extra, lost, c, op);
    LeftMeans(b, extra, lost, c, op);
    if InFront(c, op) {
      OneTells(a, b, c[2 * op.i - 2], extra, lost + multiset{c[op.i - 2], c[op.i]});
    } else {
      ManyTell(a, b, |c| - op.b, extra, lost + multiset(c[op.b..]));
    }
  }

  lemma LeftMeans<T>(x: T, extra: multiset<T>, lost: multiset<T>, c: seq<T>, op: Op<T>)
    requires Shows(c, op) && LeftTo(x, extra, lost, c, op)
    ensures InFront(c, op) ==> extra + multiset{x, c[2 * op.i - 2]} == lost + multiset{c[op.i - 2], c[op.i]}
    ensures op.Splice? ==> extra + multiset(Repeat(x, |c| - op.b)) == lost + multiset(c[op.b..])
  {
    hide Repeat;
  }

  lemma OneTells<T>(a: T, b: T, y: T, extra: multiset<T>, lost: multiset<T>)
    requires extra + multiset{a, y} == lost && extra + multiset{b, y} == lost
    ensures a == b
  {
    var m := extra + multiset{y};
    assert extra + multiset{a, y} == m + multiset{a} && extra + multiset{b, y} == m + multiset{b};
    assert (m + multiset{a})[a] == m[a] + 1;
  }

  lemma ManyTell<T>(a: T, b: T, n: nat, extra: multiset<T>, lost: multiset<T>)
    requires 0 < n && extra + multiset(Repeat(a, n)) == lost && extra + multiset(Repeat(b, n)) == lost
    ensures a == b
  {
    hide Repeat;
    CountRepeat(a, n, a);
    CountRepeat(b, n, a);
    assert (extra + multiset(Repeat(a, n)))[a] == extra[a] + n;
    assert (extra + multiset(Repeat(b, n)))[a] == extra[a] + (if a == b then n else 0);
  }

  // One element, capacity for two, and elements as large as a page: the call keeps the element
  // and drops it as well.
  lemma ShrinkDropsWhatItKeeps(ans: Answer<int>)
    requires ans.granted
    ensures var lay, s := Layout(4096, 1, 4096), State([7], 2, multiset{}, 0);
            Step(lay, s, ShrinkToFit, ans) == (State([7], 1, multiset{7}, 0), Done([]))
  {
    var lay := Layout(4096, 1, 4096);
    var s := State([7], 2, multiset{}, 0);
    assert SizeInBytes(lay, 2) == 8192 && Capacity(lay, 1) == 1;
    assert Twice(lay, s, ShrinkToFit) == multiset([7]) == multiset{7};
    assert Effect(lay, s, ShrinkToFit, ans) == State([7], 1, multiset{7}, 0);
  }
}
