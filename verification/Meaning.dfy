// What each call means to its caller, in terms of the contents before and after alone.
module Meaning {
  import opened Allocation
  import opened Sequences
  import opened Model
  import opened Conservation
  import opened Costs

  function Least(a: nat, b: nat): (least: nat) {
    if a < b then a else b
  }

  // The calls that the code asserts against.
  predicate OutOfBounds<T>(c: seq<T>, op: Op<T>) {
    match op
    case Insert(i, _) => |c| < i
    case Remove(i) => |c| <= i
    case SplitOff(at) => |c| < at
    case Drain(a, b, _) => !(a <= b <= |c|)
    case Splice(a, b, _, _, _, _) => !(a <= b <= |c|)
    case _ => false
  }

  // `xs` came out of `range` by as many calls from its two ends as there is something for.
  ghost predicate CameFromEnds<T>(range: seq<T>, calls: seq<bool>, xs: seq<T>) {
    && |xs| == Least(|calls|, |range|)
    && var fronts, backs := TakenBy(true, xs, calls), Reverse(TakenBy(false, xs, calls));
       && |fronts| + |backs| == |xs|
       && fronts == range[..|fronts|] && backs == range[|range| - |backs|..]
  }

  // A call that completes, handing back `xs`.
  ghost predicate Completes<T>(s: State<T>, op: Op<T>, t: State<T>, xs: seq<T>) {
    var c, c' := s.elems, t.elems;
    && !OutOfBounds(c, op)
    && match op
       case PushFront(x) => xs == [] && |c'| == |c| + 1 && c'[0] == x && c'[1..] == c
       case PushBack(x) => xs == [] && |c'| == |c| + 1 && c'[|c|] == x && c'[..|c|] == c
       case PopFront => |xs| == Least(1, |c|) && xs + c' == c
       case PopBack => |xs| == Least(1, |c|) && c' + xs == c
       case Insert(i, x) =>
         && xs == [] && |c'| == |c| + 1 && c'[i] == x
         && if 2 <= i <= |c| / 2 then
              && c'[1..i - 1] == c[..i - 2] && c'[i - 1] == c[i - 1]
              && c'[i + 1..2 * i - 1] == c[i + 1..2 * i - 1] && c'[2 * i - 1..] == c[2 * i - 2..]
            else c'[..i] == c[..i] && c'[i + 1..] == c[i..]
       case Remove(i) => xs == [c[i]] && |c'| == |c| - 1 && c'[..i] == c[..i] && c'[i..] == c[i + 1..]
       case Append(ys) => xs == [] && |c'| == |c| + |ys| && c'[..|c|] == c && c'[|c|..] == ys
       case Extend(ys, _, _) => xs == [] && |c'| == |c| + |ys| && c'[..|c|] == c && c'[|c|..] == ys
       case Splice(a, b, calls, ys, lower, _) =>
         && CameFromEnds(c[a..b], calls, xs)
         && |c'| == |c| - (b - a) + |ys| && c'[..a] == c[..a] && c'[a..a + |ys|] == ys
         && (b == |c| || |ys| < b - a || (|c| + lower(b - a) <= s.cap && |c'| <= s.cap) ==> c'[a + |ys|..] == c[b..])
       case SplitOff(at) => |c'| == at && c' + xs == c
       case TruncateFront(n) => xs == [] && |c'| == Least(n, |c|) && c' == c[|c| - |c'|..]
       case TruncateBack(n) => xs == [] && |c'| == Least(n, |c|) && c' == c[..|c'|]
       case Clear => xs == [] && c' == []
       case Reserve(n) => xs == [] && c' == c && |c| + n <= t.cap
       case ShrinkToFit =>
         xs == [] && c' == c && t.dropped == s.dropped + (if t.cap < s.cap then multiset(c) else multiset{})
       case Retain(f) => xs == [] && c' == RemoveLoop(c, 0, Not(f)).0
       case DedupBy(same) => xs == [] && c' == DedupForward(c, same)
       case Drain(a, b, calls) =>
         CameFromEnds(c[a..b], calls, xs) && |c'| == |c| - (b - a) && c'[..a] == c[..a] && c'[a..] == c[b..]
       case DrainFilter(p, n) =>
         var (kept, removed) := RemoveLoop(c, 0, p);
         c' == kept && |xs| == Least(n, |removed|) && xs == removed[..|xs|]
  }

  // A call that does not get memory, after taking `taken` out of an iterator.
  ghost predicate Refused<T>(s: State<T>, op: Op<T>, t: State<T>, xs: seq<T>, taken: seq<T>) {
    var c, c' := s.elems, t.elems;
    && !OutOfBounds(c, op)
    && match op
       case Extend(ys, _, _) =>
         && xs == [] && 0 < |taken| <= |ys| && taken == ys[..|taken|]
         && |c'| == |c| + |taken| - 1 && c'[..|c|] == c && c'[|c|..] == ys[..|taken| - 1]
       case Splice(a, b, calls, ys, lower, _) =>
         var k := |c'| - (a + (|c| - b));
         && CameFromEnds(c[a..b], calls, xs) && |taken| <= |ys| && taken == ys[..|taken|]
         && 0 <= k <= |taken| && (b == |c| ==> k + 1 == |taken|)
         && c'[..a] == c[..a] && c'[a..a + k] == ys[..k]
         && (b == |c| || |c| + lower(b - a) <= s.cap || |taken| <= b - a ==> c'[a + k..] == c[b..])
       case _ => t == s && xs == [] && taken == []
  }

  ghost predicate Means<T>(s: State<T>, op: Op<T>, t: State<T>, out: Outcome<T>) {
    match out
    case Done(xs) => Completes(s, op, t, xs)
    case Denied(xs, taken) => Refused(s, op, t, xs, taken)
    case NotCalled => t == s && OutOfBounds(s.elems, op)
  }

  // A step of the model means that.
  lemma StepMeans<T>(lay: Layout, s: State<T>, op: Op<T>, ans: Answer<T>)
    requires lay.Ok() && Reachable(lay, s)
    ensures Means(s, op, Step(lay, s, op, ans).0, Step(lay, s, op, ans).1)
  {
    hide Completes, Refused, Reachable, Made, Legal, Effect, Failure, HandedBack, OutOfBounds;
    LegalInBounds(s.elems, op);
    if Made(s, op, ans) {
      EffectCompletes(lay, s, op, ans);
    } else if Legal(s.elems, op) {
      FailureRefuses(lay, s, op, ans);
    }
  }

  lemma LegalInBounds<T>(c: seq<T>, op: Op<T>)
    ensures Legal(c, op) <==> !OutOfBounds(c, op)
  {}

  lemma EffectCompletes<T>(lay: Layout, s: State<T>, op: Op<T>, ans: Answer<T>)
    requires lay.Ok() && Reachable(lay, s) && Made(s, op, ans)
    ensures Completes(s, op, Effect(lay, s, op, ans), HandedBack(s.elems, op))
  {
    hide Completes, HandedBack, After, Made, Reachable, Effect;
    var t := Effect(lay, s, op, ans);
    EffectIs(lay, s, op, ans);
    match op {
      case PushFront(x) => PushFrontMeans(s, x, ans.stale, t);
      case PushBack(x) => PushBackMeans(s, x, ans.stale, t);
      case PopFront => PopFrontMeans(s, ans.stale, t);
      case PopBack => PopBackMeans(s, ans.stale, t);
      case Insert(i, x) => InsertMeans(s, i, x, ans.stale, t);
      case Remove(i) => RemoveMeans(s, i, ans.stale, t);
      case Append(xs) => AppendMeans(s, xs, ans.stale, t);
      case Extend(_, _, _) => ExtendMeans(s, op, ans.stale, t);
      case Splice(_, _, _, _, _, _) => SpliceMeans(lay, s, op, ans);
      case SplitOff(at) => SplitOffMeans(s, at, ans.stale, t);
      case TruncateFront(n) => TruncateFrontMeans(s, n, ans.stale, t);
      case TruncateBack(n) => TruncateBackMeans(s, n, ans.stale, t);
      case Clear => ClearMeans(s, ans.stale, t);
      case Reserve(n) => ReserveMeans(lay, s, n, ans);
      case ShrinkToFit => ShrinkMeans(lay, s, ans);
      case Retain(f) => RetainMeans(s, f, ans.stale, t);
      case DedupBy(same) => DedupMeans(s, same, ans.stale, t);
      case Drain(a, b, calls) => DrainMeans(s, a, b, calls, ans.stale, t);
      case DrainFilter(p, n) => DrainFilterMeans(s, p, n, ans.stale, t);
    }
  }

  lemma EffectIs<T>(lay: Layout, s: State<T>, op: Op<T>, ans: Answer<T>)
    requires lay.Ok() && Made(s, op, ans)
    ensures !op.Splice? ==> Effect(lay, s, op, ans).elems == After(s.elems, op, ans.stale, None)
  {
    if !op.Splice? {
      NoTail(s, op, ans);
    }
    hide After, LosesTail, NewTail, Discarded, GrownBy, Twice;
  }

  lemma PushFrontMeans<T>(s: State<T>, x: T, stale: T, t: State<T>)
    requires t.elems == After(s.elems, PushFront(x), stale, None)
    ensures Completes(s, PushFront(x), t, HandedBack(s.elems, PushFront(x)))
  {
    hide Filter, Dedup, TakeEnds, InsertOutcome, RemoveLoop, DedupForward, TakenBy, KeepFirst, KeepLast, Reverse;
  }

  lemma PushBackMeans<T>(s: State<T>, x: T, stale: T, t: State<T>)
    requires t.elems == After(s.elems, PushBack(x), stale, None)
    ensures Completes(s, PushBack(x), t, HandedBack(s.elems, PushBack(x)))
  {
    hide Filter, Dedup, TakeEnds, InsertOutcome, RemoveLoop, DedupForward, TakenBy, KeepFirst, KeepLast, Reverse;
  }

  lemma PopFrontMeans<T>(s: State<T>, stale: T, t: State<T>)
    requires t.elems == After(s.elems, PopFront, stale, None)
    ensures Completes(s, PopFront, t, HandedBack(s.elems, PopFront))
  {
    hide Filter, Dedup, TakeEnds, InsertOutcome, RemoveLoop, DedupForward, TakenBy, KeepFirst, KeepLast, Reverse;
    assert s.elems != [] ==> [s.elems[0]] + s.elems[1..] == s.elems;
  }

  lemma PopBackMeans<T>(s: State<T>, stale: T, t: State<T>)
    requires t.elems == After(s.elems, PopBack, stale, None)
    ensures Completes(s, PopBack, t, HandedBack(s.elems, PopBack))
  {
    hide Filter, Dedup, TakeEnds, InsertOutcome, RemoveLoop, DedupForward, TakenBy, KeepFirst, KeepLast, Reverse;
    assert s.elems != [] ==> ButLast(s.elems) + [Last(s.elems)] == s.elems;
  }

  lemma InsertMeans<T>(s: State<T>, i: nat, x: T, stale: T, t: State<T>)
    requires i <= |s.elems| && t.elems == After(s.elems, Insert(i, x), stale, None)
    ensures Completes(s, Insert(i, x), t, HandedBack(s.elems, Insert(i, x)))
  {
    hide Completes, InsertOutcome, Parted;
    InsertedParts(s.elems, i, x, stale);
    PartedCompletes(s, i, x, t);
  }

  // Where an insertion leaves the elements, except for the first one in the front half.
  ghost predicate Parted<T>(c: seq<T>, i: nat, x: T, r: seq<T>)
    requires i <= |c|
  {
    && |r| == |c| + 1 && r[i] == x
    && if 2 <= i <= |c| / 2 then
         && r[i - 1] == c[i - 1] && r[1..i - 1] == c[..i - 2]
         && r[i + 1..2 * i - 1] == c[i + 1..2 * i - 1] && r[2 * i - 1..] == c[2 * i - 2..]
       else r[..i] == c[..i] && r[i + 1..] == c[i..]
  }

  lemma PartedCompletes<T>(s: State<T>, i: nat, x: T, t: State<T>)
    requires i <= |s.elems| && Parted(s.elems, i, x, t.elems)
    ensures Completes(s, Insert(i, x), t, [])
  {}

  lemma InsertedParts<T>(c: seq<T>, i: nat, x: T, stale: T)
    requires i <= |c|
    ensures Parted(c, i, x, InsertOutcome(c, i, x, stale))
  {
    hide InsertOutcome, Inserted;
    if 2 <= i <= |c| / 2 {
      InsertedInFront(c, i, x, stale);
      FrontParts(c, i, x, stale);
    } else {
      InsertAsDocumented(c, i, x, stale);
      BackParts(c, i, x);
    }
  }

  lemma BackParts<T>(c: seq<T>, i: nat, x: T)
    requires i <= |c|
    ensures var r := Inserted(c, i, x); |r| == |c| + 1 && r[i] == x && r[..i] == c[..i] && r[i + 1..] == c[i..]
  {}

  lemma FrontParts<T>(c: seq<T>, i: nat, x: T, stale: T)
    requires 2 <= i <= |c| / 2
    ensures var r := ([stale] + c[..i - 2]) + ([c[i - 1]] + [x] + c[i + 1..2 * i - 1])
                     + ([c[2 * i - 2]] + c[2 * i - 1..]);
            && |r| == |c| + 1 && r[i] == x && r[i - 1] == c[i - 1] && r[1..i - 1] == c[..i - 2]
            && r[i + 1..2 * i - 1] == c[i + 1..2 * i - 1] && r[2 * i - 1..] == c[2 * i - 2..]
  {
    var a, b, e := [stale] + c[..i - 2], c[i + 1..2 * i - 1], c[2 * i - 1..];
    var r := a + ([c[i - 1]] + [x] + b) + ([c[2 * i - 2]] + e);
    PartsOfFour(a, c[i - 1], x, b, c[2 * i - 2], e);
    assert [c[2 * i - 2]] + e == c[2 * i - 2..];
    assert a[1..] == c[..i - 2] && r[1..|a|] == r[..|a|][1..];
  }

  lemma PartsOfFour<T>(a: seq<T>, p: T, x: T, b: seq<T>, d: T, e: seq<T>)
    ensures var r := a + ([p] + [x] + b) + ([d] + e);
            var n := |a| + 2;
            && |r| == n + |b| + 1 + |e| && r[|a|] == p && r[|a| + 1] == x
            && r[..|a|] == a && r[n..n + |b|] == b && r[n + |b|..] == [d] + e
  {}

  lemma RemoveMeans<T>(s: State<T>, i: nat, stale: T, t: State<T>)
    requires i < |s.elems| && t.elems == After(s.elems, Remove(i), stale, None)
    ensures Completes(s, Remove(i), t, HandedBack(s.elems, Remove(i)))
  {
    hide Filter, Dedup, TakeEnds, InsertOutcome, RemoveLoop, DedupForward, TakenBy, KeepFirst, KeepLast, Reverse;
  }

  lemma AppendMeans<T>(s: State<T>, xs: seq<T>, stale: T, t: State<T>)
    requires t.elems == After(s.elems, Append(xs), stale, None)
    ensures Completes(s, Append(xs), t, HandedBack(s.elems, Append(xs)))
  {
    hide Filter, Dedup, TakeEnds, InsertOutcome, RemoveLoop, DedupForward, TakenBy, KeepFirst, KeepLast, Reverse;
  }

  lemma ExtendMeans<T>(s: State<T>, op: Op<T>, stale: T, t: State<T>)
    requires op.Extend? && t.elems == After(s.elems, op, stale, None)
    ensures Completes(s, op, t, HandedBack(s.elems, op))
  {
    hide Filter, Dedup, TakeEnds, InsertOutcome, RemoveLoop, DedupForward, TakenBy, KeepFirst, KeepLast, Reverse;
  }

  lemma SpliceMeans<T>(lay: Layout, s: State<T>, op: Op<T>, ans: Answer<T>)
    requires lay.Ok() && op.Splice? && Reachable(lay, s) && Made(s, op, ans)
    ensures Completes(s, op, Effect(lay, s, op, ans), HandedBack(s.elems, op))
  {
    var c, tail := s.elems, NewTail(s, op, ans);
    EndsCome(c[op.a..op.b], op.calls);
    if op.b == |c| || |op.xs| < op.b - op.a
       || (|c| + op.lower(op.b - op.a) <= s.cap && |c| - (op.b - op.a) + |op.xs| <= s.cap) {
      KeptWhenFits(s, op, ans);
    }
    hide CameFromEnds, TakeEnds, LosesTail, Made, Reachable, GrownBy, Discarded, Twice;
    Joined3(c[..op.a], op.xs, if tail.Some? then tail.value else c[op.b..]);
  }

  lemma KeptWhenFits<T>(s: State<T>, op: Op<T>, ans: Answer<T>)
    requires op.Splice? && Made(s, op, ans)
    requires var c := s.elems;
             op.b == |c| || |op.xs| < op.b - op.a
             || (|c| + op.lower(op.b - op.a) <= s.cap && |c| - (op.b - op.a) + |op.xs| <= s.cap)
    ensures NewTail(s, op, ans) == None
  {}

  lemma Joined3<T>(a: seq<T>, b: seq<T>, d: seq<T>)
    ensures var r := a + b + d;
            |r| == |a| + |b| + |d| && r[..|a|] == a && r[|a|..|a| + |b|] == b && r[|a| + |b|..] == d
  {}

  lemma EndsCome<T>(range: seq<T>, calls: seq<bool>)
    ensures CameFromEnds(range, calls, TakeEnds(range, calls).0)
  {
    var (xs, left) := TakeEnds(range, calls);
    TakeEndsInOrder(range, calls);
    hide TakeEnds, TakenBy, Reverse;
    var fronts, backs := TakenBy(true, xs, calls), Reverse(TakenBy(false, xs, calls));
    TakenByEither(xs, calls);
    Joined3(fronts, left, backs);
  }

  lemma {:induction false} TakenByEither<T>(taken: seq<T>, calls: seq<bool>)
    requires |taken| <= |calls|
    ensures |TakenBy(true, taken, calls)| + |TakenBy(false, taken, calls)| == |taken|
    decreases |taken|
  {
    if taken != [] {
      TakenByEither(ButLast(taken), calls);
    }
  }

  lemma SplitOffMeans<T>(s: State<T>, at: nat, stale: T, t: State<T>)
    requires at <= |s.elems| && t.elems == After(s.elems, SplitOff(at), stale, None)
    ensures Completes(s, SplitOff(at), t, HandedBack(s.elems, SplitOff(at)))
  {
    hide Filter, Dedup, TakeEnds, InsertOutcome, RemoveLoop, DedupForward, TakenBy, KeepFirst, KeepLast, Reverse;
  }

  lemma TruncateFrontMeans<T>(s: State<T>, n: nat, stale: T, t: State<T>)
    requires t.elems == After(s.elems, TruncateFront(n), stale, None)
    ensures Completes(s, TruncateFront(n), t, HandedBack(s.elems, TruncateFront(n)))
  {
    hide Filter, Dedup, TakeEnds, InsertOutcome, RemoveLoop, DedupForward, TakenBy, Reverse;
  }

  lemma TruncateBackMeans<T>(s: State<T>, n: nat, stale: T, t: State<T>)
    requires t.elems == After(s.elems, TruncateBack(n), stale, None)
    ensures Completes(s, TruncateBack(n), t, HandedBack(s.elems, TruncateBack(n)))
  {
    hide Filter, Dedup, TakeEnds, InsertOutcome, RemoveLoop, DedupForward, TakenBy, Reverse;
  }

  lemma ClearMeans<T>(s: State<T>, stale: T, t: State<T>)
    requires t.elems == After(s.elems, Clear, stale, None)
    ensures Completes(s, Clear, t, HandedBack(s.elems, Clear))
  {
    hide Filter, Dedup, TakeEnds, InsertOutcome, RemoveLoop, DedupForward, TakenBy, KeepFirst, KeepLast, Reverse;
  }

  lemma ReserveMeans<T>(lay: Layout, s: State<T>, n: nat, ans: Answer<T>)
    requires lay.Ok()
    ensures Completes(s, Reserve(n), Effect(lay, s, Reserve(n), ans), HandedBack(s.elems, Reserve(n)))
  {
    CapacityIsClosure(lay, GrowPolicy(|s.elems|, s.cap, n));
    hide Capacity;
  }

  lemma ShrinkMeans<T>(lay: Layout, s: State<T>, ans: Answer<T>)
    requires lay.Ok() && Reachable(lay, s)
    ensures Completes(s, ShrinkToFit, Effect(lay, s, ShrinkToFit, ans), HandedBack(s.elems, ShrinkToFit))
  {
    hide Capacity, LosesTail;
    var twice := Twice(lay, s, ShrinkToFit);
    assert s.dropped + multiset{} + twice == s.dropped + twice;
  }

  lemma RetainMeans<T>(s: State<T>, f: T -> bool, stale: T, t: State<T>)
    requires t.elems == After(s.elems, Retain(f), stale, None)
    ensures Completes(s, Retain(f), t, HandedBack(s.elems, Retain(f)))
  {
    RemoveLoopFromStart(s.elems, Not(f));
    NotTwice(s.elems, f);
    hide Filter, Dedup, TakeEnds, InsertOutcome, RemoveLoop, DedupForward, TakenBy, KeepFirst, KeepLast, Reverse;
  }

  lemma {:induction false} NotTwice<T>(s: seq<T>, f: T -> bool)
    ensures Filter(s, Not(Not(f))) == Filter(s, f)
    decreases |s|
  {
    if s != [] {
      NotTwice(ButLast(s), f);
    }
  }

  lemma DedupMeans<T>(s: State<T>, same: (T, T) -> bool, stale: T, t: State<T>)
    requires t.elems == After(s.elems, DedupBy(same), stale, None)
    ensures Completes(s, DedupBy(same), t, HandedBack(s.elems, DedupBy(same)))
  {
    DedupIsForward(s.elems, same);
    hide Filter, Dedup, TakeEnds, InsertOutcome, RemoveLoop, DedupForward, TakenBy, KeepFirst, KeepLast, Reverse;
  }

  lemma DrainMeans<T>(s: State<T>, a: nat, b: nat, calls: seq<bool>, stale: T, t: State<T>)
    requires a <= b <= |s.elems| && t.elems == After(s.elems, Drain(a, b, calls), stale, None)
    ensures Completes(s, Drain(a, b, calls), t, HandedBack(s.elems, Drain(a, b, calls)))
  {
    EndsCome(s.elems[a..b], calls);
    hide CameFromEnds, TakeEnds;
    Joined3(s.elems[..a], [], s.elems[b..]);
    assert s.elems[..a] + [] + s.elems[b..] == s.elems[..a] + s.elems[b..];
  }

  lemma DrainFilterMeans<T>(s: State<T>, p: T -> bool, n: nat, stale: T, t: State<T>)
    requires t.elems == After(s.elems, DrainFilter(p, n), stale, None)
    ensures Completes(s, DrainFilter(p, n), t, HandedBack(s.elems, DrainFilter(p, n)))
  {
    RemoveLoopFromStart(s.elems, p);
    hide Filter, RemoveLoop, Not;
  }

  lemma FailureRefuses<T>(lay: Layout, s: State<T>, op: Op<T>, ans: Answer<T>)
    requires lay.Ok() && Reachable(lay, s) && Legal(s.elems, op) && !Made(s, op, ans)
    ensures var (t, out) := Failure(lay, s, op, ans); out.Denied? && Refused(s, op, t, out.returned, out.taken)
  {
    LegalInBounds(s.elems, op);
    if op.Extend? {
      ExtendRefused(lay, s, op, ans);
    } else if op.Splice? {
      SpliceRefused(lay, s, op, ans);
    } else {
      hide Made, Legal, OutOfBounds;
    }
  }

  lemma ExtendRefused<T>(lay: Layout, s: State<T>, op: Op<T>, ans: Answer<T>)
    requires lay.Ok() && Reachable(lay, s) && op.Extend? && !Made(s, op, ans)
    ensures var (t, out) := Failure(lay, s, op, ans); out.Denied? && Refused(s, op, t, out.returned, out.taken)
  {
    hide Capacity, HaltedGrowth, Discarded;
  }

  lemma SpliceRefused<T>(lay: Layout, s: State<T>, op: Op<T>, ans: Answer<T>)
    requires lay.Ok() && Reachable(lay, s) && op.Splice? && Legal(s.elems, op) && !Made(s, op, ans)
    ensures var (t, out) := Failure(lay, s, op, ans); out.Denied? && Refused(s, op, t, out.returned, out.taken)
  {
    hide Refused, Failure, CameFromEnds, TakeEnds, NewTail, Halt, Halts, Made, Reachable;
    HaltedSplice(lay, s, op, ans);
    HaltedContents(lay, s, op, ans);
    var (t, out) := Failure(lay, s, op, ans);
    var (placed, taken) := Halt(s, op, ans);
    var tail := NewTail(s, op, ans);
    EndsCome(s.elems[op.a..op.b], op.calls);
    LeavesRefused(s, op, t, out.returned, placed, taken, if tail.Some? then tail.value else s.elems[op.b..]);
  }

  lemma HaltedContents<T>(lay: Layout, s: State<T>, op: Op<T>, ans: Answer<T>)
    requires lay.Ok() && op.Splice? && Halts(s, op, ans)
    ensures var (t, out) := Failure(lay, s, op, ans);
            var (placed, taken) := Halt(s, op, ans);
            var tail := NewTail(s, op, ans);
            && t.elems == s.elems[..op.a] + op.xs[..placed] + (if tail.Some? then tail.value else s.elems[op.b..])
            && out == Denied(TakeEnds(s.elems[op.a..op.b], op.calls).0, op.xs[..taken])
  {
    hide TakeEnds, NewTail, Halt, Made, NeedsMemory, HaltedGrowth, Discarded;
    assert KeepFirst(op.xs, Halt(s, op, ans).0) == op.xs[..Halt(s, op, ans).0];
  }

  lemma LeavesRefused<T>(s: State<T>, op: Op<T>, t: State<T>, xs: seq<T>, placed: nat, taken: nat, back: seq<T>)
    requires op.Splice? && op.a <= op.b <= |s.elems| && placed <= taken <= |op.xs| && |back| == |s.elems| - op.b
    requires t.elems == s.elems[..op.a] + op.xs[..placed] + back
    requires CameFromEnds(s.elems[op.a..op.b], op.calls, xs) && (op.b == |s.elems| ==> placed + 1 == taken)
    requires op.b == |s.elems| || |s.elems| + op.lower(op.b - op.a) <= s.cap || taken <= op.b - op.a ==>
               back == s.elems[op.b..]
    ensures Refused(s, op, t, xs, op.xs[..taken])
  {
    hide CameFromEnds;
    Joined3(s.elems[..op.a], op.xs[..placed], back);
  }

  lemma HaltedSplice<T>(lay: Layout, s: State<T>, op: Op<T>, ans: Answer<T>)
    requires lay.Ok() && Reachable(lay, s) && op.Splice? && Legal(s.elems, op) && !Made(s, op, ans)
    ensures Halts(s, op, ans)
    ensures var (placed, taken) := Halt(s, op, ans);
            op.b == |s.elems| ==> placed + 1 == taken
    ensures var (placed, taken) := Halt(s, op, ans);
            op.b == |s.elems| || |s.elems| + op.lower(op.b - op.a) <= s.cap || taken <= op.b - op.a ==>
              NewTail(s, op, ans) == None
    ensures NewTail(s, op, ans).Some? ==> |NewTail(s, op, ans).value| == |s.elems| - op.b
  {
    hide Capacity;
  }

  // The `k`-th call of a run means what it should.
  ghost predicate MeansAt<T>(lay: Layout, s: State<T>, ops: seq<Op<T>>, answers: seq<Answer<T>>, k: nat)
    requires lay.Ok() && |answers| == |ops| && k < |ops|
  {
    Means(StateAt(lay, s, ops, answers, k), ops[k], StateAt(lay, s, ops, answers, k + 1),
          Run(lay, s, ops, answers).1[k])
  }

  lemma {:induction false} RunMeans<T>(lay: Layout, s: State<T>, ops: seq<Op<T>>, answers: seq<Answer<T>>)
    requires lay.Ok() && Reachable(lay, s) && |answers| == |ops|
    ensures forall k | 0 <= k < |ops| :: MeansAt(lay, s, ops, answers, k)
    decreases |ops|
  {
    if ops != [] {
      RunMeans(lay, s, ButLast(ops), ButLast(answers));
      forall k | 0 <= k < |ops|
        ensures MeansAt(lay, s, ops, answers, k)
      {
        if k < |ops| - 1 {
          MeansBefore(lay, s, ops, answers, k);
        } else {
          LastMeans(lay, s, ops, answers);
        }
      }
    }
  }

  lemma MeansBefore<T>(lay: Layout, s: State<T>, ops: seq<Op<T>>, answers: seq<Answer<T>>, k: nat)
    requires lay.Ok() && |answers| == |ops| && k < |ops| - 1 && MeansAt(lay, s, ButLast(ops), ButLast(answers), k)
    ensures MeansAt(lay, s, ops, answers, k)
  {
    hide Means, Run, Step, StateAt;
    RunLast(lay, s, ops, answers);
    PrefixStates(lay, s, ops, answers);
  }

  lemma LastMeans<T>(lay: Layout, s: State<T>, ops: seq<Op<T>>, answers: seq<Answer<T>>)
    requires lay.Ok() && Reachable(lay, s) && |answers| == |ops| > 0
    ensures MeansAt(lay, s, ops, answers, |ops| - 1)
  {
    hide Means, Step, Reachable, Run;
    assert ops[..|ops|] == ops && answers[..|ops|] == answers;
    RunLast(lay, s, ops, answers);
    RunStaysReachable(lay, s, ButLast(ops), ButLast(answers));
    StepMeans(lay, Run(lay, s, ButLast(ops), ButLast(answers)).0, Last(ops), Last(answers));
  }
}
