// What the in-place algorithms compute, as functions on plain sequences.
module Sequences {

  datatype Option<+T> = None | Some(value: T)

  function Last<T>(s: seq<T>): (x: T)
    requires s != []
  {
    s[|s| - 1]
  }

  function ButLast<T>(s: seq<T>): (r: seq<T>)
    requires s != []
  {
    s[..|s| - 1]
  }

  function Reverse<T>(s: seq<T>): (r: seq<T>)
    ensures |r| == |s|
  {
    if s == [] then [] else [Last(s)] + Reverse(ButLast(s))
  }

  // The first or last `n` items, or all when there are no more, and what that leaves out.
  function KeepFirst<T>(s: seq<T>, n: nat): (r: seq<T>) {
    if n < |s| then s[..n] else s
  }

  function BeyondFirst<T>(s: seq<T>, n: nat): (r: seq<T>) {
    if n < |s| then s[n..] else []
  }

  function KeepLast<T>(s: seq<T>, n: nat): (r: seq<T>) {
    if n < |s| then s[|s| - n..] else s
  }

  function BeforeLast<T>(s: seq<T>, n: nat): (r: seq<T>) {
    if n < |s| then s[..|s| - n] else []
  }

  function Repeat<T>(x: T, n: nat): (r: seq<T>)
    ensures |r| == n
  {
    if n == 0 then [] else Repeat(x, n - 1) + [x]
  }

  lemma {:induction false} CountRepeat<T>(x: T, n: nat, y: T)
    ensures multiset(Repeat(x, n))[y] == if x == y then n else 0
  {
    if n > 0 {
      CountRepeat(x, n - 1, y);
    }
  }

  lemma CutOut<T>(s: seq<T>, a: nat, b: nat)
    requires a <= b <= |s|
    ensures multiset(s) == multiset(s[..a] + s[b..]) + multiset(s[a..b])
  {
    assert s == s[..a] + s[a..b] + s[b..];
  }

  lemma RepeatAt<T>(x: T, n: nat)
    ensures 0 < n ==> Repeat(x, n)[0] == x
  {
    if 0 < n {
      RepeatAt(x, n - 1);
    }
  }

  lemma CutOneOut<T>(s: seq<T>, i: nat)
    requires i < |s|
    ensures multiset(s) == multiset(s[..i] + s[i + 1..]) + multiset([s[i]])
  {
    CutOut(s, i, i + 1);
    assert s[i..i + 1] == [s[i]];
  }

  lemma KeepFirstPartitions<T>(s: seq<T>, n: nat)
    ensures multiset(s) == multiset(KeepFirst(s, n)) + multiset(BeyondFirst(s, n))
  {
    var k := if n < |s| then n else |s|;
    CutInTwo(s, k);
    assert KeepFirst(s, n) == s[..k] && BeyondFirst(s, n) == s[k..];
  }

  lemma KeepLastPartitions<T>(s: seq<T>, n: nat)
    ensures multiset(s) == multiset(KeepLast(s, n)) + multiset(BeforeLast(s, n))
  {
    var k := if n < |s| then |s| - n else 0;
    CutInTwo(s, k);
    assert BeforeLast(s, n) == s[..k] && KeepLast(s, n) == s[k..];
  }

  lemma CutInTwo<T>(s: seq<T>, i: nat)
    requires i <= |s|
    ensures multiset(s) == multiset(s[..i]) + multiset(s[i..])
  {
    assert s == s[..i] + s[i..];
  }

  lemma Split<T>(s: seq<T>, i: nat, n: nat)
    requires i <= n <= |s|
    ensures s[..n] == s[..i] + s[i..n]
    ensures KeepFirst(s[..n], i) == s[..i] && BeyondFirst(s[..n], i) == s[i..n]
    ensures i == n ==> s[i..n] == []
    ensures multiset(s[..n]) == multiset(s[..i]) + multiset(s[i..n])
  {
    assert s[..n] == s[..i] + s[i..n];
  }

  lemma OneMore<T>(c: seq<T>, items: seq<T>, p: nat, k: nat)
    requires p <= k < |items|
    ensures c + items[p..k] + [items[k]] == c + items[p..k + 1]
  {}

  lemma UpdatePrefix<T>(s: seq<T>, n: nat, i: nat, x: T)
    requires i < n <= |s|
    ensures s[i := x][..n] == s[..n][i := x]
  {}

  // `t` shows what `s` shows from one place further back.
  lemma StepBack<T>(s: seq<T>, t: seq<T>, n: nat)
    requires n < |s| == |t| && t[1..] == s[..|s| - 1]
    ensures t[..n + 1] == [t[0]] + s[..n]
  {
    assert t[..n + 1] == [t[0]] + t[1..][..n];
    assert s[..|s| - 1][..n] == s[..n];
  }

  // ---- copying in place ----------------------------------------------------------------------

  function Overwrite<T>(w: seq<T>, at: nat, e: seq<T>): (r: seq<T>)
    requires at + |e| <= |w|
    ensures |r| == |w|
  {
    w[..at] + e + w[at + |e|..]
  }

  // `w` with `n` items copied from `src` to `dst`, all at once.
  function CopyWithin<T>(w: seq<T>, dst: nat, src: nat, n: nat): (r: seq<T>)
    requires dst + n <= |w| && src + n <= |w|
    ensures |r| == |w|
  {
    Overwrite(w, dst, w[src..src + n])
  }

  lemma OverwriteOneMore<T>(w: seq<T>, at: nat, e: seq<T>, k: nat)
    requires at + |e| <= |w| && k < |e|
    ensures Overwrite(w, at, e[..k])[at + k := e[k]] == Overwrite(w, at, e[..k + 1])
    ensures Overwrite(w, at + k + 1, e[k + 1..])[at + k := e[k]] == Overwrite(w, at + k, e[k..])
  {}

  // A copy from higher to lower positions reads each item before it is overwritten if it runs
  // upwards, and one from lower to higher positions if it runs downwards.
  lemma CopyUpwardsStep<T>(w: seq<T>, dst: nat, src: nat, k: nat)
    requires dst <= src && src + k < |w|
    ensures var r := CopyWithin(w, dst, src, k);
            CopyWithin(w, dst, src, k + 1) == r[dst + k := r[src + k]]
  {}

  lemma CopyDownwardsStep<T>(w: seq<T>, dst: nat, src: nat, k: nat)
    requires 0 < src < dst && dst + k <= |w|
    ensures var r := CopyWithin(w, dst, src, k);
            CopyWithin(w, dst - 1, src - 1, k + 1) == r[dst - 1 := r[src - 1]]
  {}

  lemma CopyNothing<T>(w: seq<T>, dst: nat, src: nat)
    requires dst <= |w| && src <= |w|
    ensures CopyWithin(w, dst, src, 0) == w
  {}

  lemma CopyWithinPrefix<T>(w: seq<T>, m: nat, dst: nat, src: nat, n: nat)
    requires dst + n <= m <= |w| && src + n <= m
    ensures CopyWithin(w, dst, src, n)[..m] == CopyWithin(w[..m], dst, src, n)
  {
    assert w[..m][src..src + n] == w[src..src + n];
  }

  lemma SliceOfSlice<T>(w: seq<T>, a: nat, k: nat, o: nat, n: nat)
    requires a + k <= |w| && o + n <= k
    ensures w[a..a + k][o..o + n] == w[a + o..a + o + n]
  {
    var l, r := w[a..a + k][o..o + n], w[a + o..a + o + n];
    assert forall j | 0 <= j < n :: l[j] == r[j];
  }

  lemma OverwriteEnd<T>(w: seq<T>, at: nat, e: seq<T>)
    requires at + |e| <= |w|
    ensures Overwrite(w, at, e)[at + |e|..] == w[at + |e|..]
  {}

  // A slice of an overwritten row, when it misses the overwritten part or lies inside it.
  lemma OverwriteSlice<T>(w: seq<T>, at: nat, e: seq<T>, o: nat, n: nat)
    requires at + |e| <= |w| && o + n <= |w|
    ensures o + n <= at || at + |e| <= o ==> Overwrite(w, at, e)[o..o + n] == w[o..o + n]
    ensures at <= o && o + n <= at + |e| ==> Overwrite(w, at, e)[o..o + n] == e[o - at..o - at + n]
  {
    var r := Overwrite(w, at, e)[o..o + n];
    if o + n <= at || at + |e| <= o {
      var t := w[o..o + n];
      assert forall j | 0 <= j < n :: r[j] == t[j];
    } else if at <= o && o + n <= at + |e| {
      var t := e[o - at..o - at + n];
      assert forall j | 0 <= j < n :: r[j] == t[j];
    }
  }

  // ---- inserting -----------------------------------------------------------------------------

  function Inserted<T>(s: seq<T>, i: nat, x: T): (r: seq<T>)
    requires i <= |s|
  {
    s[..i] + [x] + s[i..]
  }

  // What inserting at `i` makes of `s`. In the front half the head moves back over a slot that
  // holds `stale`, then `i` items are copied down by one, starting at position `i`.
  function InsertOutcome<T>(s: seq<T>, i: nat, x: T, stale: T): (r: seq<T>)
    requires i <= |s|
  {
    if i > |s| / 2 then Inserted(s, i, x)
    else
      var w := [stale] + s;
      (if i == 0 then w else CopyWithin(w, i - 1, i, i))[i := x]
  }

  // The result is the documented one, whatever the stale slot holds, exactly when the insertion
  // point is one of the first two or lies in the back half.
  lemma InsertMeetsItsDocumentation<T(!new)>(s: seq<T>, i: nat, x: T, a: T, b: T)
    requires i <= |s| && a != b
    ensures (forall stale :: InsertOutcome(s, i, x, stale) == Inserted(s, i, x)) <==> i <= 1 || i > |s| / 2
  {
    if i <= 1 && i <= |s| / 2 {
      forall stale
        ensures InsertOutcome(s, i, x, stale) == Inserted(s, i, x)
      {
        InsertAsDocumented(s, i, x, stale);
      }
    } else if 2 <= i <= |s| / 2 {
      var stale := if s[0] == a then b else a;
      InsertExposesStale(s, i, x, stale);
      assert InsertOutcome(s, i, x, stale) != Inserted(s, i, x);
    }
  }

  lemma InsertAsDocumented<T>(s: seq<T>, i: nat, x: T, stale: T)
    requires i <= |s| && (i <= 1 || i > |s| / 2)
    ensures InsertOutcome(s, i, x, stale) == Inserted(s, i, x)
  {
    if i == 1 && i <= |s| / 2 {
      assert CopyWithin([stale] + s, 0, 1, 1) == [s[0], s[0]] + s[1..];
    }
  }

  lemma InsertExposesStale<T>(s: seq<T>, i: nat, x: T, stale: T)
    requires 2 <= i <= |s| / 2
    ensures InsertOutcome(s, i, x, stale) != [] && InsertOutcome(s, i, x, stale)[0] == stale
    ensures Inserted(s, i, x)[0] == s[0]
  {
    assert (([stale] + s)[..i - 1])[0] == stale;
  }

  // What becomes of the elements then: two are lost, and two others count too often.
  lemma InsertInFront<T>(s: seq<T>, i: nat, x: T, stale: T)
    requires 2 <= i <= |s| / 2
    ensures multiset(s) + multiset{x} + multiset{stale, s[2 * i - 2]}
         == multiset(InsertOutcome(s, i, x, stale)) + multiset{s[i - 2], s[i]}
  {
    InsertedInFront(s, i, x, stale);
    AroundTheMiddle(s, i);
    hide *;
    Pair(stale, s[2 * i - 2]);
    Pair(s[i - 2], s[i]);
    Recounted(s[..i - 2], s[i + 1..2 * i - 1], s[2 * i - 1..],
              [s[i - 2]], [s[i - 1]], [s[i]], [s[2 * i - 2]], [stale], [x]);
  }

  lemma AroundTheMiddle<T>(s: seq<T>, i: nat)
    requires 2 <= i <= |s| / 2
    ensures s == s[..i - 2] + ([s[i - 2]] + [s[i - 1]] + [s[i]]) + (s[i + 1..2 * i - 1] + s[2 * i - 1..])
  {}

  lemma Pair<T>(a: T, b: T)
    ensures multiset{a, b} == multiset([a] + [b])
  {}

  lemma Recounted<T>(front: seq<T>, middle: seq<T>, back: seq<T>, p: seq<T>, q: seq<T>, r: seq<T>, d: seq<T>,
                     stale: seq<T>, x: seq<T>)
    ensures multiset(front + (p + q + r) + (middle + back)) + multiset(x) + multiset(stale + d)
         == multiset((stale + front) + ((q + x) + middle) + (d + back)) + multiset(p + r)
  {}

  lemma InsertedInFront<T>(s: seq<T>, i: nat, x: T, stale: T)
    requires 2 <= i <= |s| / 2
    ensures InsertOutcome(s, i, x, stale)
         == ([stale] + s[..i - 2]) + ([s[i - 1]] + [x] + s[i + 1..2 * i - 1]) + ([s[2 * i - 2]] + s[2 * i - 1..])
  {
    BehindTheStale(s, i, stale);
    hide *;
    ReplaceSecond([stale] + s[..i - 2], [s[i - 1]], [s[i]], s[i + 1..2 * i - 1],
                  [s[2 * i - 2]] + s[2 * i - 1..], x);
  }

  lemma BehindTheStale<T>(s: seq<T>, i: nat, stale: T)
    requires 2 <= i <= |s| / 2
    ensures CopyWithin([stale] + s, i - 1, i, i)
         == ([stale] + s[..i - 2]) + ([s[i - 1]] + [s[i]] + s[i + 1..2 * i - 1]) + ([s[2 * i - 2]] + s[2 * i - 1..])
  {
    var w := [stale] + s;
    assert w[..i - 1] == [stale] + s[..i - 2];
    assert w[i..i + i] == [s[i - 1]] + [s[i]] + s[i + 1..2 * i - 1];
    assert w[i - 1 + i..] == [s[2 * i - 2]] + s[2 * i - 1..];
  }

  lemma ReplaceSecond<T>(a: seq<T>, p: seq<T>, q: seq<T>, middle: seq<T>, c: seq<T>, x: T)
    requires |p| == |q| == 1
    ensures (a + (p + q + middle) + c)[|a| + 1 := x] == a + (p + [x] + middle) + c
  {}

  lemma Cancel<T>(m: multiset<T>, extra: multiset<T>, m': multiset<T>, lost: multiset<T>)
    requires m + extra == m' + lost
    ensures m == m' <==> extra == lost
  {
    assert m + extra - extra == m && m' + lost - lost == m';
    assert m + extra - m == extra && m' + lost - m' == lost;
  }

  // So an insertion conserves elements, whatever the stale slot holds, in the same cases.
  lemma InsertConserves<T(!new)>(s: seq<T>, i: nat, x: T, a: T, b: T)
    requires i <= |s| && a != b
    ensures (forall stale :: multiset(InsertOutcome(s, i, x, stale)) == multiset(s) + multiset{x})
            <==> i <= 1 || i > |s| / 2
  {
    if i <= 1 || i > |s| / 2 {
      forall stale
        ensures multiset(InsertOutcome(s, i, x, stale)) == multiset(s) + multiset{x}
      {
        InsertAsDocumented(s, i, x, stale);
        CutInTwo(s, i);
      }
    } else {
      var lost := if s[2 * i - 2] == s[i - 2] then s[i] else s[i - 2];
      var stale := if lost == a then b else a;
      InsertInFront(s, i, x, stale);
      hide InsertOutcome;
      var extra := multiset{stale, s[2 * i - 2]};
      assert extra != multiset{s[i - 2], s[i]};
      Cancel(multiset(s) + multiset{x}, extra, multiset(InsertOutcome(s, i, x, stale)), multiset{s[i - 2], s[i]});
    }
  }

  lemma InsertLosesTheFront()
    ensures InsertOutcome([1, 2, 3, 4], 2, 9, 0) == [0, 2, 9, 3, 4]
    ensures Inserted([1, 2, 3, 4], 2, 9) == [1, 2, 9, 3, 4]
  {
    var w := [0, 1, 2, 3, 4];
    assert [0] + [1, 2, 3, 4] == w;
    assert CopyWithin(w, 1, 2, 2) == [0, 2, 3, 3, 4];
  }

  // ---- filtering -----------------------------------------------------------------------------

  function Filter<T>(s: seq<T>, p: T -> bool): (r: seq<T>)
    ensures |r| <= |s|
  {
    if s == [] then []
    else Filter(ButLast(s), p) + (if p(Last(s)) then [Last(s)] else [])
  }

  function Not<T>(p: T -> bool): (q: T -> bool) {
    x => !p(x)
  }

  lemma {:induction false} FilterConcat<T>(a: seq<T>, b: seq<T>, p: T -> bool)
    ensures Filter(a + b, p) == Filter(a, p) + Filter(b, p)
  {
    if b == [] {
      assert a + b == a;
    } else {
      FilterConcat(a, ButLast(b), p);
      assert ButLast(a + b) == a + ButLast(b) && Last(a + b) == Last(b);
      var last := if p(Last(b)) then [Last(b)] else [];
      assert Filter(a, p) + Filter(ButLast(b), p) + last == Filter(a, p) + (Filter(ButLast(b), p) + last);
    }
  }

  lemma FilterPrefix<T>(s: seq<T>, i: nat, p: T -> bool)
    requires i < |s|
    ensures Filter(s[..i + 1], p) == Filter(s[..i], p) + (if p(s[i]) then [s[i]] else [])
  {
    assert ButLast(s[..i + 1]) == s[..i];
  }

  lemma FilterSuffix<T>(s: seq<T>, i: nat, p: T -> bool)
    requires i < |s|
    ensures Filter(s[i..], p) == (if p(s[i]) then [s[i]] else []) + Filter(s[i + 1..], p)
  {
    assert s[i..] == [s[i]] + s[i + 1..];
    FilterConcat([s[i]], s[i + 1..], p);
    assert ButLast([s[i]]) == [];
    assert Filter([s[i]], p) == Filter([], p) + (if p(s[i]) then [s[i]] else []);
  }

  // Every element either passes or is rejected.
  lemma {:induction false} FilterPartitions<T>(s: seq<T>, p: T -> bool)
    ensures multiset(Filter(s, p)) + multiset(Filter(s, Not(p))) == multiset(s)
    ensures |Filter(s, p)| + |Filter(s, Not(p))| == |s|
  {
    if s != [] {
      FilterPartitions(ButLast(s), p);
      FilterLast(s, p);
      FilterLast(s, Not(p));
      SplitEnds(s);
      hide Filter;
      if p(Last(s)) {
        assert multiset([Last(s)]) == multiset{Last(s)};
      }
    }
  }

  lemma FilterLast<T>(s: seq<T>, p: T -> bool)
    requires s != []
    ensures Filter(s, p) == Filter(ButLast(s), p) + (if p(Last(s)) then [Last(s)] else [])
  {}

  function Swapped<T>(s: seq<T>, i: nat, j: nat): (r: seq<T>)
    requires i < |s| && j < |s|
    ensures |r| == |s|
    ensures forall k | 0 <= k < |s| && k != i && k != j :: r[k] == s[k]
  {
    s[i := s[j]][j := s[i]]
  }

  // After `i` elements of `c`: the ones kept, in order, then the ones rejected, in some order.
  ghost predicate RetainedUpTo<T>(s: seq<T>, c: seq<T>, i: nat, kept: nat, f: T -> bool) {
    && kept <= i <= |s| && i <= |c|
    && s[..kept] == Filter(c[..i], f)
    && multiset(s[kept..i]) == multiset(Filter(c[..i], Not(f)))
  }

  lemma RetainStart<T>(s: seq<T>, c: seq<T>, f: T -> bool)
    ensures RetainedUpTo(s, c, 0, 0, f)
  {}

  lemma RetainDone<T>(s: seq<T>, c: seq<T>, kept: nat, f: T -> bool)
    requires |c| <= |s| && RetainedUpTo(s, c, |c|, kept, f)
    ensures s[..kept] == Filter(c, f)
    ensures multiset(s[kept..|c|]) == multiset(Filter(c, Not(f)))
  {
    assert c[..|c|] == c;
  }

  // The next element either joins the rejected ones, or trades places with the first of them.
  lemma RetainStep<T>(s: seq<T>, c: seq<T>, i: nat, kept: nat, f: T -> bool)
    requires RetainedUpTo(s, c, i, kept, f) && i < |c| && i < |s| && s[i] == c[i]
    ensures !f(s[i]) ==> RetainedUpTo(s, c, i + 1, kept, f)
    ensures f(s[i]) && kept == i ==> RetainedUpTo(s, c, i + 1, kept + 1, f)
    ensures f(s[i]) && kept < i ==> RetainedUpTo(Swapped(s, kept, i), c, i + 1, kept + 1, f)
  {
    hide Filter, Swapped;
    FilterPrefix(c, i, f);
    FilterPrefix(c, i, Not(f));
    if !f(s[i]) {
      OneLonger(s, kept, i);
    } else if kept == i {
      OneLonger(s, 0, i);
    } else {
      SwapPastRejected(s, kept, i);
    }
  }

  lemma OneLonger<T>(s: seq<T>, lo: nat, i: nat)
    requires lo <= i < |s|
    ensures s[lo..i + 1] == s[lo..i] + [s[i]]
    ensures multiset(s[lo..i + 1]) == multiset(s[lo..i]) + multiset{s[i]}
  {
    assert s[lo..i + 1] == s[lo..i] + [s[i]];
  }

  lemma SwapPastRejected<T>(s: seq<T>, lo: nat, i: nat)
    requires lo < i < |s|
    ensures Swapped(s, lo, i)[..lo + 1] == s[..lo] + [s[i]]
    ensures multiset(Swapped(s, lo, i)[lo + 1..i + 1]) == multiset(s[lo..i])
  {
    var t := Swapped(s, lo, i);
    assert t[lo + 1..i + 1] == s[lo + 1..i] + [s[lo]];
    assert s[lo..i] == [s[lo]] + s[lo + 1..i];
  }

  // The loop that documents `drain_filter`: step through the deque by index, removing matches.
  function RemoveLoop<T>(s: seq<T>, i: nat, p: T -> bool): (r: (seq<T>, seq<T>))
    requires i <= |s|
    decreases |s| - i
  {
    if i == |s| then (s, [])
    else if p(s[i]) then
      var (kept, removed) := RemoveLoop(s[..i] + s[i + 1..], i, p);
      (kept, [s[i]] + removed)
    else RemoveLoop(s, i + 1, p)
  }

  lemma {:induction false} RemoveLoopFilters<T>(s: seq<T>, i: nat, p: T -> bool)
    requires i <= |s|
    ensures RemoveLoop(s, i, p) == (s[..i] + Filter(s[i..], Not(p)), Filter(s[i..], p))
    decreases |s| - i, 1
  {
    if i == |s| {
      assert s[..i] + Filter(s[i..], Not(p)) == s;
    } else {
      FilterSuffix(s, i, p);
      FilterSuffix(s, i, Not(p));
      RemoveLoopStep(s, i, p);
      var here, rest := if p(s[i]) then [] else [s[i]], Filter(s[i + 1..], Not(p));
      assert s[..i] + here + rest == s[..i] + (here + rest);
    }
  }

  lemma RemoveLoopFromStart<T>(s: seq<T>, p: T -> bool)
    ensures RemoveLoop(s, 0, p) == (Filter(s, Not(p)), Filter(s, p))
  {
    RemoveLoopFilters(s, 0, p);
    assert s[..0] + Filter(s, Not(p)) == Filter(s, Not(p));
  }

  lemma {:induction false} RemoveLoopStep<T>(s: seq<T>, i: nat, p: T -> bool)
    requires i < |s|
    ensures RemoveLoop(s, i, p) == (s[..i] + (if p(s[i]) then [] else [s[i]]) + Filter(s[i + 1..], Not(p)),
                                    (if p(s[i]) then [s[i]] else []) + Filter(s[i + 1..], p))
    decreases |s| - i, 0
  {
    if p(s[i]) {
      var t := s[..i] + s[i + 1..];
      RemoveLoopFilters(t, i, p);
      assert t[..i] == s[..i] && t[i..] == s[i + 1..];
      assert s[..i] + [] == s[..i];
    } else {
      RemoveLoopFilters(s, i + 1, p);
      assert s[..i] + [s[i]] == s[..i + 1];
      assert [] + Filter(s[i + 1..], p) == Filter(s[i + 1..], p);
    }
  }

  // ---- deduplication -------------------------------------------------------------------------

  // Keeps an element unless it is in the same bucket as the last one kept.
  function Dedup<T>(s: seq<T>, same: (T, T) -> bool): (r: seq<T>)
    ensures |r| <= |s| && (s != [] ==> r != [])
  {
    if s == [] then []
    else
      var kept := Dedup(ButLast(s), same);
      if kept != [] && same(Last(s), Last(kept)) then kept else kept + [Last(s)]
  }

  // The same from the front: each element is compared with the last one kept, and comes first.
  function DedupForward<T>(s: seq<T>, same: (T, T) -> bool): (r: seq<T>) {
    if s == [] then [] else [s[0]] + DedupAfter(s[0], s[1..], same)
  }

  function DedupAfter<T>(kept: T, s: seq<T>, same: (T, T) -> bool): (r: seq<T>) {
    if s == [] then []
    else if same(s[0], kept) then DedupAfter(kept, s[1..], same)
    else [s[0]] + DedupAfter(s[0], s[1..], same)
  }

  lemma DedupIsForward<T>(s: seq<T>, same: (T, T) -> bool)
    ensures Dedup(s, same) == DedupForward(s, same)
  {
    if s != [] {
      DedupRest([s[0]], s[1..], same);
      DedupOne([s[0]], same);
      assert s == [s[0]] + s[1..];
    }
  }

  lemma {:induction false} DedupRest<T>(a: seq<T>, s: seq<T>, same: (T, T) -> bool)
    requires a != []
    ensures Dedup(a + s, same) == Dedup(a, same) + DedupAfter(Last(Dedup(a, same)), s, same)
    decreases |s|
  {
    if s == [] {
      assert a + s == a;
    } else {
      var kept := Dedup(a, same);
      assert a + s == a + [s[0]] + s[1..] && ButLast(a + [s[0]]) == a;
      DedupRest(a + [s[0]], s[1..], same);
      if !same(s[0], Last(kept)) {
        assert Dedup(a + [s[0]], same) == kept + [s[0]];
        assert kept + [s[0]] + DedupAfter(s[0], s[1..], same) == kept + ([s[0]] + DedupAfter(s[0], s[1..], same));
      }
    }
  }

  // Keeps an element unless it is in the same bucket as the one before it.
  function Firsts<T>(s: seq<T>, same: (T, T) -> bool): (r: seq<T>) {
    if s == [] then []
    else
      Firsts(ButLast(s), same)
      + (if |s| > 1 && same(Last(s), Last(ButLast(s))) then [] else [Last(s)])
  }

  ghost predicate Equivalence<T(!new)>(same: (T, T) -> bool) {
    && (forall x :: same(x, x))
    && (forall x, y :: same(x, y) ==> same(y, x))
    && (forall x, y, z :: same(x, y) && same(y, z) ==> same(x, z))
  }

  lemma {:induction false} DedupByEquivalence<T(!new)>(s: seq<T>, same: (T, T) -> bool)
    requires Equivalence(same)
    ensures Dedup(s, same) == Firsts(s, same)
    ensures s != [] ==> same(Last(s), Last(Dedup(s, same)))
  {
    if s != [] {
      DedupByEquivalence(ButLast(s), same);
    }
  }

  lemma DedupPrefix<T>(s: seq<T>, r: nat, same: (T, T) -> bool)
    requires 0 < r < |s|
    ensures var kept := Dedup(s[..r], same);
            Dedup(s[..r + 1], same) == if same(s[r], Last(kept)) then kept else kept + [s[r]]
  {
    assert ButLast(s[..r + 1]) == s[..r];
  }

  lemma {:induction false} DedupKeeps<T>(s: seq<T>, same: (T, T) -> bool)
    ensures multiset(Dedup(s, same)) <= multiset(s)
  {
    if s != [] {
      DedupKeeps(ButLast(s), same);
      assert s == ButLast(s) + [Last(s)];
    }
  }

  // After `r` elements of `c`: the `w` ones kept, then the others in some order.
  ghost predicate DedupedUpTo<T>(s: seq<T>, c: seq<T>, r: nat, w: nat, same: (T, T) -> bool) {
    && 1 <= w <= r <= |s| && r <= |c|
    && s[..w] == Dedup(c[..r], same)
    && multiset(s[..r]) == multiset(c[..r])
  }

  lemma DedupStart<T>(s: seq<T>, c: seq<T>, same: (T, T) -> bool)
    requires c <= s
    ensures |c| <= 1 ==> Dedup(c, same) == c
    ensures 1 <= |c| ==> DedupedUpTo(s, c, 1, 1, same)
  {
    if c != [] {
      hide Dedup;
      DedupOne(c[..1], same);
      SamePrefix(s, c, 1);
    }
  }

  lemma SamePrefix<T>(s: seq<T>, c: seq<T>, n: nat)
    requires c <= s && n <= |c|
    ensures c[..n] == s[..n] && (n == |c| ==> c[..n] == c)
  {}

  lemma DedupOne<T>(c: seq<T>, same: (T, T) -> bool)
    requires |c| == 1
    ensures Dedup(c, same) == c
  {
    assert ButLast(c) == [];
  }

  lemma DedupDone<T>(s: seq<T>, c: seq<T>, w: nat, same: (T, T) -> bool)
    requires |c| <= |s| && DedupedUpTo(s, c, |c|, w, same)
    ensures s[..w] == Dedup(c, same)
    ensures multiset(s[w..|c|]) + multiset(s[..w]) == multiset(c)
  {
    hide Dedup;
    assert c[..|c|] == c;
    Split(s, w, |c|);
  }

  lemma DedupStep<T>(s: seq<T>, c: seq<T>, r: nat, w: nat, same: (T, T) -> bool)
    requires DedupedUpTo(s, c, r, w, same) && r < |c| && r < |s| && s[r] == c[r]
    ensures same(s[r], s[w - 1]) ==> DedupedUpTo(s, c, r + 1, w, same)
    ensures !same(s[r], s[w - 1]) && r == w ==> DedupedUpTo(s, c, r + 1, w + 1, same)
    ensures !same(s[r], s[w - 1]) && r != w ==> DedupedUpTo(Swapped(s, r, w), c, r + 1, w + 1, same)
  {
    DedupPrefix(c, r, same);
    hide Dedup, Swapped;
    assert Last(s[..w]) == s[w - 1];
    assert s[..r + 1] == s[..r] + [s[r]] && c[..r + 1] == c[..r] + [c[r]];
    if !same(s[r], s[w - 1]) {
      if r == w {
        assert s[..w + 1] == s[..w] + [s[w]];
      } else {
        SwapForwards(s, r, w);
      }
    }
  }

  lemma SwapForwards<T>(s: seq<T>, r: nat, w: nat)
    requires w < r < |s|
    ensures Swapped(s, r, w)[..w + 1] == s[..w] + [s[r]]
    ensures multiset(Swapped(s, r, w)[..r + 1]) == multiset(s[..r + 1])
  {
    var t := Swapped(s, r, w);
    assert t[..w + 1] == s[..w] + [s[r]];
    assert t[..r + 1] == Swapped(s[..r + 1], r, w);
    assert multiset(Swapped(s[..r + 1], r, w)) == multiset(s[..r + 1]);
  }

  ghost predicate TotalOrder<T(!new)>(le: (T, T) -> bool) {
    && (forall x, y :: le(x, y) || le(y, x))
    && (forall x, y :: le(x, y) && le(y, x) ==> x == y)
    && (forall x, y, z :: le(x, y) && le(y, z) ==> le(x, z))
  }

  ghost predicate Sorted<T>(s: seq<T>, le: (T, T) -> bool) {
    forall i, j | 0 <= i < j < |s| :: le(s[i], s[j])
  }

  ghost predicate StrictlySorted<T>(s: seq<T>, le: (T, T) -> bool) {
    forall i, j | 0 <= i < j < |s| :: le(s[i], s[j]) && s[i] != s[j]
  }

  // On a sorted deque `dedup` removes exactly the duplicates.
  lemma {:induction false} DedupSorted<T(!new)>(s: seq<T>, le: (T, T) -> bool)
    requires TotalOrder(le) && Sorted(s, le)
    ensures var r := Dedup(s, (x, y) => x == y);
            && StrictlySorted(r, le)
            && (forall x :: x in r <==> x in s)
            && (s != [] ==> Last(r) == Last(s))
  {
    if s != [] {
      DedupSorted(ButLast(s), le);
      assert s == ButLast(s) + [Last(s)];
      var kept := Dedup(ButLast(s), (x, y) => x == y);
      if kept != [] {
        assert le(Last(ButLast(s)), Last(s));
        assert forall x | x in kept :: le(x, Last(s));
      }
    }
  }

  // ---- a double-ended iterator ---------------------------------------------------------------

  // The items yielded by a series of calls, `true` for `next` and `false` for `next_back`, and
  // what is left.
  function TakeEnds<T>(s: seq<T>, calls: seq<bool>): (r: (seq<T>, seq<T>))
    ensures |r.0| + |r.1| == |s|
    decreases |calls|
  {
    if calls == [] || s == [] then ([], s)
    else
      var (taken, left) := TakeEnds(s, ButLast(calls));
      if left == [] then (taken, left)
      else if Last(calls) then (taken + [left[0]], left[1..])
      else (taken + [Last(left)], ButLast(left))
  }

  lemma {:induction false} TakeEndsConserves<T>(s: seq<T>, calls: seq<bool>)
    ensures var (taken, left) := TakeEnds(s, calls);
            multiset(taken) + multiset(left) == multiset(s)
    decreases |calls|
  {
    if calls != [] && s != [] {
      TakeEndsConserves(s, ButLast(calls));
      var (taken, left) := TakeEnds(s, ButLast(calls));
      if left != [] {
        SplitEnds(left);
      }
    }
  }

  // The items among those taken that `next` yielded, or those that `next_back` did.
  function TakenBy<T>(front: bool, taken: seq<T>, calls: seq<bool>): (r: seq<T>)
    requires |taken| <= |calls|
  {
    if taken == [] then []
    else TakenBy(front, ButLast(taken), calls) + (if calls[|taken| - 1] == front then [Last(taken)] else [])
  }

  // What `next` yielded, what is left, and what `next_back` yielded, the other way round, make up
  // the whole, and no call yields nothing while something is left.
  lemma {:induction false} TakeEndsInOrder<T>(s: seq<T>, calls: seq<bool>)
    ensures var (taken, left) := TakeEnds(s, calls);
            && |taken| == (if |calls| <= |s| then |calls| else |s|)
            && TakenBy(true, taken, calls) + left + Reverse(TakenBy(false, taken, calls)) == s
    decreases |calls|
  {
    if calls != [] && s != [] {
      TakeEndsInOrder(s, ButLast(calls));
      var (taken, left) := TakeEnds(s, ButLast(calls));
      TakenBefore(true, taken, calls);
      TakenBefore(false, taken, calls);
      if left != [] {
        TakenNext(taken, calls, if Last(calls) then left[0] else Last(left));
        var fronts, backs := TakenBy(true, taken, calls), TakenBy(false, taken, calls);
        hide *;
        FromEitherEnd(fronts, left, backs);
      }
    }
  }

  lemma TakenNext<T>(taken: seq<T>, calls: seq<bool>, x: T)
    requires calls != [] && |taken| == |calls| - 1
    ensures var front := Last(calls);
            && TakenBy(front, taken + [x], calls) == TakenBy(front, taken, calls) + [x]
            && TakenBy(!front, taken + [x], calls) == TakenBy(!front, taken, calls)
  {
    assert ButLast(taken + [x]) == taken;
  }

  lemma FromEitherEnd<T>(fronts: seq<T>, left: seq<T>, backs: seq<T>)
    requires left != []
    ensures fronts + [left[0]] + left[1..] + Reverse(backs) == fronts + left + Reverse(backs)
    ensures fronts + ButLast(left) + Reverse(backs + [Last(left)]) == fronts + left + Reverse(backs)
  {
    assert fronts + [left[0]] + left[1..] == fronts + left;
    assert ButLast(backs + [Last(left)]) == backs;
    assert fronts + ButLast(left) + [Last(left)] == fronts + left;
    assert fronts + ButLast(left) + ([Last(left)] + Reverse(backs))
        == fronts + ButLast(left) + [Last(left)] + Reverse(backs);
  }

  lemma {:induction false} TakenBefore<T>(front: bool, taken: seq<T>, calls: seq<bool>)
    requires |taken| < |calls|
    ensures TakenBy(front, taken, ButLast(calls)) == TakenBy(front, taken, calls)
    decreases |taken|
  {
    if taken != [] {
      TakenBefore(front, ButLast(taken), calls);
    }
  }

  lemma SplitEnds<T>(s: seq<T>)
    requires s != []
    ensures multiset(s) == multiset{s[0]} + multiset(s[1..])
    ensures multiset(s) == multiset(ButLast(s)) + multiset{Last(s)}
  {
    assert s == [s[0]] + s[1..];
    assert s == ButLast(s) + [Last(s)];
  }
}
