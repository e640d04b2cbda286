// How a deque grows while it takes in the items of an iterator, and what a splice asks for.
module Growing {
  import opened Allocation
  import opened Sequences

  // Capacity, elements moved and mappings asked for so far.
  datatype Growth = Growth(cap: nat, copied: nat, attempts: nat)

  // A deque of `len` elements makes room for `additional` more.
  function MadeRoom(lay: Layout, len: nat, g: Growth, additional: nat): (h: Growth)
    requires lay.Ok()
  {
    Growth(GrownCapacity(lay, len, g.cap, additional),
           g.copied + GrowthCost(len, g.cap, additional),
           g.attempts + (if len + additional <= g.cap then 0 else 1))
  }

  // What an iterator hints at once `taken` of its items are out, and one more.
  function Hinted(lower: nat -> nat, upper: nat -> Option<nat>, taken: nat): (additional: nat) {
    (if upper(taken).Some? then upper(taken).value else lower(taken)) + 1
  }

  // The growth of a deque of `len` elements that appends the items from `p` up to `k`, making room
  // by the hint whenever it is full.
  function Extending(lay: Layout, len: nat, g: Growth, lower: nat -> nat, upper: nat -> Option<nat>, p: nat, k: nat)
    : (h: Growth)
    requires lay.Ok() && p <= k
    decreases k
  {
    if k == p then g
    else RoomForNext(lay, len + (k - 1 - p), Extending(lay, len, g, lower, upper, p, k - 1), lower, upper, k)
  }

  // Room for one more item, when `taken` items including that one are out.
  function RoomForNext(lay: Layout, len: nat, g: Growth, lower: nat -> nat, upper: nat -> Option<nat>, taken: nat)
    : (h: Growth)
    requires lay.Ok()
  {
    if len == g.cap then MadeRoom(lay, len, g, Hinted(lower, upper, taken)) else g
  }

  // How a new deque grows while the items from `p` up to `n` are collected into it.
  function CollectGrowth(lay: Layout, lower: nat -> nat, upper: nat -> Option<nat>, p: nat, n: nat): (g: Growth)
    requires lay.Ok() && p <= n
  {
    if p == n then Growth(0, 0, 0)
    else Extending(lay, 1, Growth(Capacity(lay, lower(p + 1) + 1), 0, 1), lower, upper, p + 1, n)
  }

  function CollectAttempts(lay: Layout, lower: nat -> nat, upper: nat -> Option<nat>, p: nat, n: nat): (attempts: nat)
    requires lay.Ok() && p <= n
  {
    CollectGrowth(lay, lower, upper, p, n).attempts
  }

  lemma CollectAttemptsAre(lay: Layout, lower: nat -> nat, upper: nat -> Option<nat>, p: nat, n: nat)
    requires lay.Ok() && p <= n
    ensures CollectAttempts(lay, lower, upper, p, n) == CollectGrowth(lay, lower, upper, p, n).attempts
  {}

  // Room for the next item is made only when the deque is full, and then for it and for as many
  // more as the upper bound of the hint says, or the lower one without; the whole deque moves once.
  lemma RoomIsAsHinted(lay: Layout, len: nat, g: Growth, lower: nat -> nat, upper: nat -> Option<nat>, taken: nat)
    requires lay.Ok()
    ensures var h := RoomForNext(lay, len, g, lower, upper, taken);
            if len != g.cap then h == g
            else
              && (upper(taken).Some? ==> LeastGrowth(lay, len, g.cap, upper(taken).value + 1, h.cap))
              && (upper(taken).None? ==> LeastGrowth(lay, len, g.cap, lower(taken) + 1, h.cap))
              && h.copied == g.copied + len && h.attempts == g.attempts + 1
  {
    GrownCapacityIsLeast(lay, len, g.cap, Hinted(lower, upper, taken));
    hide GrownCapacity, LeastGrowth;
  }

  // Nothing while there is room, and then once, for `total` elements in all.
  ghost predicate GrewOnce(lay: Layout, g: Growth, total: nat, len: nat, h: Growth)
    requires lay.Ok() && len <= total
  {
    if len <= g.cap then h == g
    else
      && LeastGrowth(lay, g.cap, g.cap, total - g.cap, h.cap)
      && h.copied == g.copied + g.cap && h.attempts == g.attempts + 1
  }

  // After each item from `p` on, the upper bound says how many of `n` are left, or there is none and
  // the lower one does.
  ghost predicate HintsAreExact(lower: nat -> nat, upper: nat -> Option<nat>, p: nat, n: nat) {
    forall t: nat | p < t <= n :: upper(t) == Some(n - t) || (upper(t) == None && lower(t) == n - t)
  }

  lemma ExactHintAt(lower: nat -> nat, upper: nat -> Option<nat>, p: nat, n: nat, t: nat)
    requires HintsAreExact(lower, upper, p, n) && p < t <= n
    ensures upper(t) == Some(n - t) || (upper(t) == None && lower(t) == n - t)
  {}

  // An iterator whose hint always says what it has left makes a deque grow at most once: when full,
  // and then to hold everything that is still to come.
  lemma {:induction false} ExactHintsGrowOnce(lay: Layout, len: nat, g: Growth,
                                              lower: nat -> nat, upper: nat -> Option<nat>, p: nat, k: nat, n: nat)
    requires lay.Ok() && p <= k <= n && len <= g.cap
    requires HintsAreExact(lower, upper, p, n)
    ensures GrewOnce(lay, g, len + (n - p), len + (k - p), Extending(lay, len, g, lower, upper, p, k))
    decreases k
  {
    hide *;
    ExtendingLast(lay, len, g, lower, upper, p, k);
    if p == k {
      NotYet(lay, g, len + (n - p), len);
    } else {
      ExactHintsGrowOnce(lay, len, g, lower, upper, p, k - 1, n);
      ExactHintAt(lower, upper, p, n, k);
      var h := Extending(lay, len, g, lower, upper, p, k - 1);
      StillOnce(lay, g, len + (n - p), len + (k - 1 - p), h, lower, upper, k);
    }
  }

  lemma ExtendingLast(lay: Layout, len: nat, g: Growth, lower: nat -> nat, upper: nat -> Option<nat>, p: nat, k: nat)
    requires lay.Ok() && p <= k
    ensures Extending(lay, len, g, lower, upper, p, k)
         == if p == k then g
            else RoomForNext(lay, len + (k - 1 - p), Extending(lay, len, g, lower, upper, p, k - 1), lower, upper, k)
  {}

  lemma NotYet(lay: Layout, g: Growth, total: nat, len: nat)
    requires lay.Ok() && len <= total && len <= g.cap
    ensures GrewOnce(lay, g, total, len, g)
  {}

  lemma StillOnce(lay: Layout, g: Growth, total: nat, len: nat, h: Growth,
                  lower: nat -> nat, upper: nat -> Option<nat>, k: nat)
    requires lay.Ok() && len < total && GrewOnce(lay, g, total, len, h)
    requires var left := total - len - 1; upper(k) == Some(left) || (upper(k) == None && lower(k) == left)
    ensures GrewOnce(lay, g, total, len + 1, RoomForNext(lay, len, h, lower, upper, k))
  {
    hide RoomForNext, LeastGrowth;
    RoomIsAsHinted(lay, len, h, lower, upper, k);
    LeastGrowthHasRoom(lay, g.cap, g.cap, total - g.cap, h.cap);
  }

  // Collecting is exact with a lower bound that is: one mapping, and nothing moves.
  lemma ExactHintsCollectOnce(lay: Layout, lower: nat -> nat, upper: nat -> Option<nat>, p: nat, n: nat)
    requires lay.Ok() && p < n && lower(p + 1) == n - (p + 1)
    ensures CollectGrowth(lay, lower, upper, p, n) == Growth(Capacity(lay, n - p), 0, 1)
  {
    var g := Growth(Capacity(lay, n - p), 0, 1);
    CapacityIsClosure(lay, n - p);
    hide Capacity;
    RoomToSpare(lay, 1, g, lower, upper, p + 1, n);
  }

  lemma {:induction false} RoomToSpare(lay: Layout, len: nat, g: Growth, lower: nat -> nat, upper: nat -> Option<nat>,
                                       p: nat, k: nat)
    requires lay.Ok() && p <= k && len + (k - p) <= g.cap
    ensures Extending(lay, len, g, lower, upper, p, k) == g
    decreases k
  {
    if p < k {
      RoomToSpare(lay, len, g, lower, upper, p, k - 1);
    }
  }

  // How many mappings were asked for before does not matter to the rest.
  lemma {:induction false} AttemptsApart(lay: Layout, len: nat, g: Growth, a: nat,
                                         lower: nat -> nat, upper: nat -> Option<nat>, p: nat, k: nat)
    requires lay.Ok() && p <= k
    ensures var h := Extending(lay, len, g, lower, upper, p, k);
            && g.attempts <= h.attempts
            && Extending(lay, len, g.(attempts := a), lower, upper, p, k)
               == h.(attempts := h.attempts - g.attempts + a)
    decreases k
  {
    hide GrownCapacity, GrowthCost;
    if p < k {
      AttemptsApart(lay, len, g, a, lower, upper, p, k - 1);
    }
  }

  // A deque that grows like that always has the room it needs.
  lemma {:induction false} ExtendingFits(lay: Layout, len: nat, g: Growth,
                                         lower: nat -> nat, upper: nat -> Option<nat>, p: nat, k: nat)
    requires lay.Ok() && p <= k && len <= g.cap == Capacity(lay, g.cap)
    ensures var h := Extending(lay, len, g, lower, upper, p, k);
            len + (k - p) <= h.cap == Capacity(lay, h.cap) && g.cap <= h.cap
    decreases k
  {
    if p < k {
      hide Capacity, RoomForNext;
      ExtendingFits(lay, len, g, lower, upper, p, k - 1);
      NextFits(lay, len + (k - 1 - p), Extending(lay, len, g, lower, upper, p, k - 1), lower, upper, k);
    }
  }

  lemma NextFits(lay: Layout, len: nat, g: Growth, lower: nat -> nat, upper: nat -> Option<nat>, taken: nat)
    requires lay.Ok() && len <= g.cap == Capacity(lay, g.cap)
    ensures var h := RoomForNext(lay, len, g, lower, upper, taken);
            len + 1 <= h.cap == Capacity(lay, h.cap) && g.cap <= h.cap
  {
    hide Capacity;
    CapacityIsClosure(lay, GrowPolicy(len, g.cap, Hinted(lower, upper, taken)));
  }

  // A deque that extends asks for memory exactly when what comes does not fit.
  lemma {:induction false} ExtendingAsks(lay: Layout, len: nat, g: Growth, lower: nat -> nat, upper: nat -> Option<nat>,
                                         p: nat, k: nat)
    requires lay.Ok() && p <= k && len <= g.cap
    ensures var h := Extending(lay, len, g, lower, upper, p, k);
            g.attempts <= h.attempts && (g.attempts < h.attempts <==> g.cap < len + (k - p))
    decreases k
  {
    hide *;
    ExtendingLast(lay, len, g, lower, upper, p, k);
    if p < k {
      ExtendingAsks(lay, len, g, lower, upper, p, k - 1);
      var h, m := Extending(lay, len, g, lower, upper, p, k - 1), len + (k - 1 - p);
      if m <= g.cap {
        RoomToSpare(lay, len, g, lower, upper, p, k - 1);
      }
      RoomIsAsHinted(lay, m, h, lower, upper, k);
    }
  }

  // And one that collects asks for memory exactly when anything comes.
  lemma CollectingAsks(lay: Layout, lower: nat -> nat, upper: nat -> Option<nat>, p: nat, n: nat)
    requires lay.Ok() && p <= n
    ensures 0 < CollectAttempts(lay, lower, upper, p, n) <==> p < n
  {
    if p < n {
      var g := Growth(Capacity(lay, lower(p + 1) + 1), 0, 1);
      CapacityIsClosure(lay, lower(p + 1) + 1);
      hide Capacity, Extending;
      ExtendingAsks(lay, 1, g, lower, upper, p + 1, n);
    }
  }

  // A splice: the capacity and length of the deque, the length of the range replaced, the number
  // of replacement items, the lower size hint once the range is full, the elements moved and the
  // mappings asked for before, and those asked for to collect what comes after the items hinted at.
  datatype Request = Request(cap: nat, len: nat, hole: nat, items: nat, lower: nat,
                             copied: nat, attempts: nat, collecting: nat)

  // No step that makes room before a tail has to reallocate.
  predicate Fits(q: Request, tailLen: nat) {
    || tailLen == 0
    || q.items < q.hole
    || (q.len + q.lower <= q.cap && q.len + (q.items - q.hole) <= q.cap)
  }

  // It asks for memory to extend a deque with no tail that gets too long, to make room for as many
  // items as hinted at, or to collect items beyond those.
  predicate MustAllocate(q: Request, tailLen: nat) {
    if tailLen == 0 then q.cap + q.hole < q.len + q.items
    else q.hole <= q.items && (q.cap < q.len + q.lower || q.hole + q.lower < q.items)
  }

  // The number of items in place when a splice before a tail runs out of memory: at the first step
  // that makes room, or after it.
  predicate StuckAt(q: Request, placed: nat) {
    || (placed == q.hole <= q.items && q.cap < q.len + q.lower)
    || placed == q.hole + q.lower < q.items
  }

  // Capacity, elements moved and mappings asked for after the step that makes room for as many
  // items as the hint says.
  function HintedGrowth(lay: Layout, q: Request, tailLen: nat): (g: Growth)
    requires lay.Ok() && tailLen <= q.len
  {
    if q.len + q.lower <= q.cap then Growth(q.cap, q.copied, q.attempts)
    else Growth(Capacity(lay, q.len + q.lower), q.copied + (q.len - tailLen), q.attempts + 1)
  }

  // The same at the end, with a tail.
  function SpliceGrowth(lay: Layout, q: Request, tailLen: nat): (g: Growth)
    requires lay.Ok() && tailLen <= q.len
  {
    if q.items < q.hole then Growth(q.cap, q.copied, q.attempts)
    else
      var h, more := HintedGrowth(lay, q, tailLen), q.items - q.hole;
      if more <= q.lower || q.len + more <= h.cap then h.(attempts := h.attempts + q.collecting)
      else
        Growth(Capacity(lay, q.len + more), h.copied + (q.len - tailLen) + q.lower, h.attempts + q.collecting + 1)
  }

  // A splice with a tail asks for memory exactly when it must.
  lemma SplicingAsks(lay: Layout, q: Request, tailLen: nat)
    requires lay.Ok() && 0 < tailLen <= q.len <= q.cap
    requires q.hole <= q.items ==> (0 < q.collecting <==> q.hole + q.lower < q.items)
    ensures q.attempts < SpliceGrowth(lay, q, tailLen).attempts <==> MustAllocate(q, tailLen)
  {
    CapacityIsClosure(lay, q.len + q.lower);
    hide Capacity;
  }

  // What was asked for before or to collect items shows in nothing but what is asked for.
  lemma AttemptsDoNotMatter(lay: Layout, q: Request, r: Request, tailLen: nat)
    requires lay.Ok() && tailLen <= q.len && q.(attempts := 0, collecting := 0) == r.(attempts := 0, collecting := 0)
    ensures Fits(q, tailLen) == Fits(r, tailLen) && MustAllocate(q, tailLen) == MustAllocate(r, tailLen)
    ensures HintedGrowth(lay, q, tailLen).(attempts := 0) == HintedGrowth(lay, r, tailLen).(attempts := 0)
    ensures SpliceGrowth(lay, q, tailLen).(attempts := 0) == SpliceGrowth(lay, r, tailLen).(attempts := 0)
  {
    hide Capacity;
  }

  // The result has room.
  lemma SpliceHasRoom(lay: Layout, q: Request, tailLen: nat)
    requires lay.Ok() && 0 < tailLen && q.hole + tailLen <= q.len <= q.cap == Capacity(lay, q.cap)
    ensures var h := HintedGrowth(lay, q, tailLen);
            q.cap <= h.cap == Capacity(lay, h.cap) && q.len + q.lower <= h.cap
    ensures var g := SpliceGrowth(lay, q, tailLen);
            q.cap <= g.cap == Capacity(lay, g.cap) && q.len - q.hole + q.items <= g.cap
  {
    CapacityIsClosure(lay, q.len + q.lower);
    if q.hole <= q.items {
      CapacityIsClosure(lay, q.len + (q.items - q.hole));
    }
    hide Capacity;
  }

  // With a lower bound that is not too high, that means the result fits in the capacity.
  lemma HonestHintFits(q: Request, tailLen: nat)
    requires q.hole + tailLen <= q.len <= q.cap
    requires q.hole <= q.items ==> q.lower <= q.items - q.hole
    ensures Fits(q, tailLen) <==> tailLen == 0 || q.len - q.hole + q.items <= q.cap
  {}
}
