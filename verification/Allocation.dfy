// Size arithmetic of mirrored allocations: how many bytes are mapped for a requested number of
// elements, and why every later recomputation from an element count finds the same number again.
module Allocation {

  // What is fixed for the life of a deque: the size and alignment in bytes of an element, and the
  // allocation granularity of the operating system.
  datatype Layout = Layout(size: nat, align: nat, ag: nat) {
    // An element size is a multiple of its alignment, and the alignment divides the granularity
    // (for powers of two this is the runtime check `align <= granularity`, see PowersOfTwoDivide).
    predicate Ok() {
      && 1 <= size && 1 <= align && 1 <= ag
      && size % align == 0 && ag % align == 0
    }
  }

  function NoRequiredAllocationUnits(bytes: nat, ag: nat): (units: nat)
    requires 1 <= ag
    ensures 2 <= units && units % 2 == 0
    ensures bytes <= units * ag
  {
    CeilingDivision(bytes, ag);
    var r := (bytes + ag - 1) / ag;
    var r := if r < 1 then 1 else r;
    var r := if r % 2 == 0 then r else r + 1;
    MulMonotone((bytes + ag - 1) / ag, r, ag);
    r
  }

  function SizeInBytes(lay: Layout, len: nat): (bytes: nat)
    requires lay.Ok()
    ensures len * lay.size <= bytes
  {
    NoRequiredAllocationUnits(len * lay.size, lay.ag) * lay.ag
  }

  // Number of elements a buffer of `alloc` bytes reports as its length.
  function ReportedLen(lay: Layout, alloc: nat): (len: nat)
    requires lay.Ok()
  {
    alloc / lay.size
  }

  // Capacity of a deque created for `n` elements.
  function Capacity(lay: Layout, n: nat): (cap: nat)
    requires lay.Ok()
  {
    if n == 0 then 0 else ReportedLen(lay, SizeInBytes(lay, 2 * n)) / 2
  }

  // The capacity asked for when `additional` more elements must fit: at least double when growing.
  function GrowPolicy(len: nat, cap: nat, additional: nat): (wanted: nat)
    ensures len + additional <= wanted
  {
    var req := len + additional;
    if req > cap then (if req > 2 * cap then req else 2 * cap) else req
  }

  // It is the least request with room for what comes that at least doubles whenever it grows.
  lemma GrowPolicyIsLeast(len: nat, cap: nat, additional: nat, n: nat)
    ensures GrowPolicy(len, cap, additional) <= n
            <==> len + additional <= n && (cap < len + additional ==> 2 * cap <= n)
  {}

  // What making room does to a capacity: nothing while there is enough, and otherwise it becomes
  // the rounding of the least request that suffices and at least doubles.
  ghost predicate LeastGrowth(lay: Layout, len: nat, cap: nat, additional: nat, cap': nat)
    requires lay.Ok()
  {
    if len + additional <= cap then cap' == cap
    else
      && len + additional <= cap' && 2 * cap <= cap' && Capacity(lay, cap') == cap'
      && forall n: nat | len + additional <= n && 2 * cap <= n :: cap' <= Capacity(lay, n)
  }

  lemma GrownCapacityIsLeast(lay: Layout, len: nat, cap: nat, additional: nat)
    requires lay.Ok()
    ensures LeastGrowth(lay, len, cap, additional, GrownCapacity(lay, len, cap, additional))
  {
    hide Capacity;
    var wanted := GrowPolicy(len, cap, additional);
    CapacityIsClosure(lay, wanted);
    forall n: nat | len + additional <= n && 2 * cap <= n
      ensures Capacity(lay, wanted) <= Capacity(lay, n)
    {
      GrowPolicyIsLeast(len, cap, additional, n);
      CapacityMonotone(lay, wanted, n);
    }
  }

  lemma LeastGrowthHasRoom(lay: Layout, len: nat, cap: nat, additional: int, cap': nat)
    requires lay.Ok()
    ensures 0 <= additional && LeastGrowth(lay, len, cap, additional, cap') ==> len + additional <= cap'
  {
    hide Capacity;
  }

  // No two capacities meet that.
  lemma LeastGrowthIsUnique(lay: Layout, len: nat, cap: nat, additional: nat, a: nat, b: nat)
    requires lay.Ok() && LeastGrowth(lay, len, cap, additional, a) && LeastGrowth(lay, len, cap, additional, b)
    ensures a == b
  {
    hide Capacity;
  }

  // Capacity after making room, and the number of elements that moves.
  function GrownCapacity(lay: Layout, len: nat, cap: nat, additional: nat): (cap': nat)
    requires lay.Ok()
  {
    if len + additional <= cap then cap else Capacity(lay, GrowPolicy(len, cap, additional))
  }

  function GrowthCost(len: nat, cap: nat, additional: nat): (moved: nat) {
    if len + additional <= cap then 0 else len
  }

  lemma MulMonotone(a: int, b: int, c: nat)
    ensures a <= b ==> a * c <= b * c
    ensures a < b ==> a * c + c <= b * c
  {
    if a < b {
      var d := b - a - 1;
      assert (a + 1 + d) * c == a * c + c + d * c;
    }
  }

  lemma DivMod(n: int, m: nat)
    requires 1 <= m
    ensures n == n / m * m + n % m
  {}

  lemma ModUnique(n: int, m: nat, q: int, r: nat)
    requires 1 <= m && n == q * m + r && r < m
    ensures n / m == q && n % m == r
  {
    DivMod(n, m);
    MulMonotone(n / m, q, m);
    MulMonotone(q, n / m, m);
  }

  // A step around a region and back.
  lemma StepAndBack(head: nat, step: int, region: nat)
    requires head < region
    ensures ((head + step) % region - step) % region == head
  {
    var n := head + step;
    DivMod(n, region);
    var q := 0 - n / region;
    assert n % region - step == q * region + head;
    ModUnique(n % region - step, region, q, head);
  }

  lemma CeilingDivision(b: nat, a: nat)
    requires 1 <= a
    ensures b <= (b + a - 1) / a * a < b + a
  {
    DivMod(b + a - 1, a);
  }

  // The number of units is the least even positive number of units that holds `bytes`.
  lemma UnitsAreLeast(bytes: nat, ag: nat, k: nat)
    requires 1 <= ag && 2 <= k && k % 2 == 0
    ensures NoRequiredAllocationUnits(bytes, ag) <= k <==> bytes <= k * ag
  {
    var q := (bytes + ag - 1) / ag;
    CeilingDivision(bytes, ag);
    MulMonotone(NoRequiredAllocationUnits(bytes, ag), k, ag);
    MulMonotone(k, q, ag);
  }

  // The size of a mapping is the least even positive number of granules that holds the elements.
  lemma SizeIsLeast(lay: Layout, len: nat, k: nat)
    requires lay.Ok() && 2 <= k && k % 2 == 0
    ensures SizeInBytes(lay, len) <= k * lay.ag <==> len * lay.size <= k * lay.ag
    ensures SizeInBytes(lay, len) % (2 * lay.ag) == 0 && 2 * lay.ag <= SizeInBytes(lay, len)
  {
    hide NoRequiredAllocationUnits;
    var u := NoRequiredAllocationUnits(len * lay.size, lay.ag);
    UnitsAreLeast(len * lay.size, lay.ag, k);
    MultipleAtMost(u, k, lay.ag);
    WholePairs(u, lay.ag);
  }

  lemma MultipleAtMost(a: nat, b: nat, c: nat)
    requires 1 <= c
    ensures a * c <= b * c <==> a <= b
  {
    MulMonotone(a, b, c);
    MulMonotone(b, a, c);
  }

  lemma WholePairs(u: nat, ag: nat)
    requires 2 <= u && u % 2 == 0 && 1 <= ag
    ensures u * ag % (2 * ag) == 0 && 2 * ag <= u * ag
  {
    assert u * ag == u / 2 * (2 * ag);
    MultipleOf(u / 2, 2 * ag);
    MulMonotone(2, u, ag);
  }

  lemma SizeIsWholeUnits(lay: Layout, len: nat)
    requires lay.Ok()
    ensures 0 < SizeInBytes(lay, len)
    ensures SizeInBytes(lay, len) % 2 == 0
    ensures SizeInBytes(lay, len) / 2 % lay.ag == 0
    ensures SizeInBytes(lay, len) / 2 % lay.align == 0
  {
    var u := NoRequiredAllocationUnits(len * lay.size, lay.ag);
    EvenMultiple(u, lay.ag, lay.align);
  }

  lemma EvenMultiple(u: nat, ag: nat, align: nat)
    requires 2 <= u && u % 2 == 0 && 1 <= ag && 1 <= align && ag % align == 0
    ensures 0 < u * ag && u * ag % 2 == 0 && u * ag / 2 % ag == 0 && u * ag / 2 % align == 0
  {
    var half, k := u / 2, ag / align;
    assert u * ag == 2 * (half * ag);
    MulMonotone(1, half, ag);
    MultipleOf(half, ag);
    DivMod(ag, align);
    assert half * (k * align) == half * k * align;
    MultipleOf(half * k, align);
  }

  lemma MultipleOf(k: int, m: nat)
    requires 1 <= m
    ensures k * m % m == 0
  {
    ModUnique(k * m, m, k, 0);
  }

  lemma SumOfMultiples(a: int, b: int, m: nat)
    requires 1 <= m && a % m == 0 && b % m == 0
    ensures (a + b) % m == 0 && (a - b) % m == 0
  {
    var i, j := a / m, b / m;
    DivMod(a, m);
    DivMod(b, m);
    assert (i + j) * m == i * m + j * m && (i - j) * m == i * m - j * m;
    MultipleOf(i + j, m);
    MultipleOf(i - j, m);
  }

  lemma ProductOfMultiple(k: nat, a: nat, m: nat)
    requires 1 <= m && a % m == 0
    ensures k * a % m == 0
  {
    DivMod(a, m);
    var i := a / m;
    assert k * (i * m) == k * i * m;
    MultipleOf(k * i, m);
  }

  lemma SizeMonotone(lay: Layout, a: nat, b: nat)
    requires lay.Ok() && a <= b
    ensures SizeInBytes(lay, a) <= SizeInBytes(lay, b)
  {
    hide NoRequiredAllocationUnits;
    MulMonotone(a, b, lay.size);
    UnitsMonotone(a * lay.size, b * lay.size, lay.ag);
  }

  lemma UnitsMonotone(a: nat, b: nat, ag: nat)
    requires 1 <= ag && a <= NoRequiredAllocationUnits(b, ag) * ag
    ensures NoRequiredAllocationUnits(a, ag) * ag <= NoRequiredAllocationUnits(b, ag) * ag
  {
    hide *;
    UnitsAreLeast(a, ag, NoRequiredAllocationUnits(b, ag));
    MulMonotone(NoRequiredAllocationUnits(a, ag), NoRequiredAllocationUnits(b, ag), ag);
  }

  lemma DivisionFits(n: nat, bytes: nat, size: nat)
    requires 1 <= size
    ensures n <= bytes / size <==> n * size <= bytes
  {
    DivMod(bytes, size);
    MulMonotone(n, bytes / size, size);
    MulMonotone(bytes / size, n, size);
  }

  // An allocation is never larger than what any count between the request and the reported
  // length asks for: every such count recomputes exactly the allocated size.
  lemma SizeRecovered(lay: Layout, requested: nat, count: nat)
    requires lay.Ok() && requested <= count <= ReportedLen(lay, SizeInBytes(lay, requested))
    ensures SizeInBytes(lay, count) == SizeInBytes(lay, requested)
  {
    hide NoRequiredAllocationUnits;
    SizeMonotone(lay, requested, count);
    DivisionFits(count, SizeInBytes(lay, requested), lay.size);
    UnitsMonotone(count * lay.size, requested * lay.size, lay.ag);
  }

  // The round trip that `move_head_unchecked`, `Buffer::drop` and `IntoIter::drop` rely on: the
  // allocated size is recovered from the reported length, and also from twice the capacity.
  lemma SizeRoundTrip(lay: Layout, requested: nat)
    requires lay.Ok() && requested % 2 == 0
    ensures var alloc := SizeInBytes(lay, requested);
            var len := ReportedLen(lay, alloc);
            && requested <= len
            && SizeInBytes(lay, len) == alloc
            && SizeInBytes(lay, 2 * (len / 2)) == alloc
            && len / 2 * lay.size <= alloc / 2
  {
    var alloc := SizeInBytes(lay, requested);
    var len := ReportedLen(lay, alloc);
    DivisionFits(requested, alloc, lay.size);
    SizeRecovered(lay, requested, len);
    SizeRecovered(lay, requested, len / 2 * 2);
    SizeIsWholeUnits(lay, requested);
    HalfFits(alloc, lay.size, len / 2);
  }

  lemma HalfFits(bytes: nat, size: nat, k: nat)
    requires 1 <= size && bytes % 2 == 0
    ensures k <= bytes / size / 2 <==> k * size <= bytes / 2
  {
    DivisionFits(2 * k, bytes, size);
    assert 2 * k * size == 2 * (k * size);
  }

  // With an upper bound on sizes for which the mapping succeeded, no recomputation exceeds it:
  // the size is recovered without any intermediate product or sum growing past alloc + ag.
  lemma RecomputationStaysSmall(lay: Layout, requested: nat, count: nat)
    requires lay.Ok() && requested <= count <= ReportedLen(lay, SizeInBytes(lay, requested))
    ensures count * lay.size <= SizeInBytes(lay, requested)
    ensures count * lay.size + lay.ag - 1 < SizeInBytes(lay, requested) + lay.ag
  {
    DivisionFits(count, SizeInBytes(lay, requested), lay.size);
  }

  // Rounding a requested capacity up to whole allocation units is a closure operator.
  lemma CapacityIsClosure(lay: Layout, n: nat)
    requires lay.Ok()
    ensures n <= Capacity(lay, n)
    ensures Capacity(lay, Capacity(lay, n)) == Capacity(lay, n)
  {
    hide NoRequiredAllocationUnits, SizeInBytes;
    if n > 0 {
      SizeRoundTrip(lay, 2 * n);
    }
  }

  lemma CapacityMonotone(lay: Layout, a: nat, b: nat)
    requires lay.Ok() && a <= b
    ensures Capacity(lay, a) <= Capacity(lay, b)
  {
    if a > 0 {
      var x, y := SizeInBytes(lay, 2 * a), SizeInBytes(lay, 2 * b);
      SizeMonotone(lay, 2 * a, 2 * b);
      DivisionFits(ReportedLen(lay, x), x, lay.size);
      DivisionFits(ReportedLen(lay, x), y, lay.size);
    }
  }

  // The capacity is the largest number of elements that fits in one of the two mapped regions.
  lemma CapacityIsLargest(lay: Layout, n: nat, k: nat)
    requires lay.Ok() && 0 < n
    ensures k <= Capacity(lay, n) <==> k * lay.size <= SizeInBytes(lay, 2 * n) / 2
  {
    SizeIsWholeUnits(lay, 2 * n);
    HalfFits(SizeInBytes(lay, 2 * n), lay.size, k);
  }

  // What that number is, in granules: with `h` the least positive number of granules that holds the
  // elements asked for, the capacity is the number of whole elements in `h` granules.
  lemma CapacityInGranules(lay: Layout, n: nat, h: nat, k: nat)
    requires lay.Ok() && 0 < n && 1 <= h && n * lay.size <= h * lay.ag && (1 < h ==> (h - 1) * lay.ag < n * lay.size)
    ensures k <= Capacity(lay, n) <==> k * lay.size <= h * lay.ag
  {
    Doubled(n, h, lay.size, lay.ag);
    SizeInUnits(lay, 2 * n, 2 * h);
    hide SizeInBytes, Capacity;
    CapacityIsLargest(lay, n, k);
  }

  lemma Doubled(n: nat, h: nat, size: nat, ag: nat)
    ensures 2 * n * size == 2 * (n * size) && 2 * h * ag == 2 * (h * ag)
    ensures 1 <= h ==> (2 * h - 2) * ag == 2 * ((h - 1) * ag)
  {}

  lemma SizeInUnits(lay: Layout, len: nat, u: nat)
    requires lay.Ok() && 2 <= u && u % 2 == 0 && len * lay.size <= u * lay.ag
    requires 2 < u ==> (u - 2) * lay.ag < len * lay.size
    ensures SizeInBytes(lay, len) == u * lay.ag
  {
    hide NoRequiredAllocationUnits;
    UnitsAreLeast(len * lay.size, lay.ag, u);
    if 2 < u {
      UnitsAreLeast(len * lay.size, lay.ag, u - 2);
    }
  }

  // Size in bytes of one region of a mapping that has room for `n` elements.
  function RegionSize(lay: Layout, n: nat): (bytes: nat)
    requires lay.Ok()
  {
    SizeInBytes(lay, 2 * n) / 2
  }

  predicate PowerOfTwo(n: nat) {
    n == 1 || (0 < n && n % 2 == 0 && PowerOfTwo(n / 2))
  }

  // The runtime check compares alignment and granularity; for powers of two that is divisibility.
  lemma {:induction false} PowersOfTwoDivide(align: nat, ag: nat)
    requires PowerOfTwo(align) && PowerOfTwo(ag)
    ensures align <= ag <==> ag % align == 0
  {
    if align != 1 && ag != 1 {
      var a, g := align / 2, ag / 2;
      PowersOfTwoDivide(a, g);
      DivMod(g, a);
      assert ag == g / a * align + 2 * (g % a);
      ModUnique(ag, align, g / a, 2 * (g % a));
    }
  }
}
