// Acquiring and releasing mirrored memory.
module Buffers {
  import opened Allocation
  import opened Mirror

  datatype Result<+T> = Ok(value: T) | AllocError

  // The operating system, as far as mappings go. Whether the `n`-th attempt to map memory succeeds
  // and what such a mapping holds at first are given from outside, and may be anything.
  class Os {
    const grants: nat -> bool
    const fill: (nat, nat) -> Byte
    var attempts: nat
    ghost var live: set<array<Byte>>  // the mappings not released yet

    constructor (grants: nat -> bool, fill: (nat, nat) -> Byte)
      ensures this.grants == grants && this.fill == fill && attempts == 0 && live == {}
    {
      this.grants, this.fill, attempts, live := grants, fill, 0, {};
    }

    ghost predicate Generous() {
      forall n :: grants(n)
    }

    // How many of the attempts made so far were refused.
    ghost function Refusals(): (refused: nat)
      reads `attempts
    {
      RefusedBefore(grants, attempts)
    }

    lemma RefusalsAre()
      ensures Refusals() == RefusedBefore(grants, attempts)
    {}

    lemma NeverRefuses()
      requires Generous()
      ensures Refusals() == 0
    {
      NoneRefused(grants, attempts);
    }
  }

  ghost function RefusedBefore(grants: nat -> bool, n: nat): (refused: nat) {
    if n == 0 then 0 else RefusedBefore(grants, n - 1) + (if grants(n - 1) then 0 else 1)
  }

  // Where there are more refusals, there were more attempts.
  lemma {:induction false} RefusalsAreAttempts(grants: nat -> bool, a: nat, b: nat)
    ensures RefusedBefore(grants, a) < RefusedBefore(grants, b) ==> a < b
    decreases a
  {
    if 0 < a && b <= a {
      if b < a {
        RefusalsAreAttempts(grants, a - 1, b);
      }
    }
  }

  lemma {:induction false} NoneRefused(grants: nat -> bool, n: nat)
    requires forall k :: grants(k)
    ensures RefusedBefore(grants, n) == 0
  {
    if n > 0 {
      NoneRefused(grants, n - 1);
    }
  }

  // What a region holds right after mapping it at attempt `n`.
  ghost function FreshBytes(fill: (nat, nat) -> Byte, n: nat, region: nat): (m: seq<Byte>)
    ensures |m| == region
  {
    seq(region, p requires 0 <= p < region => fill(n, p))
  }

  // The same as slots, for a mapping with room for `want` elements.
  ghost function FreshSlots(fill: (nat, nat) -> Byte, n: nat, lay: Layout, want: nat): (s: seq<Elem>)
    requires lay.Ok() && 0 < want
    ensures want <= |s| == Allocation.Capacity(lay, want)
    ensures forall i | 0 <= i < |s| :: |s[i]| == lay.size
  {
    RegionHoldsCapacity(lay, want);
    Slots(FreshBytes(fill, n, RegionSize(lay, want)), lay.size, Allocation.Capacity(lay, want))
  }

  // And the bytes at its very end.
  ghost function FreshEnd(fill: (nat, nat) -> Byte, n: nat, lay: Layout, want: nat): (e: Elem)
    requires lay.Ok() && 0 < want
    ensures |e| == lay.size
  {
    RegionHoldsCapacity(lay, want);
    FreshBytes(fill, n, RegionSize(lay, want))[RegionSize(lay, want) - lay.size..]
  }

  lemma RegionHoldsCapacity(lay: Layout, want: nat)
    requires lay.Ok() && 0 < want
    ensures want <= Allocation.Capacity(lay, want)
    ensures lay.size <= Bytes(Allocation.Capacity(lay, want), lay.size) <= RegionSize(lay, want)
  {
    hide SizeInBytes;
    CapacityIsClosure(lay, want);
    SizeRoundTrip(lay, 2 * want);
    SlotFits(0, Allocation.Capacity(lay, want), lay.size);
  }

  // A mapping, held by its physical bytes, and its length in elements over both halves. The size
  // of the mapping is not stored. An empty buffer maps nothing.
  datatype Buffer = Buffer(mem: array<Byte>, len: nat) {
    function Capacity(): (cap: nat) {
      len / 2
    }
  }

  ghost function Held(b: Buffer): (mappings: set<array<Byte>>) {
    if b.len == 0 then {} else {b.mem}
  }

  // What a buffer keeps from its allocation on.
  ghost predicate Mirrored(lay: Layout, b: Buffer) {
    lay.Ok() && Bytes(b.Capacity(), lay.size) <= b.mem.Length &&
    if b.len == 0 then b.mem.Length == 0 else
      && 2 * b.mem.Length == SizeInBytes(lay, b.len)
      && 2 * b.mem.Length == SizeInBytes(lay, 2 * b.Capacity())
      && b.len == ReportedLen(lay, 2 * b.mem.Length)
      && 1 <= b.Capacity()
      && b.mem.Length % lay.align == 0
  }

  lemma CapacityIsFixpoint(lay: Layout, b: Buffer)
    requires Mirrored(lay, b)
    ensures Allocation.Capacity(lay, b.Capacity()) == b.Capacity()
  {}

  method AllocateMirrored(os: Os, lay: Layout, size: nat) returns (r: Result<array<Byte>>)
    requires lay.Ok() && size != 0 && size % 2 == 0 && size / 2 % lay.ag == 0
    modifies os
    ensures os.attempts == old(os.attempts) + 1 && r.Ok? == os.grants(old(os.attempts))
    ensures os.Refusals() == old(os.Refusals()) + (if r.Ok? then 0 else 1)
    ensures r.AllocError? ==> os.live == old(os.live)
    ensures r.Ok? ==> fresh(r.value) && 2 * r.value.Length == size && os.live == old(os.live) + {r.value}
    ensures r.Ok? ==> r.value[..] == FreshBytes(os.fill, old(os.attempts), size / 2)
  {
    var n := os.attempts;
    os.attempts := n + 1;
    if !os.grants(n) {
      return AllocError;
    }
    var mem := new Byte[size / 2](p => os.fill(n, p));
    os.live := os.live + {mem};
    r := Ok(mem);
  }

  // A mapping must be released with exactly the size it was made with, and only while it is live.
  method DeallocateMirrored(os: Os, mem: array<Byte>, size: nat)
    requires size != 0 && size == 2 * mem.Length && mem in os.live
    modifies os`live
    ensures os.live == old(os.live) - {mem}
  {
    os.live := os.live - {mem};
  }

  method NewBuffer() returns (b: Buffer)
    ensures b.len == 0 && b.mem.Length == 0 && fresh(b.mem)
  {
    var mem := new Byte[0];
    b := Buffer(mem, 0);
  }

  method Uninitialized(os: Os, lay: Layout, len: nat) returns (r: Result<Buffer>)
    requires lay.Ok() && len % 2 == 0
    modifies os
    ensures os.attempts == old(os.attempts) + (if len == 0 then 0 else 1)
    ensures r.Ok? == (len == 0 || os.grants(old(os.attempts)))
    ensures os.Refusals() == old(os.Refusals()) + (if r.Ok? then 0 else 1)
    ensures r.AllocError? ==> os.live == old(os.live)
    ensures r.Ok? ==> Mirrored(lay, r.value) && fresh(r.value.mem) && os.live == old(os.live) + Held(r.value)
    ensures r.Ok? ==> r.value.Capacity() == Allocation.Capacity(lay, len / 2) && len <= r.value.len
    ensures r.Ok? && 0 < len ==>
              r.value.mem[..] == FreshBytes(os.fill, old(os.attempts), RegionSize(lay, len / 2))
  {
    if len == 0 {
      var b := NewBuffer();
      return Ok(b);
    }
    SizeIsWholeUnits(lay, len);
    SizeRoundTrip(lay, len);
    var allocSize := SizeInBytes(lay, len);
    var mem := AllocateMirrored(os, lay, allocSize);
    if mem.AllocError? {
      return AllocError;
    }
    r := Ok(Buffer(mem.value, allocSize / lay.size));
  }

  method DropBuffer(os: Os, lay: Layout, b: Buffer)
    requires lay.Ok() && Held(b) <= os.live
    requires if b.len == 0 then b.mem.Length == 0 else SizeInBytes(lay, b.len) == 2 * b.mem.Length
    modifies os`live
    ensures os.live == old(os.live) - Held(b)
  {
    if b.len == 0 {
      return;
    }
    DeallocateMirrored(os, b.mem, SizeInBytes(lay, b.len));
  }
}
