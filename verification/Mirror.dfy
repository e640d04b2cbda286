// The mirrored memory: a physical region mapped twice in a row, the raw copies that run through
// it, and the view of one region-sized window of it as a row of element slots.
module Mirror {
  import opened Sequences

  type Byte = bv8

  // An element is the row of bytes it occupies.
  type Elem = seq<Byte>

  // Physical position of a virtual byte.
  function Phys(region: nat, v: nat): (p: nat)
    requires v < 2 * region
    ensures p < region
  {
    if v < region then v else v - region
  }

  lemma PhysIsMod(region: nat, v: nat)
    requires v < 2 * region
    ensures Phys(region, v) == v % region
  {}

  // Everything a program can see through the two mappings.
  function Virtual(m: seq<Byte>): (v: seq<Byte>) {
    m + m
  }

  // The region-sized window that starts at virtual byte `head`.
  function Window(m: seq<Byte>, head: nat): (w: seq<Byte>)
    requires head <= |m|
    ensures |w| == |m|
  {
    m[head..] + m[..head]
  }

  lemma WindowIsVirtual(m: seq<Byte>, head: nat)
    requires head <= |m|
    ensures Window(m, head) == Virtual(m)[head..head + |m|]
  {}

  // The same window of a region in memory.
  ghost function View(mem: array<Byte>, head: nat): (w: seq<Byte>)
    requires head <= mem.Length
    reads mem
    ensures |w| == mem.Length
  {
    Window(mem[..], head)
  }

  // The byte at virtual position `v`, seen through a window that contains it.
  method Load(mem: array<Byte>, v: nat) returns (b: Byte)
    requires v < 2 * mem.Length
    ensures b == Virtual(mem[..])[v]
  {
    b := mem[Phys(mem.Length, v)];
  }

  method Store(mem: array<Byte>, ghost head: nat, v: nat, b: Byte)
    requires head < mem.Length && head <= v < head + mem.Length
    modifies mem
    ensures View(mem, head) == old(View(mem, head))[v - head := b]
  {
    ghost var m := mem[..];
    mem[Phys(mem.Length, v)] := b;
    assert mem[..] == m[Phys(mem.Length, v) := b];
    StoreInWindow(m, head, v, b);
  }

  lemma StoreInWindow(m: seq<Byte>, head: nat, v: nat, b: Byte)
    requires head < |m| && head <= v < head + |m|
    ensures Window(m[Phys(|m|, v) := b], head) == Window(m, head)[v - head := b]
  {}

  method CopyByte(mem: array<Byte>, ghost head: nat, src: nat, dst: nat)
    requires head < mem.Length
    requires head <= src < head + mem.Length && head <= dst < head + mem.Length
    modifies mem
    ensures var w := old(View(mem, head));
            View(mem, head) == w[dst - head := w[src - head]]
  {
    var b := Load(mem, src);
    Store(mem, head, dst, b);
  }

  // A byte-by-byte copy through the mirrored mapping, forwards or backwards depending on the
  // virtual addresses. Within one window it equals simultaneous assignment, even where source and
  // destination overlap and where either crosses from the first mapping into the second.
  method PtrCopy(mem: array<Byte>, ghost head: nat, src: nat, dst: nat, n: nat)
    requires head < mem.Length
    requires head <= src && src + n <= head + mem.Length
    requires head <= dst && dst + n <= head + mem.Length
    modifies mem
    ensures View(mem, head) == CopyWithin(old(View(mem, head)), dst - head, src - head, n)
  {
    if dst <= src {
      CopyUpwards(mem, head, src, dst, n);
    } else {
      CopyDownwards(mem, head, src, dst, n);
    }
  }

  method CopyUpwards(mem: array<Byte>, ghost head: nat, src: nat, dst: nat, n: nat)
    requires head < mem.Length && src + n <= head + mem.Length && head <= dst <= src
    modifies mem
    ensures View(mem, head) == CopyWithin(old(View(mem, head)), dst - head, src - head, n)
  {
    hide *;
    ghost var w, d, s := View(mem, head), dst - head, src - head;
    CopyNothing(w, d, s);
    for k := 0 to n
      invariant View(mem, head) == CopyWithin(w, d, s, k)
    {
      CopyUpwardsStep(w, d, s, k);
      CopyByte(mem, head, src + k, dst + k);
    }
  }

  method CopyDownwards(mem: array<Byte>, ghost head: nat, src: nat, dst: nat, n: nat)
    requires head < mem.Length && head <= src < dst && dst + n <= head + mem.Length
    modifies mem
    ensures View(mem, head) == CopyWithin(old(View(mem, head)), dst - head, src - head, n)
  {
    hide *;
    ghost var w, d, s := View(mem, head), dst - head, src - head;
    CopyNothing(w, d + n, s + n);
    for k := n downto 0
      invariant View(mem, head) == CopyWithin(w, d + k, s + k, n - k)
    {
      CopyDownwardsStep(w, d + k + 1, s + k + 1, n - k - 1);
      CopyByte(mem, head, src + k, dst + k);
    }
  }

  // A copy between two mappings.
  method PtrCopyNonoverlapping(from: array<Byte>, src: nat, mem: array<Byte>, ghost head: nat, dst: nat, n: nat)
    requires from != mem && src + n <= 2 * from.Length
    requires head <= dst && dst + n <= head + mem.Length
    requires head < mem.Length || (head == mem.Length && n == 0)
    modifies mem
    ensures View(mem, head)
         == Overwrite(old(View(mem, head)), dst - head, Virtual(from[..])[src..src + n])
  {
    ghost var w, d, e := View(mem, head), dst - head, Virtual(from[..])[src..src + n];
    for k := 0 to n
      invariant from[..] == old(from[..])
      invariant View(mem, head) == Overwrite(w, d, e[..k])
    {
      var b := Load(from, src + k);
      assert b == e[k];
      Store(mem, head, dst + k, b);
      OverwriteOneMore(w, d, e, k);
    }
    assert e[..n] == e;
  }

  method PtrWrite(mem: array<Byte>, ghost head: nat, dst: nat, e: Elem)
    requires head < mem.Length && head <= dst && dst + |e| <= head + mem.Length
    modifies mem
    ensures View(mem, head) == Overwrite(old(View(mem, head)), dst - head, e)
  {
    ghost var w, d := View(mem, head), dst - head;
    for k := 0 to |e|
      invariant View(mem, head) == Overwrite(w, d, e[..k])
    {
      Store(mem, head, dst + k, e[k]);
      OverwriteOneMore(w, d, e, k);
    }
    assert e[..|e|] == e;
  }

  method PtrRead(mem: array<Byte>, src: nat, n: nat) returns (e: Elem)
    requires src + n <= 2 * mem.Length
    ensures e == Virtual(mem[..])[src..src + n]
  {
    e := [];
    for k := 0 to n
      invariant e == Virtual(mem[..])[src..src + k]
    {
      var b := Load(mem, src + k);
      e := e + [b];
    }
  }

  lemma RotatedTwice(m: seq<Byte>, head: nat, d: nat)
    requires head < |m| && d <= |m|
    ensures head + d <= |m| ==> Window(m, head + d) == Window(m, head)[d..] + Window(m, head)[..d]
    ensures head + d >= |m| ==> Window(m, head + d - |m|) == Window(m, head)[d..] + Window(m, head)[..d]
  {}

  // Moving the head of a window forwards by `d` bytes, with the single correction by the region
  // size, rotates the window; it also is reduction modulo the region size.
  lemma {:induction false} HeadForwards(m: seq<Byte>, head: nat, d: nat, head': nat)
    requires head < |m| && d <= |m|
    requires head' == if head + d >= |m| then head + d - |m| else head + d
    ensures head' < |m| && head' == (head + d) % |m|
    ensures Window(m, head') == Window(m, head)[d..] + Window(m, head)[..d]
  {
    ModOnce(head + d, |m|);
    RotatedTwice(m, head, d);
  }

  lemma {:induction false} HeadBackwards(m: seq<Byte>, head: nat, d: nat, head': int)
    requires head < |m| && d <= |m|
    requires head' == if head - d < 0 then head - d + |m| else head - d
    ensures 0 <= head' < |m| && head' == (head - d) % |m|
    ensures Window(m, head') == Window(m, head)[|m| - d..] + Window(m, head)[..|m| - d]
  {
    ModOnce(head - d + |m|, |m|);
    RotatedTwice(m, head, |m| - d);
  }

  lemma ModOnce(n: int, r: nat)
    requires 0 <= n < 2 * r
    ensures n % r == if n < r then n else n - r
    ensures (n - r) % r == n % r
  {
    assert n - r == -1 * r + n;
  }

  // ---------------------------------------------------------------------------------------
  // Slots

  // The bytes that `n` elements take up.
  function Bytes(n: nat, size: nat): (bytes: nat) {
    n * size
  }

  lemma BytesIsProduct(n: nat, size: nat)
    ensures Bytes(n, size) == n * size
  {}

  // The distance in bytes of a step over `x` elements, either way.
  ghost function SignedBytes(x: int, size: nat): (step: int)
    ensures step == x * size
    ensures step == if 0 <= x then Bytes(x, size) else 0 - Bytes(-x, size)
  {
    if 0 <= x then Bytes(x, size) else 0 - Bytes(-x, size)
  }

  lemma SlotFits(i: nat, n: nat, size: nat)
    requires i < n
    ensures Bytes(i, size) + size <= Bytes(n, size)
  {
    var d := n - i - 1;
    assert (i + 1 + d) * size == i * size + size + d * size;
  }

  // The `i`-th slot of a window, for slots of `size` bytes.
  function Slot(w: seq<Byte>, size: nat, n: nat, i: nat): (e: Elem)
    requires Bytes(n, size) <= |w| && i < n
    ensures |e| == size
  {
    SlotFits(i, n, size);
    w[Bytes(i, size)..Bytes(i, size) + size]
  }

  // The first `n` slots of a window.
  function Slots(w: seq<Byte>, size: nat, n: nat): (r: seq<Elem>)
    requires Bytes(n, size) <= |w|
    ensures |r| == n
  {
    seq(n, i requires 0 <= i < n => Slot(w, size, n, i))
  }

  // All slots lie inside the two mappings, and no two bytes of them share a physical byte.
  lemma SlotsNeverAlias(region: nat, head: nat, size: nat, n: nat, i: nat, k: nat, i': nat, k': nat)
    requires head < region && Bytes(n, size) <= region
    requires i < n && k < size && i' < n && k' < size && (i != i' || k != k')
    ensures head + Bytes(i, size) + k < 2 * region && head + Bytes(i', size) + k' < 2 * region
    ensures Phys(region, head + Bytes(i, size) + k) != Phys(region, head + Bytes(i', size) + k')
  {
    hide Bytes;
    SlotFits(i, n, size);
    SlotFits(i', n, size);
    if i < i' {
      SlotFits(i, i', size);
    } else if i' < i {
      SlotFits(i', i, size);
    }
  }

  // Copying whole slots between windows as bytes is copying slots. With a window of its own this
  // is what a copy inside one deque does, and with a one-slot window what storing an element does.
  lemma SlotsImport(to: seq<Byte>, n: nat, b: nat, from: seq<Byte>, n': nat, a: nat, k: nat, size: nat)
    requires Bytes(n, size) <= |to| && b + k <= n
    requires Bytes(n', size) <= |from| && a + k <= n'
    ensures Bytes(b, size) + Bytes(k, size) <= |to| && Bytes(a, size) + Bytes(k, size) <= |from|
    ensures Slots(Overwrite(to, Bytes(b, size), from[Bytes(a, size)..Bytes(a, size) + Bytes(k, size)]), size, n)
         == Overwrite(Slots(to, size, n), b, Slots(from, size, n')[a..a + k])
  {
    hide Bytes;
    Regroup(b, k, n, size);
    Regroup(a, k, n', size);
    var r := Overwrite(to, Bytes(b, size), from[Bytes(a, size)..Bytes(a, size) + Bytes(k, size)]);
    forall i | 0 <= i < n
      ensures Slots(r, size, n)[i] == Overwrite(Slots(to, size, n), b, Slots(from, size, n')[a..a + k])[i]
    {
      ImportedSlot(to, n, b, from, n', a, k, size, i);
    }
  }

  lemma ImportedSlot(to: seq<Byte>, n: nat, b: nat, from: seq<Byte>, n': nat, a: nat, k: nat, size: nat, i: nat)
    requires Bytes(n, size) <= |to| && b + k <= n && i < n
    requires Bytes(n', size) <= |from| && a + k <= n'
    requires Bytes(b, size) + Bytes(k, size) <= |to| && Bytes(a, size) + Bytes(k, size) <= |from|
    ensures Slot(Overwrite(to, Bytes(b, size), from[Bytes(a, size)..Bytes(a, size) + Bytes(k, size)]), size, n, i)
         == if b <= i < b + k then Slot(from, size, n', i - b + a) else Slot(to, size, n, i)
  {
    hide Bytes, Overwrite, Slots;
    SlotOffsets(i, n, b, k, a, n', size);
    ImportedBytes(to, Bytes(b, size), from, Bytes(a, size), Bytes(k, size), Bytes(i, size), size);
  }

  // Where slot `i` lies relative to the `k` slots from `b` on, and to the slots they come from.
  lemma SlotOffsets(i: nat, n: nat, b: nat, k: nat, a: nat, n': nat, size: nat)
    requires i < n && b + k <= n && a + k <= n'
    ensures Bytes(i, size) + size <= Bytes(n, size)
    ensures i < b ==> Bytes(i, size) + size <= Bytes(b, size)
    ensures b + k <= i ==> Bytes(b, size) + Bytes(k, size) <= Bytes(i, size)
    ensures b <= i < b + k ==>
              && Bytes(i - b + a, size) == Bytes(i, size) - Bytes(b, size) + Bytes(a, size)
              && Bytes(b, size) <= Bytes(i, size) && Bytes(i, size) + size <= Bytes(b, size) + Bytes(k, size)
              && Bytes(i - b + a, size) + size <= Bytes(n', size)
  {
    hide Bytes;
    SlotFits(i, n, size);
    if i < b {
      SlotFits(i, b, size);
    } else if i < b + k {
      SlotFits(i - b, k, size);
      Regroup(i - b, b, n, size);
      Regroup(i - b, a, n', size);
      SlotFits(i - b + a, n', size);
    } else {
      Regroup(b, k, i, size);
    }
  }

  lemma ImportedBytes(to: seq<Byte>, at: nat, from: seq<Byte>, src: nat, n: nat, o: nat, size: nat)
    requires at + n <= |to| && src + n <= |from| && o + size <= |to|
    ensures o + size <= at || at + n <= o ==>
              Overwrite(to, at, from[src..src + n])[o..o + size] == to[o..o + size]
    ensures at <= o && o + size <= at + n ==>
              Overwrite(to, at, from[src..src + n])[o..o + size] == from[src + (o - at)..src + (o - at) + size]
  {
    hide *;
    var e := from[src..src + n];
    OverwriteSlice(to, at, e, o, size);
    if at <= o && o + size <= at + n {
      SliceOfSlice(from, src, n, o - at, size);
    }
  }

  lemma SlotsStore(w: seq<Byte>, n: nat, i: nat, e: Elem, size: nat)
    requires Bytes(n, size) <= |w| && i < n && |e| == size
    ensures Bytes(i, size) + size <= |w|
    ensures Slots(Overwrite(w, Bytes(i, size), e), size, n) == Slots(w, size, n)[i := e]
  {
    SlotFits(i, n, size);
    assert e[Bytes(0, size)..Bytes(0, size) + Bytes(1, size)] == e;
    SlotsImport(w, n, i, e, 1, 0, 1, size);
    assert Slots(e, size, 1)[0..1] == [e];
  }

  lemma SlotsCopy(w: seq<Byte>, n: nat, dst: nat, src: nat, k: nat, size: nat)
    requires Bytes(n, size) <= |w| && dst + k <= n && src + k <= n
    ensures Bytes(dst, size) + Bytes(k, size) <= |w| && Bytes(src, size) + Bytes(k, size) <= |w|
    ensures Slots(CopyWithin(w, Bytes(dst, size), Bytes(src, size), Bytes(k, size)), size, n)
         == CopyWithin(Slots(w, size, n), dst, src, k)
  {
    hide Bytes, Slots, Overwrite;
    SlotsImport(w, n, dst, w, n, src, k, size);
  }

  // The head moved forwards or backwards over `x` slots, with the correction the code makes: it
  // lands in the region, and the slots it still covers are where they were.
  lemma HeadMovedForwards(m: seq<Byte>, head: nat, size: nat, n: nat, x: nat, head': nat)
    requires head < |m| && Bytes(n, size) <= |m| && x <= n
    requires var b := head + Bytes(x, size); head' == if b >= |m| then b - |m| else b
    ensures head' < |m| && head' == (head + Bytes(x, size)) % |m|
    ensures Slots(Window(m, head'), size, n)[..n - x] == Slots(Window(m, head), size, n)[x..]
  {
    hide *;
    Regroup(x, n - x, n, size);
    HeadForwards(m, head, Bytes(x, size), head');
    SlotsRotate(Window(m, head), size, n, x);
  }

  lemma HeadMovedBackwards(m: seq<Byte>, head: nat, size: nat, n: nat, x: nat, head': int)
    requires head < |m| && Bytes(n, size) <= |m| && x <= n
    requires var b := head - Bytes(x, size); head' == if b < 0 then b + |m| else b
    ensures 0 <= head' < |m| && head' == (head - Bytes(x, size)) % |m|
    ensures Slots(Window(m, head'), size, n)[x..] == Slots(Window(m, head), size, n)[..n - x]
    ensures Bytes(x, size) <= |m| && Window(m, head')[..Bytes(x, size)] == Window(m, head)[|m| - Bytes(x, size)..]
  {
    hide *;
    Regroup(x, n - x, n, size);
    HeadBackwards(m, head, Bytes(x, size), head');
    RotatedBack(Window(m, head), Window(m, head'), Bytes(x, size));
    SlotsRotate(Window(m, head'), size, n, x);
  }

  lemma RotatedBack(w: seq<Byte>, w': seq<Byte>, d: nat)
    requires d <= |w| && w' == w[|w| - d..] + w[..|w| - d]
    ensures w'[d..] + w'[..d] == w
  {}

  lemma Regroup(a: nat, b: nat, n: nat, size: nat)
    ensures Bytes(a + b, size) == Bytes(a, size) + Bytes(b, size)
    ensures a + b <= n ==> Bytes(a, size) + Bytes(b, size) <= Bytes(n, size)
  {
    if a + b <= n {
      var d := n - a - b;
      assert (a + b + d) * size == a * size + b * size + d * size;
    }
  }

  // After the head moves forwards over `x` slots, each slot that is still among the first `n` is
  // the one that was `x` places further on.
  lemma SlotsRotate(w: seq<Byte>, size: nat, n: nat, x: nat)
    requires Bytes(n, size) <= |w| && x <= n
    ensures Bytes(x, size) <= |w|
    ensures Slots(w[Bytes(x, size)..] + w[..Bytes(x, size)], size, n)[..n - x] == Slots(w, size, n)[x..]
  {
    hide Bytes;
    Regroup(x, n - x, n, size);
    var r := w[Bytes(x, size)..] + w[..Bytes(x, size)];
    forall i | 0 <= i < n - x
      ensures Slot(r, size, n, i) == Slot(w, size, n, i + x)
    {
      Regroup(i, x, n, size);
      SlotFits(i + x, n, size);
      SlotFits(i, n, size);
    }
    assert forall i | 0 <= i < n - x :: Slots(r, size, n)[..n - x][i] == Slots(w, size, n)[x..][i];
  }

  // ---------------------------------------------------------------------------------------
  // Raw access to the slots of a mapping

  method LoadSlot(mem: array<Byte>, head: nat, size: nat, ghost n: nat, i: nat) returns (e: Elem)
    requires head <= mem.Length && Bytes(n, size) <= mem.Length && i < n
    ensures e == Slots(View(mem, head), size, n)[i]
  {
    hide Bytes;
    SlotFits(i, n, size);
    WindowIsVirtual(mem[..], head);
    SliceOfSlice(Virtual(mem[..]), head, mem.Length, Bytes(i, size), size);
    e := PtrRead(mem, head + Bytes(i, size), size);
  }

  method StoreSlot(mem: array<Byte>, head: nat, size: nat, ghost n: nat, i: nat, e: Elem)
    requires head < mem.Length && Bytes(n, size) <= mem.Length && i < n && |e| == size
    modifies mem
    ensures Slots(View(mem, head), size, n) == old(Slots(View(mem, head), size, n))[i := e]
  {
    hide Bytes, View, Slots, Overwrite;
    SlotsStore(View(mem, head), n, i, e, size);
    PtrWrite(mem, head, head + Bytes(i, size), e);
  }

  method MoveSlots(mem: array<Byte>, head: nat, size: nat, ghost n: nat, src: nat, dst: nat, k: nat)
    requires head < mem.Length && Bytes(n, size) <= mem.Length && src + k <= n && dst + k <= n
    modifies mem
    ensures Slots(View(mem, head), size, n) == CopyWithin(old(Slots(View(mem, head), size, n)), dst, src, k)
  {
    hide Bytes, View, Slots, CopyWithin;
    SlotsCopy(View(mem, head), n, dst, src, k, size);
    PtrCopy(mem, head, head + Bytes(src, size), head + Bytes(dst, size), Bytes(k, size));
  }

  method ImportSlots(from: array<Byte>, head': nat, ghost n': nat, src: nat,
                     mem: array<Byte>, head: nat, ghost n: nat, dst: nat, k: nat, size: nat)
    requires from != mem && head' <= from.Length && Bytes(n', size) <= from.Length && src + k <= n'
    requires head < mem.Length && Bytes(n, size) <= mem.Length && dst + k <= n
    modifies mem
    ensures Slots(View(mem, head), size, n)
         == Overwrite(old(Slots(View(mem, head), size, n)), dst, old(Slots(View(from, head'), size, n'))[src..src + k])
    ensures Bytes(dst, size) + Bytes(k, size) <= mem.Length
    ensures var end := Bytes(dst, size) + Bytes(k, size); View(mem, head)[end..] == old(View(mem, head))[end..]
  {
    hide Bytes, Slots, Overwrite;
    Regroup(src, k, n', size);
    Regroup(dst, k, n, size);
    WindowIsVirtual(from[..], head');
    SliceOfSlice(Virtual(from[..]), head', from.Length, Bytes(src, size), Bytes(k, size));
    SlotsImport(View(mem, head), n, dst, View(from, head'), n', src, k, size);
    ghost var w, at := View(mem, head), head' + Bytes(src, size);
    ghost var e := Virtual(from[..])[at..at + Bytes(k, size)];
    PtrCopyNonoverlapping(from, head' + Bytes(src, size), mem, head, head + Bytes(dst, size), Bytes(k, size));
    OverwriteEnd(w, Bytes(dst, size), e);
  }
}
