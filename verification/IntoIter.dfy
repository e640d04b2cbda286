// An iterator that owns the buffer of a deque and moves out of it by bare pointers.
module IntoIters {
  import opened Allocation
  import opened Mirror
  import opened Sequences
  import opened Buffers
  import opened SliceDeques

  class IntoIter {
    const os: Os
    const lay: Layout
    const mem: array<Byte>  // the buffer, without its length
    const cap: nat
    var ptr: nat  // bytes from the start of the first mapping, up to anywhere in the second
    var end: nat
    ghost const head: nat  // where the deque began, and what it held
    ghost const orig: seq<Elem>
    ghost var lo: nat  // the part of it that is left
    ghost var hi: nat
    ghost var drops: seq<Elem>

    ghost predicate Valid()
      reads this, mem
      ensures Valid() ==> lo <= hi <= |orig|
    {
      && lay.Ok() && Bytes(cap, lay.size) <= mem.Length && head <= mem.Length
      && (if cap == 0 then mem.Length == 0 else SizeInBytes(lay, 2 * cap) == 2 * mem.Length)
      && lo <= hi <= |orig| <= cap
      && ptr == head + Bytes(lo, lay.size) && end == head + Bytes(hi, lay.size)
      && Slots(View(mem, head), lay.size, cap)[..|orig|] == orig
    }

    ghost function Rest(): (rest: seq<Elem>)
      requires lo <= hi <= |orig|
      reads `lo, `hi
    {
      orig[lo..hi]
    }

    // The mapping that came with the deque is live until the iterator is dropped.
    ghost predicate Owns()
      reads os`live
    {
      Held(Buffer(mem, 2 * cap)) <= os.live
    }

    ghost function Others(): (mappings: set<array<Byte>>)
      reads os`live
    {
      os.live - Held(Buffer(mem, 2 * cap))
    }

    // Takes over the buffer; the deque is used up without running its destructor.
    constructor (d: SliceDeque)
      requires d.Valid()
      modifies d`gone
      ensures d.gone && Valid() && orig == old(d.Contents()) && Rest() == old(d.Contents()) && drops == []
      ensures os == d.os && lay == d.lay && mem == d.buf.mem
      ensures old(d.Owns()) ==> Owns()
      ensures Others() == old(d.Others())
    {
      hide SizeInBytes, ReportedLen, Slots, View, Bytes;
      os, lay, mem, cap := d.os, d.lay, d.buf.mem, d.Capacity();
      ptr, end := d.head, d.head + Bytes(d.len, d.lay.size);
      head, orig, lo, hi, drops := d.head, d.slots[..d.len], 0, d.len, [];
      BytesIsProduct(0, d.lay.size);
      new;
      d.gone := true;
    }

    // The two pointers meet exactly when nothing is left.
    lemma PointersMeet()
      requires Valid()
      ensures ptr <= end <= head + mem.Length
      ensures ptr == end <==> lo == hi
      ensures ptr + (hi - lo) * lay.size == end
      ensures lo < hi ==> Bytes(lo + 1, lay.size) == Bytes(lo, lay.size) + lay.size
      ensures lo < hi ==> Bytes(hi - 1, lay.size) + lay.size == Bytes(hi, lay.size)
    {
      hide Bytes, Slots, View, SizeInBytes;
      BytesIsProduct(hi - lo, lay.size);
      BytesIsProduct(1, lay.size);
      Regroup(lo, hi - lo, hi, lay.size);
      Regroup(hi, 0, cap, lay.size);
      if lo < hi {
        SlotFits(lo, hi, lay.size);
        Regroup(lo, 1, hi, lay.size);
        Regroup(hi - 1, 1, hi, lay.size);
      }
    }

    method Next() returns (item: Option<Elem>)
      requires Valid()
      modifies `ptr, `lo
      ensures Valid()
      ensures old(lo) == hi ==> item == None && lo == old(lo)
      ensures old(lo) < hi ==> item == Some(orig[old(lo)]) && lo == old(lo) + 1 && |item.value| == lay.size
    {
      hide SizeInBytes, Slots, View, Bytes;
      PointersMeet();
      if ptr == end {
        return None;
      }
      var first := ptr;
      ptr := ptr + lay.size;
      var e := LoadSlotAt(first, lo);
      lo := lo + 1;
      item := Some(e);
    }

    method NextBack() returns (item: Option<Elem>)
      requires Valid()
      modifies `end, `hi
      ensures Valid()
      ensures lo == old(hi) ==> item == None && hi == old(hi)
      ensures lo < old(hi) ==> hi == old(hi) - 1 && item == Some(orig[hi])
    {
      hide SizeInBytes, Slots, View, Bytes;
      PointersMeet();
      if end == ptr {
        return None;
      }
      end := end - lay.size;
      var e := LoadSlotAt(end, hi - 1);
      hi := hi - 1;
      item := Some(e);
    }

    // Reads the element that a pointer to slot `i` points to.
    method LoadSlotAt(p: nat, ghost i: nat) returns (e: Elem)
      requires lay.Ok() && Bytes(cap, lay.size) <= mem.Length && head <= mem.Length && i < |orig| <= cap
      requires Slots(View(mem, head), lay.size, cap)[..|orig|] == orig
      requires p == head + Bytes(i, lay.size)
      ensures e == orig[i] && |e| == lay.size
    {
      hide Bytes;
      SlotFits(i, cap, lay.size);
      WindowIsVirtual(mem[..], head);
      SliceOfSlice(Virtual(mem[..]), head, mem.Length, Bytes(i, lay.size), lay.size);
      e := PtrRead(mem, p, lay.size);
      assert e == Slots(View(mem, head), lay.size, cap)[i];
    }

    function SizeHint(): (n: nat)
      requires lay.Ok() && ptr <= end
      reads this
    {
      (end - ptr) / lay.size
    }

    // The hint, computed from the byte distance of the pointers, is the number of items left.
    lemma SizeHintIsExact()
      requires Valid()
      ensures ptr <= end && SizeHint() == hi - lo == |Rest()|
    {
      hide Bytes, Slots, View, SizeInBytes;
      PointersMeet();
      ModUnique(end - ptr, lay.size, hi - lo, 0);
    }

    // Drops what is left and releases the buffer, rebuilt from its pointer and twice the capacity.
    method Drop()
      requires Valid() && Owns()
      modifies `ptr, `lo, `drops, os`live
      ensures drops == old(drops) + old(Rest()) && lo == hi == old(hi)
      ensures os.live == old(Others())
    {
      hide SizeInBytes, Slots, View, Bytes;
      ghost var log, p := drops, lo;
      ghost var k := lo;
      var item := Next();
      assert log + orig[p..p] == log;
      while item.Some?
        invariant Valid() && os.live == old(os.live) && p <= k <= hi == old(hi)
        invariant lo == if item.Some? then k + 1 else k
        invariant if item.Some? then k < hi && item.value == orig[k] else k == hi
        invariant drops == log + orig[p..k]
        decreases hi - k
      {
        drops := drops + [item.value];
        OneMore(log, orig, p, k);
        k := k + 1;
        item := Next();
      }
      DropBuffer(os, lay, Buffer(mem, 2 * cap));
    }
  }

  // Moves everything out from front to back.
  method Collect(it: IntoIter) returns (items: seq<Elem>)
    requires it.Valid()
    modifies it`ptr, it`lo
    ensures it.Valid() && items == old(it.Rest()) && it.Rest() == []
  {
    hide IntoIter.Valid;
    ghost var p := it.lo;
    items := [];
    var item := it.Next();
    while item.Some?
      invariant it.Valid() && it.lo == p + |items| + (if item.Some? then 1 else 0) && it.hi == old(it.hi)
      invariant items == it.orig[p..p + |items|]
      invariant if item.Some? then p + |items| < it.hi && item.value == it.orig[p + |items|]
                else p + |items| == it.hi
      decreases it.hi - p - |items|
    {
      items := items + [item.value];
      item := it.Next();
    }
  }
}
