// The deque: a window of slots in a mirrored buffer, moved by pointer arithmetic.
module SliceDeques {
  import opened Allocation
  import opened Mirror
  import opened Sequences
  import opened Growing
  import opened Buffers
  import opened Iterators

  datatype Push = Pushed | OutOfMemory(value: Elem)

  class SliceDeque {
    const os: Os
    const lay: Layout
    var buf: Buffer
    var head: nat  // bytes from the start of the first mapping to the first element
    var len: nat

    ghost var slots: seq<Elem>  // all slots from the head on, the first `len` of which are live
    ghost var drops: seq<Elem>  // every element dropped so far, in order
    ghost var copied: nat  // elements moved by reserve_capacity so far
    ghost var gone: bool  // destroyed or moved away

    ghost predicate Valid()
      reads this, buf.mem
      ensures Valid() ==> lay.Ok() && len <= |slots| == Capacity()
      ensures Valid() ==> forall i | 0 <= i < |slots| :: |slots[i]| == lay.size
    {
      && !gone
      && Mirrored(lay, buf)
      && len <= buf.Capacity()
      && (head < buf.mem.Length || (head == buf.len == 0))
      && head % lay.align == 0
      && slots == Slots(View(buf.mem, head), lay.size, buf.Capacity())
    }

    ghost function Contents(): (c: seq<Elem>)
      requires len <= |slots|
      reads `len, `slots
    {
      slots[..len]
    }

    // For proofs that otherwise only pass contents on.
    lemma ContentsAre()
      requires len <= |slots|
      ensures Contents() == slots[..len]
    {}

    lemma SlotsAre()
      requires Valid()
      ensures lay.Ok() && head <= buf.mem.Length && Bytes(buf.Capacity(), lay.size) <= buf.mem.Length
      ensures slots == Slots(View(buf.mem, head), lay.size, buf.Capacity())
    {}

    // The mapping of a deque is live, and it is the only one the deque answers for.
    ghost predicate Owns()
      reads `buf, os`live
    {
      Held(buf) <= os.live
    }

    ghost function Others(): (mappings: set<array<Byte>>)
      reads `buf, os`live
    {
      os.live - Held(buf)
    }

    function Capacity(): (cap: nat)
      reads `buf
    {
      buf.Capacity()
    }

    ghost function Grown(): (g: Growth)
      reads `buf, `copied, os`attempts
    {
      Growth(Capacity(), copied, os.attempts)
    }

    predicate IsFull()
      reads this
    {
      len == Capacity()
    }

    // The bytes just before the head, around the region: what a slot taken in at the front holds.
    ghost function BeforeHead(): (e: Elem)
      requires Valid() && 0 < Capacity()
      reads this, buf.mem
      ensures |e| == lay.size
    {
      SlotFits(0, Capacity(), lay.size);
      View(buf.mem, head)[buf.mem.Length - lay.size..]
    }

    // What a slot taken in at the front of the deque will hold, room being made if need be.
    ghost function NextBeforeHead(): (e: Elem)
      requires Valid()
      reads this, buf.mem, os`attempts
      ensures |e| == lay.size
    {
      if IsFull() then FreshEnd(os.fill, os.attempts, lay, GrowPolicy(len, Capacity(), 1)) else BeforeHead()
    }

    constructor FromBuffer(os: Os, lay: Layout, buf: Buffer)
      requires Mirrored(lay, buf)
      ensures Valid() && this.os == os && this.lay == lay && this.buf == buf && len == 0 && head == 0
      ensures drops == [] && copied == 0
    {
      this.os, this.lay := os, lay;
      this.buf := buf;
      head, len := 0, 0;
      drops, copied, gone := [], 0, false;
      new;
      slots := Slots(View(buf.mem, head), lay.size, buf.Capacity());
    }

    static method New(os: Os, lay: Layout) returns (d: SliceDeque)
      requires lay.Ok()
      ensures fresh(d) && fresh(d.buf.mem) && d.Valid() && d.os == os && d.lay == lay
      ensures d.Owns() && d.Others() == os.live
      ensures d.len == 0 && d.Capacity() == 0 && d.drops == [] && d.copied == 0
    {
      var buf := NewBuffer();
      d := new SliceDeque.FromBuffer(os, lay, buf);
    }

    static method WithCapacity(os: Os, lay: Layout, n: nat) returns (r: Result<SliceDeque>)
      requires lay.Ok()
      modifies os
      ensures os.attempts == old(os.attempts) + (if n == 0 then 0 else 1)
      ensures r.Ok? == (n == 0 || os.grants(old(os.attempts)))
      ensures os.Refusals() == old(os.Refusals()) + (if r.Ok? then 0 else 1)
      ensures r.AllocError? ==> os.live == old(os.live)
      ensures r.Ok? ==> fresh(r.value) && fresh(r.value.buf.mem) && r.value.Valid()
      ensures r.Ok? ==> r.value.os == os && r.value.lay == lay
      ensures r.Ok? ==> r.value.Owns() && r.value.Others() == old(os.live)
      ensures r.Ok? ==> var d := r.value;
                        && d.len == 0 && d.head == 0 && d.drops == [] && d.copied == 0
                        && d.Capacity() == Allocation.Capacity(lay, n)
    {
      var buf := Uninitialized(os, lay, 2 * n);
      if buf.AllocError? {
        return AllocError;
      }
      var d := new SliceDeque.FromBuffer(os, lay, buf.value);
      r := Ok(d);
    }

    // ---- raw access to slots -----------------------------------------------------------------

    method ReadSlot(i: nat) returns (e: Elem)
      requires Valid() && i < |slots|
      ensures e == slots[i]
    {
      e := LoadSlot(buf.mem, head, lay.size, Capacity(), i);
    }

    method WriteSlot(i: nat, e: Elem)
      requires Valid() && i < |slots| && |e| == lay.size
      modifies `slots, buf.mem
      ensures Valid()
      ensures slots == old(slots)[i := e]
    {
      StoreSlot(buf.mem, head, lay.size, Capacity(), i, e);
      slots := Slots(View(buf.mem, head), lay.size, buf.Capacity());
    }

    method CopySlots(src: nat, dst: int, n: nat)
      requires Valid() && (n > 0 ==> 0 <= dst && src + n <= |slots| && dst + n <= |slots|)
      modifies `slots, buf.mem
      ensures Valid()
      ensures slots == if n == 0 then old(slots) else CopyWithin(old(slots), dst, src, n)
    {
      if n == 0 { // an empty copy touches nothing, even where nothing is mapped
        return;
      }
      MoveSlots(buf.mem, head, lay.size, Capacity(), src, dst, n);
      slots := Slots(View(buf.mem, head), lay.size, buf.Capacity());
    }

    // ---- moving the ends ---------------------------------------------------------------------

    method MoveHeadUnchecked(x: int)
      requires Valid() && len - Capacity() <= x <= len
      modifies `head, `len, `slots
      ensures Valid()
      ensures buf.len > 0 ==> head == (old(head) + x * lay.size) % buf.mem.Length
      ensures len == old(len) - x
      ensures 0 <= x ==> slots[..|slots| - x] == old(slots)[x..]
      ensures x <= 0 ==> slots[-x..] == old(slots)[..|slots| + x]
      ensures x == -1 ==> slots[0] == old(BeforeHead())
    {
      hide Mirrored, Slots, View, Bytes;
      ghost var step := SignedBytes(x, lay.size);
      var newBegin: int := head + x * lay.size;
      var regionSize := SizeInBytes(lay, buf.len) / 2;
      if newBegin < 0 {
        newBegin := newBegin + regionSize;
      } else if newBegin >= regionSize {
        newBegin := newBegin - regionSize;
      }
      HeadMoved(x, step, newBegin);
      head, len := newBegin, len - x;
      slots := Slots(View(buf.mem, head), lay.size, buf.Capacity());
    }

    lemma HeadMoved(x: int, step: int, newBegin: int)
      requires Valid() && len - Capacity() <= x <= len
      requires step == if 0 <= x then Bytes(x, lay.size) else 0 - Bytes(-x, lay.size)
      requires var b, r := head + step, SizeInBytes(lay, buf.len) / 2;
               newBegin == if b < 0 then b + r else if b >= r then b - r else b
      ensures 0 <= newBegin && (newBegin < buf.mem.Length || newBegin == buf.len == 0)
      ensures newBegin % lay.align == 0
      ensures Bytes(buf.Capacity(), lay.size) <= buf.mem.Length
      ensures buf.len > 0 ==> newBegin == (head + step) % buf.mem.Length
      ensures var s := Slots(View(buf.mem, newBegin), lay.size, buf.Capacity());
              && (0 <= x ==> s[..|s| - x] == slots[x..])
              && (x <= 0 ==> s[-x..] == slots[..|s| + x])
              && (x == -1 ==> s[0] == BeforeHead())
    {
      hide Slots, Window, SizeInBytes, ReportedLen, Bytes;
      var n := if 0 <= x then x else -x;
      BytesIsProduct(n, lay.size);
      ProductOfMultiple(n, lay.size, lay.align);
      if buf.len > 0 {
        if 0 <= x {
          HeadMovedForwards(buf.mem[..], head, lay.size, buf.Capacity(), x, newBegin);
        } else {
          HeadMovedBackwards(buf.mem[..], head, lay.size, buf.Capacity(), -x, newBegin);
          if x == -1 {
            FirstSlot(View(buf.mem, newBegin), buf.Capacity());
          }
        }
        SumOfMultiples(0, Bytes(n, lay.size), lay.align);
        SumOfMultiples(head, step, lay.align);
        SumOfMultiples(head + step, buf.mem.Length, lay.align);
      } else {
        assert View(buf.mem, newBegin) == View(buf.mem, head);
      }
    }

    lemma FirstSlot(w: seq<Byte>, n: nat)
      requires 0 < n && Bytes(n, lay.size) <= |w|
      ensures Bytes(1, lay.size) == lay.size <= |w| && Slots(w, lay.size, n)[0] == w[..lay.size]
    {
      SlotFits(0, n, lay.size);
    }

    method MoveTailUnchecked(x: int)
      requires Valid() && 0 <= x + len <= Capacity()
      modifies `len
      ensures Valid()
      ensures len == old(len) + x
    {
      hide Mirrored, Slots, View;
      len := len + x;
    }

    // Points the element slice at the start of the buffer.
    method ResetElems(n: nat)
      requires Valid() && n <= Capacity()
      modifies `head, `len, `slots
      ensures Valid() && len == n && head == 0
      ensures old(head) == 0 ==> slots == old(slots)
    {
      head, len := 0, n;
      slots := Slots(View(buf.mem, head), lay.size, buf.Capacity());
    }

    // Drops `n` elements in place, starting with slot `i` of the window at `head0`.
    method DropInPlace(head0: nat, i: nat, n: nat)
      requires Valid() && head0 <= buf.mem.Length && i + n <= Capacity()
      modifies `drops
      ensures Valid()
      ensures drops == old(drops) + Slots(View(buf.mem, head0), lay.size, buf.Capacity())[i..i + n]
    {
      drops := drops + Slots(View(buf.mem, head0), lay.size, buf.Capacity())[i..i + n];
    }

    method ImportFrom(other: SliceDeque, src: nat, dst: nat, n: nat)
      requires Valid() && other.Valid() && other.lay == lay && other.buf.mem != buf.mem
      requires src + n <= other.Capacity() && dst + n <= Capacity()
      modifies `slots, buf.mem
      ensures Valid() && (other != this ==> other.Valid())
      ensures slots == Overwrite(old(slots), dst, old(other.slots)[src..src + n])
    {
      if n == 0 {
        return;
      }
      ImportSlots(other.buf.mem, other.head, other.Capacity(), src, buf.mem, head, Capacity(), dst, n, lay.size);
      slots := Slots(View(buf.mem, head), lay.size, buf.Capacity());
    }

    // ---- growing -----------------------------------------------------------------------------

    method ReserveCapacity(newCapacity: nat) returns (ok: bool)
      requires Valid() && Owns()
      modifies this, os
      ensures Valid() && Owns() && Others() == old(Others())
      ensures os.Refusals() == old(os.Refusals()) + (if ok then 0 else 1)
      ensures len == old(len) && drops == old(drops) && (buf == old(buf) || fresh(buf.mem))
      ensures ok == (newCapacity <= old(Capacity()) || os.grants(old(os.attempts)))
      ensures os.attempts == old(os.attempts) + (if newCapacity <= old(Capacity()) then 0 else 1)
      ensures !ok || newCapacity <= old(Capacity()) ==>
                buf == old(buf) && head == old(head) && slots == old(slots) && copied == old(copied)
      ensures ok && old(Capacity()) < newCapacity ==>
                && newCapacity <= Capacity() == Allocation.Capacity(lay, newCapacity)
                && head == 0 && copied == old(copied) + len
                && slots == Overwrite(FreshSlots(os.fill, old(os.attempts), lay, newCapacity), 0, old(slots)[..len])
                && (len < Capacity() ==> BeforeHead() == FreshEnd(os.fill, old(os.attempts), lay, newCapacity))
      ensures Contents() == old(Contents())
    {
      hide Valid, Mirrored, Overwrite, Allocation.Capacity, FreshSlots, FreshEnd, Contents, BeforeHead;
      ContentsAre();
      if newCapacity <= Capacity() {
        return true;
      }
      ghost var n, live := os.attempts, slots[..len];
      var newBuffer := Uninitialized(os, lay, 2 * newCapacity);
      if newBuffer.AllocError? {
        return false;
      }
      CapacityIsClosure(lay, newCapacity);
      NewMapping(n, newCapacity, newBuffer.value);
      PrefixImported(FreshSlots(os.fill, n, lay, newCapacity), live);
      Relocate(newBuffer.value);
      ContentsAre();
      ok := true;
    }

    // A new mapping, seen from its start.
    lemma NewMapping(n: nat, want: nat, to: Buffer)
      requires Mirrored(lay, to) && 0 < want && to.Capacity() == Allocation.Capacity(lay, want)
      requires to.mem[..] == FreshBytes(os.fill, n, RegionSize(lay, want))
      ensures Slots(View(to.mem, 0), lay.size, to.Capacity()) == FreshSlots(os.fill, n, lay, want)
      ensures lay.size <= to.mem.Length
      ensures View(to.mem, 0)[to.mem.Length - lay.size..] == FreshEnd(os.fill, n, lay, want)
    {
      hide Slots, SizeInBytes, Allocation.Capacity, Bytes, FreshBytes;
      RegionHoldsCapacity(lay, want);
      assert Window(to.mem[..], 0) == to.mem[..];
    }

    // Moves the live elements, and only those, to the start of another buffer and releases the
    // old one.
    method Relocate(to: Buffer)
      requires Valid() && Owns()
      requires Mirrored(lay, to) && len <= to.Capacity() && 0 < to.Capacity()
      requires to.mem != buf.mem && Held(to) <= os.live && lay.size <= to.mem.Length
      modifies this, to.mem, os`live
      ensures Valid() && Owns() && os.live == old(os.live) - old(Held(buf))
      ensures buf == to && head == 0
      ensures len == old(len) && drops == old(drops) && copied == old(copied) + len
      ensures slots == Overwrite(old(Slots(View(to.mem, 0), lay.size, to.Capacity())), 0, old(slots)[..len])
      ensures len < Capacity() ==> BeforeHead() == old(View(to.mem, 0))[to.mem.Length - lay.size..]
    {
      hide Slots, View, Overwrite, SizeInBytes, ReportedLen, Bytes, Held;
      ghost var w := View(to.mem, 0);
      HeldApart(to, buf);
      BytesIsProduct(0, lay.size);
      ImportSlots(buf.mem, head, Capacity(), 0, to.mem, 0, to.Capacity(), 0, len, lay.size);
      if len < to.Capacity() {
        SlotFits(len, to.Capacity(), lay.size);
        SameEnd(w, View(to.mem, 0), Bytes(len, lay.size), lay.size);
      }
      DropBuffer(os, lay, buf);
      buf, head := to, 0;
      slots := Slots(View(buf.mem, head), lay.size, buf.Capacity());
      copied := copied + len;
    }

    static lemma HeldApart(a: Buffer, b: Buffer)
      requires a.mem != b.mem
      ensures Held(a) !! Held(b)
    {}

    lemma SameEnd(w: seq<Byte>, w': seq<Byte>, from: nat, n: nat)
      requires |w| == |w'| && from + n <= |w| && w[from..] == w'[from..]
      ensures w[|w| - n..] == w'[|w| - n..]
    {
      assert w[|w| - n..] == w[from..][|w| - n - from..];
      assert w'[|w| - n..] == w'[from..][|w| - n - from..];
    }

    lemma PrefixImported(mapped: seq<Elem>, live: seq<Elem>)
      requires |live| <= |mapped|
      ensures Overwrite(mapped, 0, live)[..|live|] == live
    {}

    lemma OverwritePrefix(s: seq<Elem>, n: nat, e: seq<Elem>)
      requires n + |e| <= |s|
      ensures Overwrite(s, n, e)[..n + |e|] == s[..n] + e
    {}

    method TryReserve(additional: nat) returns (ok: bool)
      requires Valid() && Owns()
      modifies this, os
      ensures Valid() && Owns() && Others() == old(Others())
      ensures os.Refusals() == old(os.Refusals()) + (if ok then 0 else 1)
      ensures len == old(len) && drops == old(drops) && (buf == old(buf) || fresh(buf.mem))
      ensures ok == (len + additional <= old(Capacity()) || os.grants(old(os.attempts)))
      ensures os.attempts == old(os.attempts) + (if len + additional <= old(Capacity()) then 0 else 1)
      ensures !ok || len + additional <= old(Capacity()) ==>
                buf == old(buf) && head == old(head) && slots == old(slots) && copied == old(copied)
      ensures ok ==> len + additional <= Capacity() == GrownCapacity(lay, len, old(Capacity()), additional)
      ensures ok ==> LeastGrowth(lay, len, old(Capacity()), additional, Capacity())
      ensures ok ==> copied == old(copied) + GrowthCost(len, old(Capacity()), additional)
      ensures ok && old(Capacity()) < len + additional && len < Capacity() ==>
                BeforeHead() == FreshEnd(os.fill, old(os.attempts), lay, GrowPolicy(len, old(Capacity()), additional))
      ensures Contents() == old(Contents())
    {
      hide Valid, Allocation.Capacity, FreshSlots, FreshEnd, BeforeHead, LeastGrowth;
      GrownCapacityIsLeast(lay, len, Capacity(), additional);
      ok := ReserveCapacity(GrowPolicy(len, Capacity(), additional));
    }

    // Room for one more element, as pushing and inserting make it.
    method MakeRoom() returns (ok: bool)
      requires Valid() && Owns()
      modifies this, os
      ensures Valid() && Owns() && Others() == old(Others())
      ensures os.Refusals() == old(os.Refusals()) + (if ok then 0 else 1)
      ensures len == old(len) && drops == old(drops) && (buf == old(buf) || fresh(buf.mem))
      ensures Contents() == old(Contents())
      ensures ok == (!old(IsFull()) || os.grants(old(os.attempts)))
      ensures !ok ==> buf == old(buf) && slots == old(slots) && copied == old(copied)
      ensures os.attempts == old(os.attempts) + (if old(IsFull()) then 1 else 0)
      ensures ok ==> len < Capacity() == GrownCapacity(lay, len, old(Capacity()), 1)
      ensures ok ==> LeastGrowth(lay, len, old(Capacity()), 1, Capacity())
      ensures ok ==> copied == old(copied) + GrowthCost(len, old(Capacity()), 1)
      ensures ok ==> BeforeHead() == old(NextBeforeHead())
    {
      hide Valid, Allocation.Capacity, FreshEnd, BeforeHead, LeastGrowth;
      GrownCapacityIsLeast(lay, len, Capacity(), 1);
      ok := true;
      if IsFull() {
        ok := TryReserve(1);
      }
    }

    // ---- both ends ---------------------------------------------------------------------------

    method TryPushFront(value: Elem) returns (r: Push)
      requires Valid() && Owns() && |value| == lay.size
      modifies this, buf.mem, os
      ensures Valid() && Owns() && Others() == old(Others())
      ensures os.Refusals() == old(os.Refusals()) + (if r.Pushed? then 0 else 1)
      ensures drops == old(drops) && (buf.mem == old(buf.mem) || fresh(buf.mem))
      ensures r.OutOfMemory? ==> r.value == value && old(IsFull()) && !os.grants(old(os.attempts)) && old(len) == len
      ensures r.OutOfMemory? ==> buf == old(buf) && slots == old(slots) && copied == old(copied)
      ensures r.Pushed? ==> Contents() == [value] + old(Contents())
      ensures os.attempts == old(os.attempts) + (if old(IsFull()) then 1 else 0)
      ensures r.Pushed? ==> Capacity() == GrownCapacity(lay, old(len), old(Capacity()), 1)
      ensures r.Pushed? ==> LeastGrowth(lay, old(len), old(Capacity()), 1, Capacity())
      ensures r.Pushed? ==> copied == old(copied) + GrowthCost(old(len), old(Capacity()), 1)
    {
      hide Valid, Allocation.Capacity, LeastGrowth;
      var ok := MakeRoom();
      if !ok {
        return OutOfMemory(value);
      }
      ghost var s := slots;
      MoveHeadUnchecked(-1);
      PushedFront(s, slots, len - 1, value);
      WriteSlot(0, value);
      r := Pushed;
    }

    lemma PushedFront(s: seq<Elem>, t: seq<Elem>, n: nat, value: Elem)
      requires n < |s| == |t| && t[1..] == s[..|s| - 1]
      ensures t[0 := value][..n + 1] == [value] + s[..n]
    {
      StepBack(s, t, n);
      UpdatePrefix(t, n + 1, 0, value);
    }

    method TryPushBack(value: Elem) returns (r: Push)
      requires Valid() && Owns() && |value| == lay.size
      modifies this, buf.mem, os
      ensures Valid() && Owns() && Others() == old(Others())
      ensures os.Refusals() == old(os.Refusals()) + (if r.Pushed? then 0 else 1)
      ensures drops == old(drops) && (buf.mem == old(buf.mem) || fresh(buf.mem))
      ensures r.OutOfMemory? ==> r.value == value && old(IsFull()) && !os.grants(old(os.attempts)) && old(len) == len
      ensures r.OutOfMemory? ==> buf == old(buf) && slots == old(slots) && copied == old(copied)
      ensures r.Pushed? ==> Contents() == old(Contents()) + [value]
      ensures os.attempts == old(os.attempts) + (if old(IsFull()) then 1 else 0)
      ensures r.Pushed? ==> Capacity() == GrownCapacity(lay, old(len), old(Capacity()), 1)
      ensures r.Pushed? ==> LeastGrowth(lay, old(len), old(Capacity()), 1, Capacity())
      ensures r.Pushed? ==> copied == old(copied) + GrowthCost(old(len), old(Capacity()), 1)
    {
      hide Valid, Allocation.Capacity, LeastGrowth;
      var ok := MakeRoom();
      if !ok {
        return OutOfMemory(value);
      }
      MoveTailUnchecked(1);
      WriteSlot(len - 1, value);
      r := Pushed;
    }

    method PopFront() returns (r: Option<Elem>)
      requires Valid()
      modifies `head, `len, `slots
      ensures Valid()
      ensures old(len) == 0 ==> r == None && len == 0
      ensures 0 < old(len) ==> r == Some(old(Contents())[0]) && Contents() == old(Contents())[1..]
    {
      hide Valid;
      if len == 0 {
        return None;
      }
      ghost var s := slots;
      var v := ReadSlot(0);
      MoveHeadUnchecked(1);
      assert slots[..|s| - 1] == s[1..];
      assert slots[..len] == slots[..|s| - 1][..len];
      r := Some(v);
    }

    method PopBack() returns (r: Option<Elem>)
      requires Valid()
      modifies `len
      ensures Valid()
      ensures old(len) == 0 ==> r == None && len == 0
      ensures 0 < old(len) ==> r == Some(Last(old(Contents()))) && Contents() == ButLast(old(Contents()))
    {
      hide Valid;
      if len == 0 {
        return None;
      }
      var v := ReadSlot(len - 1);
      MoveTailUnchecked(-1);
      r := Some(v);
    }

    method TruncateBack(n: nat)
      requires Valid()
      modifies `len, `drops
      ensures Valid()
      ensures len == if n < old(len) then n else old(len)
      ensures Contents() == old(Contents())[..len] == KeepFirst(old(Contents()), n)
      ensures drops == old(drops) + old(Contents())[len..] == old(drops) + BeyondFirst(old(Contents()), n)
    {
      hide *;
      SlotsAre();
      ContentsAre();
      if n >= len {
        NothingCut(slots[..len], n);
        assert drops + [] == drops;
        return;
      }
      Split(slots, n, len);
      var diff := len - n;
      MoveTailUnchecked(-diff);
      DropInPlace(head, n, diff);
      ContentsAre();
    }

    lemma NothingCut(c: seq<Elem>, n: nat)
      requires |c| <= n
      ensures c[..|c|] == c == c[0..] && c[|c|..] == [] == c[..0]
      ensures KeepFirst(c, n) == KeepLast(c, n) == c && BeyondFirst(c, n) == BeforeLast(c, n) == []
    {}

    // The slots `t` are the slots `s` from `d` places further on.
    lemma SplitFront(s: seq<Elem>, t: seq<Elem>, d: nat, n: nat)
      requires 0 < d <= n <= |s| == |t| && t[..|s| - d] == s[d..]
      ensures t[..n - d] == KeepLast(s[..n], n - d) == s[..n][d..]
      ensures s[0..0 + d] == BeforeLast(s[..n], n - d) == s[..n][..d]
    {
      assert t[..n - d] == t[..|s| - d][..n - d] == s[d..][..n - d] == s[..n][d..];
    }

    method TruncateFront(n: nat)
      requires Valid()
      modifies `head, `len, `slots, `drops
      ensures Valid()
      ensures len == if n < old(len) then n else old(len)
      ensures Contents() == old(Contents())[old(len) - len..] == KeepLast(old(Contents()), n)
      ensures drops == old(drops) + old(Contents())[..old(len) - len] == old(drops) + BeforeLast(old(Contents()), n)
    {
      hide *;
      SlotsAre();
      ContentsAre();
      if n >= len {
        NothingCut(slots[..len], n);
        assert drops + [] == drops;
        return;
      }
      var diff := len - n;
      var begin := head;
      ghost var s := slots;
      MoveHeadUnchecked(diff);
      SplitFront(s, slots, diff, len + diff);
      DropInPlace(begin, 0, diff);
      ContentsAre();
    }

    method Clear()
      requires Valid()
      modifies `len, `drops
      ensures Valid() && len == 0 && drops == old(drops) + old(Contents())
    {
      TruncateBack(0);
    }

    // Running the destructor: the live elements are dropped, the mapping is released, and the deque
    // is no more.
    method Drop()
      requires Valid() && Owns()
      modifies `drops, `gone, os`live
      ensures gone && drops == old(drops) + old(Contents()) && os.live == old(Others())
    {
      assert slots == Slots(View(buf.mem, head), lay.size, buf.Capacity());
      hide Slots, View, Bytes, ReportedLen;
      DropInPlace(head, 0, len);
      DropBuffer(os, lay, buf);
      gone := true;
    }

    // ---- whole deques ------------------------------------------------------------------------

    method Append(other: SliceDeque) returns (ok: bool)
      requires Valid() && Owns() && other.Valid() && other != this && other.lay == lay && other.buf.mem != buf.mem
      modifies this, buf.mem, other, os
      ensures Valid() && Owns() && Others() == old(Others())
      ensures os.Refusals() == old(os.Refusals()) + (if ok then 0 else 1)
      ensures other.Valid() && drops == old(drops) && (buf.mem == old(buf.mem) || fresh(buf.mem))
      ensures other.buf == old(other.buf) && other.drops == old(other.drops) && other.copied == old(other.copied)
      ensures !ok ==> buf == old(buf) && slots == old(slots) && len == old(len) && copied == old(copied)
      ensures !ok ==> other.slots == old(other.slots) && other.len == old(other.len)
      ensures !ok ==> old(Capacity()) < len + other.len && !os.grants(old(os.attempts))
      ensures ok ==> Contents() == old(Contents()) + old(other.Contents()) && other.len == 0
      ensures os.attempts == old(os.attempts) + (if old(Capacity()) < old(len) + old(other.len) then 1 else 0)
      ensures ok ==> Capacity() == GrownCapacity(lay, old(len), old(Capacity()), old(other.len))
      ensures ok ==> LeastGrowth(lay, old(len), old(Capacity()), old(other.len), Capacity())
      ensures ok ==> copied == old(copied) + GrowthCost(old(len), old(Capacity()), old(other.len))
    {
      hide *;
      ContentsAre();
      other.ContentsAre();
      var count := other.len;
      ok := TryReserve(count);
      if !ok {
        return;
      }
      ContentsAre();
      ghost var s := slots;
      ImportFrom(other, 0, len, count);
      OverwritePrefix(s, len, other.slots[0..0 + count]);
      MoveTailUnchecked(count);
      ContentsAre();
      other.ResetElems(0);
    }

    method SplitOff(at: nat) returns (r: Result<SliceDeque>)
      requires Valid() && Owns() && at <= len
      modifies `len, os
      ensures Valid() && Owns()
      ensures os.Refusals() == old(os.Refusals()) + (if r.Ok? then 0 else 1)
      ensures os.attempts == old(os.attempts) + (if at < old(len) then 1 else 0)
      ensures r.AllocError? ==> len == old(len) && at < len && !os.grants(old(os.attempts)) && Others() == old(Others())
      ensures r.Ok? ==> Contents() == old(Contents())[..at]
      ensures r.Ok? ==> fresh(r.value) && fresh(r.value.buf.mem) && r.value.Valid()
      ensures r.Ok? ==> r.value.os == os && r.value.lay == lay
      ensures r.Ok? ==> r.value.Owns() && r.value.Others() == old(os.live)
      ensures r.Ok? ==> r.value.Contents() == old(Contents())[at..] && r.value.drops == [] && r.value.copied == 0
    {
      hide Valid, Contents, Overwrite, Allocation.Capacity;
      var otherLen := len - at;
      var d := WithCapacity(os, lay, otherLen);
      if d.AllocError? {
        return AllocError;
      }
      CapacityIsClosure(lay, otherLen);
      GiveEnd(d.value, at);
      r := Ok(d.value);
    }

    // Cuts the deque at `at` and copies what comes after to the empty deque `other`.
    method GiveEnd(other: SliceDeque, at: nat)
      requires Valid() && other.Valid() && other != this && other.lay == lay && other.buf.mem != buf.mem
      requires at <= len && other.len == 0 && len - at <= other.Capacity()
      modifies `len, other`len, other`slots, other.buf.mem
      ensures Valid() && Contents() == old(Contents())[..at]
      ensures other.Valid() && other.Contents() == old(Contents())[at..]
    {
      hide Valid, Contents, Overwrite, IsFull;
      ContentsAre();
      var otherLen := len - at;
      ghost var s := other.slots;
      Split(slots, at, len);
      MoveTailUnchecked(-otherLen);
      ContentsAre();
      other.MoveTailUnchecked(otherLen);
      other.ImportFrom(this, at, 0, other.len);
      OverwritePrefix(s, 0, slots[at..at + otherLen]);
      other.ContentsAre();
    }

    method Swap(other: SliceDeque)
      requires Valid() && other.Valid() && other.lay == lay
      modifies this, other
      ensures Valid() && buf == old(other.buf) && head == old(other.head)
      ensures len == old(other.len) && slots == old(other.slots)
      ensures other.Valid() && other.buf == old(buf) && other.head == old(head)
      ensures other.len == old(len) && other.slots == old(slots)
      ensures drops == old(drops) && copied == old(copied) && other.drops == old(other.drops)
    {
      hide Mirrored, Slots, View;
      buf, other.buf := other.buf, buf;
      head, other.head := other.head, head;
      len, other.len := other.len, len;
      slots, other.slots := other.slots, slots;
    }

    lemma CapacityFixed()
      requires Valid()
      ensures Allocation.Capacity(lay, Capacity()) == Capacity()
    {}

    // Charges the drops of a local deque to this one.
    ghost method ChargeDrops(from: seq<Elem>)
      requires Valid()
      modifies `drops
      ensures Valid() && drops == old(drops) + from
    {
      drops := drops + from;
    }

    // The replacement takes over a copy of the elements, and the old deque, still holding them,
    // goes out of scope: a call that does shrink also drops every element once.
    method ShrinkToFit() returns (ok: bool)
      requires Valid() && Owns()
      modifies this, os
      ensures Valid() && Owns() && Others() == old(Others())
      ensures os.Refusals() == old(os.Refusals()) + (if ok then 0 else 1)
      ensures len == old(len) && Contents() == old(Contents()) && copied == old(copied)
      ensures buf == old(buf) || fresh(buf.mem)
      ensures os.attempts == old(os.attempts) + (if len == 0 then 0 else 1)
      ensures !ok ==> 0 < len && Capacity() == old(Capacity()) && drops == old(drops) && !os.grants(old(os.attempts))
      ensures ok ==> Capacity() == if len == 0 then old(Capacity()) else Allocation.Capacity(lay, len)
      ensures ok ==> drops == old(drops) + (if Capacity() < old(Capacity()) then Contents() else [])
    {
      hide Valid, Allocation.Capacity;
      ghost var c := Contents();
      if len == 0 {
        return true;
      }
      var d := WithCapacity(os, lay, len);
      if d.AllocError? {
        return false;
      }
      CapacityIsClosure(lay, len);
      CapacityMonotone(lay, len, Capacity());
      CapacityFixed();
      var newDeque := d.value;
      if newDeque.Capacity() < Capacity() {
        MoveInto(newDeque);
      }
      newDeque.Drop();
      ChargeDrops(newDeque.drops);
      ok := true;
    }

    // Copies the elements over to `other` and exchanges the two deques.
    method MoveInto(other: SliceDeque)
      requires Valid() && other.Valid() && other != this && other.lay == lay && other.buf.mem != buf.mem
      requires len <= other.Capacity() && other.head == 0
      modifies this, other, other.buf.mem
      ensures Valid() && buf == old(other.buf) && len == old(len) && Contents() == old(Contents())
      ensures drops == old(drops) && copied == old(copied)
      ensures other.Valid() && other.buf == old(buf) && other.len == len && other.Contents() == old(Contents())
      ensures other.drops == old(other.drops)
    {
      hide Valid, Overwrite;
      ghost var t := other.slots;
      other.ImportFrom(this, 0, 0, len);
      PrefixImported(t, slots[..len]);
      assert slots[0..0 + len] == slots[..len];
      other.ResetElems(len);
      Swap(other);
    }

    // ---- inserting and removing in the middle ------------------------------------------------

    // Shifts towards the back copy from the insertion point; in the front half the code copies
    // `index` elements starting at `index` too, not at 1.
    method Insert(index: nat, element: Elem) returns (ok: bool)
      requires Valid() && Owns() && index <= len && |element| == lay.size
      modifies this, buf.mem, os
      ensures Valid() && Owns() && Others() == old(Others())
      ensures os.Refusals() == old(os.Refusals()) + (if ok then 0 else 1)
      ensures drops == old(drops) && (buf.mem == old(buf.mem) || fresh(buf.mem))
      ensures ok == (!old(IsFull()) || os.grants(old(os.attempts)))
      ensures !ok ==> buf == old(buf) && slots == old(slots) && len == old(len) && copied == old(copied)
      ensures ok ==> Contents() == InsertOutcome(old(Contents()), index, element, old(NextBeforeHead()))
      ensures os.attempts == old(os.attempts) + (if old(IsFull()) then 1 else 0)
      ensures ok ==> Capacity() == GrownCapacity(lay, old(len), old(Capacity()), 1)
      ensures ok ==> LeastGrowth(lay, old(len), old(Capacity()), 1, Capacity())
      ensures ok ==> copied == old(copied) + GrowthCost(old(len), old(Capacity()), 1)
    {
      hide Valid, GrownCapacity, GrowthCost, InsertOutcome, NextBeforeHead, IsFull, LeastGrowth;
      ok := MakeRoom();
      if ok {
        ShiftAndWrite(index, element);
      }
    }

    // Opens a gap at `index`, by the shorter way, and writes the element there.
    method ShiftAndWrite(index: nat, element: Elem)
      requires Valid() && index <= len < Capacity() && |element| == lay.size
      modifies `head, `len, `slots, buf.mem
      ensures Valid() && Contents() == InsertOutcome(old(Contents()), index, element, old(BeforeHead()))
    {
      hide Valid, Contents, InsertOutcome, CopyWithin, BeforeHead;
      ContentsAre();
      ghost var s := slots;
      var n := len;
      var p: int;
      if index > len / 2 {
        p := index;
        CopySlots(p, p + 1, n - index);
        MoveTailUnchecked(1);
        InsertedAtBack(s, n, index, element, old(BeforeHead()));
      } else {
        MoveHeadUnchecked(-1);
        p := index;
        InsertedAtFront(s, slots, n, index, element);
        CopySlots(p, p - 1, index);
      }
      WriteSlot(p, element);
      ContentsAre();
    }

    lemma InsertedAtBack(s: seq<Elem>, n: nat, i: nat, x: Elem, stale: Elem)
      requires i <= n < |s| && i > n / 2
      ensures (if n == i then s else CopyWithin(s, i + 1, i, n - i))[i := x][..n + 1]
           == InsertOutcome(s[..n], i, x, stale)
    {
      var t := (if n == i then s else CopyWithin(s, i + 1, i, n - i))[i := x][..n + 1];
      var r := InsertOutcome(s[..n], i, x, stale);
      assert forall k | 0 <= k < n + 1 :: t[k] == r[k];
    }

    lemma InsertedAtFront(s: seq<Elem>, s': seq<Elem>, n: nat, i: nat, x: Elem)
      requires i <= n < |s| && i <= n / 2 && |s'| == |s| && s'[1..] == s[..|s| - 1]
      ensures (if i == 0 then s' else CopyWithin(s', i - 1, i, i))[i := x][..n + 1]
           == InsertOutcome(s[..n], i, x, s'[0])
    {
      hide CopyWithin;
      StepBack(s, s', n);
      if i > 0 {
        CopyWithinPrefix(s', n + 1, i - 1, i, i);
      }
      UpdatePrefix(if i == 0 then s' else CopyWithin(s', i - 1, i, i), n + 1, i, x);
    }

    method Remove(index: nat) returns (ret: Elem)
      requires Valid() && index < len
      modifies `head, `len, `slots, buf.mem
      ensures Valid()
      ensures ret == old(Contents())[index]
      ensures Contents() == old(Contents())[..index] + old(Contents())[index + 1..]
    {
      hide Valid, Contents, CopyWithin;
      ContentsAre();
      ret := ReadSlot(index);
      ghost var s := slots;
      if index > len / 2 {
        RemovedAtBack(s, len, index);
        CopySlots(index + 1, index, len - index - 1);
        MoveTailUnchecked(-1);
      } else {
        CopySlots(0, 1, index);
        ghost var t := slots;
        MoveHeadUnchecked(1);
        RemovedAtFront(s, t, slots, len + 1, index);
      }
      ContentsAre();
    }

    lemma RemovedAtBack(s: seq<Elem>, n: nat, i: nat)
      requires i < n <= |s|
      ensures (if n - i - 1 == 0 then s else CopyWithin(s, i, i + 1, n - i - 1))[..n - 1]
           == s[..n][..i] + s[..n][i + 1..]
    {
      if n - i - 1 == 0 {
        assert s[..n][i + 1..] == [];
      } else {
        CopyWithinPrefix(s, n, i, i + 1, n - i - 1);
        assert CopyWithin(s[..n], i, i + 1, n - i - 1)[..n - 1] == s[..n][..i] + s[..n][i + 1..];
      }
    }

    lemma RemovedAtFront(s: seq<Elem>, t: seq<Elem>, u: seq<Elem>, n: nat, i: nat)
      requires i < n <= |s| == |u| && t == (if i == 0 then s else CopyWithin(s, 1, 0, i))
      requires u[..|s| - 1] == t[1..]
      ensures u[..n - 1] == s[..n][..i] + s[..n][i + 1..]
    {
      var c := s[..n];
      assert u[..n - 1] == u[..|s| - 1][..n - 1] == t[1..][..n - 1] == t[..n][1..];
      assert c[1..] == c[..0] + c[0 + 1..];
      if i > 0 {
        CopyWithinPrefix(s, n, 1, 0, i);
        assert CopyWithin(c, 1, 0, i)[1..] == c[..i] + c[i + 1..];
      }
    }

    // ---- in-place algorithms -----------------------------------------------------------------

    method SwapSlots(i: nat, j: nat)
      requires Valid() && i < |slots| && j < |slots|
      modifies `slots, buf.mem
      ensures Valid()
      ensures slots == Swapped(old(slots), i, j)
    {
      hide Valid;
      var x := ReadSlot(i);
      var y := ReadSlot(j);
      WriteSlot(i, y);
      WriteSlot(j, x);
    }

    // Keeps the elements that satisfy `f`, in order, and drops all others, in some order.
    method Retain(f: Elem -> bool) returns (ghost rejected: seq<Elem>)
      requires Valid()
      modifies `len, `slots, `drops, buf.mem
      ensures Valid()
      ensures Contents() == Filter(old(Contents()), f)
      ensures drops == old(drops) + rejected
      ensures multiset(rejected) == multiset(Filter(old(Contents()), Not(f)))
    {
      hide *;
      ghost var c := Contents();
      ContentsAre();
      var n, del := len, 0;
      RetainStart(slots, c, f);
      for i := 0 to n
        invariant Valid() && len == n && |slots| == |old(slots)| && drops == old(drops) && del <= i
        invariant forall k | i <= k < |slots| :: slots[k] == old(slots)[k]
        invariant RetainedUpTo(slots, c, i, i - del, f)
      {
        RetainStep(slots, c, i, i - del, f);
        var x := ReadSlot(i);
        if !f(x) {
          del := del + 1;
        } else if del > 0 {
          SwapSlots(i - del, i);
        }
      }
      RetainDone(slots, c, n - del, f);
      rejected := slots[n - del..n];
      ContentsAre();
      Split(slots, n - del, n);
      if del > 0 {
        TruncateBack(n - del);
      }
      assert del == 0 ==> drops + [] == drops;
    }

    // Keeps an element unless it is in the same bucket as the last one kept.
    method DedupBy(same: (Elem, Elem) -> bool) returns (ghost rejected: seq<Elem>)
      requires Valid()
      modifies `len, `slots, `drops, buf.mem
      ensures Valid()
      ensures Contents() == Dedup(old(Contents()), same) == DedupForward(old(Contents()), same)
      ensures drops == old(drops) + rejected
      ensures multiset(rejected) + multiset(Contents()) == multiset(old(Contents()))
    {
      hide *;
      ghost var c := Contents();
      ContentsAre();
      var n := len;
      rejected := [];
      DedupStart(slots, c, same);
      DedupIsForward(c, same);
      assert drops + [] == drops;
      if n <= 1 {
        return;
      }
      var r, w := 1, 1;
      while r < n
        invariant Valid() && len == n && |slots| == |old(slots)| && drops == old(drops) && 1 <= w <= r <= n
        invariant forall k | r <= k < |slots| :: slots[k] == old(slots)[k]
        invariant DedupedUpTo(slots, c, r, w, same)
      {
        DedupStep(slots, c, r, w, same);
        var x := ReadSlot(r);
        var y := ReadSlot(w - 1);
        if !same(x, y) {
          if r != w {
            SwapSlots(r, w);
          }
          w := w + 1;
        }
        r := r + 1;
      }
      DedupDone(slots, c, w, same);
      rejected := slots[w..n];
      ContentsAre();
      Split(slots, w, n);
      TruncateBack(w);
    }

    // ---- building from iterators -------------------------------------------------------------

    // Writes past the last element and takes the slot into the deque.
    method WriteNext(element: Elem)
      requires Valid() && len < Capacity() && |element| == lay.size
      modifies `len, `slots, buf.mem
      ensures Valid() && len == old(len) + 1 && Contents() == old(Contents()) + [element]
    {
      hide Valid;
      WriteSlot(len, element);
      MoveTailUnchecked(1);
    }

    // Room for at least one more element; when full, for as many as the iterator hints at.
    method RoomByHint(it: ItemIter) returns (ok: bool)
      requires Valid() && Owns()
      modifies this, os
      ensures Valid() && Owns() && Others() == old(Others())
      ensures os.Refusals() == old(os.Refusals()) + (if ok then 0 else 1)
      ensures Contents() == old(Contents()) && len == old(len) && drops == old(drops)
      ensures buf == old(buf) || fresh(buf.mem)
      ensures ok ==> len < Capacity() && Grown() == RoomForNext(lay, len, old(Grown()), it.lower, it.upper, it.pos)
      ensures ok && len == old(Capacity()) ==>
                var hint := if it.upper(it.pos).Some? then it.upper(it.pos).value else it.lower(it.pos);
                LeastGrowth(lay, len, old(Capacity()), hint + 1, Capacity())
      ensures !ok ==> os.attempts == old(os.attempts) + 1 && !os.grants(old(os.attempts))
      ensures !ok ==> Grown().(attempts := os.attempts - 1) == old(Grown()) && len == Capacity()
      ensures old(Capacity()) <= Capacity()
    {
      hide Valid, Contents, GrownCapacity, GrowthCost;
      ok := true;
      if len == Capacity() {
        var (lower, upper) := it.SizeHint();
        var additional := (if upper.Some? then upper.value else lower) + 1;
        ok := TryReserve(additional);
      } else {
        ContentsAre();
      }
    }

    // Takes in one more item, the last one that came out of `it`.
    method TakeIn(it: ItemIter, element: Elem) returns (ok: bool)
      requires Valid() && Owns() && |element| == lay.size
      modifies this, buf.mem, os
      ensures Valid() && Owns() && Others() == old(Others())
      ensures os.Refusals() == old(os.Refusals()) + (if ok then 0 else 1)
      ensures drops == old(drops) && (buf.mem == old(buf.mem) || fresh(buf.mem))
      ensures ok ==>
                && len == old(len) + 1 && Contents() == old(Contents()) + [element]
                && Grown() == RoomForNext(lay, old(len), old(Grown()), it.lower, it.upper, it.pos)
      ensures !ok ==>
                && len == old(len) == Capacity() && Contents() == old(Contents())
                && os.attempts == old(os.attempts) + 1 && !os.grants(old(os.attempts))
                && Grown().(attempts := os.attempts - 1) == old(Grown())
      ensures old(Capacity()) <= Capacity()
    {
      hide *;
      ok := RoomByHint(it);
      if ok {
        WriteNext(element);
      }
    }

    // Appends the items of `it` one by one, reserving by its size hint when full.
    method ExtendDesugared(it: ItemIter) returns (ok: bool)
      requires Valid() && Owns() && it.Valid() && it.size == lay.size
      modifies this, buf.mem, it, os
      ensures Valid() && Owns() && Others() == old(Others())
      ensures os.Refusals() == old(os.Refusals()) + (if ok then 0 else 1)
      ensures it.Valid() && (buf.mem == old(buf.mem) || fresh(buf.mem))
      ensures ok ==> drops == old(drops)
      ensures !ok ==> 0 < it.pos && drops == old(drops) + [it.items[it.pos - 1]]
      ensures ok ==>
                && it.pos == |it.items| && Contents() == old(Contents()) + it.items[old(it.pos)..]
                && Grown() == Extending(lay, old(len), old(Grown()), it.lower, it.upper, old(it.pos), |it.items|)
      ensures !ok ==>
                && old(it.pos) < it.pos && Contents() == old(Contents()) + it.items[old(it.pos)..it.pos - 1]
                && old(Capacity()) < old(len) + (|it.items| - old(it.pos))
                && 0 < os.attempts && !os.grants(os.attempts - 1)
                && Grown().(attempts := os.attempts - 1)
                   == Extending(lay, old(len), old(Grown()), it.lower, it.upper, old(it.pos), it.pos - 1)
    {
      hide *;
      ghost var c, p, n, g := Contents(), it.pos, len, Grown();
      ghost var k := p;
      ok := true;
      var element := it.Next();
      ExtendedByNothing(c, n, g, it, p);
      while element.Some?
        invariant Valid() && Owns() && Others() == old(Others()) && it.Valid() && drops == old(drops)
        invariant buf.mem == old(buf.mem) || fresh(buf.mem)
        invariant ok && os.Refusals() == old(os.Refusals())
        invariant p <= k <= |it.items| && it.pos == if element.Some? then k + 1 else k
        invariant element.Some? ==> k < |it.items| && element.value == it.items[k] && |element.value| == lay.size
        invariant element.None? ==> k == |it.items|
        invariant old(Capacity()) <= Capacity()
        invariant Extended(lay, c, n, g, it, p, k, Contents(), len, Grown())
        decreases |it.items| - k
      {
        ghost var c0, n0, g0 := Contents(), len, Grown();
        ok := TakeIn(it, element.value);
        if !ok {
          ExtendedMeans(c, n, g, it, p, k, c0, n0, g0);
          ChargeDrops([element.value]); // out of memory, the code panics with the item in hand
          return;
        }
        ExtendedByOne(c, n, g, it, p, k, c0, n0, g0, element.value, Contents(), len, Grown());
        k := k + 1;
        element := it.Next();
      }
      ExtendedMeans(c, n, g, it, p, k, Contents(), len, Grown());
    }

    // What a deque of `n` elements `c` has become once the items from `p` up to `k` are in.
    static ghost predicate Extended(lay: Layout, c: seq<Elem>, n: nat, g: Growth, it: ItemIter, p: nat, k: nat,
                                    c': seq<Elem>, n': nat, g': Growth)
      requires lay.Ok() && p <= k <= |it.items|
    {
      && c' == c + it.items[p..k] && n' == n + (k - p)
      && g' == Extending(lay, n, g, it.lower, it.upper, p, k)
    }

    lemma ExtendedByNothing(c: seq<Elem>, n: nat, g: Growth, it: ItemIter, p: nat)
      requires lay.Ok() && p <= |it.items|
      ensures Extended(lay, c, n, g, it, p, p, c, n, g)
    {
      assert c + it.items[p..p] == c;
    }

    lemma ExtendedByOne(c: seq<Elem>, n: nat, g: Growth, it: ItemIter, p: nat, k: nat,
                        c0: seq<Elem>, n0: nat, g0: Growth, x: Elem, c': seq<Elem>, n': nat, g': Growth)
      requires lay.Ok() && p <= k < |it.items| && x == it.items[k] && Extended(lay, c, n, g, it, p, k, c0, n0, g0)
      requires c' == c0 + [x] && n' == n0 + 1
      requires g' == RoomForNext(lay, n0, g0, it.lower, it.upper, k + 1)
      ensures Extended(lay, c, n, g, it, p, k + 1, c', n', g')
    {
      hide RoomForNext;
      OneMore(c, it.items, p, k);
    }

    lemma ExtendedMeans(c: seq<Elem>, n: nat, g: Growth, it: ItemIter, p: nat, k: nat,
                        c': seq<Elem>, n': nat, g': Growth)
      requires lay.Ok() && p <= k <= |it.items| && Extended(lay, c, n, g, it, p, k, c', n', g')
      ensures c' == c + it.items[p..k] && n' == n + (k - p)
      ensures g' == Extending(lay, n, g, it.lower, it.upper, p, k)
      ensures k == |it.items| ==> it.items[p..k] == it.items[p..]
    {
      hide Extending;
    }

    // Collects the items of `it` into a new deque; without the memory for it, nothing stays mapped,
    // and the items taken are dropped, the one in hand first.
    static method FromIterDefault(os: Os, lay: Layout, it: ItemIter)
      returns (r: Result<SliceDeque>, ghost dropped: seq<Elem>)
      requires lay.Ok() && it.Valid() && it.size == lay.size
      modifies it, os
      ensures it.Valid()
      ensures os.Refusals() == old(os.Refusals()) + (if r.Ok? then 0 else 1)
      ensures r.AllocError? ==> os.live == old(os.live) && old(it.pos) < it.pos
      ensures r.AllocError? ==> dropped == [it.items[it.pos - 1]] + it.items[old(it.pos)..it.pos - 1]
      ensures r.Ok? ==> fresh(r.value) && fresh(r.value.buf.mem) && r.value.Valid()
      ensures r.Ok? ==> r.value.os == os && r.value.lay == lay
      ensures r.Ok? ==> r.value.Owns() && r.value.Others() == old(os.live)
      ensures r.Ok? ==> it.pos == |it.items| && r.value.Contents() == it.items[old(it.pos)..] && r.value.drops == []
      ensures r.Ok? ==>
                var g := CollectGrowth(lay, it.lower, it.upper, old(it.pos), |it.items|);
                r.value.Grown() == g.(attempts := old(os.attempts) + g.attempts)
    {
      hide *;
      ghost var p, a := it.pos, os.attempts;
      NothingToCollect(lay, it);
      dropped := [];
      var element := it.Next();
      if element.None? {
        var d := New(os, lay);
        d.NothingIn();
        d.GrownAre();
        return Ok(d), [];
      }
      it.SizeHintIs();
      var (lower, _) := it.SizeHint();
      var d := FromFirst(os, lay, lower, element.value);
      if d.AllocError? {
        FromTheFirst(it.items, p, p + 1);
        return AllocError, [element.value];
      }
      var deque := d.value;
      var ok := deque.CollectAll(it, p, a);
      if !ok {
        return AllocError, deque.drops;
      }
      r := Ok(deque);
    }

    // Collects what comes after the first item, or drops everything.
    method CollectAll(it: ItemIter, ghost p: nat, ghost a: nat) returns (ok: bool)
      requires Valid() && Owns() && it.Valid() && it.size == lay.size && it.pos == p + 1 && len == 1 && drops == []
      requires p < |it.items| && Contents() == [it.items[p]]
      requires Grown() == Growth(Allocation.Capacity(lay, it.lower(p + 1) + 1), 0, a + 1)
      modifies this, buf.mem, it, os
      ensures it.Valid() && (buf.mem == old(buf.mem) || fresh(buf.mem))
      ensures os.Refusals() == old(os.Refusals()) + (if ok then 0 else 1)
      ensures !ok ==> os.live == old(Others()) && p < it.pos
      ensures !ok ==> drops == [it.items[it.pos - 1]] + it.items[p..it.pos - 1]
      ensures ok ==> Valid() && Owns() && Others() == old(Others())
      ensures ok ==> it.pos == |it.items| && Contents() == it.items[p..] && drops == []
      ensures ok ==>
                var g := CollectGrowth(lay, it.lower, it.upper, p, |it.items|);
                Grown() == g.(attempts := a + g.attempts)
    {
      hide *;
      ok := ExtendDesugared(it);
      FromTheFirst(it.items, p, if ok then |it.items| else it.pos - 1);
      if ok {
        Collected(lay, it, p, a);
        GrownAre();
      } else {
        Drop();
      }
    }

    static lemma NothingToCollect(lay: Layout, it: ItemIter)
      requires lay.Ok()
      ensures CollectGrowth(lay, it.lower, it.upper, |it.items|, |it.items|) == Growth(0, 0, 0)
      ensures it.items[|it.items|..] == []
    {}

    static lemma Collected(lay: Layout, it: ItemIter, p: nat, a: nat)
      requires lay.Ok() && p < |it.items|
      ensures var g := Growth(Allocation.Capacity(lay, it.lower(p + 1) + 1), 0, a + 1);
              var h := CollectGrowth(lay, it.lower, it.upper, p, |it.items|);
              Extending(lay, 1, g, it.lower, it.upper, p + 1, |it.items|) == h.(attempts := a + h.attempts)
    {
      hide Allocation.Capacity, Extending;
      var g := Growth(Allocation.Capacity(lay, it.lower(p + 1) + 1), 0, a + 1);
      AttemptsApart(lay, 1, g, 1, it.lower, it.upper, p + 1, |it.items|);
    }

    lemma NothingIn()
      requires len == 0
      ensures len <= |slots| && Contents() == []
    {}

    static lemma FromTheFirst(items: seq<Elem>, p: nat, k: nat)
      requires p < k <= |items|
      ensures [items[p]] + items[p + 1..k] == items[p..k]
      ensures k == |items| ==> items[p + 1..k] == items[p + 1..] && items[p..k] == items[p..]
      ensures k == p + 1 ==> [items[p]] + items[p..p] == [items[p]]
    {}

    lemma GrownAre()
      ensures Grown() == Growth(Capacity(), copied, os.attempts)
    {}

    // A new deque for one element and `lower` more.
    static method FromFirst(os: Os, lay: Layout, lower: nat, element: Elem) returns (r: Result<SliceDeque>)
      requires lay.Ok() && |element| == lay.size
      modifies os
      ensures os.Refusals() == old(os.Refusals()) + (if r.Ok? then 0 else 1)
      ensures r.AllocError? ==> os.live == old(os.live)
      ensures r.Ok? ==> fresh(r.value) && fresh(r.value.buf.mem) && r.value.Valid()
      ensures r.Ok? ==> r.value.os == os && r.value.lay == lay && r.value.drops == []
      ensures r.Ok? ==> r.value.Owns() && r.value.Others() == old(os.live)
      ensures r.Ok? ==> r.value.len == 1 && r.value.Contents() == [element]
      ensures r.Ok? ==> r.value.Grown() == Growth(Allocation.Capacity(lay, lower + 1), 0, old(os.attempts) + 1)
    {
      hide SliceDeque.Valid, Allocation.Capacity;
      r := WithCapacity(os, lay, lower + 1);
      if r.Ok? {
        CapacityIsClosure(lay, lower + 1);
        r.value.WriteNext(element);
      }
    }
  }
}
