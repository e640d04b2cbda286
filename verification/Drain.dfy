// A draining iterator: while it lives, the deque is cut short before a hole, and the elements
// after the hole stay behind it, beyond the length of the deque.
module Drains {
  import opened Allocation
  import opened Mirror
  import opened Sequences
  import opened Growing
  import opened Buffers
  import opened Iterators
  import opened SliceDeques
  import opened IntoIters

  class Drain {
    const deq: SliceDeque
    var tailStart: nat
    var tailLen: nat
    var lo: nat  // the slots still to be yielded
    var hi: nat
    ghost const orig: seq<Elem>  // the contents of the deque before draining
    ghost const start: nat
    ghost const end: nat
    ghost var fronts: seq<Elem>  // yielded from the front and from the back so far
    ghost var backs: seq<Elem>
    ghost var placed: seq<Elem>  // what has been put in place of the drained range
    ghost var tail: seq<Elem>  // what the tail holds

    ghost predicate Valid()
      reads this, deq, deq.buf.mem
      ensures Valid() ==> deq.Valid() && lo <= hi <= end <= |orig| && start <= end
      ensures Valid() ==> deq.len == start + |placed| && |tail| == tailLen
      ensures Valid() && 0 < tailLen ==> deq.len <= tailStart && tailStart + tailLen <= deq.Capacity()
    {
      && deq.Valid()
      && start <= lo <= hi <= end <= |orig|
      && deq.len == start + |placed| && deq.slots[..start] == orig[..start]
      && deq.slots[start..deq.len] == placed
      && |tail| == tailLen
      && (0 < tailLen ==> TailInPlace())
      && (lo < hi ==> Unstarted() && deq.slots[lo..hi] == orig[lo..hi])
      && fronts == orig[start..lo] && Reverse(backs) == orig[hi..end]
    }

    lemma NothingUnread()
      requires lo == hi <= |orig|
      ensures Unread() == []
    {}

    // The tail lies behind the hole, inside the buffer.
    ghost predicate TailInPlace()
      reads this, deq
    {
      && deq.len <= tailStart && tailStart + tailLen <= |deq.slots|
      && deq.slots[tailStart..tailStart + tailLen] == tail
    }

    // Nothing has been put in place of the drained range yet.
    ghost predicate Unstarted()
      reads `placed, `tailStart, `tail, deq`slots
    {
      placed == [] && tailStart == end && end <= |orig| && tail == orig[end..] && end <= |deq.slots|
    }

    ghost function Unread(): (rest: seq<Elem>)
      requires lo <= hi <= |orig|
      reads `lo, `hi
    {
      orig[lo..hi]
    }

    constructor (deq: SliceDeque, start: nat, end: nat)
      requires deq.Valid() && start <= end <= deq.len
      modifies deq`len
      ensures Valid() && this.deq == deq && this.start == start && this.end == end
      ensures orig == old(deq.Contents()) && Unstarted() && lo == start && hi == end
      ensures fronts == [] && backs == []
      ensures deq.Contents() == old(deq.Contents())[..start]
    {
      this.deq, this.tailStart, this.tailLen := deq, end, deq.len - end;
      this.lo, this.hi := start, end;
      this.orig, this.start, this.end := deq.slots[..deq.len], start, end;
      this.fronts, this.backs, this.placed, this.tail := [], [], [], deq.slots[end..deq.len];
      new;
      hide *;
      deq.ContentsAre();
      deq.MoveTailUnchecked(start - deq.len);
      deq.ContentsAre();
      Opened();
    }

    // A drain at its beginning.
    lemma Opened()
      requires deq.Valid() && start <= end <= end + tailLen == |orig| <= |deq.slots|
      requires deq.len == start == lo && hi == end
      requires orig == deq.slots[..|orig|] && tail == deq.slots[end..|orig|] && tailStart == end
      requires fronts == [] && backs == [] && placed == []
      ensures Valid() && Unstarted() && deq.slots[..start] == orig[..start]
    {
      hide SliceDeque.Valid, Reverse;
      CutOpen(deq.slots, |orig|, start, end);
    }

    lemma CutOpen(s: seq<Elem>, n: nat, start: nat, end: nat)
      requires start <= end <= n <= |s|
      ensures s[..n][..start] == s[..start] && s[..n][start..end] == s[start..end] && s[..n][end..] == s[end..n]
      ensures s[start..start] == [] == s[..n][start..start] && s[..n][end..end] == [] == Reverse([])
    {}

    // At every moment the items yielded from both ends and the unread ones make up the range.
    lemma Partition()
      requires Valid()
      ensures fronts + Unread() + Reverse(backs) == orig[start..end]
    {
      hide SliceDeque.Valid;
      assert orig[start..lo] + orig[lo..hi] == orig[start..hi];
      assert orig[start..hi] + orig[hi..end] == orig[start..end];
    }

    method Next() returns (item: Option<Elem>)
      requires Valid()
      modifies `lo, `fronts
      ensures Valid()
      ensures old(lo) == hi ==> item == None && lo == old(lo) && fronts == old(fronts)
      ensures old(lo) < hi ==>
                && item == Some(orig[old(lo)]) && lo == old(lo) + 1
                && fronts == old(fronts) + [item.value]
    {
      hide SliceDeque.Valid;
      if lo == hi {
        return None;
      }
      var e := deq.ReadSlot(lo);
      assert e == deq.slots[lo..hi][0];
      assert deq.slots[lo..hi][1..] == deq.slots[lo + 1..hi];
      lo := lo + 1;
      fronts := fronts + [e];
      item := Some(e);
    }

    method NextBack() returns (item: Option<Elem>)
      requires Valid()
      modifies `hi, `backs
      ensures Valid()
      ensures lo == old(hi) ==> item == None && hi == old(hi) && backs == old(backs)
      ensures lo < old(hi) ==>
                && hi == old(hi) - 1 && item == Some(orig[hi])
                && backs == old(backs) + [item.value]
    {
      hide SliceDeque.Valid;
      if lo == hi {
        return None;
      }
      var e := deq.ReadSlot(hi - 1);
      SameLast(deq.slots, orig, lo, hi);
      OneFurtherBack(orig, hi, end, backs);
      hide Reverse;
      hi := hi - 1;
      backs := backs + [e];
      item := Some(e);
    }

    lemma SameLast(s: seq<Elem>, c: seq<Elem>, lo: nat, hi: nat)
      requires lo < hi <= |s| && hi <= |c| && s[lo..hi] == c[lo..hi]
      ensures s[hi - 1] == c[hi - 1] && s[lo..hi - 1] == c[lo..hi - 1]
    {
      assert s[hi - 1] == s[lo..hi][hi - 1 - lo] && c[hi - 1] == c[lo..hi][hi - 1 - lo];
      SliceOfSlice(s, lo, hi - lo, 0, hi - 1 - lo);
      SliceOfSlice(c, lo, hi - lo, 0, hi - 1 - lo);
    }

    lemma OneFurtherBack(c: seq<Elem>, hi: nat, end: nat, backs: seq<Elem>)
      requires 0 < hi <= end <= |c| && Reverse(backs) == c[hi..end]
      ensures Reverse(backs + [c[hi - 1]]) == c[hi - 1..end]
    {
      assert ButLast(backs + [c[hi - 1]]) == backs;
    }

    // Yields and drops everything that is left.
    method Exhaust()
      requires Valid()
      modifies `lo, `fronts, deq`drops
      ensures Valid() && lo == hi
      ensures deq.drops == old(deq.drops) + old(Unread())
    {
      hide SliceDeque.Valid, Reverse, Unstarted, TailInPlace;
      ghost var log, p := deq.drops, lo;
      ghost var k := lo;
      var item := Next();
      assert log + orig[p..p] == log;
      while item.Some?
        invariant Valid() && p <= k <= hi && lo == if item.Some? then k + 1 else k
        invariant if item.Some? then k < hi && item.value == orig[k] else k == hi
        invariant deq.drops == log + orig[p..k]
        decreases hi - k
      {
        DropItems([item.value]);
        OneMore(log, orig, p, k);
        k := k + 1;
        item := Next();
      }
    }

    ghost method DropItems(items: seq<Elem>)
      requires Valid()
      modifies deq`drops
      ensures Valid() && deq.drops == old(deq.drops) + items
    {
      hide SliceDeque.Valid;
      deq.ChargeDrops(items);
    }

    // The end of the iterator: what is left is dropped, and the tail closes the hole.
    method Drop()
      requires Valid()
      modifies this, deq`len, deq`slots, deq`drops, deq.buf.mem
      ensures deq.Valid()
      ensures deq.Contents() == orig[..start] + placed + tail
      ensures placed == old(placed) && tail == old(tail)
      ensures deq.drops == old(deq.drops) + old(Unread())
    {
      hide SliceDeque.Valid, Reverse, CopyWithin;
      Exhaust();
      ghost var s, n := deq.slots, deq.len;
      assert s[..n] == orig[..start] + placed by {
        Split(s, start, n);
      }
      if tailLen > 0 {
        var to := deq.len;
        deq.CopySlots(tailStart, to, tailLen);
        CopiedDown(s, to, tailStart, tailLen);
        deq.MoveTailUnchecked(tailLen);
      }
    }

    lemma CopiedDown(s: seq<Elem>, to: nat, from: nat, n: nat)
      requires to + n <= |s| && from + n <= |s|
      ensures CopyWithin(s, to, from, n)[..to + n] == s[..to] + s[from..from + n]
    {}

    // ---- filling the hole, for splicing ------------------------------------------------------

    // Fills the hole from the front with items of `it`; true if it was filled completely.
    method Fill(it: ItemIter) returns (filled: bool)
      requires Valid() && lo == hi && 0 < tailLen
      requires it.Valid() && it.size == deq.lay.size
      modifies `placed, deq`len, deq`slots, deq.buf.mem, it
      ensures Valid() && it.Valid() && tail == old(tail)
      ensures var room, left := tailStart - old(deq.len), |it.items| - old(it.pos);
              && filled == (room <= left)
              && it.pos == old(it.pos) + (if filled then room else left)
      ensures placed == old(placed) + it.items[old(it.pos)..it.pos]
    {
      hide *;
      ghost var was, p := placed, it.pos;
      var rangeStart, rangeEnd := deq.len, tailStart;
      assert was + it.items[p..p] == was;
      for place := rangeStart to rangeEnd
        invariant Valid() && it.Valid() && tail == old(tail)
        invariant deq.len == place && it.pos == p + (place - rangeStart)
        invariant placed == was + it.items[p..it.pos]
      {
        var item := it.Next();
        if item.None? {
          return false;
        }
        OneMore(was, it.items, p, it.pos - 1);
        Place(item.value);
      }
      filled := true;
    }

    // The same for a collected rest of the replacement.
    method FillFrom(it: IntoIter) returns (filled: bool)
      requires Valid() && lo == hi && 0 < tailLen
      requires it.Valid() && it.lay == deq.lay && it.mem != deq.buf.mem
      modifies `placed, deq`len, deq`slots, deq.buf.mem, it`ptr, it`lo
      ensures Valid() && it.Valid() && tail == old(tail)
      ensures var room, left := tailStart - old(deq.len), it.hi - old(it.lo);
              && filled == (room <= left)
              && it.lo == old(it.lo) + (if filled then room else left)
      ensures placed == old(placed) + it.orig[old(it.lo)..it.lo]
    {
      hide *;
      ghost var was, p := placed, it.lo;
      var rangeStart, rangeEnd := deq.len, tailStart;
      assert was + it.orig[p..p] == was;
      for place := rangeStart to rangeEnd
        invariant Valid() && it.Valid() && tail == old(tail)
        invariant deq.len == place && it.lo == p + (place - rangeStart)
        invariant placed == was + it.orig[p..it.lo]
      {
        var item := it.Next();
        if item.None? {
          return false;
        }
        OneMore(was, it.orig, p, it.lo - 1);
        Place(item.value);
      }
      filled := true;
    }

    // With no tail to keep, the deque is simply extended.
    method ExtendDeque(it: ItemIter) returns (ok: bool)
      requires Valid() && deq.Owns() && lo == hi && tailLen == 0 && placed == []
      requires it.Valid() && it.size == deq.lay.size
      modifies `placed, deq, deq.buf.mem, deq.os, it
      ensures Valid() && deq.Owns() && deq.Others() == old(deq.Others())
      ensures !ok ==> old(it.pos) < it.pos
      ensures it.Valid() && deq.drops == old(deq.drops) + (if ok then [] else it.items[it.pos - 1..it.pos])
      ensures deq.buf.mem == old(deq.buf.mem) || fresh(deq.buf.mem)
      ensures deq.os.Refusals() == old(deq.os.Refusals()) + (if ok then 0 else 1)
      ensures ok ==> it.pos == |it.items|
      ensures !ok ==> old(deq.Capacity()) < start + (|it.items| - old(it.pos))
      ensures var end := if ok then it.pos else it.pos - 1;
              && placed == it.items[old(it.pos)..end]
              && deq.Capacity() == old(Grows(it, end)).cap && deq.copied == old(Grows(it, end)).copied
      ensures ok ==> deq.os.attempts == old(Grows(it, |it.items|)).attempts
    {
      hide SliceDeque.Valid, SliceDeque.Contents, ItemIter.Valid, Reverse, Extending;
      ghost var p := it.pos;
      assert deq.Contents() == orig[..start] by {
        deq.ContentsAre();
        Split(deq.slots, start, deq.len);
      }
      ok := deq.ExtendDesugared(it);
      ghost var end := if ok then it.pos else it.pos - 1;
      assert ok ==> it.items[p..] == it.items[p..end];
      placed := it.items[p..end];
      deq.ContentsAre();
      Glued(deq.slots, deq.len, orig[..start], placed);
    }

    // How the deque grows when it is extended by the next items of `it`, up to `end`.
    ghost function Grows(it: ItemIter, end: nat): (g: Growth)
      requires deq.lay.Ok() && it.pos <= end
      reads deq`len, deq`buf, deq`copied, deq.os`attempts, it`pos
    {
      Extending(deq.lay, deq.len, deq.Grown(), it.lower, it.upper, it.pos, end)
    }

    lemma Glued(s: seq<Elem>, n: nat, a: seq<Elem>, b: seq<Elem>)
      requires n <= |s| && s[..n] == a + b
      ensures n == |a| + |b| && s[..|a|] == a && s[|a|..n] == b
    {
      assert s[..|a|] == s[..n][..|a|] && s[|a|..n] == s[..n][|a|..];
    }

    // Puts one item into the first free slot of the hole.
    method Place(item: Elem)
      requires Valid() && lo == hi && 0 < tailLen && deq.len < tailStart && |item| == deq.lay.size
      modifies `placed, deq`len, deq`slots, deq.buf.mem
      ensures Valid() && deq.len == old(deq.len) + 1 && tail == old(tail)
      ensures placed == old(placed) + [item]
    {
      hide SliceDeque.Valid, Reverse;
      ghost var s, n := deq.slots, deq.len;
      deq.WriteSlot(deq.len, item);
      deq.MoveTailUnchecked(1);
      assert deq.slots[start..n + 1] == s[start..n] + [item];
      assert deq.slots[tailStart..tailStart + tailLen] == s[tailStart..tailStart + tailLen];
      placed := placed + [item];
    }

    // Opens `extra` more slots before the tail. When this reallocates, only the elements before
    // the hole are carried over, and the tail is read from the new mapping, where it never was.
    method MoveTailUnchecked(extra: nat) returns (ok: bool)
      requires Valid() && deq.Owns() && lo == hi && 0 < tailLen
      modifies `tail, `tailStart, deq, deq.buf.mem, deq.os
      ensures Valid() && deq.Owns() && deq.Others() == old(deq.Others())
      ensures deq.len == old(deq.len) && deq.drops == old(deq.drops)
      ensures deq.os.Refusals() == old(deq.os.Refusals()) + (if ok then 0 else 1)
      ensures deq.buf.mem == old(deq.buf.mem) || fresh(deq.buf.mem)
      ensures tailStart == old(tailStart) + (if ok then extra else 0)
      ensures var wanted, cap, n := old(tailStart) + tailLen + extra, old(deq.Capacity()), old(deq.os.attempts);
              && ok == (wanted <= cap || deq.os.grants(n))
              && deq.os.attempts == n + (if wanted <= cap then 0 else 1)
              && (!ok || wanted <= cap ==>
                    tail == old(tail) && deq.Capacity() == cap && deq.copied == old(deq.copied))
              && (ok && cap < wanted ==>
                    && deq.Capacity() == Capacity(deq.lay, wanted) && deq.copied == old(deq.copied) + deq.len
                    && tail == FreshSlots(deq.os.fill, n, deq.lay, wanted)[old(tailStart)..old(tailStart) + tailLen])
    {
      hide Valid, SliceDeque.Valid, Capacity, FreshSlots;
      ok := ReserveBeforeTail(extra);
      if ok {
        ShiftTail(extra);
      }
    }

    method ReserveBeforeTail(extra: nat) returns (ok: bool)
      requires Valid() && deq.Owns() && lo == hi && 0 < tailLen
      modifies `tail, deq, deq.os
      ensures Valid() && deq.Owns() && deq.Others() == old(deq.Others())
      ensures deq.len == old(deq.len) && deq.drops == old(deq.drops)
      ensures deq.os.Refusals() == old(deq.os.Refusals()) + (if ok then 0 else 1)
      ensures deq.buf.mem == old(deq.buf.mem) || fresh(deq.buf.mem)
      ensures ok ==> tailStart + tailLen + extra <= deq.Capacity()
      ensures var wanted, cap, n := tailStart + tailLen + extra, old(deq.Capacity()), old(deq.os.attempts);
              && ok == (wanted <= cap || deq.os.grants(n))
              && deq.os.attempts == n + (if wanted <= cap then 0 else 1)
              && (!ok || wanted <= cap ==>
                    tail == old(tail) && deq.Capacity() == cap && deq.copied == old(deq.copied))
              && (ok && cap < wanted ==>
                    && deq.Capacity() == Capacity(deq.lay, wanted) && deq.copied == old(deq.copied) + deq.len
                    && tail == FreshSlots(deq.os.fill, n, deq.lay, wanted)[tailStart..tailStart + tailLen])
    {
      hide SliceDeque.Valid, SliceDeque.Contents, SliceDeque.BeforeHead;
      hide Capacity, FreshSlots, FreshEnd, Overwrite, Reverse;
      var wanted := tailStart + tailLen + extra;
      ghost var s, n, a := deq.slots, deq.len, deq.os.attempts;
      ok := deq.ReserveCapacity(wanted);
      if deq.slots != s {
        Carried(s, deq.slots, FreshSlots(deq.os.fill, a, deq.lay, wanted), n, start, tailStart, tailLen);
        tail := deq.slots[tailStart..tailStart + tailLen];
      }
    }

    method ShiftTail(extra: nat)
      requires Valid() && lo == hi && 0 < tailLen && tailStart + tailLen + extra <= deq.Capacity()
      modifies `tailStart, deq`slots, deq.buf.mem
      ensures Valid() && tailStart == old(tailStart) + extra
    {
      hide SliceDeque.Valid, CopyWithin, Reverse;
      ghost var t := deq.slots;
      CopiedUp(t, deq.len, start, tailStart + extra, tailStart, tailLen);
      var newTailStart := tailStart + extra;
      deq.CopySlots(tailStart, newTailStart, tailLen);
      tailStart := newTailStart;
    }

    // What a reallocation carries over: the live part, but not the tail.
    lemma Carried(s: seq<Elem>, t: seq<Elem>, mapped: seq<Elem>, n: nat, a: nat, from: nat, k: nat)
      requires a <= n <= |s| && n <= from && from + k <= |t|
      requires |mapped| == |t| && t == Overwrite(mapped, 0, s[..n])
      ensures t[..a] == s[..a] && t[a..n] == s[a..n]
      ensures t[from..from + k] == mapped[from..from + k]
    {
      assert t[..n] == s[..n];
      assert t[..n][..a] == t[..a] && t[..n][a..] == t[a..n];
      assert s[..n][..a] == s[..a] && s[..n][a..] == s[a..n];
    }

    lemma CopiedUp(t: seq<Elem>, n: nat, a: nat, to: nat, from: nat, k: nat)
      requires a <= n <= from <= to && to + k <= |t|
      ensures var r := CopyWithin(t, to, from, k);
              r[..a] == t[..a] && r[a..n] == t[a..n] && r[to..to + k] == t[from..from + k]
    {}
  }
}
