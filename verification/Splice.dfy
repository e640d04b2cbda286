// Replacing a range of a deque by the items of an iterator of unknown length.
module Splices {
  import opened Allocation
  import opened Mirror
  import opened Sequences
  import opened Growing
  import opened Buffers
  import opened Iterators
  import opened SliceDeques
  import opened Drains
  import opened IntoIters

  // What the slots of a new mapping hold where a tail of `k` elements is then read from.
  ghost function FreshTail(fill: (nat, nat) -> Byte, n: nat, lay: Layout, want: nat, at: nat, k: nat)
    : (tail: seq<Elem>)
    requires lay.Ok() && 0 < want && at + k <= want
    ensures |tail| == k
  {
    FreshSlots(fill, n, lay, want)[at..at + k]
  }

  // What the tail holds after the step of a splice that makes room for as many items as the hint
  // says: what it held before unless that step reallocates, and then what the new mapping held.
  ghost function HintedTail(fill: (nat, nat) -> Byte, lay: Layout, q: Request, tail: seq<Elem>): (tail': seq<Elem>)
    requires lay.Ok() && |tail| <= q.len <= q.cap
    ensures |tail'| == |tail|
  {
    if q.len + q.lower <= q.cap then tail
    else FreshTail(fill, q.attempts, lay, q.len + q.lower, q.len - |tail|, |tail|)
  }

  // And at the end, when room for all items has been made.
  ghost function TailAfter(fill: (nat, nat) -> Byte, lay: Layout, q: Request, tail: seq<Elem>): (tail': seq<Elem>)
    requires lay.Ok() && |tail| <= q.len <= q.cap
    ensures |tail'| == |tail|
  {
    if tail == [] || q.items < q.hole then tail
    else
      var h, more := HintedGrowth(lay, q, |tail|), q.items - q.hole;
      if more <= q.lower || q.len + more <= h.cap then HintedTail(fill, lay, q, tail)
      else FreshTail(fill, h.attempts + q.collecting, lay, q.len + more, q.len - |tail| + q.lower, |tail|)
  }

  // A splice keeps the tail, whatever new mappings hold, exactly when no step reallocates.
  lemma TailKeptIffFits(lay: Layout, q: Request, tail: seq<Elem>)
    requires lay.Ok() && |tail| <= q.len <= q.cap && forall x | x in tail :: |x| == lay.size
    ensures (forall fill :: TailAfter(fill, lay, q, tail) == tail) <==> Fits(q, |tail|)
  {
    hide FreshTail;
    if !Fits(q, |tail|) {
      assert |tail[0]| == lay.size;
      var b: Byte := if tail[0][0] == 0 then 1 else 0;
      var fill := (n: nat, p: nat) => b;
      var more, start := q.items - q.hole, q.len - |tail|;
      if q.len + q.lower > q.cap {
        FreshByte(fill, b, q.attempts, lay, q.len + q.lower, start, |tail|);
        FreshByte(fill, b, q.attempts + 1 + q.collecting, lay, q.len + more, start + q.lower, |tail|);
      } else {
        FreshByte(fill, b, q.attempts + q.collecting, lay, q.len + more, start + q.lower, |tail|);
      }
      assert TailAfter(fill, lay, q, tail)[0][0] == b;
    }
  }

  // Where a new mapping holds the same byte everywhere, so does the tail read from it.
  lemma FreshByte(fill: (nat, nat) -> Byte, b: Byte, n: nat, lay: Layout, want: nat, at: nat, k: nat)
    requires lay.Ok() && 0 < k && forall p :: fill(n, p) == b
    ensures at + k <= want ==> |FreshTail(fill, n, lay, want, at, k)[0]| == lay.size
    ensures at + k <= want ==> FreshTail(fill, n, lay, want, at, k)[0][0] == b
  {
    if at + k <= want {
      hide FreshSlots;
      FreshSlotByte(fill, n, lay, want, at);
    }
  }

  lemma FreshSlotByte(fill: (nat, nat) -> Byte, n: nat, lay: Layout, want: nat, i: nat)
    requires lay.Ok() && i < want
    ensures FreshSlots(fill, n, lay, want)[i][0] == fill(n, Bytes(i, lay.size))
  {
    hide RegionSize, Allocation.Capacity, Bytes;
    RegionHoldsCapacity(lay, want);
    SlotFits(i, Allocation.Capacity(lay, want), lay.size);
  }

  // How a splice before a tail comes out, with `placed` items in place: to the end, or running out
  // of memory at one of the two steps.
  ghost predicate Replaced(fill: (nat, nat) -> Byte, lay: Layout, q: Request, tail: seq<Elem>,
                           ok: bool, placed: nat, g: Growth, tail': seq<Elem>)
    requires lay.Ok() && |tail| <= q.len <= q.cap
  {
    if ok then placed == q.items && g == SpliceGrowth(lay, q, |tail|) && tail' == TailAfter(fill, lay, q, tail)
    else
      var h := if placed == q.hole then Growth(q.cap, q.copied, 0) else HintedGrowth(lay, q, |tail|);
      && StuckAt(q, placed) && g.cap == h.cap && g.copied == h.copied
      && tail' == if placed == q.hole then tail else HintedTail(fill, lay, q, tail)
  }

  lemma HoleNotFilled(fill: (nat, nat) -> Byte, lay: Layout, q: Request, tail: seq<Elem>)
    requires lay.Ok() && |tail| <= q.len <= q.cap && q.items < q.hole
    ensures Replaced(fill, lay, q, tail, true, q.items, Growth(q.cap, q.copied, q.attempts), tail)
  {}

  lemma HoleFilled(fill: (nat, nat) -> Byte, lay: Layout, q: Request, tail: seq<Elem>,
                   ok: bool, more: nat, g: Growth, tail': seq<Elem>)
    requires lay.Ok() && |tail| <= q.len <= q.cap && q.hole <= q.items
    requires Replaced(fill, lay, q.(hole := 0, items := q.items - q.hole), tail, ok, more, g, tail')
    ensures Replaced(fill, lay, q, tail, ok, q.hole + more, g, tail')
  {
    hide Capacity, FreshTail;
  }

  lemma HintRefused(fill: (nat, nat) -> Byte, lay: Layout, q: Request, tail: seq<Elem>, g: Growth)
    requires lay.Ok() && |tail| <= q.len <= q.cap < q.len + q.lower && q.hole == 0
    requires g.cap == q.cap && g.copied == q.copied
    ensures Replaced(fill, lay, q, tail, false, 0, g, tail)
  {}

  lemma HintMissed(fill: (nat, nat) -> Byte, lay: Layout, q: Request, tail: seq<Elem>)
    requires lay.Ok() && 0 < |tail| <= q.len <= q.cap && q.hole == 0 && q.items < q.lower && q.collecting == 0
    ensures Replaced(fill, lay, q, tail, true, q.items, HintedGrowth(lay, q, |tail|), HintedTail(fill, lay, q, tail))
  {
    hide Capacity, FreshTail;
  }

  // Beyond the hint: from there the rest is collected, and room is made for exactly that much.
  lemma HintReached(fill: (nat, nat) -> Byte, lay: Layout, q: Request, tail: seq<Elem>,
                    ok: bool, g: Growth, tail': seq<Elem>)
    requires lay.Ok() && 0 < |tail| <= q.len <= q.cap && q.hole == 0 && q.lower <= q.items
    requires RestMoved(fill, lay, HintedGrowth(lay, q, |tail|), q.collecting, q.len + q.items, q.len - |tail| + q.lower,
                       HintedTail(fill, lay, q, tail), ok, g, tail')
    requires ok || q.lower < q.items
    ensures Replaced(fill, lay, q, tail, ok, if ok then q.items else q.lower, g, tail')
  {
    CapacityIsClosure(lay, q.len + q.lower);
    hide Capacity, FreshTail;
  }

  // How the last step comes out, for a tail at `at` and `wanted` slots in all.
  ghost predicate RestMoved(fill: (nat, nat) -> Byte, lay: Layout, h: Growth, collecting: nat, wanted: nat, at: nat,
                            tail: seq<Elem>, ok: bool, g: Growth, tail': seq<Elem>)
    requires lay.Ok() && at + |tail| <= wanted
  {
    if !ok then g.cap == h.cap && g.copied == h.copied && tail' == tail
    else if wanted <= h.cap then g == h.(attempts := h.attempts + collecting) && tail' == tail
    else
      && g == Growth(Capacity(lay, wanted), h.copied + at, h.attempts + collecting + 1)
      && 0 < wanted && tail' == FreshTail(fill, h.attempts + collecting, lay, wanted, at, |tail|)
  }

  // A lower bound that is exact makes for at most one mapping, of the size of the result.
  ghost predicate ExactlyHinted(q: Request) {
    q.hole <= q.items && q.lower == q.items - q.hole && q.collecting == 0
  }

  lemma ExactHintMapsOnce(fill: (nat, nat) -> Byte, lay: Layout, q: Request, tail: seq<Elem>,
                          ok: bool, placed: nat, g: Growth, tail': seq<Elem>)
    requires lay.Ok() && 0 < |tail| <= q.len <= q.cap && Replaced(fill, lay, q, tail, ok, placed, g, tail')
    ensures ok && ExactlyHinted(q) ==>
              var n := q.len - q.hole + placed;
              && 0 <= n
              && g.cap == (if n <= q.cap then q.cap else Capacity(lay, n))
              && g.attempts == q.attempts + (if n <= q.cap then 0 else 1)
  {
    CapacityIsClosure(lay, q.len + q.lower);
    hide Capacity, FreshTail;
  }

  // Without a step that reallocates nothing moves.
  lemma FitsMovesNothing(fill: (nat, nat) -> Byte, lay: Layout, q: Request, tail: seq<Elem>,
                         ok: bool, placed: nat, g: Growth, tail': seq<Elem>)
    requires lay.Ok() && 0 < |tail| <= q.len <= q.cap && Replaced(fill, lay, q, tail, ok, placed, g, tail')
    ensures Fits(q, |tail|) ==> tail' == tail && g.cap == q.cap && g.copied == q.copied
  {
    hide Capacity, FreshTail;
  }

  lemma NoHint(fill: (nat, nat) -> Byte, lay: Layout, q: Request, tail: seq<Elem>)
    requires lay.Ok() && |tail| <= q.len <= q.cap && q.lower == 0
    ensures HintedGrowth(lay, q, |tail|) == Growth(q.cap, q.copied, q.attempts)
    ensures HintedTail(fill, lay, q, tail) == tail
  {}

  class Splice {
    const drain: Drain
    const replaceWith: ItemIter

    ghost predicate Valid()
      reads this, drain, drain.deq, drain.deq.buf.mem, replaceWith
    {
      drain.Valid() && replaceWith.Valid() && replaceWith.size == drain.deq.lay.size
    }

    constructor (deq: SliceDeque, start: nat, end: nat, replaceWith: ItemIter)
      requires deq.Valid() && start <= end <= deq.len
      requires replaceWith.Valid() && replaceWith.size == deq.lay.size
      modifies deq`len
      ensures Valid() && fresh(drain) && drain.deq == deq && drain.start == start && drain.end == end
      ensures drain.orig == old(deq.Contents()) && drain.Unstarted() && this.replaceWith == replaceWith
      ensures drain.lo == start && drain.hi == end
    {
      var d := new Drain(deq, start, end);
      drain, this.replaceWith := d, replaceWith;
    }

    // Yields the removed items; the replacement is only consumed when the splice is dropped.
    method Next() returns (item: Option<Elem>)
      requires Valid()
      modifies drain`lo, drain`fronts
      ensures Valid()
      ensures old(drain.lo) == drain.hi ==> item == None && drain.lo == old(drain.lo)
      ensures old(drain.lo) < drain.hi ==>
                item == Some(drain.orig[old(drain.lo)]) && drain.lo == old(drain.lo) + 1
    {
      hide Drain.Valid;
      item := drain.Next();
    }

    method NextBack() returns (item: Option<Elem>)
      requires Valid()
      modifies drain`hi, drain`backs
      ensures Valid()
      ensures drain.lo == old(drain.hi) ==> item == None && drain.hi == old(drain.hi)
      ensures drain.lo < old(drain.hi) ==>
                drain.hi == old(drain.hi) - 1 && item == Some(drain.orig[drain.hi])
    {
      hide Drain.Valid;
      item := drain.NextBack();
    }

    // The splice as asked for, given where the iterator stands.
    ghost function Asked(): (q: Request)
      requires drain.deq.lay.Ok() && replaceWith.pos <= |replaceWith.items| && drain.start <= drain.end
      reads drain.deq`buf, drain.deq`copied, drain.deq.os`attempts, replaceWith`pos
    {
      var hole := drain.end - drain.start;
      var lower := replaceWith.lower(replaceWith.pos + hole);
      Request(drain.deq.Capacity(), |drain.orig|, hole, |replaceWith.items| - replaceWith.pos, lower,
              drain.deq.copied, drain.deq.os.attempts, Collecting(replaceWith.pos + hole + lower))
    }

    // What is asked for beyond the range, when it is full.
    ghost function AskedMore(): (q: Request)
      requires drain.deq.lay.Ok() && replaceWith.pos <= |replaceWith.items|
      reads drain`tailStart, drain`tailLen, drain.deq`buf, drain.deq`copied, drain.deq.os`attempts, replaceWith`pos
    {
      var lower := replaceWith.lower(replaceWith.pos);
      Request(drain.deq.Capacity(), drain.tailStart + drain.tailLen, 0, |replaceWith.items| - replaceWith.pos, lower,
              drain.deq.copied, drain.deq.os.attempts, Collecting(replaceWith.pos + lower))
    }

    ghost function Collecting(p: nat): (attempts: nat)
      requires drain.deq.lay.Ok()
    {
      if p <= |replaceWith.items|
      then CollectAttempts(drain.deq.lay, replaceWith.lower, replaceWith.upper, p, |replaceWith.items|)
      else 0
    }

    // What has become of the items from `p` on: the first `placed` are in place, and those taken
    // beyond them, `wasted` in some order, are dropped.
    ghost predicate Taken(p: nat, ok: bool, placed: nat, wasted: seq<Elem>)
      reads replaceWith`pos
    {
      var items, pos := replaceWith.items, replaceWith.pos;
      && p + placed <= pos <= |items| && multiset(wasted) == multiset(items[p + placed..pos])
      && (ok ==> p + placed == pos == |items| && wasted == [])
    }

    // Where it ran out of memory: at the first step that makes room, or when more items are out.
    ghost predicate Halted(q: Request, p: nat, placed: nat)
      reads replaceWith`pos
    {
      || (placed == q.hole && q.cap < q.len + q.lower && replaceWith.pos == p + placed)
      || (placed == q.hole + q.lower && p + placed < replaceWith.pos)
    }

    // The end of the iterator. Out of memory, the code panics; then the fields are still dropped,
    // so the tail closes what is left of the hole.
    method Drop() returns (ok: bool, placed: nat, ghost wasted: seq<Elem>)
      requires Valid() && drain.deq.Owns() && drain.Unstarted()
      modifies drain, drain.deq, drain.deq.buf.mem, drain.deq.os, replaceWith
      ensures drain.deq.Valid() && drain.deq.Owns() && drain.deq.Others() == old(drain.deq.Others())
      ensures drain.deq.buf.mem == old(drain.deq.buf.mem) || fresh(drain.deq.buf.mem)
      ensures drain.deq.os.Refusals() == old(drain.deq.os.Refusals()) + (if ok then 0 else 1)
      ensures replaceWith.Valid() && Taken(old(replaceWith.pos), ok, placed, wasted)
      ensures drain.deq.drops == old(drain.deq.drops) + old(drain.Unread()) + wasted
      ensures drain.deq.Contents()
              == drain.orig[..drain.start]
                 + replaceWith.items[old(replaceWith.pos)..old(replaceWith.pos) + placed]
                 + drain.tail
      ensures |drain.orig| == drain.end ==> Appended(old(Asked()), old(AskedAtEnd(placed)), ok)
      ensures |drain.orig| == drain.end && !ok ==> replaceWith.pos == old(replaceWith.pos) + placed + 1
      ensures drain.end < |drain.orig| ==>
                Replaced(drain.deq.os.fill, drain.deq.lay, old(Asked()), drain.orig[drain.end..],
                         ok, placed, drain.deq.Grown(), drain.tail)
      ensures drain.end < |drain.orig| && !ok ==> Halted(old(Asked()), old(replaceWith.pos), placed)
      ensures Fits(old(Asked()), |drain.orig| - drain.end) ==> drain.tail == drain.orig[drain.end..]
      ensures ok && drain.end < |drain.orig| && HintIsExact(old(replaceWith.pos)) ==>
                var n, cap := |drain.orig| - (drain.end - drain.start) + placed, old(drain.deq.Capacity());
                && drain.deq.Capacity() == (if n <= cap then cap else Capacity(drain.deq.lay, n))
                && drain.deq.os.attempts == old(drain.deq.os.attempts) + (if n <= cap then 0 else 1)
    {
      hide SliceDeque.Valid, SliceDeque.Contents, SliceDeque.Owns, SliceDeque.Others, SliceDeque.Grown;
      hide Drain.Valid, Drain.Unstarted, Drain.Unread, ItemIter.Valid;
      hide Replaced, Fits, Taken, Asked, Appended, Halted, HintIsExact, ExactlyHinted;
      AskedFits();
      ghost var q := Asked();
      drain.Exhaust();
      ghost var log := drain.deq.drops;
      if drain.tailLen == 0 {
        ok, placed, wasted := ReplaceAtEnd();
        Nothing(q, ok, old(AskedAtEnd(placed)));
      } else {
        ok, placed, wasted := ReplaceBeforeTail();
        FitsMovesNothing(drain.deq.os.fill, drain.deq.lay, q, drain.orig[drain.end..], ok, placed,
                         drain.deq.Grown(), drain.tail);
        ExactHintMapsOnce(drain.deq.os.fill, drain.deq.lay, q, drain.orig[drain.end..], ok, placed,
                          drain.deq.Grown(), drain.tail);
        drain.deq.GrownAre();
      }
      drain.NothingUnread();
      assert log + wasted + [] == log + wasted;
      drain.Drop();
    }

    lemma ElementsFit()
      requires Valid()
      ensures drain.deq.lay.Ok()
    {}

    lemma AskedFits()
      requires Valid() && drain.Unstarted()
      ensures drain.deq.lay.Ok() && drain.tailLen == |drain.orig| - drain.end
      ensures |drain.orig| == Asked().len <= Asked().cap
      ensures drain.tailLen == 0 ==> drain.orig[drain.end..] == []
      ensures Asked().cap == drain.deq.Capacity() && Asked().attempts == drain.deq.os.attempts
      ensures Asked().hole == drain.end - drain.start
      ensures HintIsExact(replaceWith.pos) ==> ExactlyHinted(Asked())
    {
      hide SliceDeque.Valid, Reverse, Extending;
    }

    // Once the range is full, the lower bound of the hint is the number of items left.
    ghost predicate HintIsExact(p: nat) {
      var hole := drain.end - drain.start;
      p <= p + hole <= |replaceWith.items| && replaceWith.lower(p + hole) == |replaceWith.items| - (p + hole)
    }

    lemma Nothing(q: Request, ok: bool, g: Growth)
      requires Appended(q, g, ok)
      ensures drain.tail == []
    {}

    // How the deque grows when the first `placed` items come after its end.
    ghost function AskedAtEnd(placed: nat): (g: Growth)
      requires drain.deq.lay.Ok()
      reads drain.deq`len, drain.deq`buf, drain.deq`copied, drain.deq.os`attempts, replaceWith`pos
    {
      drain.Grows(replaceWith, replaceWith.pos + placed)
    }

    // With no tail to keep, the deque grows like that, and fails only if it has to grow.
    ghost predicate Appended(q: Request, g: Growth, ok: bool)
      reads drain`tail, drain.deq`buf, drain.deq`copied, drain.deq.os`attempts
    {
      && drain.tail == [] && drain.deq.Capacity() == g.cap && drain.deq.copied == g.copied
      && (if ok then drain.deq.os.attempts == g.attempts else MustAllocate(q, 0))
    }

    method ReplaceAtEnd() returns (ok: bool, placed: nat, ghost wasted: seq<Elem>)
      requires Valid() && drain.deq.Owns() && drain.lo == drain.hi && drain.Unstarted() && drain.tailLen == 0
      modifies drain`placed, drain`tail, drain`tailStart, drain.deq, drain.deq.buf.mem, drain.deq.os, replaceWith
      ensures Valid() && drain.deq.Owns() && drain.deq.Others() == old(drain.deq.Others())
      ensures drain.deq.buf.mem == old(drain.deq.buf.mem) || fresh(drain.deq.buf.mem)
      ensures drain.deq.os.Refusals() == old(drain.deq.os.Refusals()) + (if ok then 0 else 1)
      ensures Taken(old(replaceWith.pos), ok, placed, wasted) && drain.deq.drops == old(drain.deq.drops) + wasted
      ensures drain.placed == replaceWith.items[old(replaceWith.pos)..old(replaceWith.pos) + placed]
      ensures !ok ==> replaceWith.pos == old(replaceWith.pos) + placed + 1
      ensures Appended(old(Asked()), old(AskedAtEnd(placed)), ok)
    {
      hide SliceDeque.Valid, SliceDeque.Contents, SliceDeque.Owns, SliceDeque.Others;
      hide Drain.Valid, Drain.TailInPlace, ItemIter.Valid, Extending, CollectAttempts;
      var p := replaceWith.pos;
      ok := drain.ExtendDeque(replaceWith);
      placed := (if ok then replaceWith.pos else replaceWith.pos - 1) - p;
      wasted := if ok then [] else replaceWith.items[replaceWith.pos - 1..replaceWith.pos];
    }

    // Puts the replacement in place of the exhausted range, before the tail is moved back.
    method ReplaceBeforeTail() returns (ok: bool, placed: nat, ghost wasted: seq<Elem>)
      requires Valid() && drain.deq.Owns() && drain.lo == drain.hi && drain.Unstarted() && 0 < drain.tailLen
      modifies drain`placed, drain`tail, drain`tailStart, drain.deq, drain.deq.buf.mem, drain.deq.os, replaceWith
      ensures Valid() && drain.deq.Owns() && drain.deq.Others() == old(drain.deq.Others())
      ensures drain.deq.buf.mem == old(drain.deq.buf.mem) || fresh(drain.deq.buf.mem)
      ensures drain.deq.os.Refusals() == old(drain.deq.os.Refusals()) + (if ok then 0 else 1)
      ensures Taken(old(replaceWith.pos), ok, placed, wasted) && drain.deq.drops == old(drain.deq.drops) + wasted
      ensures drain.placed == replaceWith.items[old(replaceWith.pos)..old(replaceWith.pos) + placed]
      ensures Replaced(drain.deq.os.fill, drain.deq.lay, old(Asked()), drain.orig[drain.end..],
                       ok, placed, drain.deq.Grown(), drain.tail)
      ensures !ok ==> Halted(old(Asked()), old(replaceWith.pos), placed)
    {
      hide SliceDeque.Valid, SliceDeque.Contents, SliceDeque.Owns, SliceDeque.Others, SliceDeque.Grown;
      hide Drain.Valid, Drain.Unstarted, ItemIter.Valid, CollectAttempts, Replaced, Taken, Halted;
      hide Asked, AskedAs, AskedMore, Collecting;
      RangeToFill();
      var p := replaceWith.pos;
      ghost var q, tail, fill := Asked(), drain.tail, drain.deq.os.fill;
      ok, wasted := true, [];
      assert drain.deq.drops + [] == drain.deq.drops;
      var filled := drain.Fill(replaceWith);
      placed := replaceWith.pos - p;
      assert [] + replaceWith.items[p..p + placed] == replaceWith.items[p..p + placed];
      if !filled {
        NotGrownYet(q, p);
        HoleNotFilled(fill, drain.deq.lay, q, tail);
        AllTaken(p, placed);
        return;
      }
      ok, placed, wasted := ReplaceBeyond(placed, q, p, tail);
    }

    // Goes on with the range filled by the first `hole` items.
    method ReplaceBeyond(hole: nat, ghost q: Request, ghost p: nat, ghost tail: seq<Elem>)
      returns (ok: bool, placed: nat, ghost wasted: seq<Elem>)
      requires Valid() && drain.deq.Owns() && drain.lo == drain.hi && 0 < drain.tailLen && drain.tail == tail
      requires drain.deq.len == drain.tailStart && q.hole == hole <= q.items && replaceWith.pos == p + hole
      requires drain.deq.lay.Ok() && AskedAs(q, p) && |tail| <= q.len <= q.cap
      requires replaceWith.pos <= |replaceWith.items| && drain.placed == replaceWith.items[p..replaceWith.pos]
      modifies drain`placed, drain`tail, drain`tailStart, drain.deq, drain.deq.buf.mem, drain.deq.os, replaceWith
      ensures Valid() && drain.deq.Owns() && drain.deq.Others() == old(drain.deq.Others())
      ensures drain.deq.buf.mem == old(drain.deq.buf.mem) || fresh(drain.deq.buf.mem)
      ensures drain.deq.os.Refusals() == old(drain.deq.os.Refusals()) + (if ok then 0 else 1)
      ensures Taken(p, ok, placed, wasted) && drain.deq.drops == old(drain.deq.drops) + wasted
      ensures p + placed <= |replaceWith.items| && drain.placed == replaceWith.items[p..p + placed]
      ensures Replaced(drain.deq.os.fill, drain.deq.lay, q, tail, ok, placed, drain.deq.Grown(), drain.tail)
      ensures !ok ==> Halted(q, p, placed)
    {
      hide *;
      ghost var p1 := replaceWith.pos;
      AskedBeyond(q, p);
      var more;
      ok, more, wasted := ReplaceMore();
      placed := hole + more;
      TakenLater(p, p1, ok, more, wasted);
      TwoParts(replaceWith.items, p, p1, p + placed);
      HoleFilled(drain.deq.os.fill, drain.deq.lay, q, tail, ok, more, drain.deq.Grown(), drain.tail);
      HaltedBeyond(q, p, p1, ok, more);
    }

    // What `Asked` says before anything is in place, and what is asked for once the range is full.
    lemma RangeToFill()
      requires Valid() && drain.Unstarted()
      ensures drain.deq.lay.Ok() && drain.placed == [] && replaceWith.pos <= |replaceWith.items|
      ensures drain.tail == drain.orig[drain.end..] && |drain.tail| == drain.tailLen <= Asked().len <= Asked().cap
      ensures Asked().hole == drain.tailStart - drain.deq.len && Asked().items == |replaceWith.items| - replaceWith.pos
      ensures AskedAs(Asked(), replaceWith.pos)
    {
      hide SliceDeque.Valid, Reverse, CollectAttempts;
    }

    ghost predicate AskedAs(q: Request, p: nat)
      requires drain.deq.lay.Ok()
      reads drain`tailStart, drain`tailLen, drain.deq`buf, drain.deq`copied, drain.deq.os`attempts
    {
      && q.cap == drain.deq.Capacity() && q.len == drain.tailStart + drain.tailLen
      && p <= |replaceWith.items| && q.items == |replaceWith.items| - p && q.lower == replaceWith.lower(p + q.hole)
      && q.copied == drain.deq.copied && q.attempts == drain.deq.os.attempts
      && q.collecting == Collecting(p + q.hole + q.lower)
    }

    lemma NotGrownYet(q: Request, p: nat)
      requires drain.deq.lay.Ok() && AskedAs(q, p)
      ensures drain.deq.Grown() == Growth(q.cap, q.copied, q.attempts)
    {}

    lemma AskedBeyond(q: Request, p: nat)
      requires drain.deq.lay.Ok() && AskedAs(q, p) && q.hole <= q.items && replaceWith.pos == p + q.hole
      ensures AskedMore() == q.(hole := 0, items := q.items - q.hole)
    {
      hide CollectAttempts;
    }

    lemma HaltedBeyond(q: Request, p: nat, p1: nat, ok: bool, more: nat)
      requires q.hole <= q.items && p1 == p + q.hole
      requires !ok ==> Halted(q.(hole := 0, items := q.items - q.hole), p1, more)
      ensures !ok ==> Halted(q, p, q.hole + more)
    {}

    lemma AllTaken(p: nat, placed: nat)
      requires p + placed == replaceWith.pos == |replaceWith.items|
      ensures Taken(p, true, placed, [])
    {}

    lemma TakenLater(p: nat, p1: nat, ok: bool, more: nat, wasted: seq<Elem>)
      requires p <= p1 && Taken(p1, ok, more, wasted)
      ensures p1 + more <= replaceWith.pos <= |replaceWith.items|
      ensures Taken(p, ok, p1 - p + more, wasted)
    {}

    lemma TwoParts(s: seq<Elem>, i: nat, j: nat, k: nat)
      requires i <= j <= k <= |s|
      ensures s[i..j] + s[j..k] == s[i..k]
    {}

    // Goes on once the range is full: first as far as the size hint says, then to the end.
    method ReplaceMore() returns (ok: bool, more: nat, ghost wasted: seq<Elem>)
      requires Valid() && drain.deq.Owns() && drain.lo == drain.hi && 0 < drain.tailLen
      requires drain.deq.len == drain.tailStart
      modifies drain`placed, drain`tail, drain`tailStart, drain.deq, drain.deq.buf.mem, drain.deq.os, replaceWith
      ensures Valid() && drain.deq.Owns() && drain.deq.Others() == old(drain.deq.Others())
      ensures drain.deq.buf.mem == old(drain.deq.buf.mem) || fresh(drain.deq.buf.mem)
      ensures drain.deq.os.Refusals() == old(drain.deq.os.Refusals()) + (if ok then 0 else 1)
      ensures Taken(old(replaceWith.pos), ok, more, wasted) && drain.deq.drops == old(drain.deq.drops) + wasted
      ensures drain.placed
              == old(drain.placed) + replaceWith.items[old(replaceWith.pos)..old(replaceWith.pos) + more]
      ensures Replaced(drain.deq.os.fill, drain.deq.lay, old(AskedMore()), old(drain.tail),
                       ok, more, drain.deq.Grown(), drain.tail)
      ensures !ok ==> Halted(old(AskedMore()), old(replaceWith.pos), more)
    {
      hide SliceDeque.Valid, SliceDeque.Contents, SliceDeque.Owns, SliceDeque.Others, SliceDeque.Grown;
      hide Drain.Valid, Drain.TailInPlace, ItemIter.Valid, Replaced, Taken, Collecting, CollectAttempts;
      hide HintedGrowth, HintedTail;
      ghost var p, was := replaceWith.pos, drain.placed;
      ghost var q, tail, fill := AskedMore(), drain.tail, drain.deq.os.fill;
      ok, more, wasted := true, 0, [];
      assert drain.deq.drops + [] == drain.deq.drops;
      assert was + replaceWith.items[p..p] == was;
      var (lower, _) := replaceWith.SizeHint();
      if lower > 0 {
        var from, filled := replaceWith.pos, true;
        ok, filled := GrowByHint(lower);
        more := replaceWith.pos - from;
        if !ok {
          HintRefused(fill, drain.deq.lay, q, tail, drain.deq.Grown());
          NoneTaken(p);
          return;
        } else if !filled {
          NotCollecting(p + lower);
          HintMissed(fill, drain.deq.lay, q, tail);
          AllTaken(p, more);
          return;
        }
      } else {
        drain.deq.GrownAre();
        NoHint(fill, drain.deq.lay, q, tail);
      }
      ok, more, wasted := ReplaceRest(lower, q, p, was, tail);
    }

    // Goes on beyond the `lower` items hinted at, which are in place.
    method ReplaceRest(lower: nat, ghost q: Request, ghost p: nat, ghost was: seq<Elem>, ghost tail: seq<Elem>)
      returns (ok: bool, more: nat, ghost wasted: seq<Elem>)
      requires Valid() && drain.deq.Owns() && drain.lo == drain.hi && |tail| == drain.tailLen > 0
      requires drain.deq.len == drain.tailStart && replaceWith.pos == p + lower <= |replaceWith.items|
      requires drain.placed == was + replaceWith.items[p..replaceWith.pos]
      requires |tail| <= q.len <= q.cap && q.hole == 0 && q.items == |replaceWith.items| - p && q.lower == lower
      requires q.len + lower == drain.tailStart + drain.tailLen && q.collecting == Collecting(replaceWith.pos)
      requires drain.deq.Grown() == HintedGrowth(drain.deq.lay, q, |tail|)
      requires drain.tail == HintedTail(drain.deq.os.fill, drain.deq.lay, q, tail)
      modifies drain`placed, drain`tail, drain`tailStart, drain.deq, drain.deq.buf.mem, drain.deq.os, replaceWith
      ensures Valid() && drain.deq.Owns() && drain.deq.Others() == old(drain.deq.Others())
      ensures drain.deq.buf.mem == old(drain.deq.buf.mem) || fresh(drain.deq.buf.mem)
      ensures drain.deq.os.Refusals() == old(drain.deq.os.Refusals()) + (if ok then 0 else 1)
      ensures Taken(p, ok, more, wasted) && drain.deq.drops == old(drain.deq.drops) + wasted
      ensures p + more <= |replaceWith.items| && drain.placed == was + replaceWith.items[p..p + more]
      ensures Replaced(drain.deq.os.fill, drain.deq.lay, q, tail, ok, more, drain.deq.Grown(), drain.tail)
      ensures !ok ==> more == lower && p + more < replaceWith.pos
    {
      hide *;
      ElementsFit();
      var from := replaceWith.pos;
      ok, wasted := AppendRest();
      var k := if ok then |replaceWith.items| - from else 0;
      more := lower + k;
      TakenLater(p, from, ok, k, wasted);
      AndMore(was, replaceWith.items, p, from, from + k);
      HintReached(drain.deq.os.fill, drain.deq.lay, q, tail, ok, drain.deq.Grown(), drain.tail);
    }

    lemma NoneTaken(p: nat)
      requires p == replaceWith.pos <= |replaceWith.items|
      ensures Taken(p, false, 0, [])
    {}

    lemma NotCollecting(p: nat)
      requires drain.deq.lay.Ok() && |replaceWith.items| < p
      ensures Collecting(p) == 0
    {}

    lemma AndMore(was: seq<Elem>, s: seq<Elem>, i: nat, j: nat, k: nat)
      requires i <= j <= k <= |s|
      ensures was + s[i..j] + s[j..k] == was + s[i..k]
    {}

    // Makes room for as many items as the hint promises, and fills it as far as it goes.
    method GrowByHint(lower: nat) returns (ok: bool, filled: bool)
      requires Valid() && drain.deq.Owns() && drain.lo == drain.hi && 0 < drain.tailLen
      requires drain.deq.len == drain.tailStart && lower == replaceWith.lower(replaceWith.pos)
      modifies drain`placed, drain`tail, drain`tailStart, drain.deq, drain.deq.buf.mem, drain.deq.os, replaceWith
      ensures Valid() && drain.deq.Owns() && drain.deq.Others() == old(drain.deq.Others())
      ensures drain.deq.buf.mem == old(drain.deq.buf.mem) || fresh(drain.deq.buf.mem)
      ensures drain.deq.os.Refusals() == old(drain.deq.os.Refusals()) + (if ok then 0 else 1)
      ensures drain.deq.drops == old(drain.deq.drops)
      ensures !ok ==> replaceWith.pos == old(replaceWith.pos) && drain.placed == old(drain.placed)
      ensures ok && filled ==> drain.deq.len == drain.tailStart == old(drain.tailStart) + lower
      ensures var left := |replaceWith.items| - old(replaceWith.pos);
              ok ==>
                && filled == (lower <= left)
                && replaceWith.pos == old(replaceWith.pos) + (if filled then lower else left)
                && drain.placed == old(drain.placed) + replaceWith.items[old(replaceWith.pos)..replaceWith.pos]
      ensures var q, g := old(AskedMore()), drain.deq.Grown();
              if ok then
                && g == HintedGrowth(drain.deq.lay, q, drain.tailLen)
                && drain.tail == HintedTail(drain.deq.os.fill, drain.deq.lay, q, old(drain.tail))
              else g.cap == q.cap < q.len + lower && g.copied == q.copied && drain.tail == old(drain.tail)
    {
      hide SliceDeque.Valid, SliceDeque.Contents, SliceDeque.Owns, SliceDeque.Others;
      hide Drain.Valid, Drain.TailInPlace, ItemIter.Valid, Capacity, CollectAttempts, FreshSlots;
      filled := false;
      ok := drain.MoveTailUnchecked(lower);
      if ok {
        filled := drain.Fill(replaceWith);
      }
    }

    // Collects what is left of the replacement, makes room for exactly that much, and moves it in.
    method AppendRest() returns (ok: bool, ghost wasted: seq<Elem>)
      requires Valid() && drain.deq.Owns() && drain.lo == drain.hi && 0 < drain.tailLen
      requires drain.deq.len == drain.tailStart
      modifies drain`placed, drain`tail, drain`tailStart, drain.deq, drain.deq.buf.mem, drain.deq.os, replaceWith
      ensures Valid() && drain.deq.Owns() && drain.deq.Others() == old(drain.deq.Others())
      ensures drain.deq.buf.mem == old(drain.deq.buf.mem) || fresh(drain.deq.buf.mem)
      ensures drain.deq.os.Refusals() == old(drain.deq.os.Refusals()) + (if ok then 0 else 1)
      ensures !ok ==> old(replaceWith.pos) < replaceWith.pos <= |replaceWith.items|
      ensures var p := old(replaceWith.pos);
              var placed := if ok then |replaceWith.items| - p else 0;
              && drain.placed == old(drain.placed) + replaceWith.items[p..p + placed]
              && Taken(p, ok, placed, wasted) && drain.deq.drops == old(drain.deq.drops) + wasted
      ensures var wanted := old(drain.tailStart) + drain.tailLen + (|replaceWith.items| - old(replaceWith.pos));
              RestMoved(drain.deq.os.fill, drain.deq.lay, old(drain.deq.Grown()), old(Collecting(replaceWith.pos)),
                        wanted, old(drain.tailStart), old(drain.tail), ok, drain.deq.Grown(), drain.tail)
    {
      hide SliceDeque.Valid, SliceDeque.Contents, Drain.Valid, Drain.TailInPlace, ItemIter.Valid, IntoIter.Valid;
      hide Capacity, CollectAttempts, FreshTail, Held, Taken;
      var p := replaceWith.pos;
      var rest;
      rest, wasted := CollectRest();
      assert drain.placed + [] == drain.placed;
      if rest.AllocError? {
        drain.DropItems(wasted);
        return false, wasted;
      }
      ok := MoveIn(rest.value);
      wasted := rest.value.drops;
      RestTaken(p, ok, wasted);
    }

    lemma RestTaken(p: nat, ok: bool, wasted: seq<Elem>)
      requires p <= replaceWith.pos == |replaceWith.items|
      requires wasted == if ok then [] else replaceWith.items[p..]
      ensures Taken(p, ok, if ok then |replaceWith.items| - p else 0, wasted)
      ensures replaceWith.items[p..] == replaceWith.items[p..p + (|replaceWith.items| - p)]
    {
      var items := replaceWith.items;
      assert items[|items|..] == [] && items[p..|items|] == items[p..];
    }

    method CollectRest() returns (r: Result<IntoIter>, ghost wasted: seq<Elem>)
      requires Valid()
      modifies drain.deq.os, replaceWith
      ensures replaceWith.Valid()
      ensures drain.deq.os.Refusals() == old(drain.deq.os.Refusals()) + (if r.Ok? then 0 else 1)
      ensures r.AllocError? ==> drain.deq.os.live == old(drain.deq.os.live)
      ensures r.AllocError? ==> Taken(old(replaceWith.pos), false, 0, wasted)
      ensures r.AllocError? ==> old(replaceWith.pos) < replaceWith.pos <= |replaceWith.items|
      ensures r.Ok? ==> replaceWith.pos == |replaceWith.items|
      ensures r.Ok? ==> drain.deq.os.attempts == old(drain.deq.os.attempts + Collecting(replaceWith.pos))
      ensures r.Ok? ==> fresh(r.value) && fresh(r.value.mem) && r.value.Valid() && r.value.lay == drain.deq.lay
      ensures r.Ok? ==> r.value.os == drain.deq.os && r.value.Owns() && r.value.Others() == old(drain.deq.os.live)
      ensures r.Ok? ==> r.value.orig == r.value.Rest() == replaceWith.items[old(replaceWith.pos)..]
      ensures r.Ok? ==> r.value.drops == []
    {
      hide SliceDeque.Valid, SliceDeque.Contents, SliceDeque.Owns, SliceDeque.Others, Drain.Valid, ItemIter.Valid;
      hide IntoIter.Valid, IntoIter.Owns, IntoIter.Others, CollectAttempts, Taken;
      ghost var p := replaceWith.pos;
      var collected;
      collected, wasted := SliceDeque.FromIterDefault(drain.deq.os, drain.deq.lay, replaceWith);
      if collected.AllocError? {
        LastTakenFirst(p, wasted);
        return AllocError, wasted;
      }
      CollectAttemptsAre(drain.deq.lay, replaceWith.lower, replaceWith.upper, p, |replaceWith.items|);
      collected.value.GrownAre();
      var rest := new IntoIter(collected.value);
      r := Ok(rest);
    }

    lemma LastTakenFirst(p: nat, wasted: seq<Elem>)
      requires p < replaceWith.pos <= |replaceWith.items|
      requires var last := replaceWith.pos - 1; wasted == [replaceWith.items[last]] + replaceWith.items[p..last]
      ensures Taken(p, false, 0, wasted)
    {
      var last := replaceWith.pos - 1;
      assert replaceWith.items[p..replaceWith.pos] == replaceWith.items[p..last] + [replaceWith.items[last]];
    }

    // Makes room for all items of `rest`, moves them in, and drops the iterator with what it holds.
    method MoveIn(rest: IntoIter) returns (ok: bool)
      requires drain.Valid() && drain.deq.Owns() && drain.lo == drain.hi && 0 < drain.tailLen
      requires drain.deq.len == drain.tailStart && rest.os == drain.deq.os && rest.lay == drain.deq.lay
      requires rest.Valid() && rest.orig == rest.Rest() && rest.drops == [] && rest.mem != drain.deq.buf.mem
      requires rest.Owns() && Held(drain.deq.buf) <= rest.Others()
      modifies drain`placed, drain`tail, drain`tailStart, drain.deq, drain.deq.buf.mem, drain.deq.os, rest
      ensures drain.Valid() && drain.deq.Owns()
      ensures drain.deq.Others() == old(rest.Others()) - old(Held(drain.deq.buf))
      ensures drain.deq.buf.mem == old(drain.deq.buf.mem) || fresh(drain.deq.buf.mem)
      ensures drain.deq.os.Refusals() == old(drain.deq.os.Refusals()) + (if ok then 0 else 1)
      ensures drain.placed == old(drain.placed) + (if ok then rest.orig else [])
      ensures rest.drops == if ok then [] else rest.orig
      ensures drain.deq.drops == old(drain.deq.drops) + rest.drops
      ensures !ok ==> rest.orig != []
      ensures RestMoved(drain.deq.os.fill, drain.deq.lay, old(drain.deq.Grown()), 0,
                        old(drain.tailStart) + drain.tailLen + |rest.orig|, old(drain.tailStart), old(drain.tail),
                        ok, drain.deq.Grown(), drain.tail)
    {
      hide SliceDeque.Valid, Drain.Valid, Drain.TailInPlace, IntoIter.Valid, Capacity, Held, RestMoved;
      ok := FillAll(rest);
      LedgerKept(old(rest.Others()), old(Held(drain.deq.buf)), old(drain.deq.os.live),
                 Held(Buffer(rest.mem, 2 * rest.cap)), drain.deq.os.live, Held(drain.deq.buf));
      rest.Drop();
      drain.DropItems(rest.drops);
    }

    method FillAll(rest: IntoIter) returns (ok: bool)
      requires drain.Valid() && drain.deq.Owns() && drain.lo == drain.hi && 0 < drain.tailLen
      requires drain.deq.len == drain.tailStart && rest.os == drain.deq.os && rest.lay == drain.deq.lay
      requires rest.Valid() && rest.orig == rest.Rest() && rest.mem != drain.deq.buf.mem
      modifies drain`placed, drain`tail, drain`tailStart, drain.deq, drain.deq.buf.mem, drain.deq.os, rest`ptr, rest`lo
      ensures drain.Valid() && drain.deq.Owns() && drain.deq.Others() == old(drain.deq.Others())
      ensures drain.deq.buf.mem == old(drain.deq.buf.mem) || fresh(drain.deq.buf.mem)
      ensures drain.deq.os.Refusals() == old(drain.deq.os.Refusals()) + (if ok then 0 else 1)
      ensures rest.Valid() && rest.Rest() == (if ok then [] else rest.orig)
      ensures drain.placed == old(drain.placed) + (if ok then rest.orig else [])
      ensures drain.deq.drops == old(drain.deq.drops)
      ensures !ok ==> rest.orig != []
      ensures RestMoved(drain.deq.os.fill, drain.deq.lay, old(drain.deq.Grown()), 0,
                        old(drain.tailStart) + drain.tailLen + |rest.orig|, old(drain.tailStart), old(drain.tail),
                        ok, drain.deq.Grown(), drain.tail)
    {
      hide SliceDeque.Valid, Drain.Valid, Drain.TailInPlace, IntoIter.Valid, Capacity, FreshSlots, Held;
      hide SliceDeque.Owns, SliceDeque.Others;
      ok := true;
      ghost var was := drain.placed;
      rest.SizeHintIsExact();
      var n := rest.SizeHint();
      if n > 0 {
        ok := drain.MoveTailUnchecked(n);
        if ok {
          var filled := drain.FillFrom(rest);
        }
      }
      assert was + [] == was;
    }

    // While `held` was exchanged for `held'`, another mapping `rest` came and stayed.
    lemma LedgerKept<T>(before: set<T>, held: set<T>, live: set<T>, rest: set<T>, live': set<T>, held': set<T>)
      requires held <= before && rest <= live && live - rest == before
      requires held' <= live' && live' - held' == live - held
      ensures rest <= live' && held' <= live' - rest && live' - rest - held' == before - held
    {
      assert forall m | m in rest :: m in live - held;
      assert live' - rest - held' == live' - held' - rest;
      assert live - held - rest == live - rest - held;
    }
  }

  // Pages as elements, a full deque of two, two items for the first one and an exact hint: the
  // second element is not carried over, and what takes its place is what a new mapping holds.
  method SpliceLosesTheTail(a: Elem, b: Elem, x: Elem, y: Elem) returns (d: SliceDeque)
    requires |a| == |b| == |x| == |y| == 4096
    ensures d.Valid() && d.Contents() == [x, y, seq(4096, _ => 0)]
  {
    hide SliceDeque.Valid, SliceDeque.Contents;
    var os := new Os(_ => true, (_, _) => 0);
    d := TwoPages(os, a, b);
    SpliceFirst(d, x, y);
  }

  method TwoPages(os: Os, a: Elem, b: Elem) returns (d: SliceDeque)
    requires |a| == |b| == 4096 && os.Generous()
    modifies os
    ensures fresh(d) && fresh(d.buf.mem) && d.Valid() && d.Owns() && d.os == os && d.lay == Layout(4096, 8, 4096)
    ensures d.Contents() == [a, b] && d.len == d.Capacity() == 2
  {
    hide SliceDeque.Valid, Capacity, GrowthCost;
    PagesFill();
    var empty := SliceDeque.WithCapacity(os, Layout(4096, 8, 4096), 2);
    d := empty.value;
    var first := d.TryPushBack(a);
    var second := d.TryPushBack(b);
  }

  method SpliceFirst(d: SliceDeque, x: Elem, y: Elem)
    requires d.Valid() && d.Owns() && d.lay == Layout(4096, 8, 4096) && d.len == d.Capacity() == 2
    requires |x| == |y| == 4096 && d.os.Generous() && forall n, p :: d.os.fill(n, p) == 0
    modifies d, d.buf.mem, d.os
    ensures d.Valid() && d.Contents() == [x, y, seq(4096, _ => 0)]
  {
    hide SliceDeque.Valid, SliceDeque.Contents, SliceDeque.Owns, SliceDeque.Others, SliceDeque.Grown, ItemIter.Valid;
    hide Drain.Valid, Drain.Unstarted, Splice.Appended, Splice.Halted, TailAfter, SpliceGrowth, StuckAt, HintedGrowth;
    hide HintedTail, Fits, MustAllocate, CollectAttempts, Extending, Capacity;
    ghost var c := d.Contents();
    d.ContentsAre();
    var left := (n: nat) => if n < 2 then 2 - n else 0;
    var it := new ItemIter(4096, [x, y], left, n => Some(left(n)));
    var splice := new Splice(d, 0, 1, it);
    ghost var q, n := splice.Asked(), d.os.attempts;
    var ok, placed;
    ghost var wasted;
    ok, placed, wasted := splice.Drop();
    d.os.NeverRefuses();
    PageLost(d.os.fill, n, q, c[1..]);
  }

  lemma PagesFill()
    ensures Capacity(Layout(4096, 8, 4096), 2) == 2
  {}

  lemma PageLost(fill: (nat, nat) -> Byte, n: nat, q: Request, tail: seq<Elem>)
    requires |tail| == 1 && q.(copied := 0, collecting := 0) == Request(2, 2, 1, 2, 1, 0, n, 0)
    requires forall p :: fill(n, p) == 0
    ensures TailAfter(fill, Layout(4096, 8, 4096), q, tail) == [seq(4096, _ => 0)]
  {
    var lay := Layout(4096, 8, 4096);
    var page := FreshSlots(fill, n, lay, 3)[1];
    assert page == seq(4096, _ => 0);
  }
}
