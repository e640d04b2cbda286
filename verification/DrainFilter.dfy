// An iterator that removes the elements satisfying a predicate, compacting the others in place.
module DrainFilters {
  import opened Mirror
  import opened Sequences
  import opened SliceDeques

  class DrainFilter {
    const deq: SliceDeque
    const oldLen: nat
    const pred: Elem -> bool
    var idx: nat
    var del: nat
    ghost const orig: seq<Elem>  // the contents of the deque before
    ghost var yielded: seq<Elem>

    // The deque is empty meanwhile; its slots hold the elements kept so far and those not yet
    // looked at, which compaction never overwrites.
    ghost predicate Valid()
      reads this, deq, deq.buf.mem
      ensures Valid() ==> deq.Valid() && idx <= oldLen
    {
      && deq.Valid() && deq.len == 0
      && del <= idx <= oldLen == |orig| <= |deq.slots|
      && deq.slots[idx..oldLen] == orig[idx..]
      && deq.slots[..idx - del] == Filter(orig[..idx], Not(pred))
      && yielded == Filter(orig[..idx], pred) && |yielded| == del
    }

    constructor (deq: SliceDeque, pred: Elem -> bool)
      requires deq.Valid()
      modifies deq`len
      ensures Valid() && this.deq == deq && this.pred == pred
      ensures orig == old(deq.Contents()) && yielded == [] && deq.Contents() == []
    {
      this.deq, this.pred, oldLen, idx, del := deq, pred, deq.len, 0, 0;
      orig, yielded := deq.slots[..deq.len], [];
      new;
      hide SliceDeque.Valid;
      deq.MoveTailUnchecked(0 - oldLen);
    }

    method Next() returns (item: Option<Elem>)
      requires Valid()
      modifies `idx, `del, `yielded, deq`slots, deq.buf.mem
      ensures Valid() && old(idx) <= idx
      ensures item.None? ==> idx == oldLen && yielded == old(yielded)
      ensures item.Some? ==> old(idx) < idx && yielded == old(yielded) + [item.value]
    {
      hide *;
      while idx != oldLen
        invariant Valid() && yielded == old(yielded) && old(idx) <= idx
        decreases oldLen - idx
      {
        item := Look();
        if item.Some? {
          return;
        }
      }
      item := None;
    }

    // Looks at one more element: yields it, or moves it down over what has been removed.
    method Look() returns (item: Option<Elem>)
      requires Valid() && idx < oldLen
      modifies `idx, `del, `yielded, deq`slots, deq.buf.mem
      ensures Valid() && idx == old(idx) + 1
      ensures item.None? ==> yielded == old(yielded)
      ensures item.Some? ==> yielded == old(yielded) + [item.value]
    {
      hide SliceDeque.Valid, Filter, Not, CopyWithin;
      var i := idx;
      ghost var s := deq.slots;
      FilterPrefix(orig, i, pred);
      FilterPrefix(orig, i, Not(pred));
      NotIsNegation(pred, orig[i]);
      Looked(s, orig, oldLen, i, i - del);
      idx := idx + 1;
      var v := deq.ReadSlot(i);
      if pred(v) {
        del := del + 1;
        yielded := yielded + [v];
        return Some(v);
      } else if del > 0 {
        deq.CopySlots(i, i - del, 1);
      }
      item := None;
    }

    lemma AllLookedAt()
      requires Valid() && idx == oldLen
      ensures yielded == Filter(orig, pred)
    {
      assert orig[..oldLen] == orig;
    }

    lemma NotIsNegation(p: Elem -> bool, x: Elem)
      ensures Not(p)(x) == !p(x)
    {}

    // One step: slot `i` is still unread, and copying it down to `to` disturbs no later slot.
    lemma Looked(s: seq<Elem>, c: seq<Elem>, n: nat, i: nat, to: nat)
      requires i < n == |c| <= |s| && to <= i && s[i..n] == c[i..]
      ensures s[i] == c[i] && s[i + 1..n] == c[i + 1..]
      ensures s[..i + 1] == s[..i] + [c[i]]
      ensures var t := CopyWithin(s, to, i, 1);
              t[..to + 1] == s[..to] + [c[i]] && t[i + 1..n] == c[i + 1..]
    {
      assert s[i] == s[i..n][0] && s[i + 1..n] == s[i..n][1..];
      assert c[i..][1..] == c[i + 1..];
    }

    // The end of the iterator: the rest is filtered too, and what it yields is dropped. In the end
    // the deque and the items are those of the loop of removals that documents `drain_filter`.
    method Drop() returns (ghost discarded: seq<Elem>)
      requires Valid()
      modifies this, deq`len, deq`slots, deq`drops, deq.buf.mem
      ensures deq.Valid()
      ensures deq.Contents() == Filter(orig, Not(pred))
      ensures deq.drops == old(deq.drops) + discarded
      ensures old(yielded) + discarded == Filter(orig, pred)
      ensures (deq.Contents(), old(yielded) + discarded) == RemoveLoop(orig, 0, pred)
    {
      hide SliceDeque.Valid, Filter, Not, RemoveLoop;
      discarded := Exhaust();
      AllLookedAt();
      assert orig[..oldLen] == orig;
      RemoveLoopFromStart(orig, pred);
      var newLen := oldLen - del;
      deq.MoveTailUnchecked(newLen);
    }

    // Yields and drops all matches that are left.
    method Exhaust() returns (ghost discarded: seq<Elem>)
      requires Valid()
      modifies `idx, `del, `yielded, deq`slots, deq`drops, deq.buf.mem
      ensures Valid() && idx == oldLen
      ensures deq.drops == old(deq.drops) + discarded && yielded == old(yielded) + discarded
    {
      hide *;
      ghost var log, y := deq.drops, yielded;
      discarded := [];
      var item := Next();
      assert log + [] == log && y + [] == y;
      while item.Some?
        invariant Valid()
        invariant item.None? ==> idx == oldLen
        invariant deq.drops == log + discarded
        invariant yielded == y + discarded + (if item.Some? then [item.value] else [])
        decreases oldLen - idx, item.Some?
      {
        DropItem(item.value);
        discarded := discarded + [item.value];
        item := Next();
      }
    }

    method DropItem(ghost item: Elem)
      requires Valid()
      modifies deq`drops
      ensures Valid() && deq.drops == old(deq.drops) + [item]
    {
      deq.ChargeDrops([item]);
    }
  }
}
