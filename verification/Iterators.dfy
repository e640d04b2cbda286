// An iterator supplied by a caller: finitely many items, and size hints that may be anything.
module Iterators {
  import opened Mirror
  import opened Sequences

  class ItemIter {
    const size: nat  // of an item, in bytes
    const items: seq<Elem>
    const lower: nat -> nat  // hints, by the number of items taken so far
    const upper: nat -> Option<nat>
    var pos: nat

    ghost predicate Valid()
      reads this
      ensures Valid() ==> pos <= |items|
    {
      pos <= |items| && forall x | x in items :: |x| == size
    }

    constructor (size: nat, items: seq<Elem>, lower: nat -> nat, upper: nat -> Option<nat>)
      requires forall x | x in items :: |x| == size
      ensures Valid() && this.size == size && this.items == items && pos == 0
      ensures this.lower == lower && this.upper == upper
    {
      this.size, this.items, this.lower, this.upper, pos := size, items, lower, upper, 0;
    }

    method Next() returns (item: Option<Elem>)
      requires Valid()
      modifies this
      ensures Valid()
      ensures old(pos) < |items| ==> item == Some(items[old(pos)]) && pos == old(pos) + 1
      ensures old(pos) == |items| ==> item == None && pos == old(pos)
      ensures item.Some? ==> |item.value| == size
    {
      if pos == |items| {
        return None;
      }
      item := Some(items[pos]);
      pos := pos + 1;
    }

    function SizeHint(): (hint: (nat, Option<nat>))
      reads this
    {
      (lower(pos), upper(pos))
    }

    lemma SizeHintIs()
      ensures SizeHint() == (lower(pos), upper(pos))
    {}
  }
}
