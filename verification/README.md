# A verified model of SliceDeque

`SliceDeque` is a double-ended queue that always shows its elements as one contiguous slice. It keeps
them in a physical region of `R` bytes that is mapped twice in a row, so virtual byte `v` is physical
byte `v mod R`. The deque is a pointer into the first mapping and a length; it moves by pointer
arithmetic with one conditional correction by the region size, and it moves elements with raw copies
through the aliased mapping. The size of an element need not divide `R`, so after a wrap elements
start at offsets that are not multiples of their size and may straddle the physical end. The size of
the mapping is never stored: it is recomputed from truncated element counts whenever it is needed.

The project models this from the bytes up and proves that a user sees a plain sequence.

* `Allocation.dfy`: how many bytes are mapped, and that every later recomputation finds that number.
* `Sequences.dfy`: the in-place algorithms as functions on sequences, and their laws.
* `Mirror.dfy`: the double mapping, byte-wise copies through it, and one window of it as a row of slots.
* `Buffer.dfy`: mapping and unmapping through an operating system `Os`. Which attempts to map memory
  succeed, and what a new mapping holds, are inputs that may be anything; `live` is a ledger of the
  mappings not released yet, and unmapping demands a live mapping and exactly its size.
* `Iterators.dfy`: an iterator of a caller, with size hints that may be anything.
* `SliceDeque.dfy`: the class. `slots` is the row of all `capacity` slots from the head on, live or
  not; every raw step is stated on it, and the algorithms are proved on it. `drops` is the log of
  dropped elements, `copied` the number of elements moved by growing.
* `Growing.dfy`: how a deque grows while it takes in items by their size hint, and what a splice asks for.
* `Drain.dfy`, `Splice.dfy`, `DrainFilter.dfy`, `IntoIter.dfy`: the iterators and the states in
  which they hold a deque, with a hole in it and a live tail beyond its length.
* `Model.dfy`: the deque as a sequence with a capacity, and runs of nineteen operations. What the
  surroundings decide about a call (whether it gets memory, how far it gets without, what memory holds
  in a stale slot or behind a lost tail) is its answer.
* `Meaning.dfy`: what every call means to its caller, by contents before and after alone.
* `Conservation.dfy`: what becomes of every element over a run. `Costs.dfy`: capacity and amortised
  growth. `Agreement.dfy`: independence of capacity.
* `Runs.dfy`: a run on the class does what the run of the model does, allocation failures included,
  every refusal being one of the operating system, and every mapping made on the way is released
  exactly once.

## Where the code and its documentation differ

The model follows the code. In three places that is not what the documentation promises; each has a
concrete input that shows it and the exact condition under which the promise holds.

* `insert` in the front half (src/lib.rs:1390-1396) moves the head back by one and then copies `index`
  elements starting at `index` instead of at 1. The result is the documented one, whatever the slot
  before the head holds, exactly when `index <= 1` or `index > len / 2`
  (`InsertMeetsItsDocumentation`, `InsertLosesTheFront`). Otherwise it loses two elements, and the
  stale slot and a copy of another element take their place (`InsertInFront`, `InsertConserves`).
* A splice that has to make room before a non-empty tail (src/lib.rs:2978-2989) goes through
  `reserve_capacity`, which carries over only the elements before the hole (src/lib.rs:588-594). What
  the tail holds then is a function of what the new mappings hold (`TailAfter`). It survives, whatever
  that is, exactly when no such step reallocates; with a lower size hint that is not too high, that is
  when the result fits in the capacity (`TailKeptIffFits`, `HonestHintFits`; `SpliceLosesTheTail` runs
  a splice on a deque whose last element is gone afterwards).
* `shrink_to_fit` copies the elements into a smaller deque, exchanges the two and lets the old one go
  out of scope with its length unchanged (src/lib.rs:1098-1111), and a deque that goes out of scope
  drops its elements (src/lib.rs:2052-2060). So a call that does shrink drops every element once
  while it stays in the deque (`ShrinkDropsWhatItKeeps`).

These three are the only ways in which a run of the nineteen operations can lose or duplicate an
element. No run that shrinks a non-empty deque conserves its elements, and of the runs without the
first two all others do (`ConservedIffNeverShrinks`). Whatever memory holds, a run conserves elements
exactly when, whatever it holds, none of its calls shrinks a non-empty deque, inserts at
`2 <= index <= len / 2`, or reallocates before the tail of a splice. A caller can tell that before each
call from the index, the length, the capacity and the size hint (`ConservedWhateverMemoryHolds`).

## Model

| member | source | states |
|---|---|---|
| `Allocation.NoRequiredAllocationUnits` | src/mirrored/buffer.rs:6-13 | an even, positive number of units that holds the bytes |
| `Allocation.UnitsAreLeast` | src/mirrored/buffer.rs:6-13 | it is the least such number |
| `Allocation.SizeInBytes` | src/mirrored/buffer.rs:110-121 | the size is enough for the elements |
| `Allocation.SizeIsLeast` | src/mirrored/buffer.rs:110-121 | it is the least even positive number of granules that holds the elements |
| `Allocation.SizeIsWholeUnits` | src/mirrored/buffer.rs:144-149 | both halves of a mapping are whole allocation units and aligned |
| `Allocation.SizeRecovered` | src/mirrored/buffer.rs:110-121 | every count between the request and the reported length recomputes the allocated size |
| `Allocation.SizeRoundTrip` | src/mirrored/buffer.rs:144-174 | the reported length, and twice the capacity, both recompute the allocated size, and the capacity fits in one region |
| `Allocation.RecomputationStaysSmall` | src/mirrored/buffer.rs:110-121 | a recomputation needs no intermediate value beyond the allocated size plus one unit |
| `Allocation.CapacityIsClosure` | src/lib.rs:406-438 | rounding a capacity up never lowers it and is idempotent |
| `Allocation.CapacityMonotone` | src/lib.rs:406-438 | rounding a capacity up is monotone |
| `Allocation.CapacityIsLargest` | src/mirrored/buffer.rs:144-155 | the capacity is the largest number of elements that fits in one region |
| `Allocation.CapacityInGranules` | src/mirrored/buffer.rs:144-155 | in granules alone: the capacity is the number of whole elements in the least positive number of granules that holds those asked for |
| `Allocation.PowersOfTwoDivide` | src/mirrored/buffer.rs:133-135 | for powers of two the runtime comparison of alignment and granularity is divisibility |
| `Allocation.GrowPolicy` | src/lib.rs:641-651 | the wanted capacity has room for the additional elements; exactly how much it is, is `GrowPolicyIsLeast` |
| `Allocation.GrowPolicyIsLeast` | src/lib.rs:641-651 | it is the least request with room for what comes that at least doubles whenever it grows |
| `Allocation.GrownCapacityIsLeast` | src/lib.rs:641-651 | the capacity after making room is the least rounded one for any such request |
| `Allocation.LeastGrowthIsUnique` | src/lib.rs:641-651 | which determines it |
| `Mirror.PhysIsMod` | src/lib.rs:41-58 | the two mappings show the physical bytes modulo the region size |
| `Mirror.SlotsNeverAlias` | src/lib.rs:434-438 | all slots lie inside the two mappings and share no physical byte |
| `Mirror.PtrCopy` | src/lib.rs:1384-1396 | a directional byte-by-byte copy inside one window, overlapping or wrapping, is simultaneous assignment |
| `Mirror.PtrCopyNonoverlapping` | src/lib.rs:588-594 | a copy between mappings overwrites exactly the destination bytes |
| `Mirror.PtrWrite` | src/lib.rs:938 | writing an element overwrites exactly its bytes |
| `Mirror.PtrRead` | src/lib.rs:1035 | reading gives the bytes seen through the mappings |
| `Mirror.SlotsImport` | src/lib.rs:588-594 | copying whole slots as bytes is copying slots, whatever the element size |
| `Mirror.HeadMovedForwards` | src/lib.rs:675-691 | one conditional correction is reduction modulo the region, and slots that stay covered keep their elements |
| `Mirror.HeadMovedBackwards` | src/lib.rs:675-691 | the same for moving back |
| `Buffers.Uninitialized` | src/mirrored/buffer.rs:125-157 | a new buffer reports enough elements and its size can be recovered; it has the rounded capacity |
| `Buffers.DropBuffer` | src/mirrored/buffer.rs:160-174 | releases exactly the own mapping, which must be live, with exactly its size |
| `Buffers.CapacityIsFixpoint` | src/mirrored/buffer.rs:144-155 | the capacity of every buffer is a rounded one |
| `SliceDeques.SliceDeque.WithCapacity` | src/lib.rs:406-421 | a new empty deque with the rounded capacity |
| `SliceDeques.SliceDeque.MoveHeadUnchecked` | src/lib.rs:667-712 | the head stays in the region, aligned, moved modulo its size; the slots shift by exactly that many places |
| `SliceDeques.SliceDeque.MoveTailUnchecked` | src/lib.rs:748-760 | only the length changes |
| `SliceDeques.SliceDeque.ReserveCapacity` | src/lib.rs:577-605 | the contents stay; a reallocation rounds the capacity, counts the moved elements, and leaves every slot beyond the live ones as the new mapping had it; a failure changes nothing; no mapping but the own one changes hands |
| `SliceDeques.SliceDeque.Relocate` | src/lib.rs:588-601 | the live elements, and only those, move to the start of the new buffer, and the old mapping is released |
| `SliceDeques.SliceDeque.TryReserve` | src/lib.rs:551-559 | enough room afterwards: nothing changes while there is, and otherwise the capacity is the rounding of the least request that suffices and doubles, of which no other number is one |
| `SliceDeques.SliceDeque.TryPushFront` | src/lib.rs:929-941 | the value comes before the old contents, or memory is out and the value comes back |
| `SliceDeques.SliceDeque.TryPushBack` | src/lib.rs:977-989 | the value comes after the old contents, or memory is out and the value comes back |
| `SliceDeques.SliceDeque.PopFront` | src/lib.rs:1031-1040 | hands back and removes the first element, if any |
| `SliceDeques.SliceDeque.PopBack` | src/lib.rs:1060-1070 | hands back and removes the last element, if any |
| `SliceDeques.SliceDeque.TruncateBack` | src/lib.rs:1131-1146 | keeps the first elements, as many as asked for, and drops exactly the others |
| `SliceDeques.SliceDeque.TruncateFront` | src/lib.rs:1174-1189 | keeps the last elements, as many as asked for, and drops exactly the others |
| `SliceDeques.SliceDeque.Clear` | src/lib.rs:1293-1295 | drops everything |
| `SliceDeques.SliceDeque.Drop` | src/lib.rs:2052-2061 | drops the contents and releases the mapping, with its exact size |
| `SliceDeques.SliceDeque.Append` | src/lib.rs:784-829 | moves the contents of the other deque over, or changes neither |
| `SliceDeques.SliceDeque.SplitOff` | src/lib.rs:1468-1485 | splits the contents over two deques, or changes nothing |
| `SliceDeques.SliceDeque.ShrinkToFit` | src/lib.rs:1091-1111 | keeps the contents and ends at the rounded capacity for them; drops every element when it does shrink |
| `SliceDeques.SliceDeque.Insert` | src/lib.rs:1371-1399 | what both branches make of the contents, given the bytes just before the head, or those at the end of the new mapping if it reallocates |
| `Sequences.InsertMeetsItsDocumentation` | src/lib.rs:1348-1399 | the insertion is the documented one exactly for the first two positions and the back half |
| `Sequences.InsertAsDocumented` | src/lib.rs:1348-1399 | under that condition the result is the old contents with the element in between |
| `Sequences.InsertExposesStale` | src/lib.rs:1390-1396 | otherwise the first element is replaced by what the slot before the head held |
| `Sequences.InsertLosesTheFront` | src/lib.rs:1390-1396 | a concrete insertion that goes wrong |
| `Sequences.InsertInFront` | src/lib.rs:1390-1396 | which two elements such an insertion loses, and which two it counts twice |
| `Sequences.InsertedInFront` | src/lib.rs:1390-1396 | and the whole row of elements it leaves |
| `Sequences.InsertConserves` | src/lib.rs:1348-1399 | an insertion conserves elements for all contents of the stale slot exactly for the first two positions and the back half |
| `SliceDeques.SliceDeque.Remove` | src/lib.rs:1420-1442 | hands back the element and closes the gap, by either branch |
| `SliceDeques.SliceDeque.Retain` | src/lib.rs:1505-1525 | the contents become the order-preserving filter, and a permutation of exactly the rejected elements is dropped |
| `Sequences.RetainStep` | src/lib.rs:1514-1520 | one step of the loop: rejected elements trade places with kept ones and none is lost |
| `Sequences.FilterPartitions` | src/lib.rs:1487-1491 | every element is kept or rejected, never both |
| `SliceDeques.SliceDeque.DedupBy` | src/lib.rs:1578-1666 | the contents become the fold that compares each element, as first argument, with the last kept one, told from the back and from the front; exactly the rest is dropped |
| `Sequences.DedupStep` | src/lib.rs:1648-1661 | one step of the loop by read and write index |
| `Sequences.DedupByEquivalence` | src/lib.rs:1553-1563 | for an equivalence that keeps all but the first of consecutive equal elements |
| `Sequences.DedupIsForward` | src/lib.rs:1648-1661 | the fold from the back is the pass from the front with read and write index |
| `Sequences.DedupSorted` | src/lib.rs:1980-2004 | on a sorted deque it leaves the same elements in strictly increasing order |
| `SliceDeques.SliceDeque.ExtendDesugared` | src/lib.rs:1702-1726 | appends exactly the items, in order, for every size hint, growing as the hints say; it fails only when full, and then keeps the items before the one in hand and drops that one |
| `SliceDeques.SliceDeque.FromIterDefault` | src/lib.rs:2568-2591 | collects exactly the items, in order, for every size hint, with the capacity and cost that the hints make for; after a failure nothing stays mapped and exactly the items taken are dropped |
| `Growing.ExtendingFits` | src/lib.rs:1702-1726 | growing by hints, however wrong, always leaves room for the next item and a rounded capacity |
| `SliceDeques.SliceDeque.RoomByHint` | src/lib.rs:1706-1716 | a full deque makes room for one more element and as many as the upper bound of the hint says, or the lower one without |
| `Growing.RoomIsAsHinted` | src/lib.rs:1706-1716 | the same of the growth that extensions are specified by; the whole deque moves once |
| `Growing.ExactHintsGrowOnce` | src/lib.rs:1702-1726 | with an exact upper bound, or an exact lower one and none, an extension maps memory at most once, when full, and then for all that is to come |
| `Growing.ExactHintsCollectOnce` | src/lib.rs:2574-2586 | with an exact lower bound collecting makes one mapping, of the size of what is collected, and moves nothing |
| `Drains.Drain.constructor` | src/lib.rs:1222-1275 | the deque is cut at the start of the range, which is what leaking the iterator leaves |
| `Drains.Drain.Next` | src/lib.rs:2225-2229 | yields the first unread element of the range |
| `Drains.Drain.NextBack` | src/lib.rs:2238-2242 | yields the last unread element of the range |
| `Drains.Drain.Partition` | src/lib.rs:2225-2243 | under any interleaving, yielded from the front, unread, and reversed yielded from the back make up the range |
| `Drains.Drain.Drop` | src/lib.rs:2247-2264 | drops what is unread and closes the hole with the tail |
| `Drains.Drain.Fill` | src/lib.rs:2955-2975 | fills the hole with items as far as they go, and tells whether it is full |
| `Drains.Drain.MoveTailUnchecked` | src/lib.rs:2978-2989 | makes room before the tail; after a reallocation the tail is what the new mapping holds there |
| `Splices.Splice.NextBack` | src/lib.rs:2887-2892 | yields the last unread element of the range |
| `Splices.Splice.Drop` | src/lib.rs:2902-2946 | the exact contents, tail, capacity and cost for every replacement, hint and content of new mappings, for every failure to allocate too; the documented contents whenever no room-making step reallocates; at most one mapping, of the size of the result, when the lower bound of the hint is exact; unread elements, and items taken but not in place, are dropped, and temporary mappings released |
| `Splices.TailKeptIffFits` | src/lib.rs:2902-2989 | the tail survives for all contents of new mappings exactly when no such step reallocates |
| `Splices.ExactHintMapsOnce` | src/lib.rs:1743-1752 | a splice is optimal when the lower bound of the hint is exact |
| `Growing.HonestHintFits` | src/lib.rs:1745-1752 | with a hint that is not too high, exactly when the tail is empty or the result fits in the capacity |
| `Growing.SpliceHasRoom` | src/lib.rs:2978-2989 | after either step that makes room a splice fits in a rounded capacity |
| `Splices.SpliceLosesTheTail` | src/lib.rs:2978-2989 | a splice run on a deque of pages that loses its tail |
| `DrainFilters.DrainFilter.constructor` | src/lib.rs:1842-1860 | the deque is empty while the iterator lives |
| `DrainFilters.DrainFilter.Next` | src/lib.rs:3016-3040 | yields the next matching element; kept elements move down and no unread slot is overwritten |
| `DrainFilters.DrainFilter.Drop` | src/lib.rs:3051-3058 | after any number of `next` calls, contents and items are those of the documented loop of removals |
| `Sequences.RemoveLoopFilters` | src/lib.rs:1789-1811 | the documented loop of removals, from any index, filters the rest |
| `IntoIters.IntoIter.constructor` | src/lib.rs:2503-2527 | two pointers that enclose the contents; the deque is used up and its mapping taken over |
| `IntoIters.IntoIter.Next` | src/lib.rs:2367-2388 | yields the first element left, also across the boundary of the mappings |
| `IntoIters.IntoIter.NextBack` | src/lib.rs:2407-2425 | yields the last element left |
| `IntoIters.IntoIter.SizeHintIsExact` | src/lib.rs:213-227 | the byte distance of the pointers gives the number of elements left |
| `IntoIters.IntoIter.Drop` | src/lib.rs:2469-2477 | drops what is left and releases the mapping, whose size it finds from twice the capacity |
| `Runs.Perform` | src/lib.rs:929-1860 | each call has on the class the effect and the outcome it has in the model, and leaves the contents and hands back the values that it should, told case by case; it asks for memory exactly when the model says, is denied exactly when that is refused, and stale slots and lost tails hold what memory holds there |
| `Runs.Execute` | src/lib.rs:260-268 | every run refines the run of the model and every call of it means what it should, across wraps and reallocations, with as many denied calls as refusals; the head stays aligned, and all other mappings are left alone |
| `Meaning.StepMeans` | src/lib.rs:929-1860 | a step of the model leaves the contents and hands back the values that each call should, told by first and last elements, prefixes, suffixes, the documented loops and the ends taken from, and refuses exactly the indices out of bounds |
| `Meaning.RunMeans` | src/lib.rs:929-1860 | so does every call of every run |
| `Runs.ExecuteFromNew` | src/lib.rs:76-77 | from a new deque: amortised cost of growing, rounded capacity, and conservation: never with a shrinking call, and without one always unless a call inserts in front or loses a tail |
| `Runs.Live` | src/lib.rs:2050-2062 | from a new deque to its destructor, every mapping is released, and every element that went in is handed back or dropped exactly once under the same condition |
| `Runs.LiveAndMoveOut` | src/lib.rs:2469-2477 | the same when the deque is consumed by an iterator, moved out of from both ends and dropped midway |
| `Runs.ExecuteBoth` | src/lib.rs:50-70 | two deques with the same contents but different layout, capacity and memory hand back the same and hold the same after the same calls, with memory granted, if neither inserts in front or loses a tail |
| `Runs.MoveOutEnds` | src/lib.rs:2367-2425 | under any interleaving from both ends, what `next` took, the rest, and what `next_back` took, reversed, are the deque; the hint counts those left |
| `Sequences.TakeEndsInOrder` | src/lib.rs:2367-2425 | taking from both ends keeps the order, and yields something while something is left |
| `Runs.MoveHeadThereAndBack` | src/lib.rs:667-712 | moving the head and moving it back restores head, length and all slots |
| `Conservation.RunAccounts` | src/lib.rs:1131-1188 | over every run, failed allocations and lost tails included, the elements in the deque, dropped, handed back and lost balance those that went in or count twice, and it is named which ones those are |
| `Conservation.ConservedIffNeverShrinks` | src/lib.rs:1091-1111 | a run that conserves elements never shrinks a non-empty deque; without an insertion in front or a lost tail it conserves them exactly then |
| `Conservation.ConservedWhateverMemoryHolds` | src/lib.rs:2978-2989 | a run conserves elements for all contents of memory exactly when for all of them no call shrinks a non-empty deque, inserts between the third position and the middle, or reallocates before the tail of a splice, the condition being on index, length, capacity and hint |
| `Conservation.TailShowsUnlessFits` | src/lib.rs:2902-2989 | a completed splice leaves the same contents for all contents of new mappings exactly when the tail is empty or no step before it reallocates |
| `Conservation.TailShowsWhenHalted` | src/lib.rs:2902-2989 | the same of one that is refused memory on the way |
| `Conservation.StaleShowsInFront` | src/lib.rs:1371-1399 | an insertion leaves the same contents for all stale slots exactly in the first two positions and the back half |
| `Conservation.ExposesWhen` | src/lib.rs:2902-2989 | the condition on index, length, capacity and hint is that a stale slot or a lost tail gets into the contents |
| `Conservation.ShrinkDropsWhatItKeeps` | src/lib.rs:1091-1111 | a concrete shrinking call that drops what it keeps |
| `Costs.StepStaysReachable` | src/lib.rs:577-605 | contents fit in a rounded capacity, which only shrink_to_fit lowers and nothing it does raises |
| `Costs.RunStaysReachable` | src/lib.rs:577-605 | the same over every run |
| `Costs.GrowthIsAmortised` | src/lib.rs:641-651 | over all runs that neither reserve, shrink nor reallocate before a tail, the elements moved by growing are at most the capacity and at most twice the elements that went in |
| `Agreement.RunsAgree` | src/lib.rs:50-70 | with memory granted, runs on the same contents agree whatever the layout, the capacity and the contents of memory, if neither inserts in front or loses a tail |

## Left out

- Costs.GrowthIsAmortised: says nothing of splices that reallocate before a tail; they ask for no more than they need each time.
- Operating system calls (src/mirrored/linux.rs and its siblings): mapping memory is an operation that may fail, and what a mapping holds is given by attempt and byte.
- Machine overflow: counts and sizes are unbounded; `RecomputationStaysSmall` bounds what recomputing a size needs beyond the mapping, and requests that overflow themselves are not modelled.
- Zero-sized elements and their special-cased pointers: an element has at least one byte.
- Panics and unwinding in closures, `Clone` and `Drop` of elements; closures are pure total functions.
- Range bounds of `drain` and `splice`: they are taken as resolved to a start and an end.
- `unstable` specialisations, `bytes` support, trait glue, macros, `Buffer::clone`.
- Accessors, `swap_remove_*`, `resize`, `remove_item`, `extend_from_slice`: they would add easy members only.
