/** Reordering by drag and by keyboard (extensions/storybook/src/drag-reorder.tsx). */
module DragReorder {
  datatype Item = Item(id: string, caption: string)

  /** `findIndex` on ids, looking from `k` on. */
  function FindFrom(items: seq<Item>, id: string, k: nat): (r: int)
    requires k <= |items|
    ensures r == -1 || (k <= r < |items| && items[r].id == id)
    ensures forall i :: k <= i < (if r < 0 then |items| else r) ==> items[i].id != id
    decreases |items| - k
  {
    if k == |items| then -1 else if items[k].id == id then k else FindFrom(items, id, k + 1)
  }

  function FindIndex(items: seq<Item>, id: string): int {
    FindFrom(items, id, 0)
  }

  predicate Distinct(items: seq<Item>) {
    forall i, j :: 0 <= i < j < |items| ==> items[i].id != items[j].id
  }

  predicate Located(items: seq<Item>, k: nat)
    requires k < |items|
  {
    FindIndex(items, items[k].id) == k
  }

  /** Every item is found at its own place. */
  predicate UniqueIds(items: seq<Item>) {
    forall k :: 0 <= k < |items| ==> Located(items, k)
  }

  lemma UniqueIdsMeans(items: seq<Item>)
    ensures UniqueIds(items) <==> Distinct(items)
  {
    if UniqueIds(items) {
      forall i, j | 0 <= i < j < |items| ensures items[i].id != items[j].id {
        assert Located(items, j);
      }
    }
  }

  function Without(items: seq<Item>, k: nat): seq<Item>
    requires k < |items|
  {
    items[..k] + items[k + 1..]
  }

  /** The item at `from` taken out and put back at `to`. */
  function Relocate(items: seq<Item>, from: nat, to: nat): (r: seq<Item>)
    requires from < |items| && to < |items|
    ensures |r| == |items|
  {
    Without(items, from)[..to] + [items[from]] + Without(items, from)[to..]
  }

  function Reordered(items: seq<Item>, source: string, target: string): seq<Item> {
    var from, to := FindIndex(items, source), FindIndex(items, target);
    if from < 0 || to < 0 || from == to then items else Relocate(items, from, to)
  }

  /** The two splices on a copy. */
  method Reorder(items: seq<Item>, source: string, target: string) returns (next: seq<Item>)
    ensures next == Reordered(items, source, target)
  {
    var from := FindIndex(items, source);
    var to := FindIndex(items, target);
    if from < 0 || to < 0 || from == to {
      return items;
    }
    next := items;
    var moved := next[from];
    next := next[..from] + next[from + 1..];
    next := next[..to] + [moved] + next[to..];
  }

  /** One press of a move button. */
  function Move(items: seq<Item>, id: string, offset: int): seq<Item> {
    var target := FindIndex(items, id) + offset;
    if 0 <= target < |items| then Reordered(items, id, items[target].id) else items
  }

  function Repeat<T>(step: T -> T, x: T, times: nat): T
    decreases times
  {
    if times == 0 then x else Repeat(step, step(x), times - 1)
  }

  function MoveBy(id: string, offset: int): seq<Item> -> seq<Item> {
    (items: seq<Item>) => Move(items, id, offset)
  }

  function MoveTimes(items: seq<Item>, id: string, offset: int, times: nat): seq<Item> {
    Repeat(MoveBy(id, offset), items, times)
  }

  // ------------------------------------------------------------- meaning

  /** The result is the only list with the source at the target's old place and the other items
      in their old order. */
  lemma RelocateMeans(items: seq<Item>, from: nat, to: nat, r: seq<Item>)
    requires from < |items| && to < |items|
    ensures r == Relocate(items, from, to) <==>
            |r| == |items| && r[to] == items[from] && Without(r, to) == Without(items, from)
  {
    var rest, result := Without(items, from), Relocate(items, from, to);
    assert Without(result, to) == rest;
    if |r| == |items| && r[to] == items[from] && Without(r, to) == rest {
      assert r == r[..to] + [r[to]] + r[to + 1..];
      assert rest[..to] == r[..to] && rest[to..] == r[to + 1..];
    }
  }

  lemma MultisetWithout(items: seq<Item>, k: nat)
    requires k < |items|
    ensures multiset(Without(items, k)) + multiset{items[k]} == multiset(items)
  {
    assert items == items[..k] + [items[k]] + items[k + 1..];
  }

  lemma RelocatePermutes(items: seq<Item>, from: nat, to: nat)
    requires from < |items| && to < |items|
    ensures multiset(Relocate(items, from, to)) == multiset(items)
  {
    var r := Relocate(items, from, to);
    RelocateMeans(items, from, to, r);
    MultisetWithout(items, from);
    MultisetWithout(r, to);
  }

  /** Whatever the ids, a reorder neither loses nor invents an item. */
  lemma ReorderPermutes(items: seq<Item>, source: string, target: string)
    ensures multiset(Reordered(items, source, target)) == multiset(items)
  {
    var from, to := FindIndex(items, source), FindIndex(items, target);
    if from >= 0 && to >= 0 {
      RelocatePermutes(items, from, to);
    }
  }

  lemma OriginsDiffer(from: nat, to: nat, i: nat, j: nat)
    requires i != j
    ensures Origin(from, to, i) != Origin(from, to, j)
  {
  }

  lemma RelocateDistinct(items: seq<Item>, from: nat, to: nat)
    requires Distinct(items) && from < |items| && to < |items|
    ensures Distinct(Relocate(items, from, to))
  {
    var r := Relocate(items, from, to);
    forall i, j | 0 <= i < j < |r| ensures r[i].id != r[j].id {
      RelocateAt(items, from, to, i);
      RelocateAt(items, from, to, j);
      OriginsDiffer(from, to, i, j);
      DistinctIds(items, Origin(from, to, i), Origin(from, to, j));
    }
  }

  lemma DistinctIds(items: seq<Item>, i: nat, j: nat)
    requires Distinct(items) && i < |items| && j < |items| && i != j
    ensures items[i].id != items[j].id
  {
  }

  lemma RelocateUnique(items: seq<Item>, from: nat, to: nat)
    requires UniqueIds(items) && from < |items| && to < |items|
    ensures UniqueIds(Relocate(items, from, to))
  {
    UniqueIdsMeans(items);
    RelocateDistinct(items, from, to);
    UniqueIdsMeans(Relocate(items, from, to));
  }

  /** Where the item now at `k` came from. */
  function Origin(from: nat, to: nat, k: nat): nat {
    if k == to then from
    else if from <= k < to then k + 1
    else if to < k <= from then k - 1
    else k
  }

  lemma WithoutAt(items: seq<Item>, from: nat, k: nat)
    requires from < |items| && k < |items| - 1
    ensures Without(items, from)[k] == items[if k < from then k else k + 1]
  {
  }

  lemma RelocateAt(items: seq<Item>, from: nat, to: nat, k: nat)
    requires from < |items| && to < |items| && k < |items|
    ensures Origin(from, to, k) < |items| && Relocate(items, from, to)[k] == items[Origin(from, to, k)]
  {
    if k < to {
      WithoutAt(items, from, k);
    } else if k > to {
      WithoutAt(items, from, k - 1);
    }
  }

  /** Item by item: what stands where came from where `Origin` says. */
  predicate Relocated(items: seq<Item>, from: nat, to: nat, r: seq<Item>) {
    |r| == |items| && forall k :: 0 <= k < |items| ==> Originates(items, from, to, r, k)
  }

  predicate Originates(items: seq<Item>, from: nat, to: nat, r: seq<Item>, k: nat) {
    k < |r| && Origin(from, to, k) < |items| && r[k] == items[Origin(from, to, k)]
  }

  lemma RelocatedIsRelocate(items: seq<Item>, from: nat, to: nat, r: seq<Item>)
    requires from < |items| && to < |items|
    ensures Relocated(items, from, to, r) <==> r == Relocate(items, from, to)
  {
    forall k | 0 <= k < |items|
      ensures Originates(items, from, to, Relocate(items, from, to), k)
    {
      RelocateAt(items, from, to, k);
    }
    if Relocated(items, from, to, r) {
      forall k | 0 <= k < |items|
        ensures r[k] == Relocate(items, from, to)[k]
      {
        assert Originates(items, from, to, r, k);
        RelocateAt(items, from, to, k);
      }
    }
  }

  /** Two relocations of one item are one. */
  lemma RelocatedTwice(items: seq<Item>, once: seq<Item>, twice: seq<Item>, from: nat, middle: nat, to: nat)
    requires from < |items| && middle < |items| && to < |items|
    requires Relocated(items, from, middle, once) && Relocated(once, middle, to, twice)
    ensures Relocated(items, from, to, twice)
  {
    forall k | 0 <= k < |items|
      ensures Originates(items, from, to, twice, k)
    {
      assert Originates(once, middle, to, twice, k);
      assert Originates(items, from, middle, once, Origin(middle, to, k));
    }
  }

  lemma RelocateTwice(items: seq<Item>, from: nat, middle: nat, to: nat)
    requires from < |items| && middle < |items| && to < |items|
    ensures Relocate(Relocate(items, from, middle), middle, to) == Relocate(items, from, to)
  {
    var once := Relocate(items, from, middle);
    RelocateMeans(items, from, middle, once);
    RelocateMeans(once, middle, to, Relocate(once, middle, to));
    RelocateMeans(items, from, to, Relocate(once, middle, to));
  }

  lemma ReorderedByIndex(items: seq<Item>, from: nat, to: nat)
    requires UniqueIds(items) && from < |items| && to < |items|
    ensures Reordered(items, items[from].id, items[to].id) == Relocate(items, from, to)
  {
    assert Located(items, from);
    assert Located(items, to);
    if from == to {
      RelocateMeans(items, from, to, items);
    }
  }

  lemma MoveIsRelocate(items: seq<Item>, from: nat, offset: int)
    requires UniqueIds(items) && from < |items| && 0 <= from + offset < |items|
    ensures Move(items, items[from].id, offset) == Relocate(items, from, from + offset)
    ensures UniqueIds(Relocate(items, from, from + offset))
    ensures Relocate(items, from, from + offset)[from + offset] == items[from]
  {
    assert Located(items, from);
    ReorderedByIndex(items, from, from + offset);
    RelocateUnique(items, from, from + offset);
    RelocateMeans(items, from, from + offset, Relocate(items, from, from + offset));
  }

  predicate Apart(from: nat, to: nat, offset: int, times: nat) {
    (offset == 1 && to == from + times) || (offset == -1 && from == to + times)
  }

  lemma ApartStep(from: nat, to: nat, offset: int, times: nat, length: nat)
    requires from < length && to < length && Apart(from, to, offset, times) && times > 0
    ensures 0 <= from + offset < length && Apart(from + offset, to, offset, times - 1)
  {
  }

  /** The item with the id stands at `at` in a list of unique ids. */
  predicate Ready(items: seq<Item>, id: string, length: nat, at: int) {
    |items| == length && 0 <= at < length && items[at].id == id && UniqueIds(items)
  }

  predicate StepCarries(step: seq<Item> -> seq<Item>, id: string, offset: int, length: nat, items: seq<Item>, at: int) {
    Ready(items, id, length, at) && 0 <= at + offset < length ==>
      Ready(step(items), id, length, at + offset) && Relocated(items, at, at + offset, step(items))
  }

  /** Every step relocates the item by the offset. */
  ghost predicate Carries(step: seq<Item> -> seq<Item>, id: string, offset: int, length: nat) {
    forall items, at :: StepCarries(step, id, offset, length, items, at)
  }

  lemma MoveReady(items: seq<Item>, id: string, offset: int, length: nat, at: int)
    requires Ready(items, id, length, at) && 0 <= at + offset < length
    ensures Ready(Move(items, id, offset), id, length, at + offset)
    ensures Move(items, id, offset) == Relocate(items, at, at + offset)
  {
    MoveIsRelocate(items, at, offset);
  }

  lemma MoveStepCarries(id: string, offset: int, length: nat, items: seq<Item>, at: int)
    ensures StepCarries(MoveBy(id, offset), id, offset, length, items, at)
  {
    if Ready(items, id, length, at) && 0 <= at + offset < length {
      MoveReady(items, id, offset, length, at);
      RelocatedIsRelocate(items, at, at + offset, Move(items, id, offset));
    }
  }

  lemma MoveCarries(id: string, offset: int, length: nat)
    ensures Carries(MoveBy(id, offset), id, offset, length)
  {
    forall items, at
      ensures StepCarries(MoveBy(id, offset), id, offset, length, items, at)
    {
      MoveStepCarries(id, offset, length, items, at);
    }
  }

  lemma {:induction false} KeyboardRelocates(step: seq<Item> -> seq<Item>, items: seq<Item>, id: string, from: nat, to: nat,
                                             offset: int, times: nat)
    requires Carries(step, id, offset, |items|) && Ready(items, id, |items|, from)
    requires to < |items| && Apart(from, to, offset, times)
    ensures Relocated(items, from, to, Repeat(step, items, times))
    decreases times
  {
    if times > 0 {
      ApartStep(from, to, offset, times, |items|);
      assert StepCarries(step, id, offset, |items|, items, from);
      KeyboardRelocates(step, step(items), id, from + offset, to, offset, times - 1);
      RelocatedTwice(items, step(items), Repeat(step, step(items), times - 1), from, from + offset, to);
    }
  }

  /** A drag equals as many adjacent keyboard moves, down or up, as the two places are apart. */
  lemma DragEqualsKeyboard(items: seq<Item>, from: nat, to: nat, offset: int, times: nat)
    requires UniqueIds(items) && from < |items| && to < |items| && Apart(from, to, offset, times)
    ensures Reordered(items, items[from].id, items[to].id) == MoveTimes(items, items[from].id, offset, times)
  {
    ReorderedByIndex(items, from, to);
    MoveCarries(items[from].id, offset, |items|);
    KeyboardRelocates(MoveBy(items[from].id, offset), items, items[from].id, from, to, offset, times);
    RelocatedIsRelocate(items, from, to, MoveTimes(items, items[from].id, offset, times));
  }

  /** Dropping the moved item on whatever now stands at its old place restores the list. */
  lemma DragUndone(items: seq<Item>, source: string, target: string)
    requires UniqueIds(items) && FindIndex(items, source) >= 0
    ensures var r := Reordered(items, source, target);
            Reordered(r, source, r[FindIndex(items, source)].id) == items
  {
    var from, to := FindIndex(items, source), FindIndex(items, target);
    if to < 0 || from == to {
      assert Located(items, from);
    } else {
      var r := Relocate(items, from, to);
      RelocateUnique(items, from, to);
      RelocateAt(items, from, to, to);
      ReorderedByIndex(r, to, from);
      RelocateTwice(items, from, to, from);
      RelocateMeans(items, from, from, items);
    }
  }

  /** A move button puts its item as many places further as it says, past the others in their order. */
  lemma MoveLands(items: seq<Item>, at: nat, offset: int, r: seq<Item>)
    requires UniqueIds(items) && at < |items| && 0 <= at + offset < |items|
    ensures r == Move(items, items[at].id, offset) <==>
            |r| == |items| && r[at + offset] == items[at] && Without(r, at + offset) == Without(items, at)
  {
    MoveIsRelocate(items, at, offset);
    RelocateMeans(items, at, at + offset, r);
  }

  /** At the ends it does nothing. */
  lemma MoveStays(items: seq<Item>, at: nat, offset: int)
    requires UniqueIds(items) && at < |items| && !(0 <= at + offset < |items|)
    ensures Move(items, items[at].id, offset) == items
  {
    assert Located(items, at);
  }

  /** For an id that is not listed nothing is moved. */
  lemma MoveUnknown(items: seq<Item>, id: string, offset: int)
    requires forall at :: 0 <= at < |items| ==> items[at].id != id
    ensures Move(items, id, offset) == items
  {
  }
}
