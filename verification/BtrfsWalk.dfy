/** The ranged in-order walk of a btrfs tree: pruning by key bounds loses nothing. */
module BtrfsWalk {

  datatype Key = Key(obj: nat, typ: nat, off: nat)

  /** Tuple order on (obj, typ, off). */
  predicate Less(a: Key, b: Key) {
    a.obj < b.obj || (a.obj == b.obj && (a.typ < b.typ || (a.typ == b.typ && a.off < b.off)))
  }

  /** The order of the tuples (obj, typ, off): the first difference decides. */
  lemma FirstDifferenceDecides(a: Key, b: Key)
    ensures a.obj != b.obj ==> (Less(a, b) <==> a.obj < b.obj)
    ensures a.obj == b.obj && a.typ != b.typ ==> (Less(a, b) <==> a.typ < b.typ)
    ensures a.obj == b.obj && a.typ == b.typ ==> (Less(a, b) <==> a.off < b.off)
    ensures AtMost(a, b) <==> a == b || Less(a, b)
  {
  }

  predicate AtMost(a: Key, b: Key) {
    !Less(b, a)
  }

  datatype Bound = Unbounded | At(key: Key)

  datatype Item = Item(key: Key, body: seq<nat>)

  datatype Pointer = Pointer(key: Key, child: nat)

  datatype Block = Leaf(items: seq<Item>) | Node(pointers: seq<Pointer>)

  type Disk = map<nat, Block>

  /** Keys from `low` up to but not including `high`. */
  predicate Within(key: Key, low: Bound, high: Bound) {
    (low.At? ==> AtMost(low.key, key)) && (high.At? ==> Less(key, high.key))
  }

  /** Keys from `min` to `max`, both included: the range a walk asks for. */
  predicate Selected(key: Key, min: Bound, max: Bound) {
    (min.At? ==> AtMost(min.key, key)) && (max.At? ==> AtMost(key, max.key))
  }

  /** Neither before the lower bound nor behind the upper one. */
  lemma SelectedMeans(key: Key, min: Bound, max: Bound)
    ensures Selected(key, min, max) <==>
            (min.At? ==> key == min.key || Less(min.key, key)) && (max.At? ==> key == max.key || Less(key, max.key))
  {
  }

  /** The keys of child `i` end where the next pointer's begin. */
  function ChildHigh(pointers: seq<Pointer>, i: nat, high: Bound): Bound {
    if i + 1 < |pointers| then At(pointers[i + 1].key) else high
  }

  predicate Ordered(keys: seq<Key>) {
    forall i, j :: 0 <= i < j < |keys| ==> AtMost(keys[i], keys[j])
  }

  function Keys(items: seq<Item>): seq<Key> {
    seq(|items|, i requires 0 <= i < |items| => items[i].key)
  }

  function PointerKeys(pointers: seq<Pointer>): seq<Key> {
    seq(|pointers|, i requires 0 <= i < |pointers| => pointers[i].key)
  }

  predicate AllWithin(keys: seq<Key>, low: Bound, high: Bound) {
    forall i :: 0 <= i < |keys| ==> Within(keys[i], low, high)
  }

  /** A well-ordered tree of at most `height` levels of nodes with all keys in [low, high). */
  ghost predicate IsTree(disk: Disk, root: nat, height: nat, low: Bound, high: Bound)
    decreases height, 0
  {
    root in disk &&
    match disk[root]
    case Leaf(items) => AllWithin(Keys(items), low, high) && Ordered(Keys(items))
    case Node(pointers) =>
      && height > 0
      && AllWithin(PointerKeys(pointers), low, high)
      && AreTrees(disk, pointers, height - 1, high)
  }

  /** The pointers of a node: ordered, each over a tree that ends where the next pointer begins. */
  ghost predicate AreTrees(disk: Disk, pointers: seq<Pointer>, height: nat, high: Bound)
    decreases height, 1
  {
    && Ordered(PointerKeys(pointers))
    && AllWithin(PointerKeys(pointers), Unbounded, high)
    && forall i :: 0 <= i < |pointers| ==>
         IsTree(disk, pointers[i].child, height, At(pointers[i].key), ChildHigh(pointers, i, high))
  }

  /** Every item of the tree in order: the walk without bounds or pruning. */
  ghost function AllItems(disk: Disk, root: nat, height: nat, low: Bound, high: Bound): seq<Item>
    requires IsTree(disk, root, height, low, high)
    decreases height, 0
  {
    match disk[root]
    case Leaf(items) => items
    case Node(pointers) => ItemsOfFirst(disk, pointers, height - 1, high, |pointers|)
  }

  /** The items below the first `n` pointers. */
  ghost function ItemsOfFirst(disk: Disk, pointers: seq<Pointer>, height: nat, high: Bound, n: nat): seq<Item>
    requires AreTrees(disk, pointers, height, high) && n <= |pointers|
    decreases height, 1, n
  {
    if n == 0 then []
    else
      ItemsOfFirst(disk, pointers, height, high, n - 1) +
      AllItems(disk, pointers[n - 1].child, height, At(pointers[n - 1].key), ChildHigh(pointers, n - 1, high))
  }

  function Filter(items: seq<Item>, min: Bound, max: Bound): seq<Item> {
    if items == [] then []
    else
      var last := |items| - 1;
      Filter(items[..last], min, max) + if Selected(items[last].key, min, max) then [items[last]] else []
  }

  lemma {:induction false} FilterOfSum(a: seq<Item>, b: seq<Item>, min: Bound, max: Bound)
    ensures Filter(a + b, min, max) == Filter(a, min, max) + Filter(b, min, max)
    decreases |b|
  {
    if b == [] {
      assert a + b == a;
    } else {
      var last := |b| - 1;
      FilterOfSum(a, b[..last], min, max);
      assert (a + b)[..|a + b| - 1] == a + b[..last];
    }
  }

  predicate NoneSelected(items: seq<Item>, min: Bound, max: Bound) {
    forall item :: item in items ==> !Selected(item.key, min, max)
  }

  lemma {:induction false} FilterOfNone(items: seq<Item>, min: Bound, max: Bound)
    requires NoneSelected(items, min, max)
    ensures Filter(items, min, max) == []
    decreases |items|
  {
    if items != [] {
      assert items[|items| - 1] in items;
      FilterOfNone(items[..|items| - 1], min, max);
    }
  }

  /** Items kept within bounds. */
  predicate Bounded(items: seq<Item>, low: Bound, high: Bound) {
    forall item :: item in items ==> Within(item.key, low, high)
  }

  /** A tree's keys keep to its bounds. */
  lemma {:induction false} ItemsAreWithin(disk: Disk, root: nat, height: nat, low: Bound, high: Bound)
    requires IsTree(disk, root, height, low, high)
    ensures Bounded(AllItems(disk, root, height, low, high), low, high)
    decreases height, 0
  {
    match disk[root]
    case Leaf(items) =>
      forall item | item in items
        ensures Within(item.key, low, high)
      {
        var i :| 0 <= i < |items| && items[i] == item;
        assert Within(Keys(items)[i], low, high);
      }
    case Node(pointers) =>
      FirstItemsAreWithin(disk, pointers, height - 1, low, high, |pointers|);
  }

  lemma {:induction false} FirstItemsAreWithin(
    disk: Disk, pointers: seq<Pointer>, height: nat, low: Bound, high: Bound, n: nat)
    requires AreTrees(disk, pointers, height, high) && n <= |pointers|
    requires AllWithin(PointerKeys(pointers), low, high)
    ensures Bounded(ItemsOfFirst(disk, pointers, height, high, n), low, high)
    decreases height, 1, n
  {
    if n > 0 {
      FirstItemsAreWithin(disk, pointers, height, low, high, n - 1);
      ItemsAreWithin(disk, pointers[n - 1].child, height, At(pointers[n - 1].key), ChildHigh(pointers, n - 1, high));
      ChildIsWithin(ChildItems(disk, pointers, height, high, n - 1), pointers, n - 1, low, high);
    }
  }

  /** The items below pointer `i`. */
  ghost function ChildItems(disk: Disk, pointers: seq<Pointer>, height: nat, high: Bound, i: nat): seq<Item>
    requires AreTrees(disk, pointers, height, high) && i < |pointers|
    decreases height, 1, 0
  {
    AllItems(disk, pointers[i].child, height, At(pointers[i].key), ChildHigh(pointers, i, high))
  }

  lemma ChildIsWithin(items: seq<Item>, pointers: seq<Pointer>, i: nat, low: Bound, high: Bound)
    requires i < |pointers| && AllWithin(PointerKeys(pointers), low, high)
    requires Bounded(items, At(pointers[i].key), ChildHigh(pointers, i, high))
    ensures Bounded(items, low, high)
  {
    var keys := PointerKeys(pointers);
    assert Within(keys[i], low, high);
    assert i + 1 < |pointers| ==> Within(keys[i + 1], low, high);
  }

  lemma NoneAbove(items: seq<Item>, low: Key, high: Bound, min: Bound, max: Bound)
    requires Bounded(items, At(low), high) && max.At? && Less(max.key, low)
    ensures NoneSelected(items, min, max)
  {
  }

  lemma NoneBelow(items: seq<Item>, low: Bound, high: Key, min: Bound, max: Bound)
    requires Bounded(items, low, At(high)) && min.At? && AtMost(high, min.key)
    ensures NoneSelected(items, min, max)
  {
  }

  /** The first pruning rule: behind a pointer above the range there is nothing in range. */
  lemma {:induction false} NothingAbove(
    disk: Disk, pointers: seq<Pointer>, height: nat, high: Bound, min: Bound, max: Bound, m: nat, n: nat)
    requires AreTrees(disk, pointers, height, high) && m <= n <= |pointers|
    requires m < |pointers| && max.At? && Less(max.key, pointers[m].key)
    ensures Filter(ItemsOfFirst(disk, pointers, height, high, n), min, max) ==
            Filter(ItemsOfFirst(disk, pointers, height, high, m), min, max)
    decreases n
  {
    if m < n {
      NothingAbove(disk, pointers, height, high, min, max, m, n - 1);
      var keys := PointerKeys(pointers);
      assert m < n - 1 ==> AtMost(keys[m], keys[n - 1]);
      ItemsAreWithin(disk, pointers[n - 1].child, height, At(pointers[n - 1].key), ChildHigh(pointers, n - 1, high));
      NoneAbove(
        ChildItems(disk, pointers, height, high, n - 1), pointers[n - 1].key, ChildHigh(pointers, n - 1, high),
        min, max);
      NothingAdded(disk, pointers, height, high, min, max, n - 1);
    }
  }

  /** The second pruning rule: a subtree whose successor starts at or below the range ends below it. */
  lemma NothingBelow(disk: Disk, pointers: seq<Pointer>, height: nat, high: Bound, min: Bound, max: Bound, i: nat)
    requires AreTrees(disk, pointers, height, high) && i + 1 < |pointers|
    requires min.At? && AtMost(pointers[i + 1].key, min.key)
    ensures Filter(ItemsOfFirst(disk, pointers, height, high, i + 1), min, max) ==
            Filter(ItemsOfFirst(disk, pointers, height, high, i), min, max)
  {
    ItemsAreWithin(disk, pointers[i].child, height, At(pointers[i].key), ChildHigh(pointers, i, high));
    NoneBelow(ChildItems(disk, pointers, height, high, i), At(pointers[i].key), pointers[i + 1].key, min, max);
    NothingAdded(disk, pointers, height, high, min, max, i);
  }

  lemma FirstStep(disk: Disk, pointers: seq<Pointer>, height: nat, high: Bound, min: Bound, max: Bound, i: nat)
    requires AreTrees(disk, pointers, height, high) && i < |pointers|
    ensures Filter(ItemsOfFirst(disk, pointers, height, high, i + 1), min, max) ==
            Filter(ItemsOfFirst(disk, pointers, height, high, i), min, max) +
            Filter(ChildItems(disk, pointers, height, high, i), min, max)
  {
    FilterOfSum(
      ItemsOfFirst(disk, pointers, height, high, i), ChildItems(disk, pointers, height, high, i), min, max);
  }

  lemma NothingAdded(disk: Disk, pointers: seq<Pointer>, height: nat, high: Bound, min: Bound, max: Bound, i: nat)
    requires AreTrees(disk, pointers, height, high) && i < |pointers|
    requires NoneSelected(ChildItems(disk, pointers, height, high, i), min, max)
    ensures Filter(ItemsOfFirst(disk, pointers, height, high, i + 1), min, max) ==
            Filter(ItemsOfFirst(disk, pointers, height, high, i), min, max)
  {
    FirstStep(disk, pointers, height, high, min, max, i);
    FilterOfNone(ChildItems(disk, pointers, height, high, i), min, max);
  }

  lemma LeafTail(items: seq<Item>, min: Bound, max: Bound, i: nat)
    requires i < |items| && max.At? && Less(max.key, items[i].key)
    requires Ordered(Keys(items))
    ensures Filter(items, min, max) == Filter(items[..i], min, max)
  {
    var tail := items[i..];
    forall item | item in tail
      ensures !Selected(item.key, min, max)
    {
      var j :| 0 <= j < |tail| && tail[j] == item;
      assert j > 0 ==> AtMost(Keys(items)[i], Keys(items)[i + j]);
    }
    FilterOfNone(tail, min, max);
    FilterOfSum(items[..i], tail, min, max);
    assert items == items[..i] + tail;
  }

  lemma SumIsAssociative(a: seq<Item>, b: seq<Item>, c: seq<Item>)
    ensures (a + b) + c == a + (b + c)
  {
  }

  /** One ranged walk: the recursion appends to the shared list. */
  class Walk {
    const disk: Disk
    const min: Bound
    const max: Bound
    var out: seq<Item>

    constructor (disk: Disk, min: Bound, max: Bound)
      ensures this.disk == disk && this.min == min && this.max == max && out == []
    {
      this.disk, this.min, this.max := disk, min, max;
      out := [];
    }

    method VisitLeaf(items: seq<Item>)
      requires Ordered(Keys(items))
      modifies this
      ensures out == old(out) + Filter(items, min, max)
    {
      for i := 0 to |items|
        invariant out == old(out) + Filter(items[..i], min, max)
      {
        var key := items[i].key;
        assert items[..i + 1][..i] == items[..i];
        if min.At? && Less(key, min.key) {
          continue;
        }
        if max.At? && Less(max.key, key) {
          LeafTail(items, min, max, i);
          return;
        }
        out := out + [items[i]];
      }
      assert items[..|items|] == items;
    }

    method VisitNode(pointers: seq<Pointer>, ghost height: nat, ghost high: Bound)
      requires AreTrees(disk, pointers, height, high)
      modifies this
      ensures out == old(out) + Filter(ItemsOfFirst(disk, pointers, height, high, |pointers|), min, max)
      decreases height, 1
    {
      for i := 0 to |pointers|
        invariant out == old(out) + Filter(ItemsOfFirst(disk, pointers, height, high, i), min, max)
      {
        if max.At? && Less(max.key, pointers[i].key) {
          NothingAbove(disk, pointers, height, high, min, max, i, |pointers|);
          return;
        }
        if min.At? && i + 1 < |pointers| && AtMost(pointers[i + 1].key, min.key) {
          NothingBelow(disk, pointers, height, high, min, max, i);
          continue;
        }
        FirstStep(disk, pointers, height, high, min, max, i);
        SumIsAssociative(
          old(out), Filter(ItemsOfFirst(disk, pointers, height, high, i), min, max),
          Filter(ChildItems(disk, pointers, height, high, i), min, max));
        Visit(pointers[i].child, height, At(pointers[i].key), ChildHigh(pointers, i, high));
      }
    }

    method Visit(root: nat, ghost height: nat, ghost low: Bound, ghost high: Bound)
      requires IsTree(disk, root, height, low, high)
      modifies this
      ensures out == old(out) + Filter(AllItems(disk, root, height, low, high), min, max)
      decreases height, 0
    {
      match disk[root]
      case Leaf(items) => VisitLeaf(items);
      case Node(pointers) => VisitNode(pointers, height - 1, high);
    }
  }

  /** On every well-ordered tree the ranged walk returns exactly the items in range, in order. */
  method WalkTree(disk: Disk, root: nat, min: Bound, max: Bound, ghost height: nat) returns (out: seq<Item>)
    requires IsTree(disk, root, height, Unbounded, Unbounded)
    ensures out == Filter(AllItems(disk, root, height, Unbounded, Unbounded), min, max)
    ensures min == max == Unbounded ==> out == AllItems(disk, root, height, Unbounded, Unbounded)
  {
    var walk := new Walk(disk, min, max);
    walk.Visit(root, height, Unbounded, Unbounded);
    out := walk.out;
    UnboundedFilterKeepsAll(AllItems(disk, root, height, Unbounded, Unbounded));
  }

  /** What filtering means: the result is a subsequence of the items holding every item in range and no other. */
  lemma {:induction false} FilterSelects(items: seq<Item>, min: Bound, max: Bound) returns (at: seq<nat>)
    ensures |at| == |Filter(items, min, max)|
    ensures forall i :: 0 <= i < |at| ==> at[i] < |items| && Filter(items, min, max)[i] == items[at[i]]
    ensures forall i, j :: 0 <= i < j < |at| ==> at[i] < at[j]
    ensures forall k :: 0 <= k < |items| ==> (k in at <==> Selected(items[k].key, min, max))
    decreases |items|
  {
    if items == [] {
      at := [];
    } else {
      var last := |items| - 1;
      at := FilterSelects(items[..last], min, max);
      assert forall k :: k in at ==> k < last;
      if Selected(items[last].key, min, max) {
        at := at + [last];
      }
    }
  }

  lemma {:induction false} UnboundedFilterKeepsAll(items: seq<Item>)
    ensures Filter(items, Unbounded, Unbounded) == items
    decreases |items|
  {
    if items != [] {
      UnboundedFilterKeepsAll(items[..|items| - 1]);
    }
  }
}
