/** A file's extent items, what they read, and what they name: the state the clone,
    copy-on-write and defragment paths edit. A byte read is symbolic: zero, or one
    place inside one extent. */
module FileItems {
  import opened Base
  import opened Keyed

  datatype Kind = Inline | Regular | Prealloc

  /** What every part cut from an item keeps: whether its extent is compressed,
      whether it is encrypted or otherwise encoded, and its remaining fields. */
  datatype Attributes = Attributes(packed: bool, encoded: bool, rest: nat)

  /** An `EXTENT_DATA` item: file bytes `[start, start + num)` are the bytes of the
      extent at `bytenr` from `offset` on; `bytenr` zero is a hole. */
  datatype Item = Item(start: nat, num: nat, bytenr: nat, offset: nat, kind: Kind, attrs: Attributes) {
    function End(): nat { start + num }

    predicate Names(b: nat) { kind != Inline && bytenr == b && b != 0 }

    /** The file offset the extent's first byte would sit at, as the extent's
        reference records it: a 64-bit subtraction, which wraps. */
    function RefOffset(): (r: nat) { (start - offset) % U64_SPAN }
  }

  datatype Cell = Zero | Byte(bytenr: nat, at: nat, attrs: Attributes)

  /** What one item alone says is at `p`. */
  function CellOf(it: Item, p: int): Cell {
    if !(it.start <= p < it.End()) || it.kind == Prealloc || (it.kind == Regular && it.bytenr == 0) then Zero
    else Byte(it.bytenr, it.offset + (p - it.start), it.attrs)
  }

  /** What the file reads at `p`: a buffer of zeros, over which each item is copied. */
  function Read(items: seq<Item>, p: int): Cell {
    if items == [] then Zero
    else if CellOf(items[|items|-1], p) != Zero then CellOf(items[|items|-1], p)
    else Read(items[..|items|-1], p)
  }

  /** Key order, no item empty, and no two over one byte. */
  ghost predicate Sorted(items: seq<Item>) {
    && (forall i | 0 <= i < |items| :: items[i].num > 0)
    && (forall i, j | 0 <= i < j < |items| :: items[i].End() <= items[j].start)
  }

  ghost predicate Within(items: seq<Item>, lo: int, hi: int) {
    forall i | 0 <= i < |items| :: lo <= items[i].start && items[i].End() <= hi
  }

  lemma SortedJoin(a: seq<Item>, b: seq<Item>, lo: int, at: int, hi: int)
    requires Sorted(a) && Sorted(b) && Within(a, lo, at) && Within(b, at, hi) && lo <= at <= hi
    ensures Sorted(a + b) && Within(a + b, lo, hi)
  {
  }

  lemma SortedParts(a: seq<Item>, b: seq<Item>)
    requires Sorted(a + b)
    ensures Sorted(a) && Sorted(b)
    ensures forall i, j | 0 <= i < |a| && 0 <= j < |b| :: a[i].End() <= b[j].start
  {
    assert forall i | 0 <= i < |a| :: (a + b)[i] == a[i];
    assert forall j | 0 <= j < |b| :: (a + b)[|a| + j] == b[j];
  }

  lemma {:induction false} ReadJoin(a: seq<Item>, b: seq<Item>, p: int)
    ensures Read(a + b, p) == if Read(b, p) != Zero then Read(b, p) else Read(a, p)
  {
    if b == [] {
      assert a + b == a;
    } else {
      assert (a + b)[..|a + b|-1] == a + b[..|b|-1];
      ReadJoin(a, b[..|b|-1], p);
    }
  }

  // ------------------------------------------------------- cutting at an offset

  /** The part of an item before `at`, and the part from `at` on: the file offset
      and the offset into the extent move together. */
  function Front(it: Item, at: nat): Item
    requires it.start < at
  {
    if it.End() <= at then it else it.(num := at - it.start)
  }

  function Back(it: Item, at: nat): Item
    requires at < it.End()
  {
    if at <= it.start then it else it.(start := at, num := it.End() - at, offset := it.offset + (at - it.start))
  }

  function FrontOf(it: Item, at: nat): seq<Item> { if it.start < at then [Front(it, at)] else [] }

  function BackOf(it: Item, at: nat): seq<Item> { if at < it.End() then [Back(it, at)] else [] }

  function Before(items: seq<Item>, at: nat): seq<Item> {
    if items == [] then [] else Before(items[..|items|-1], at) + FrontOf(items[|items|-1], at)
  }

  function After(items: seq<Item>, at: nat): seq<Item> {
    if items == [] then [] else After(items[..|items|-1], at) + BackOf(items[|items|-1], at)
  }

  /** A part keeps the reference offset of the item it was cut from. */
  lemma CutsKeepReference(it: Item, at: nat)
    ensures it.start < at ==> Front(it, at).RefOffset() == it.RefOffset()
    ensures at < it.End() ==> Back(it, at).RefOffset() == it.RefOffset()
  {
  }

  lemma CutReads(it: Item, at: nat, p: int)
    ensures Read(FrontOf(it, at), p) == if p < at then CellOf(it, p) else Zero
    ensures Read(BackOf(it, at), p) == if at <= p then CellOf(it, p) else Zero
  {
    assert FrontOf(it, at) != [] ==> FrontOf(it, at)[..0] == [];
    assert BackOf(it, at) != [] ==> BackOf(it, at)[..0] == [];
  }

  lemma {:induction false} BeforeReads(items: seq<Item>, at: nat, p: int)
    ensures Read(Before(items, at), p) == if p < at then Read(items, p) else Zero
  {
    hide FrontOf, CellOf;
    if items != [] {
      var init, last := items[..|items|-1], items[|items|-1];
      BeforeReads(init, at, p);
      ReadJoin(Before(init, at), FrontOf(last, at), p);
      CutReads(last, at, p);
    }
  }

  lemma {:induction false} AfterReads(items: seq<Item>, at: nat, p: int)
    ensures Read(After(items, at), p) == if at <= p then Read(items, p) else Zero
  {
    hide BackOf, CellOf;
    if items != [] {
      var init, last := items[..|items|-1], items[|items|-1];
      AfterReads(init, at, p);
      ReadJoin(After(init, at), BackOf(last, at), p);
      CutReads(last, at, p);
    }
  }

  lemma LastSorted(items: seq<Item>, lo: int, hi: int)
    requires Sorted(items) && Within(items, lo, hi) && items != []
    ensures var last := items[|items|-1];
      Sorted(items[..|items|-1]) && Within(items[..|items|-1], lo, last.start) && lo <= last.start < last.End() <= hi
  {
  }

  lemma CutSorted(it: Item, at: nat, hi: int)
    requires it.start < it.End() <= hi
    ensures Sorted(FrontOf(it, at)) && Within(FrontOf(it, at), it.start, hi) && Within(FrontOf(it, at), 0, at)
    ensures Sorted(BackOf(it, at)) && Within(BackOf(it, at), it.start, hi) && Within(BackOf(it, at), at, hi)
  {
  }

  lemma WithinJoin(a: seq<Item>, b: seq<Item>, lo: int, hi: int)
    requires Within(a, lo, hi) && Within(b, lo, hi)
    ensures Within(a + b, lo, hi)
  {
  }

  lemma {:induction false} BeforeSorted(items: seq<Item>, at: nat, lo: nat, hi: int)
    requires Sorted(items) && Within(items, lo, hi) && lo <= hi
    ensures Sorted(Before(items, at)) && Within(Before(items, at), lo, hi) && Within(Before(items, at), 0, at)
  {
    hide Sorted, FrontOf;
    if items != [] {
      var init, last := items[..|items|-1], items[|items|-1];
      LastSorted(items, lo, hi);
      hide Within;
      BeforeSorted(init, at, lo, last.start);
      CutSorted(last, at, hi);
      SortedJoin(Before(init, at), FrontOf(last, at), lo, last.start, hi);
      WithinJoin(Before(init, at), FrontOf(last, at), 0, at);
    } else {
      NoneSorted();
    }
  }

  lemma NoneSorted() ensures Sorted([]) {}

  lemma {:induction false} AfterSorted(items: seq<Item>, at: nat, lo: nat, hi: int)
    requires Sorted(items) && Within(items, lo, hi) && lo <= hi
    ensures Sorted(After(items, at)) && Within(After(items, at), lo, hi) && Within(After(items, at), at, hi)
  {
    hide Sorted, BackOf;
    if items != [] {
      var init, last := items[..|items|-1], items[|items|-1];
      LastSorted(items, lo, hi);
      hide Within;
      AfterSorted(init, at, lo, last.start);
      CutSorted(last, at, hi);
      SortedJoin(After(init, at), BackOf(last, at), lo, last.start, hi);
      assert Within(After(init, at), at, hi) by { WithinWider(After(init, at), at, last.start, hi); }
      WithinJoin(After(init, at), BackOf(last, at), at, hi);
    } else {
      NoneSorted();
    }
  }

  lemma WithinWider(items: seq<Item>, lo: int, mid: int, hi: int)
    requires Within(items, lo, mid) && mid <= hi
    ensures Within(items, lo, hi)
  {
  }

  // --------------------------------------------- items by key, and edits of them

  /** The tree holds items by key; of one inode's extent items, by file offset. */
  function AsMap(items: seq<Item>): map<nat, Item> {
    if items == [] then map[] else
      var last := items[|items|-1];
      AsMap(items[..|items|-1])[last.start := last]
  }

  /** The items in key order, as the tree gives them back. */
  function InOrder(m: map<nat, Item>): seq<Item>
    decreases |m|
  {
    if m == map[] then [] else
      var k := Least(m.Keys);
      assert |m - {k}| < |m| by { assert (m - {k}).Keys == m.Keys - {k}; }
      [m[k]] + InOrder(m - {k})
  }

  lemma {:induction false} AsMapJoin(a: seq<Item>, b: seq<Item>)
    ensures AsMap(a + b) == AsMap(a) + AsMap(b)
  {
    if b == [] {
      assert a + b == a;
    } else {
      assert (a + b)[..|a + b|-1] == a + b[..|b|-1];
      AsMapJoin(a, b[..|b|-1]);
    }
  }

  lemma {:induction false} AsMapKeys(items: seq<Item>, lo: int, hi: int)
    requires Sorted(items) && Within(items, lo, hi)
    ensures forall k | k in AsMap(items) :: lo <= k < hi && AsMap(items)[k].start == k && AsMap(items)[k] in items
    ensures forall i | 0 <= i < |items| :: items[i].start in AsMap(items)
  {
    if items != [] { AsMapKeys(items[..|items|-1], lo, hi); }
  }

  lemma NothingInOrder() ensures InOrder(AsMap([])) == [] {}

  lemma LeastFirst(m: map<nat, Item>, k: nat)
    requires k in m && forall j | j in m :: k <= j
    ensures InOrder(m) == [m[k]] + InOrder(m - {k})
  {
    assert Least(m.Keys) == k;
  }

  lemma RestSorted(items: seq<Item>, hi: int)
    requires Sorted(items) && Within(items, 0, hi) && items != []
    ensures Sorted(items[1..]) && Within(items[1..], items[0].start + 1, hi) && Within(items[1..], 0, hi)
  {
    assert items == [items[0]] + items[1..];
    SortedParts([items[0]], items[1..]);
  }

  lemma OneAsMap(it: Item)
    ensures AsMap([it]) == map[it.start := it]
  {
    assert [it][..0] == [];
  }

  lemma FirstAdded(it: Item, rest: map<nat, Item>)
    requires forall k | k in rest :: it.start < k
    ensures InOrder(map[it.start := it] + rest) == [it] + InOrder(rest)
  {
    var m := map[it.start := it] + rest;
    LeastFirst(m, it.start);
    assert m - {it.start} == rest;
  }

  /** Items in key order come back from the tree as they were put there. */
  lemma {:induction false} OrderRestored(items: seq<Item>, hi: int)
    requires Sorted(items) && Within(items, 0, hi)
    ensures InOrder(AsMap(items)) == items
    decreases |items|
  {
    hide InOrder, Sorted, Within, AsMap;
    if items != [] {
      var first, rest := items[0], items[1..];
      RestSorted(items, hi);
      assert items == [first] + rest;
      AsMapJoin([first], rest);
      OneAsMap(first);
      AsMapKeys(rest, first.start + 1, hi);
      FirstAdded(first, AsMap(rest));
      OrderRestored(rest, hi);
    } else {
      NothingInOrder();
    }
  }

  /** Puts of items in key order. */
  function Puts(items: seq<Item>): map<nat, Edit<Item>> {
    if items == [] then map[] else
      var last := items[|items|-1];
      Puts(items[..|items|-1])[last.start := Put(last)]
  }

  lemma {:induction false} PutsAdd(m: map<nat, Item>, items: seq<Item>)
    ensures Edited(m, Puts(items)) == m + AsMap(items)
  {
    hide Edited;
    if items != [] {
      var init, last := items[..|items|-1], items[|items|-1];
      PutsAdd(m, init);
      assert Puts(items) == Puts(init) + map[last.start := Put(last)];
      EditedTwice(m, Puts(init), map[last.start := Put(last)]);
      PutOne(m + AsMap(init), last.start, last);
      assert (m + AsMap(init))[last.start := last] == m + AsMap(items);
    } else {
      EditedByNone(m);
      assert m + AsMap(items) == m;
    }
  }

  // ------------------------------------------------ what the items name, and count

  /** Whose reference: the inode, and the file offset of the extent's first byte. */
  datatype Owner = Owner(ino: nat, offset: nat)

  function NamesOf(ino: nat, it: Item, b: nat): multiset<Owner> {
    if it.Names(b) then multiset{Owner(ino, it.RefOffset())} else multiset{}
  }

  /** One reference to the extent at `b` for each item that names it. */
  function Naming(ino: nat, items: seq<Item>, b: nat): multiset<Owner> {
    if items == [] then multiset{} else
      Naming(ino, items[..|items|-1], b) + NamesOf(ino, items[|items|-1], b)
  }

  lemma {:induction false} NamingJoin(ino: nat, a: seq<Item>, c: seq<Item>, b: nat)
    ensures Naming(ino, a + c, b) == Naming(ino, a, b) + Naming(ino, c, b)
  {
    if c == [] {
      assert a + c == a;
    } else {
      assert (a + c)[..|a + c|-1] == a + c[..|c|-1];
      NamingJoin(ino, a, c[..|c|-1], b);
    }
  }

  lemma {:induction false} NamingIsOwn(ino: nat, items: seq<Item>, b: nat, o: Owner)
    requires o.ino != ino
    ensures Naming(ino, items, b)[o] == 0
  {
    if items != [] { NamingIsOwn(ino, items[..|items|-1], b, o); }
  }

  /** An inode's `nbytes`: every item with an extent, at its length. */
  function BytesOf(it: Item): nat { if it.kind != Inline && it.bytenr == 0 then 0 else it.num }

  function Counted(items: seq<Item>): nat {
    if items == [] then 0 else Counted(items[..|items|-1]) + BytesOf(items[|items|-1])
  }

  lemma {:induction false} CountedJoin(a: seq<Item>, b: seq<Item>)
    ensures Counted(a + b) == Counted(a) + Counted(b)
  {
    if b == [] {
      assert a + b == a;
    } else {
      assert (a + b)[..|a + b|-1] == a + b[..|b|-1];
      CountedJoin(a, b[..|b|-1]);
    }
  }

  lemma {:induction false} CountedFits(items: seq<Item>, lo: int, hi: int)
    requires Sorted(items) && Within(items, lo, hi) && lo <= hi
    ensures Counted(items) <= hi - lo
  {
    if items != [] { CountedFits(items[..|items|-1], lo, items[|items|-1].start); }
  }
}
