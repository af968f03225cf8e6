/** The tree a copy-on-write write leaves (src/cow_write.rs): its items each under a key of
    its own, what they read in key order, and when they lie apart. */
module CowTree {
  import opened Base
  import opened FileItems
  import opened Keyed
  import opened Extents
  import opened CowPlan
  import opened CowWrite
  import opened CowHoles

  // --------------------------------------------------------- the tree, item by item

  ghost predicate OwnKeys(m: map<nat, Item>) { forall k | k in m :: m[k].start == k }

  lemma {:induction false} WithoutLeast(m: map<nat, Item>)
    requires OwnKeys(m) && m != map[]
    ensures var k := Least(m.Keys);
      k in m && OwnKeys(m - {k}) && |m - {k}| < |m| && (forall j | j in m - {k} :: k < j) && InOrder(m) == [m[k]] + InOrder(m - {k})
  {
    var k := Least(m.Keys);
    assert (m - {k}).Keys == m.Keys - {k};
    LeastFirst(m, k);
    hide InOrder;
  }

  lemma {:induction false} InOrderHas(m: map<nat, Item>)
    requires OwnKeys(m)
    ensures forall x :: x in InOrder(m) <==> x.start in m && m[x.start] == x
    decreases |m|
  {
    if m != map[] {
      WithoutLeast(m);
      var k := Least(m.Keys);
      hide InOrder;
      InOrderHas(m - {k});
      forall x ensures x in InOrder(m) <==> x.start in m && m[x.start] == x {
        assert x in InOrder(m) <==> x == m[k] || x in InOrder(m - {k});
      }
    }
  }

  lemma {:induction false} InOrderRises(m: map<nat, Item>)
    requires OwnKeys(m)
    ensures forall i, j | 0 <= i < j < |InOrder(m)| :: InOrder(m)[i].start < InOrder(m)[j].start
    decreases |m|
  {
    if m != map[] {
      WithoutLeast(m);
      var k := Least(m.Keys);
      hide InOrder, OwnKeys;
      InOrderRises(m - {k});
      var tail := InOrder(m - {k});
      forall i | 0 <= i < |tail| ensures k < tail[i].start {
        assert tail[i] in tail;
        InOrderHas(m - {k});
      }
      assert m[k].start == k by { InOrderHas(m); assert m[k] in InOrder(m); }
    }
  }

  // ------------------------------------------------------- a list and its tree

  ghost predicate OwnStarts(items: seq<Item>) { forall i, j | 0 <= i < j < |items| :: items[i].start != items[j].start }

  /** Items under keys of their own all stand in the tree. */
  lemma {:induction false} AllStand(items: seq<Item>)
    requires OwnStarts(items)
    ensures forall i | 0 <= i < |items| :: items[i].start in AsMap(items) && AsMap(items)[items[i].start] == items[i]
    ensures forall k | k in AsMap(items) :: AsMap(items)[k] in items && AsMap(items)[k].start == k
  {
    if items != [] { AllStand(items[..|items|-1]); }
  }

  lemma {:induction false} SameMembers(items: seq<Item>)
    requires OwnStarts(items)
    ensures forall x :: x in InOrder(AsMap(items)) <==> x in items
    ensures forall i, j | 0 <= i < j < |InOrder(AsMap(items))| :: InOrder(AsMap(items))[i].start < InOrder(AsMap(items))[j].start
  {
    AllStand(items);
    InOrderHas(AsMap(items));
    InOrderRises(AsMap(items));
    hide InOrder, OwnStarts, AsMap;
    forall x ensures x in InOrder(AsMap(items)) <==> x in items {
      if x in items {
        var i :| 0 <= i < |items| && items[i] == x;
        assert items[i].start in AsMap(items);
      }
    }
  }

  lemma {:induction false} OneEach(items: seq<Item>, x: Item)
    requires OwnStarts(items)
    ensures multiset(items)[x] == if x in items then 1 else 0
  {
    if items != [] {
      var init, last := items[..|items|-1], items[|items|-1];
      assert items == init + [last];
      OneEach(init, x);
      forall i | 0 <= i < |init| ensures init[i] != last { assert items[i].start != items[|items|-1].start; }
    }
  }

  /** The tree in key order holds the same items, each as often. */
  lemma {:induction false} TreePermutes(items: seq<Item>)
    requires OwnStarts(items)
    ensures multiset(InOrder(AsMap(items))) == multiset(items)
  {
    var tree := InOrder(AsMap(items));
    SameMembers(items);
    hide InOrder, AsMap;
    assert OwnStarts(tree);
    forall x: Item ensures multiset(tree)[x] == multiset(items)[x] {
      OneEach(tree, x);
      OneEach(items, x);
    }
  }

  /** The last of one list, taken out of a list of the same items. */
  lemma {:induction false} LastOut(a: seq<Item>, b: seq<Item>) returns (front: seq<Item>, back: seq<Item>)
    requires a != [] && multiset(a) == multiset(b)
    ensures b == front + [a[|a|-1]] + back && multiset(a[..|a|-1]) == multiset(front + back) && |front + back| < |b|
  {
    var last := a[|a|-1];
    assert a == a[..|a|-1] + [last];
    assert last in multiset(b);
    var i :| 0 <= i < |b| && b[i] == last;
    front, back := b[..i], b[i+1..];
    assert b == front + [last] + back;
    assert multiset(b) == multiset(front + back) + multiset{last};
    assert multiset(a[..|a|-1]) == multiset(a) - multiset{last};
  }

  lemma NoneBut(items: seq<Item>)
    requires multiset(items) == multiset{}
    ensures items == []
  {
    assert |multiset(items)| == |items|;
  }

  lemma {:induction false} CountPermuted(a: seq<Item>, b: seq<Item>, p: int)
    requires multiset(a) == multiset(b)
    ensures CountAt(a, p) == CountAt(b, p)
    decreases |a|
  {
    if a == [] {
      NoneBut(b);
    } else {
      var init, last := a[..|a|-1], a[|a|-1];
      var front, back := LastOut(a, b);
      CountPermuted(init, front + back, p);
      CountJoin(front, back, p);
      CountJoin(front, [last], p);
      CountJoin(front + [last], back, p);
      CountSingle(last, p);
    }
  }

  lemma {:induction false} NamingPermuted(ino: nat, a: seq<Item>, c: seq<Item>, b: nat)
    requires multiset(a) == multiset(c)
    ensures Naming(ino, a, b) == Naming(ino, c, b)
    decreases |a|
  {
    if a == [] {
      NoneBut(c);
    } else {
      var init, last := a[..|a|-1], a[|a|-1];
      var front, back := LastOut(a, c);
      NamingPermuted(ino, init, front + back, b);
      assert a == init + [last];
      hide Naming;
      NamingJoin(ino, init, [last], b);
      NamingJoin(ino, front, back, b);
      NamingJoin(ino, front, [last], b);
      NamingJoin(ino, front + [last], back, b);
    }
  }

  /** The tree's items are apart exactly where no two of the list's lie over one byte. */
  lemma {:induction false} TreeApart(items: seq<Item>)
    requires OwnStarts(items) && forall x | x in items :: x.num > 0
    ensures Sorted(InOrder(AsMap(items))) <==> NoneTwiceIn(items)
  {
    var tree := InOrder(AsMap(items));
    SameMembers(items);
    TreePermutes(items);
    hide InOrder, AsMap, Sorted, NoneTwiceIn;
    SortedCounts(items, tree);
    CountsSorted(items, tree);
  }

  lemma SortedCounts(items: seq<Item>, tree: seq<Item>)
    requires multiset(tree) == multiset(items)
    ensures Sorted(tree) ==> NoneTwiceIn(items)
  {
    hide CountAt, Sorted;
    if Sorted(tree) {
      forall p: nat ensures CountAt(items, p) <= 1 {
        SortedCount(tree, p);
        CountPermuted(tree, items, p);
      }
    }
  }

  lemma CountsSorted(items: seq<Item>, tree: seq<Item>)
    requires (forall x :: x in tree <==> x in items) && forall x | x in items :: x.num > 0
    requires forall i, j | 0 <= i < j < |tree| :: tree[i].start < tree[j].start
    ensures NoneTwiceIn(items) ==> Sorted(tree)
  {
    hide CountAt;
    if NoneTwiceIn(items) {
      forall i | 0 <= i < |tree| ensures tree[i].num > 0 { assert tree[i] in tree; }
      forall i, j | 0 <= i < j < |tree| ensures tree[i].End() <= tree[j].start {
        assert tree[i] in tree && tree[j] in tree;
        OneAt(items, tree[j].start, tree[i], tree[j]);
      }
    }
  }

  lemma OneAt(items: seq<Item>, p: nat, x: Item, y: Item)
    requires CountAt(items, p) <= 1 && x in items && y in items && Holds(y, p)
    ensures Holds(x, p) ==> x == y
  {
    if Holds(x, p) { OneOver(items, p, x, y); }
  }

  lemma {:induction false} SomethingReads(a: seq<Item>, b: seq<Item>, p: int)
    requires forall x | x in a :: x in b
    ensures Read(a, p) != Zero ==> Read(b, p) != Zero
  {
    ReadSomewhere(a, p);
    ReadSomewhere(b, p);
    hide Read;
    if Read(a, p) != Zero {
      var c :| c in a && Holds(c, p) && Read(a, p) == CellOf(c, p);
      assert c in b && CellOf(c, p) != Zero;
    }
  }

  /** No two items of the list say what is at `p`. */
  ghost predicate SaysOne(items: seq<Item>, p: int) {
    forall c, d | c in items && d in items && CellOf(c, p) != Zero && CellOf(d, p) != Zero :: c == d
  }

  /** The tree in key order reads what the list does. */
  lemma {:induction false} TreeReads(items: seq<Item>, p: int)
    requires OwnStarts(items) && SaysOne(items, p)
    ensures Read(InOrder(AsMap(items)), p) == Read(items, p)
  {
    var tree := InOrder(AsMap(items));
    SameMembers(items);
    hide InOrder, AsMap, Read, OwnStarts, CellOf;
    SomethingReads(items, tree, p);
    SomethingReads(tree, items, p);
    ReadSomewhere(items, p);
    ReadSomewhere(tree, p);
    if Read(items, p) != Zero {
      var c :| c in items && Holds(c, p) && Read(items, p) == CellOf(c, p);
      var d :| d in tree && Holds(d, p) && Read(tree, p) == CellOf(d, p);
      assert c == d;
    }
  }

  // ------------------------------------------------- the items after a write, by key

  lemma {:induction false} TwiceCounted(items: seq<Item>, p: int, i: nat, j: nat)
    requires i < j < |items| && Holds(items[i], p) && Holds(items[j], p)
    ensures CountAt(items, p) >= 2
  {
    var init := items[..|items|-1];
    if j < |init| { TwiceCounted(init, p, i, j); } else { CountPart(init, p, i); }
  }

  lemma LeftoversSorted(it: Item, t: Target, attrs: Attributes)
    requires Meets(it, t) && t.len > 0
    ensures Sorted(Leftovers(it, t, attrs)) && Within(Leftovers(it, t, attrs), it.start, it.End())
  {
  }

  lemma KeptOneSorted(items: seq<Item>, out: seq<Target>, extents: ExtentTree, attrs: Attributes, it: Item)
    requires Plan(items, out, extents) && it in items
    ensures it.num > 0 && Sorted(KeptOne(it, out, attrs)) && Within(KeptOne(it, out, attrs), it.start, it.End())
  {
    if IsHole(it) && HoleTargetFor(out, it).Some? {
      TargetSome(items, out, extents, HoleTargetFor(out, it).value);
      LeftoversSorted(it, HoleTargetFor(out, it).value, attrs);
    }
  }

  /** What stands of the `n`th item comes after what stands of those before it. */
  lemma {:induction false} OneStands(noHoles: bool, items: seq<Item>, out: seq<Target>, extents: ExtentTree, unit: Pos, attrs: Attributes, n: nat, to: int)
    requires Plan(items, out, extents) && 0 < n <= |items| && items[n-1].End() <= to
    ensures var it := items[n-1];
      var more := if noHoles then if Starts(out, unit, it.start) then [] else [it] else KeptOne(it, out, attrs);
      && Sorted(more) && Within(more, it.start, to)
      && Standing(noHoles, items[..n], out, unit, attrs) == Standing(noHoles, items[..n-1], out, unit, attrs) + more
  {
    var it := items[n-1];
    KeptOneSorted(items, out, extents, attrs, it);
    assert items[..n][..n-1] == items[..n-1] && items[..n][n-1] == it;
    hide Plan, Starts, KeptOne;
  }

  lemma {:induction false} WithinBefore(items: seq<Item>, out: seq<Target>, extents: ExtentTree, n: nat, to: int)
    requires Plan(items, out, extents) && 0 < n <= |items| && Within(items[..n], 0, to)
    ensures 0 <= items[n-1].start <= items[n-1].End() <= to && Within(items[..n-1], 0, items[n-1].start)
  {
    assert items[..n][n-1] == items[n-1];
    assert forall i | 0 <= i < n - 1 :: items[..n-1][i] == items[..n][i] && items[i].End() <= items[n-1].start;
  }

  /** What stands lies in order, as the items did. */
  lemma {:induction false} StandingSorted(noHoles: bool, items: seq<Item>, out: seq<Target>, extents: ExtentTree, unit: Pos, attrs: Attributes,
                                          n: nat, to: int)
    requires Plan(items, out, extents) && n <= |items| && Within(items[..n], 0, to) && 0 <= to
    ensures Sorted(Standing(noHoles, items[..n], out, unit, attrs)) && Within(Standing(noHoles, items[..n], out, unit, attrs), 0, to)
    decreases n
  {
    if n > 0 {
      hide Plan, Sorted, Within, Starts, KeptOne, Standing;
      var it := items[n-1];
      WithinBefore(items, out, extents, n, to);
      StandingSorted(noHoles, items, out, extents, unit, attrs, n - 1, it.start);
      OneStands(noHoles, items, out, extents, unit, attrs, n, to);
      var more := if noHoles then if Starts(out, unit, it.start) then [] else [it] else KeptOne(it, out, attrs);
      SortedJoin(Standing(noHoles, items[..n-1], out, unit, attrs), more, 0, it.start, to);
    } else {
      NothingStands(noHoles, out, unit, attrs);
      assert items[..n] == [];
    }
  }

  lemma NothingStands(noHoles: bool, out: seq<Target>, unit: Pos, attrs: Attributes)
    ensures Standing(noHoles, [], out, unit, attrs) == []
  {
  }

  /** Of the hole's copies an explicit hole meets, the one it is cut around is the first. */
  lemma {:induction false} FirstMet(out: seq<Target>, it: Item, u: Target)
    requires Ascending(out) && u in out && u.hole && Meets(it, u) && forall t | t in out :: t.len > 0
    ensures HoleTargetFor(out, it).Some? && (HoleTargetFor(out, it).value == u || HoleTargetFor(out, it).value.End() <= u.start)
  {
    if !(out[0].hole && Meets(it, out[0])) {
      assert u in out[1..];
      FirstMet(out[1..], it, u);
    } else {
      var i :| 0 <= i < |out| && out[i] == u;
    }
  }

  lemma LeftoverKey(items: seq<Item>, out: seq<Target>, extents: ExtentTree, attrs: Attributes, it: Item, x: Item)
    requires Plan(items, out, extents) && HolesApart(out) && it in items && IsHole(it) && HoleTargetFor(out, it).Some?
    requires x in Leftovers(it, HoleTargetFor(out, it).value, attrs)
    ensures !Targeted(out, x.start)
  {
    var t := HoleTargetFor(out, it).value;
    var k :| 0 <= k < |out| && out[k] == t;
    forall u | u in out ensures u.len > 0 { TargetSome(items, out, extents, u); }
    forall i | 0 <= i < |out| ensures !out[i].Has(x.start) {
      if out[i].Has(x.start) {
        TargetOver(items, out, extents, it, out[i], x.start);
        FirstMet(out, it, out[i]);
        hide Plan, AllFit;
      }
      NoHoleAfter(out, k, i);
    }
  }

  lemma NoHoleAfter(out: seq<Target>, k: nat, i: nat)
    requires HolesApart(out) && Ascending(out) && k < |out| && i < |out| && out[k].hole && out[k].len > 0
    ensures out[i].hole ==> !out[i].Has(out[k].End())
  {
  }

  /** What stands of one item is under no key a copy takes. */
  lemma KeptOneKey(items: seq<Item>, out: seq<Target>, extents: ExtentTree, attrs: Attributes, it: Item, x: Item)
    requires Plan(items, out, extents) && HolesApart(out) && it in items && x in KeptOne(it, out, attrs)
    ensures !Targeted(out, x.start) && Holds(it, x.start)
    ensures !IsHole(x) ==> x == it
  {
    KeptOneSorted(items, out, extents, attrs, it);
    var k :| 0 <= k < |KeptOne(it, out, attrs)| && KeptOne(it, out, attrs)[k] == x;
    if !IsHole(it) {
      ReplacedWhole(items, out, extents, it, it.start);
    } else if HoleTargetFor(out, it).Some? {
      LeftoverKey(items, out, extents, attrs, it, x);
    } else if Targeted(out, it.start) {
      var i :| 0 <= i < |out| && out[i].Has(it.start);
      TargetOver(items, out, extents, it, out[i], it.start);
      assert out[i] in out && Meets(it, out[i]);
    }
  }

  lemma {:induction false} KeptFrom(items: seq<Item>, out: seq<Target>, attrs: Attributes, x: Item) returns (it: Item)
    requires x in Kept(items, out, attrs)
    ensures it in items && x in KeptOne(it, out, attrs)
  {
    hide KeptOne;
    var init, last := items[..|items|-1], items[|items|-1];
    if x in KeptOne(last, out, attrs) { return last; }
    it := KeptFrom(init, out, attrs, x);
  }

  /** What stands is under no key a copy takes, in a byte of an item before; and where it
      is no hole it is that item, none of whose bytes is copied. */
  lemma StandingKey(noHoles: bool, items: seq<Item>, out: seq<Target>, extents: ExtentTree, unit: Pos, attrs: Attributes, x: Item)
    requires Plan(items, out, extents) && HolesApart(out) && x in Standing(noHoles, items, out, unit, attrs)
    ensures !Starts(out, unit, x.start) && exists it :: it in items && Holds(it, x.start)
    ensures !IsHole(x) ==> x in items && forall p | Holds(x, p) :: !Targeted(out, p)
  {
    if noHoles {
      UnreplacedHas(items, out, unit);
      assert x.num > 0 && Holds(x, x.start);
      if !IsHole(x) { StartsReplaced(items, out, extents, unit, x); }
    } else {
      var it := KeptFrom(items, out, attrs, x);
      KeptOneKey(items, out, extents, attrs, it, x);
      if !IsHole(x) { ReplacedWhole(items, out, extents, x, x.start); }
    }
    hide Starts, Standing, Kept, Unreplaced, Targeted, Plan;
    if !IsHole(x) {
      forall p | Holds(x, p) ensures !Targeted(out, p) { ReplacedWhole(items, out, extents, x, p); }
    }
  }

  lemma {:induction false} CopiesOwn(out: seq<Target>, unit: Pos, news: nat -> nat, attrs: Attributes)
    requires Ascending(out)
    ensures OwnStarts(CopiesOf(out, unit, news, attrs))
  {
    var copies := CopiesOf(out, unit, news, attrs);
    CopiesCount(out, unit, news, attrs, 0);
    forall i, j | 0 <= i < j < |copies| ensures copies[i].start != copies[j].start {
      if copies[i].start == copies[j].start {
        assert copies[i] in copies && copies[j] in copies;
        TwiceCounted(copies, copies[i].start, i, j);
        CopiesCount(out, unit, news, attrs, copies[i].start);
      }
    }
  }

  lemma {:induction false} GapsOwn(gaps: seq<(nat, nat)>, attrs: Attributes)
    requires GapsOrdered(gaps)
    ensures OwnStarts(GapItems(gaps, attrs)) && forall x | x in GapItems(gaps, attrs) :: IsHole(x) && Spans(gaps, x.start)
  {
    var items := GapItems(gaps, attrs);
    GapsCount(gaps, attrs, 0);
    GapsHoles(gaps, attrs);
    forall i, j | 0 <= i < j < |items| ensures items[i].start != items[j].start {
      if items[i].start == items[j].start {
        assert items[i] in items && items[j] in items;
        TwiceCounted(items, items[i].start, i, j);
        GapsCount(gaps, attrs, items[i].start);
      }
    }
    forall x | x in items ensures Spans(gaps, x.start) {
      var i :| 0 <= i < |items| && items[i] == x;
      CountPart(items, x.start, i);
      GapsCount(gaps, attrs, x.start);
    }
  }

  lemma {:induction false} GapsHoles(gaps: seq<(nat, nat)>, attrs: Attributes)
    requires forall i | 0 <= i < |gaps| :: gaps[i].0 <= gaps[i].1
    ensures forall x | x in GapItems(gaps, attrs) :: IsHole(x)
  {
    if gaps != [] { GapsHoles(gaps[..|gaps|-1], attrs); }
  }

  lemma OwnJoin(a: seq<Item>, b: seq<Item>)
    requires OwnStarts(a) && OwnStarts(b) && forall x, y | x in a && y in b :: x.start != y.start
    ensures OwnStarts(a + b)
  {
    var all := a + b;
    forall i, j | 0 <= i < j < |all| ensures all[i].start != all[j].start {
      if i < |a| { assert all[i] in a; }
      if j >= |a| { assert all[j] in b; }
    }
  }

  /** A gap recorded starts where no item stands. */
  lemma GapKey(w: Write, items: seq<Item>, out: seq<Target>, gaps: seq<(nat, nat)>, extents: ExtentTree, unit: Pos, p: nat)
    requires Writes(w, items, out, gaps, extents) && Spans(gaps, p)
    ensures !Starts(out, unit, p) && forall it | it in items :: !Holds(it, p)
  {
    GapsClear(w, items, out, gaps, extents, p);
    GapsAreIn(w, items, gaps, p);
  }

  lemma SortedOwn(items: seq<Item>)
    requires Sorted(items)
    ensures OwnStarts(items) && forall x | x in items :: x.num > 0
  {
  }

  lemma InSpan(items: seq<Item>) returns (to: int)
    requires Sorted(items)
    ensures 0 <= to && Within(items, 0, to)
  {
    to := if items == [] then 0 else items[|items|-1].End();
  }

  /** After the write every item is under a key of its own, and none is empty. */
  lemma AfterOwn(w: Write, items: seq<Item>, out: seq<Target>, gaps: seq<(nat, nat)>, unit: Pos, news: nat -> nat, hole: Attributes,
                 data: Attributes, extents: ExtentTree)
    requires Writes(w, items, out, gaps, extents)
    ensures var now := AfterWrite(w.noHoles, items, out, gaps, unit, news, hole, data);
      OwnStarts(now) && forall x | x in now :: x.num > 0
  {
    WritesPlan(w, items, out, gaps, extents);
    HolesFarApart(w, items, out, gaps, extents);
    var to := InSpan(items);
    assert items[..|items|] == items;
    hide Writes, Plan, Standing, CopiesOf, GapItems, Starts, OwnStarts, Sorted, Within, AllFit;
    var left, holes, copies := Standing(w.noHoles, items, out, unit, hole), GapItems(gaps, hole), CopiesOf(out, unit, news, data);
    StandingSorted(w.noHoles, items, out, extents, unit, hole, |items|, to);
    SortedOwn(left);
    CopiesOwn(out, unit, news, data);
    CopiesCount(out, unit, news, data, 0);
    GapsOwn(gaps, hole);
    GapsCount(gaps, hole, 0);
    forall x, y | x in left && y in holes ensures x.start != y.start {
      StandingKey(w.noHoles, items, out, extents, unit, hole, x);
      GapKey(w, items, out, gaps, extents, unit, y.start);
    }
    OwnJoin(left, holes);
    forall x, y | x in left + holes && y in copies ensures x.start != y.start {
      CopiesStart(out, unit, news, data, y.start);
      if x in left { StandingKey(w.noHoles, items, out, extents, unit, hole, x); }
      else { GapKey(w, items, out, gaps, extents, unit, x.start); }
    }
    OwnJoin(left + holes, copies);
  }

  lemma SaysPart(it: Item, p: int)
    requires CellOf(it, p) != Zero
    ensures Holds(it, p) && !IsHole(it)
  {
  }

  /** After the write one item at most says what is at a byte, whatever holes lie over it. */
  lemma AfterSays(w: Write, items: seq<Item>, out: seq<Target>, gaps: seq<(nat, nat)>, unit: Pos, news: nat -> nat, hole: Attributes,
                  data: Attributes, extents: ExtentTree, p: int)
    requires Writes(w, items, out, gaps, extents)
    ensures SaysOne(AfterWrite(w.noHoles, items, out, gaps, unit, news, hole, data), p)
  {
    WritesPlan(w, items, out, gaps, extents);
    HolesFarApart(w, items, out, gaps, extents);
    var left, holes, copies := Standing(w.noHoles, items, out, unit, hole), GapItems(gaps, hole), CopiesOf(out, unit, news, data);
    var now := AfterWrite(w.noHoles, items, out, gaps, unit, news, hole, data);
    assert now == left + holes + copies;
    GapsOwn(gaps, hole);
    CopiesCount(out, unit, news, data, p);
    hide Writes, Standing, CopiesOf, GapItems, AfterWrite, CellOf, Targeted, CountAt, AllFit, IsHole;
    forall c | c in now && CellOf(c, p) != Zero
      ensures Holds(c, p) && if Targeted(out, p) then c in copies else c in items
    {
      SaysPart(c, p);
      if c in copies { CopyHolds(copies, out, unit, news, data, c, p); }
      if c in left { StandingKey(w.noHoles, items, out, extents, unit, hole, c); }
    }
    forall c, d | c in now && d in now && CellOf(c, p) != Zero && CellOf(d, p) != Zero ensures c == d {
      if Targeted(out, p) { OneOver(copies, p, c, d); } else { SameItem(items, c, d, p); }
    }
  }

  lemma CopyHolds(copies: seq<Item>, out: seq<Target>, unit: Pos, news: nat -> nat, attrs: Attributes, c: Item, p: int)
    requires Ascending(out) && copies == CopiesOf(out, unit, news, attrs) && c in copies && Holds(c, p)
    ensures Targeted(out, p)
  {
    var i :| 0 <= i < |copies| && copies[i] == c;
    CountPart(copies, p, i);
    CopiesCount(out, unit, news, attrs, p);
  }
}
