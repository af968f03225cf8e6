/** A copy-on-write write committed (`write_cow_copying` in src/cow_write.rs): the
    references it drops and adds, the bytes its copies hold, and the file it leaves. */
module CowCommit {
  import opened Base
  import opened FileItems
  import opened Cut
  import opened Extents
  import opened Clone
  import opened Replace
  import opened CowPlan
  import opened CowWrite
  import opened CowTree

  // ------------------------------------------------------------- what is given up

  /** The items whose place a copy takes. */
  function MovedBy(items: seq<Item>, out: seq<Target>): seq<Item> {
    if items == [] then [] else
      var it := items[|items|-1];
      MovedBy(items[..|items|-1], out) + if !IsHole(it) && Replaced(it, out) then [it] else []
  }

  /** The reference a target's item holds. */
  function RefOf(t: Target): DataRef { DataRef(t.extentStart, t.extentLen, (t.start - t.extentOffset) % U64_SPAN) }

  function DropsOne(t: Target): seq<DataRef> { if t.hole then [] else [RefOf(t)] }

  function AllDrops(out: seq<Target>): seq<DataRef> {
    if out == [] then [] else AllDrops(out[..|out|-1]) + DropsOne(out[|out|-1])
  }

  /** The references of the targets so marked. */
  function DropsIn(out: seq<Target>, shared: bool): seq<DataRef> {
    if out == [] then [] else
      var t := out[|out|-1];
      DropsIn(out[..|out|-1], shared) + if t.shared == shared then DropsOne(t) else []
  }

  lemma {:induction false} MovedByNone(items: seq<Item>)
    ensures MovedBy(items, []) == []
  {
    if items != [] { MovedByNone(items[..|items|-1]); }
  }

  /** A target that replaces none of the items changes nothing of what they give up. */
  lemma {:induction false} MovedBySame(items: seq<Item>, out: seq<Target>, t: Target)
    requires forall x | x in items && !IsHole(x) :: t.hole || x.start != t.start
    ensures MovedBy(items, out + [t]) == MovedBy(items, out)
  {
    if items != [] {
      var it := items[|items|-1];
      MovedBySame(items[..|items|-1], out, t);
      ReplacedMore(it, out, t);
    }
  }

  lemma {:induction false} ReplacedMore(it: Item, out: seq<Target>, t: Target)
    ensures Replaced(it, out + [t]) <==> Replaced(it, out) || (!t.hole && t.start == it.start)
  {
    assert t in out + [t] && forall u | u in out :: u in out + [t];
  }

  /** Items that start at or after where every target ends are not replaced. */
  lemma {:induction false} MovedByPast(items: seq<Item>, n: nat, out: seq<Target>, limit: nat)
    requires n <= |items| && forall t | t in out :: t.start < limit
    requires forall i | n <= i < |items| :: limit <= items[i].start
    ensures MovedBy(items, out) == MovedBy(items[..n], out)
    decreases |items|
  {
    if |items| > n {
      MovedByPast(items[..|items|-1], n, out, limit);
      assert items[..|items|-1][..n] == items[..n];
    } else {
      assert items[..n] == items;
    }
  }

  lemma DropNames(ino: nat, q: Item, t: Target, extents: ExtentTree, b: nat)
    requires Copies(t, q, extents) && !t.hole && b != 0
    ensures RefsTo(ino, DropsOne(t), b) == Naming(ino, [q], b)
  {
    assert DropsOne(t)[..0] == [];
    OneNaming(ino, q, b);
  }

  lemma {:induction false} DropsNext(ino: nat, init: seq<Target>, t: Target, b: nat)
    ensures RefsTo(ino, AllDrops(init + [t]), b) == RefsTo(ino, AllDrops(init), b) + RefsTo(ino, DropsOne(t), b)
    ensures ItemsNaming(init + [t], b) == ItemsNaming(init, b) + if !t.hole && t.extentStart == b then 1 else 0
    ensures t.hole ==> RefsTo(ino, DropsOne(t), b) == multiset{}
    ensures |RefsTo(ino, DropsOne(t), b)| == if !t.hole && t.extentStart == b then 1 else 0
  {
    var out := init + [t];
    assert out[..|out|-1] == init;
    RefsJoin(ino, AllDrops(init), DropsOne(t), b);
    if !t.hole { assert DropsOne(t)[..0] == []; }
  }

  /** The references dropped are those of the items given up, each once. */
  lemma {:induction false} DropsAreMoved(ino: nat, out: seq<Target>, items: seq<Item>, extents: ExtentTree, b: nat)
    requires Sorted(items) && AllFit(out, PiecesOf(items), extents) && Ascending(out) && b != 0
    ensures RefsTo(ino, AllDrops(out), b) == Naming(ino, MovedBy(items, out), b)
    ensures |RefsTo(ino, AllDrops(out), b)| == ItemsNaming(out, b)
  {
    hide Naming, RefsTo, Sorted, AllFit, Ascending, Replaced, Copies;
    if out == [] {
      MovedByNone(items);
      NoneNamed(ino, b);
      NoneDropped(ino, b);
    } else {
      var init, t := out[..|out|-1], out[|out|-1];
      FitsInit(out, items, extents);
      DropsAreMoved(ino, init, items, extents, b);
      assert out == init + [t];
      DropsNext(ino, init, t, b);
      hide AllDrops, MovedBy, ItemsNaming, DropsOne;
      if t.hole {
        MovedBySame(items, init, t);
      } else {
        var q, j := LastMoved(out, items, extents);
        DropNames(ino, q, t, extents, b);
        NamingJoin(ino, MovedBy(items, init), [q], b);
      }
    }
  }

  lemma NoneDropped(ino: nat, b: nat) ensures RefsTo(ino, AllDrops([]), b) == multiset{} && ItemsNaming([], b) == 0 {}

  lemma {:induction false} FitsInit(out: seq<Target>, items: seq<Item>, extents: ExtentTree)
    requires out != [] && AllFit(out, PiecesOf(items), extents) && Ascending(out)
    ensures AllFit(out[..|out|-1], PiecesOf(items), extents) && Ascending(out[..|out|-1])
  {
  }

  /** The last target's item is the last one given up. */
  lemma {:induction false} LastMoved(out: seq<Target>, items: seq<Item>, extents: ExtentTree) returns (q: Item, j: nat)
    requires out != [] && !out[|out|-1].hole
    requires Sorted(items) && AllFit(out, PiecesOf(items), extents) && Ascending(out)
    ensures j < |items| && items[j] == q && Copies(out[|out|-1], q, extents)
    ensures MovedBy(items, out) == MovedBy(items, out[..|out|-1]) + [q]
  {
    var init, t := out[..|out|-1], out[|out|-1];
    q, j := ItemOf(out, items, extents);
    TargetsBefore(out, items, extents);
    ItemsAround(items, j);
    ReplacedMore(q, init, t);
    assert out == init + [t];
    MovedByOne(items, out, j);
    hide *;
    MovedByPast(items, j, init, t.start);
    MovedByPast(items, j + 1, out, t.End());
    MovedBySame(items[..j], init, t);
  }

  lemma MovedByOne(items: seq<Item>, out: seq<Target>, j: nat)
    requires j < |items|
    ensures MovedBy(items[..j+1], out) == MovedBy(items[..j], out) + if !IsHole(items[j]) && Replaced(items[j], out) then [items[j]] else []
  {
    assert items[..j+1][..j] == items[..j];
  }

  lemma {:induction false} ItemOf(out: seq<Target>, items: seq<Item>, extents: ExtentTree) returns (q: Item, j: nat)
    requires out != [] && !out[|out|-1].hole
    requires Sorted(items) && AllFit(out, PiecesOf(items), extents) && Ascending(out)
    ensures j < |items| && items[j] == q && !IsHole(q) && Copies(out[|out|-1], q, extents)
  {
    PiecesSorted(items);
    assert Fits(out[|out|-1], PiecesOf(items), extents);
    hide Sorted, AllFit, Ascending;
    q :| q in PiecesOf(items) && Copies(out[|out|-1], q, extents);
    j :| 0 <= j < |items| && items[j] == q;
  }

  lemma {:induction false} ItemsAround(items: seq<Item>, j: nat)
    requires Sorted(items) && j < |items|
    ensures forall i | j <= i < |items| :: items[j].start <= items[i].start
    ensures forall i | j + 1 <= i < |items| :: items[j].End() <= items[i].start
    ensures forall x | x in items[..j] :: x.start != items[j].start
  {
  }

  lemma {:induction false} TargetsBefore(out: seq<Target>, items: seq<Item>, extents: ExtentTree)
    requires out != [] && AllFit(out, PiecesOf(items), extents) && Ascending(out)
    ensures forall t | t in out[..|out|-1] :: t.start < out[|out|-1].start
    ensures forall t | t in out :: t.start < out[|out|-1].End()
  {
    forall t | t in out ensures t.start < out[|out|-1].End() && (t in out[..|out|-1] ==> t.start < out[|out|-1].start) {
      var i :| 0 <= i < |out| && out[i] == t;
      assert Fits(out[i], PiecesOf(items), extents) && Fits(out[|out|-1], PiecesOf(items), extents);
      if t in out[..|out|-1] {
        var k :| 0 <= k < |out| - 1 && out[k] == t;
      }
    }
  }

  // --------------------------------------------------- what a plan's marks decide

  /** Whether references to the extent remain when the write's own are dropped. */
  ghost predicate Stays(out: seq<Target>, extents: ExtentTree, b: nat) { ItemsNaming(out, b) < |Held(extents, b)| }

  ghost predicate MarkedBy(out: seq<Target>, all: seq<Target>, extents: ExtentTree) {
    forall i | 0 <= i < |out| && !out[i].hole :: out[i].shared <==> Stays(all, extents, out[i].extentStart)
  }

  lemma {:induction false} DropsSplit(ino: nat, out: seq<Target>, all: seq<Target>, extents: ExtentTree, b: nat)
    requires MarkedBy(out, all, extents)
    ensures RefsTo(ino, DropsIn(out, false), b) == if Stays(all, extents, b) then multiset{} else RefsTo(ino, AllDrops(out), b)
    ensures RefsTo(ino, DropsIn(out, true), b) == if Stays(all, extents, b) then RefsTo(ino, AllDrops(out), b) else multiset{}
  {
    hide Stays, RefsTo;
    if out == [] {
      NoRefsAt(ino, b);
    } else {
      var init, t := out[..|out|-1], out[|out|-1];
      DropsSplit(ino, init, all, extents, b);
      RefsJoin(ino, AllDrops(init), DropsOne(t), b);
      RefsJoin(ino, DropsIn(init, false), if t.shared == false then DropsOne(t) else [], b);
      RefsJoin(ino, DropsIn(init, true), if t.shared == true then DropsOne(t) else [], b);
      NoRefsAt(ino, b);
      DropElsewhere(ino, t, b);
    }
  }

  lemma DropElsewhere(ino: nat, t: Target, b: nat)
    ensures t.hole || t.extentStart != b ==> RefsTo(ino, DropsOne(t), b) == multiset{}
  {
    if !t.hole { assert DropsOne(t)[..0] == []; }
  }

  lemma {:induction false} DropsRecorded(out: seq<Target>, shared: bool, items: seq<Item>, extents: ExtentTree)
    requires AllFit(out, PiecesOf(items), extents) && Sorted(items)
    ensures Recorded(DropsIn(out, shared), extents)
  {
    if out != [] {
      var init, t := out[..|out|-1], out[|out|-1];
      DropsRecorded(init, shared, items, extents);
      assert Fits(t, PiecesOf(items), extents);
      PiecesSorted(items);
      if !t.hole {
        var q :| q in PiecesOf(items) && Copies(t, q, extents);
        assert !IsHole(q);
      }
    }
  }

  /** Released where no reference is left, dropped where one is: each item given up once. */
  lemma {:induction false} DropsSettle(ino: nat, out: seq<Target>, items: seq<Item>, extents: ExtentTree)
    requires Sorted(items) && AllFit(out, PiecesOf(items), extents) && Ascending(out) && Marked(out, extents)
    requires forall b: nat | b != 0 :: |Naming(ino, MovedBy(items, out), b)| <= |Held(extents, b)|
    ensures Settled(ino, MovedBy(items, out), extents, DropsIn(out, false), DropsIn(out, true))
  {
    DropsRecorded(out, false, items, extents);
    DropsRecorded(out, true, items, extents);
    assert MarkedBy(out, out, extents);
    hide Sorted, AllFit, Ascending, Marked, RefsTo, Naming, MovedBy, DropsIn, AllDrops, ItemsNaming, Recorded, MarkedBy;
    forall b: nat | b != 0 ensures SettledAt(ino, MovedBy(items, out), extents, DropsIn(out, false), DropsIn(out, true), b) {
      DropsAreMoved(ino, out, items, extents, b);
      DropsSplit(ino, out, out, extents, b);
    }
  }

  /** The plan's moves, released or dropped by their marks. */
  method DropTargets(out: seq<Target>) returns (releases: seq<DataRef>, unrefs: seq<DataRef>)
    ensures releases == DropsIn(out, false) && unrefs == DropsIn(out, true)
  {
    releases, unrefs := [], [];
    assert out[..0] == [] && out[..|out|] == out;
    for i := 0 to |out|
      invariant releases == DropsIn(out[..i], false) && unrefs == DropsIn(out[..i], true)
    {
      assert out[..i+1][..i] == out[..i];
      if !out[i].hole {
        if out[i].shared { unrefs := unrefs + [RefOf(out[i])]; } else { releases := releases + [RefOf(out[i])]; }
      }
    }
  }

  // ------------------------------------------------------- what the items name then

  lemma {:induction false} HolesName(ino: nat, items: seq<Item>, b: nat)
    requires b != 0 && forall x | x in items :: IsHole(x)
    ensures Naming(ino, items, b) == multiset{}
  {
    if items != [] {
      assert items[|items|-1] in items;
      HolesName(ino, items[..|items|-1], b);
    }
  }

  lemma {:induction false} KeptNames(ino: nat, items: seq<Item>, out: seq<Target>, attrs: Attributes, b: nat)
    requires b != 0
    ensures Naming(ino, Kept(items, out, attrs), b) + Naming(ino, MovedBy(items, out), b) == Naming(ino, items, b)
  {
    hide Naming, Replaced, KeptOne;
    if items == [] {
      NoneNamed(ino, b);
    } else {
      var init, it := items[..|items|-1], items[|items|-1];
      KeptNames(ino, init, out, attrs, b);
      assert items == init + [it];
      NamingJoin(ino, init, [it], b);
      NamingJoin(ino, Kept(init, out, attrs), KeptOne(it, out, attrs), b);
      NamingJoin(ino, MovedBy(init, out), if !IsHole(it) && Replaced(it, out) then [it] else [], b);
      KeptOneNames(ino, it, out, attrs, b);
    }
  }

  lemma KeptOneNames(ino: nat, it: Item, out: seq<Target>, attrs: Attributes, b: nat)
    requires b != 0
    ensures Naming(ino, KeptOne(it, out, attrs), b) + Naming(ino, if !IsHole(it) && Replaced(it, out) then [it] else [], b) == Naming(ino, [it], b)
  {
    NoneNamed(ino, b);
    if IsHole(it) {
      HolesName(ino, [it], b);
      HolesName(ino, KeptOne(it, out, attrs), b);
    }
  }

  /** Left whole, the items that stand name what they did, but for those given up. */
  lemma {:induction false} UnreplacedNames(ino: nat, items: seq<Item>, out: seq<Target>, extents: ExtentTree, unit: Pos, n: nat, b: nat)
    requires b != 0 && Plan(items, out, extents) && n <= |items|
    ensures Naming(ino, Unreplaced(items[..n], out, unit), b) + Naming(ino, MovedBy(items[..n], out), b) == Naming(ino, items[..n], b)
    decreases n
  {
    hide Naming, Replaced, Starts, Plan;
    if n == 0 {
      NoneNamed(ino, b);
    } else {
      var it := items[n-1];
      assert items[..n][..n-1] == items[..n-1] && items[..n] == items[..n-1] + [it];
      UnreplacedNames(ino, items, out, extents, unit, n - 1, b);
      NamingJoin(ino, items[..n-1], [it], b);
      NamingJoin(ino, Unreplaced(items[..n-1], out, unit), if Starts(out, unit, it.start) then [] else [it], b);
      NamingJoin(ino, MovedBy(items[..n-1], out), if !IsHole(it) && Replaced(it, out) then [it] else [], b);
      NoneNamed(ino, b);
      if IsHole(it) { HolesName(ino, [it], b); } else { StartsReplaced(items, out, extents, unit, it); }
    }
  }

  lemma {:induction false} StandingNames(ino: nat, noHoles: bool, items: seq<Item>, out: seq<Target>, extents: ExtentTree, unit: Pos,
                                         attrs: Attributes, b: nat)
    requires b != 0 && Plan(items, out, extents)
    ensures Naming(ino, Standing(noHoles, items, out, unit, attrs), b) + Naming(ino, MovedBy(items, out), b) == Naming(ino, items, b)
  {
    assert items[..|items|] == items;
    hide Naming, Kept, Unreplaced, MovedBy, Plan;
    KeptNames(ino, items, out, attrs, b);
    UnreplacedNames(ino, items, out, extents, unit, |items|, b);
  }

  lemma {:induction false} MovedByAmong(ino: nat, items: seq<Item>, out: seq<Target>, b: nat)
    requires b != 0
    ensures Naming(ino, MovedBy(items, out), b) <= Naming(ino, items, b)
  {
    KeptNames(ino, items, out, Attributes(false, false, 0), b);
  }

  /** A write exchanges the items given up for its copies. */
  lemma {:induction false} WriteExchanges(ino: nat, noHoles: bool, items: seq<Item>, out: seq<Target>, gaps: seq<(nat, nat)>, unit: Pos,
                                          news: nat -> nat, hole: Attributes, data: Attributes, extents: ExtentTree)
    requires Plan(items, out, extents)
    requires forall i | 0 <= i < |gaps| :: gaps[i].0 <= gaps[i].1
    ensures Exchanged(ino, items, MovedBy(items, out), AfterWrite(noHoles, items, out, gaps, unit, news, hole, data), CopiesOf(out, unit, news, data))
  {
    hide Naming, Standing, MovedBy, CopiesOf, GapItems, Plan;
    var left := Standing(noHoles, items, out, unit, hole);
    GapsHoles(gaps, hole);
    forall b: nat | b != 0
      ensures ExchangedAt(ino, items, MovedBy(items, out), AfterWrite(noHoles, items, out, gaps, unit, news, hole, data), CopiesOf(out, unit, news, data), b)
    {
      StandingNames(ino, noHoles, items, out, extents, unit, hole, b);
      HolesName(ino, GapItems(gaps, hole), b);
      NamingJoin(ino, left + GapItems(gaps, hole), CopiesOf(out, unit, news, data), b);
      NamingJoin(ino, left, GapItems(gaps, hole), b);
      MovedByAmong(ino, items, out, b);
    }
  }

  /** After the write the extent tree agrees with every file's items, as it did before;
      and the commit refuses none of what the write drops. */
  lemma {:induction false} WriteAccounted(ino: nat, noHoles: bool, items: seq<Item>, out: seq<Target>, gaps: seq<(nat, nat)>, unit: Pos,
                                          news: nat -> nat, hole: Attributes, data: Attributes, files: Files, extents: ExtentTree)
    requires Accounted(extents, files) && ino in files && files[ino] == items
    requires Sorted(items) && AllFit(out, PiecesOf(items), extents) && Ascending(out) && Marked(out, extents)
    requires (forall i | 0 <= i < |gaps| :: gaps[i].0 <= gaps[i].1) && FreshCopies(CopiesOf(out, unit, news, data), extents)
    ensures RefsFit(ino, extents, DropsIn(out, false), DropsIn(out, true), [])
    ensures Accounted(AfterCopies(ino, extents, DropsIn(out, false), DropsIn(out, true), CopiesOf(out, unit, news, data)),
                      files[ino := AfterWrite(noHoles, items, out, gaps, unit, news, hole, data)])
  {
    var moved, now, copies := MovedBy(items, out), AfterWrite(noHoles, items, out, gaps, unit, news, hole, data), CopiesOf(out, unit, news, data);
    hide Sorted, AllFit, Ascending, Marked, Naming, MovedBy, AfterWrite, CopiesOf, DropsIn, FreshCopies, RefsFit, Settled, Exchanged;
    forall b: nat | b != 0 ensures Naming(ino, moved, b) <= Naming(ino, items, b) && |Naming(ino, moved, b)| <= |Held(extents, b)| {
      assert AccountedAt(extents, files, b);
      MovedByAmong(ino, items, out, b);
      NamedIsHeld(extents, files, ino, b);
      SizeOfPart(Naming(ino, moved, b), Held(extents, b));
    }
    DropsSettle(ino, out, items, extents);
    WriteExchanges(ino, noHoles, items, out, gaps, unit, news, hole, data, extents);
    hide Accounted;
    ReplacedAccounted(ino, items, moved, now, copies, files, extents, DropsIn(out, false), DropsIn(out, true));
    ReplacedFits(ino, items, moved, files, extents, DropsIn(out, false), DropsIn(out, true));
  }
}
