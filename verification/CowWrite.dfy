/** What a planned copy-on-write leaves (src/cow_write.rs): the file's bytes, and, on a
    volume that records its holes, every sector in exactly one item. */
module CowWrite {
  import opened Base
  import opened FileItems
  import opened Keyed
  import opened Cut
  import opened Extents
  import opened CowPlan

  // ------------------------------------------------------------ counting covers

  function CountOne(it: Item, p: int): nat { if Holds(it, p) then 1 else 0 }

  /** How many of the items lie over one byte. */
  function CountAt(items: seq<Item>, p: int): nat {
    if items == [] then 0 else CountAt(items[..|items|-1], p) + CountOne(items[|items|-1], p)
  }

  lemma {:induction false} CountJoin(a: seq<Item>, b: seq<Item>, p: int)
    ensures CountAt(a + b, p) == CountAt(a, p) + CountAt(b, p)
  {
    if b == [] {
      assert a + b == a;
    } else {
      assert (a + b)[..|a + b|-1] == a + b[..|b|-1];
      CountJoin(a, b[..|b|-1], p);
    }
  }

  lemma CountSingle(it: Item, p: int)
    ensures CountAt([it], p) == CountOne(it, p)
  {
    assert [it][..0] == [];
  }

  lemma {:induction false} CountPart(items: seq<Item>, p: int, i: nat)
    requires i < |items| && Holds(items[i], p)
    ensures CountAt(items, p) >= 1
  {
    if i < |items| - 1 { CountPart(items[..|items|-1], p, i); }
  }

  lemma {:induction false} SortedCount(items: seq<Item>, p: int)
    requires Sorted(items)
    ensures CountAt(items, p) <= 1
  {
    if items != [] {
      var init, last := items[..|items|-1], items[|items|-1];
      SortedCount(init, p);
      if Holds(last, p) && CountAt(init, p) > 0 {
        CountedHas(init, p);
      }
    }
  }

  lemma {:induction false} CountedHas(items: seq<Item>, p: int)
    requires CountAt(items, p) > 0
    ensures exists i :: 0 <= i < |items| && Holds(items[i], p)
  {
    var init, last := items[..|items|-1], items[|items|-1];
    if Holds(last, p) {
      assert Holds(items[|items|-1], p);
    } else {
      CountedHas(init, p);
      var i :| 0 <= i < |init| && Holds(init[i], p);
      assert Holds(items[i], p);
    }
  }

  /** No byte lies in two of the items. */
  ghost predicate NoneTwiceIn(items: seq<Item>) { forall p: nat :: CountAt(items, p) <= 1 }

  lemma {:induction false} OneOver(items: seq<Item>, p: nat, x: Item, y: Item)
    requires CountAt(items, p) <= 1 && x in items && y in items && Holds(x, p) && Holds(y, p)
    ensures x == y
  {
    var init, last := items[..|items|-1], items[|items|-1];
    if x in init && y in init {
      OneOver(init, p, x, y);
    } else if x in init {
      var i :| 0 <= i < |init| && init[i] == x;
      CountPart(init, p, i);
    } else if y in init {
      var i :| 0 <= i < |init| && init[i] == y;
      CountPart(init, p, i);
    }
  }

  // -------------------------------------------------------------- the gap's holes

  predicate Spans(gaps: seq<(nat, nat)>, p: int) { exists i :: 0 <= i < |gaps| && gaps[i].0 <= p < gaps[i].1 }

  predicate NoneOver(items: seq<Item>, p: int) { forall i | 0 <= i < |items| :: items[i].kind == Inline || !Holds(items[i], p) }

  ghost predicate GapsFill(items: seq<Item>, gaps: seq<(nat, nat)>, from: nat, to: nat) {
    && (forall i | 0 <= i < |gaps| :: from <= gaps[i].0 < gaps[i].1 <= to)
    && (forall i, j | 0 <= i < j < |gaps| :: gaps[i].1 <= gaps[j].0)
    && (forall p: int | from <= p < to :: Spans(gaps, p) <==> NoneOver(items, p))
  }

  /** How far the items looked at so far reach, from `from` on. */
  ghost predicate Reaches(items: seq<Item>, from: nat, to: nat, covered: nat) {
    && from <= covered
    && (covered == from || exists j :: 0 <= j < |items| && items[j].End() == covered)
    && (forall j | 0 <= j < |items| && items[j].kind != Inline && items[j].start < to :: items[j].End() <= covered)
  }

  lemma PassOver(items: seq<Item>, it: Item, gaps: seq<(nat, nat)>, from: nat, to: nat, covered: nat)
    requires Sorted(items + [it]) && Reaches(items, from, to, covered) && GapsFill(items, gaps, from, MinNat(covered, to))
    requires it.kind == Inline || it.End() <= covered || it.start >= to
    ensures Reaches(items + [it], from, to, covered) && GapsFill(items + [it], gaps, from, MinNat(covered, to))
  {
    ghost var all := items + [it];
    assert forall j | 0 <= j < |items| :: items[j] == all[j] && items[j].End() <= all[|items|].start;
    forall p: int | from <= p < MinNat(covered, to) ensures NoneOver(all, p) == NoneOver(items, p) {
      assert NoneOver(all, p) ==> NoneOver(items, p);
    }
  }

  lemma TakeGap(items: seq<Item>, it: Item, gaps: seq<(nat, nat)>, from: nat, to: nat, covered: nat)
    requires Sorted(items + [it]) && Reaches(items, from, to, covered) && GapsFill(items, gaps, from, MinNat(covered, to))
    requires it.kind != Inline && covered < it.End() && it.start < to
    ensures var more := if it.start > covered then gaps + [(covered, it.start)] else gaps;
      Reaches(items + [it], from, to, it.End()) && GapsFill(items + [it], more, from, MinNat(it.End(), to))
  {
    ghost var all := items + [it];
    var more := if it.start > covered then gaps + [(covered, it.start)] else gaps;
    assert forall j | 0 <= j < |items| :: items[j] == all[j] && items[j].End() <= all[|items|].start;
    assert all[|items|] == it;
    forall p: int | from <= p < MinNat(it.End(), to) ensures Spans(more, p) <==> NoneOver(all, p) {
      GapAt(items, it, gaps, from, to, covered, p);
    }
  }

  lemma GapAt(items: seq<Item>, it: Item, gaps: seq<(nat, nat)>, from: nat, to: nat, covered: nat, p: int)
    requires Sorted(items + [it]) && Reaches(items, from, to, covered) && GapsFill(items, gaps, from, MinNat(covered, to))
    requires it.kind != Inline && covered < it.End() && it.start < to && from <= p < MinNat(it.End(), to)
    ensures var more := if it.start > covered then gaps + [(covered, it.start)] else gaps;
      Spans(more, p) <==> NoneOver(items + [it], p)
  {
    ghost var all := items + [it];
    var more := if it.start > covered then gaps + [(covered, it.start)] else gaps;
    assert forall j | 0 <= j < |items| :: items[j] == all[j] && items[j].End() <= all[|items|].start;
    assert all[|items|] == it;
    assert Spans(more, p) <==> Spans(gaps, p) || covered <= p < it.start by { SpansMore(gaps, covered, it.start, p); }
    assert NoneOver(all, p) <==> NoneOver(items, p) && !Holds(it, p);
    if p >= covered {
      assert !Spans(gaps, p);
      assert NoneOver(items, p);
    } else {
      assert !Holds(it, p);
    }
  }

  lemma SpansMore(gaps: seq<(nat, nat)>, a: nat, b: nat, p: int)
    ensures Spans(gaps + [(a, b)], p) <==> Spans(gaps, p) || a <= p < b
  {
    var more := gaps + [(a, b)];
    assert more[|gaps|] == (a, b);
    if Spans(gaps, p) {
      var i :| 0 <= i < |gaps| && gaps[i].0 <= p < gaps[i].1;
      assert more[i].0 <= p < more[i].1;
    }
  }

  function MinNat(a: nat, b: nat): nat { if a <= b then a else b }

  lemma GapsStart(from: nat, to: nat)
    ensures Reaches([], from, to, from) && GapsFill([], [], from, MinNat(from, to))
  {
  }

  lemma GapsEnd(items: seq<Item>, gaps: seq<(nat, nat)>, from: nat, to: nat, covered: nat)
    requires Sorted(items) && Reaches(items, from, to, covered) && GapsFill(items, gaps, from, MinNat(covered, to))
    ensures GapsFill(items, if covered < to then gaps + [(covered, to)] else gaps, from, to)
  {
    var more := if covered < to then gaps + [(covered, to)] else gaps;
    forall p: int | from <= p < to ensures Spans(more, p) <==> NoneOver(items, p) {
      SpansMore(gaps, covered, to, p);
      if p >= covered {
        assert !Spans(gaps, p);
        assert NoneOver(items, p);
      }
    }
  }

  /** The stretches of `[from, to)` no item covers, a hole item each. */
  method CowGaps(items: seq<Item>, from: nat, to: nat) returns (gaps: seq<(nat, nat)>)
    requires Sorted(items)
    ensures GapsFill(items, gaps, from, to)
  {
    gaps := [];
    var covered: nat := from;
    GapsStart(from, to);
    hide Sorted, Reaches, GapsFill;
    assert items[..0] == [];
    for i := 0 to |items|
      invariant Reaches(items[..i], from, to, covered)
      invariant GapsFill(items[..i], gaps, from, MinNat(covered, to))
    {
      var it := items[i];
      assert items[..i+1] == items[..i] + [it];
      SortedParts(items[..i+1], items[i+1..]) by { assert items[..i+1] + items[i+1..] == items; }
      if it.kind == Inline || it.End() <= covered || it.start >= to {
        PassOver(items[..i], it, gaps, from, to, covered);
        continue;
      }
      TakeGap(items[..i], it, gaps, from, to, covered);
      if it.start > covered { gaps := gaps + [(covered, it.start)]; }
      covered := it.End();
    }
    assert items[..|items|] == items;
    GapsEnd(items, gaps, from, to, covered);
    if covered < to { gaps := gaps + [(covered, to)]; }
  }

  // ------------------------------------------------------------ the trimmed holes

  predicate Meets(it: Item, t: Target) { t.start < it.End() && it.start < t.End() }

  /** The first hole's copy an explicit hole meets. */
  function HoleTargetFor(out: seq<Target>, it: Item): (r: Option<Target>)
    ensures r.Some? ==> r.value in out && r.value.hole && Meets(it, r.value)
    ensures r.None? ==> forall t | t in out && t.hole :: !Meets(it, t)
  {
    if out == [] then None
    else if out[0].hole && Meets(it, out[0]) then Some(out[0])
    else HoleTargetFor(out[1..], it)
  }

  function HoleItem(start: nat, stop: nat, attrs: Attributes): Item
    requires start <= stop
  {
    Item(start, stop - start, 0, 0, Regular, attrs)
  }

  /** What is left of an explicit hole around its copy. */
  function Leftovers(it: Item, t: Target, attrs: Attributes): seq<Item>
    requires Meets(it, t)
  {
    (if it.start < t.start then [HoleItem(it.start, t.start, attrs)] else [])
    + (if t.End() < it.End() then [HoleItem(t.End(), it.End(), attrs)] else [])
  }

  function TrimOne(it: Item, out: seq<Target>, attrs: Attributes): seq<Item> {
    if !IsHole(it) then [it] else
      var t := HoleTargetFor(out, it);
      if t.None? then [it] else Leftovers(it, t.value, attrs)
  }

  function Trimmed(items: seq<Item>, out: seq<Target>, attrs: Attributes): seq<Item> {
    if items == [] then [] else Trimmed(items[..|items|-1], out, attrs) + TrimOne(items[|items|-1], out, attrs)
  }

  function PutsOf(items: seq<Item>): seq<KeyEdit> {
    if items == [] then [] else PutsOf(items[..|items|-1]) + [KeyEdit(items[|items|-1].start, Put(items[|items|-1]))]
  }

  function OneHoleEdits(it: Item, out: seq<Target>, attrs: Attributes): seq<KeyEdit> {
    if !IsHole(it) then [] else
      var t := HoleTargetFor(out, it);
      if t.None? then [] else [KeyEdit(it.start, Delete)] + PutsOf(Leftovers(it, t.value, attrs))
  }

  function HoleEditsOf(items: seq<Item>, out: seq<Target>, attrs: Attributes): seq<KeyEdit> {
    if items == [] then [] else HoleEditsOf(items[..|items|-1], out, attrs) + OneHoleEdits(items[|items|-1], out, attrs)
  }

  /** The edits around one hole's copy: the hole goes, and what it holds on either
      side of the copy comes back under keys of its own. */
  function TrimEdits(it: Item, t: Target, attrs: Attributes): seq<KeyEdit>
    requires Meets(it, t)
  {
    var from, to := Max(it.start, t.start), Min(it.End(), t.End());
    [KeyEdit(it.start, Delete)]
    + (if it.start < from then [KeyEdit(it.start, Put(HoleItem(it.start, from, attrs)))] else [])
    + (if to < it.End() then [KeyEdit(to, Put(HoleItem(to, it.End(), attrs)))] else [])
  }

  lemma PutsOfOne(it: Item)
    ensures PutsOf([it]) == [KeyEdit(it.start, Put(it))]
  {
    assert [it][..0] == [];
  }

  lemma {:induction false} PutsOfJoin(a: seq<Item>, b: seq<Item>)
    ensures PutsOf(a + b) == PutsOf(a) + PutsOf(b)
  {
    if b == [] {
      assert a + b == a;
    } else {
      assert (a + b)[..|a + b|-1] == a + b[..|b|-1];
      PutsOfJoin(a, b[..|b|-1]);
    }
  }

  lemma Then<T>(a: seq<T>, b: seq<T>, c: seq<T>)
    ensures a + (b + c) == a + b + c
  {
  }

  lemma LeftoverPuts(it: Item, t: Target, attrs: Attributes)
    requires Meets(it, t)
    ensures [KeyEdit(it.start, Delete)] + PutsOf(Leftovers(it, t, attrs)) == TrimEdits(it, t, attrs)
  {
    var a := if it.start < t.start then [HoleItem(it.start, t.start, attrs)] else [];
    var b := if t.End() < it.End() then [HoleItem(t.End(), it.End(), attrs)] else [];
    PutsOfJoin(a, b);
    if a != [] { PutsOfOne(HoleItem(it.start, t.start, attrs)); }
    if b != [] { PutsOfOne(HoleItem(t.End(), it.End(), attrs)); }
    Then([KeyEdit(it.start, Delete)], PutsOf(a), PutsOf(b));
  }

  lemma OneHoleTrims(it: Item, out: seq<Target>, attrs: Attributes)
    ensures !IsHole(it) || HoleTargetFor(out, it).None? ==> OneHoleEdits(it, out, attrs) == []
    ensures IsHole(it) && HoleTargetFor(out, it).Some? ==> OneHoleEdits(it, out, attrs) == TrimEdits(it, HoleTargetFor(out, it).value, attrs)
  {
    if IsHole(it) && HoleTargetFor(out, it).Some? { LeftoverPuts(it, HoleTargetFor(out, it).value, attrs); }
  }

  lemma HoleEditsNext(items: seq<Item>, i: nat, out: seq<Target>, attrs: Attributes)
    requires i < |items|
    ensures HoleEditsOf(items[..i+1], out, attrs) == HoleEditsOf(items[..i], out, attrs) + OneHoleEdits(items[i], out, attrs)
  {
    assert items[..i+1][..i] == items[..i];
  }

  /** The edits made for explicit holes: none on a volume with no-holes. */
  function HoleEdits(noHoles: bool, items: seq<Item>, out: seq<Target>, attrs: Attributes): seq<KeyEdit> {
    if noHoles then [] else HoleEditsOf(items, out, attrs)
  }

  /** Each explicit hole a copy meets is deleted, and put back around the copy. */
  method CowHoleEdits(noHoles: bool, items: seq<Item>, out: seq<Target>, attrs: Attributes) returns (edits: seq<KeyEdit>)
    ensures edits == HoleEdits(noHoles, items, out, attrs)
  {
    edits := [];
    if noHoles { return; }
    assert items[..0] == [] && HoleEditsOf([], out, attrs) == [];
    assert items[..|items|] == items;
    hide HoleEditsOf, OneHoleEdits, TrimEdits;
    for i := 0 to |items|
      invariant edits == HoleEditsOf(items[..i], out, attrs)
    {
      var it := items[i];
      HoleEditsNext(items, i, out, attrs);
      OneHoleTrims(it, out, attrs);
      assert edits + [] == edits;
      if !IsHole(it) { continue; }
      var found := HoleTargetFor(out, it);
      if found.None? { continue; }
      edits := edits + TrimEdits(it, found.value, attrs);
    }
  }

  lemma {:induction false} PutsByKey(items: seq<Item>)
    ensures ByKey(PutsOf(items)) == Puts(items)
  {
    if items != [] {
      PutsByKey(items[..|items|-1]);
      var p := PutsOf(items);
      assert p[..|p|-1] == PutsOf(items[..|items|-1]);
    }
  }

  /** One item's edits leave it trimmed, and touch no key outside it. */
  lemma TrimsOne(it: Item, out: seq<Target>, attrs: Attributes)
    requires it.num > 0
    ensures Edited(AsMap([it]), ByKey(OneHoleEdits(it, out, attrs))) == AsMap(TrimOne(it, out, attrs))
    ensures KeysIn(ByKey(OneHoleEdits(it, out, attrs)).Keys, it.start, it.End())
  {
    OneAsMap(it);
    if IsHole(it) && HoleTargetFor(out, it).Some? {
      TrimsAround(it, HoleTargetFor(out, it).value, attrs);
    } else {
      EditedByNone(AsMap([it]));
    }
  }

  lemma HoleEditsByKey(it: Item, t: Target, attrs: Attributes)
    requires Meets(it, t)
    ensures ByKey([KeyEdit(it.start, Delete)] + PutsOf(Leftovers(it, t, attrs)))
         == map[it.start := Delete] + Puts(Leftovers(it, t, attrs))
  {
    hide ByKey, PutsOf, Leftovers, Puts;
    var l := Leftovers(it, t, attrs);
    ByKeyJoin([KeyEdit(it.start, Delete)], PutsOf(l));
    OneByKey(KeyEdit(it.start, Delete));
    PutsByKey(l);
  }

  lemma LeftoverKeys(it: Item, t: Target, attrs: Attributes)
    requires it.num > 0 && Meets(it, t)
    ensures KeysIn(Puts(Leftovers(it, t, attrs)).Keys, it.start, it.End())
  {
    PutsKeys(Leftovers(it, t, attrs), it.start, it.End());
  }

  lemma KeysPlus(k: nat, e: Edit<Item>, more: map<nat, Edit<Item>>, lo: int, hi: int)
    requires lo <= k < hi && KeysIn(more.Keys, lo, hi)
    ensures KeysIn((map[k := e] + more).Keys, lo, hi)
  {
  }

  lemma TrimsAround(it: Item, t: Target, attrs: Attributes)
    requires it.num > 0 && Meets(it, t)
    ensures var edits := ByKey([KeyEdit(it.start, Delete)] + PutsOf(Leftovers(it, t, attrs)));
      && Edited(AsMap([it]), edits) == AsMap(Leftovers(it, t, attrs))
      && KeysIn(edits.Keys, it.start, it.End())
  {
    hide Edited, Leftovers, AsMap, Puts, PutsOf, ByKey, KeysIn;
    var l := Leftovers(it, t, attrs);
    HoleEditsByKey(it, t, attrs);
    LeftoverKeys(it, t, attrs);
    KeysPlus(it.start, Delete, Puts(l), it.start, it.End());
    OneAsMap(it);
    Emptied(it);
    EditedTwice(AsMap([it]), map[it.start := Delete], Puts(l));
    PutsAdd(map[], l);
    NothingPlus(AsMap(l));
  }

  lemma Emptied(it: Item)
    ensures Edited(map[it.start := it], map[it.start := Delete]) == map[]
  {
  }

  lemma {:induction false} PutsKeys(items: seq<Item>, lo: int, hi: int)
    requires forall i | 0 <= i < |items| :: lo <= items[i].start < hi
    ensures KeysIn(Puts(items).Keys, lo, hi)
  {
    if items != [] { PutsKeys(items[..|items|-1], lo, hi); }
  }

  lemma {:induction false} HoleEditKeys(items: seq<Item>, out: seq<Target>, attrs: Attributes, from: nat, to: int)
    requires Sorted(items) && Within(items, from, to) && from <= to
    ensures KeysIn(ByKey(HoleEditsOf(items, out, attrs)).Keys, from, to)
  {
    hide Sorted, OneHoleEdits;
    if items != [] {
      var init, last := items[..|items|-1], items[|items|-1];
      LastSorted(items, from, to);
      HoleEditKeys(init, out, attrs, from, last.start);
      TrimsOne(last, out, attrs);
      ByKeyJoin(HoleEditsOf(init, out, attrs), OneHoleEdits(last, out, attrs));
    }
  }

  lemma NothingEdited() ensures AsMap([]) == map[] && ByKey([]) == map[] {}

  /** Applied in order, the edits leave every item as it was but the holes around the
      copies. */
  lemma {:induction false} HolesTrimmed(items: seq<Item>, out: seq<Target>, attrs: Attributes, from: nat, to: int)
    requires Sorted(items) && Within(items, from, to) && from <= to
    ensures Edited(AsMap(items), ByKey(HoleEditsOf(items, out, attrs))) == AsMap(Trimmed(items, out, attrs))
  {
    hide Sorted, OneHoleEdits, Edited, TrimOne, Within, AsMap, ByKey;
    NothingEdited();
    if items != [] {
      var init, last := items[..|items|-1], items[|items|-1];
      LastSorted(items, from, to);
      HolesTrimmed(init, out, attrs, from, last.start);
      TrimsOne(last, out, attrs);
      HoleEditKeys(init, out, attrs, from, last.start);
      ByKeyJoin(HoleEditsOf(init, out, attrs), OneHoleEdits(last, out, attrs));
      AsMapKeys(init, from, last.start);
      OneAsMap(last);
      EditedApart(AsMap(init), ByKey(HoleEditsOf(init, out, attrs)), AsMap([last]), ByKey(OneHoleEdits(last, out, attrs)));
      AsMapJoin(init, [last]);
      assert init + [last] == items;
      AsMapJoin(Trimmed(init, out, attrs), TrimOne(last, out, attrs));
    } else {
      EditedByNone<Item>(map[]);
    }
  }

  // ------------------------------------------------------------ after the write

  function PiecesOf(items: seq<Item>): seq<Item> {
    if items == [] then [] else
      PiecesOf(items[..|items|-1]) + if IsHole(items[|items|-1]) then [] else [items[|items|-1]]
  }

  lemma {:induction false} PiecesWithin(items: seq<Item>, lo: int, hi: int)
    requires Sorted(items) && Within(items, lo, hi) && lo <= hi
    ensures Sorted(PiecesOf(items)) && Within(PiecesOf(items), lo, hi)
    ensures forall x :: x in PiecesOf(items) <==> x in items && !IsHole(x)
  {
    if items != [] {
      var init, last := items[..|items|-1], items[|items|-1];
      LastSorted(items, lo, hi);
      PiecesWithin(init, lo, last.start);
      var more := if IsHole(last) then [] else [last];
      SortedJoin(PiecesOf(init), more, lo, last.start, hi);
      assert items == init + [last];
    }
  }

  lemma PiecesSorted(items: seq<Item>)
    requires Sorted(items)
    ensures Sorted(PiecesOf(items))
    ensures forall x :: x in PiecesOf(items) <==> x in items && !IsHole(x)
  {
    PiecesWithin(items, 0, if items == [] then 0 else items[|items|-1].End());
  }

  ghost predicate Plan(items: seq<Item>, out: seq<Target>, extents: ExtentTree) {
    Sorted(items) && Ascending(out) && AllFit(out, PiecesOf(items), extents)
  }

  lemma SameItem(items: seq<Item>, x: Item, y: Item, p: int)
    requires Sorted(items) && x in items && y in items && Holds(x, p) && Holds(y, p)
    ensures x == y
  {
    var i :| 0 <= i < |items| && items[i] == x;
    var j :| 0 <= j < |items| && items[j] == y;
  }

  /** Over an item's byte lies a copy of that item, or a hole's copy over a hole. */
  lemma TargetOver(items: seq<Item>, out: seq<Target>, extents: ExtentTree, it: Item, t: Target, p: int)
    requires Plan(items, out, extents) && t in out && t.Has(p) && it in items && Holds(it, p)
    ensures t.hole <==> IsHole(it)
    ensures !t.hole ==> t.start == it.start && t.len == it.num
  {
    PiecesSorted(items);
    var i :| 0 <= i < |out| && out[i] == t;
    assert Fits(out[i], PiecesOf(items), extents);
    if !t.hole {
      var q :| q in PiecesOf(items) && Copies(t, q, extents);
      SameItem(items, q, it, p);
    }
  }

  predicate Replaced(it: Item, out: seq<Target>) { exists t :: t in out && !t.hole && t.start == it.start }

  lemma ReplacedWhole(items: seq<Item>, out: seq<Target>, extents: ExtentTree, it: Item, p: int)
    requires Plan(items, out, extents) && it in items && !IsHole(it) && Holds(it, p)
    ensures Replaced(it, out) <==> Targeted(out, p)
  {
    if Replaced(it, out) {
      var t :| t in out && !t.hole && t.start == it.start;
      var i :| 0 <= i < |out| && out[i] == t;
      assert Fits(out[i], PiecesOf(items), extents);
      assert t.Has(it.start) && Holds(it, it.start);
      TargetOver(items, out, extents, it, t, it.start);
      assert out[i].Has(p);
    }
    if Targeted(out, p) {
      var i :| 0 <= i < |out| && out[i].Has(p);
      TargetOver(items, out, extents, it, out[i], p);
      assert out[i] in out && !out[i].hole && out[i].start == it.start;
    }
  }

  /** What is left of one item: nothing of an item copied, a hole around its copy. */
  function KeptOne(it: Item, out: seq<Target>, attrs: Attributes): seq<Item> {
    if !IsHole(it) && Replaced(it, out) then [] else TrimOne(it, out, attrs)
  }

  function Kept(items: seq<Item>, out: seq<Target>, attrs: Attributes): seq<Item> {
    if items == [] then [] else Kept(items[..|items|-1], out, attrs) + KeptOne(items[|items|-1], out, attrs)
  }

  /** A copy's extents start there: its own first byte, or a later extent's. */
  predicate Starts(out: seq<Target>, unit: Pos, at: nat) {
    exists i :: 0 <= i < |out| && out[i].Has(at) && (at - out[i].start) % unit == 0
  }

  /** Where explicit holes are not trimmed, every item stands whose key no copy takes. */
  function Unreplaced(items: seq<Item>, out: seq<Target>, unit: Pos): seq<Item> {
    if items == [] then [] else
      var last := items[|items|-1];
      Unreplaced(items[..|items|-1], out, unit) + if Starts(out, unit, last.start) then [] else [last]
  }

  function Standing(noHoles: bool, items: seq<Item>, out: seq<Target>, unit: Pos, attrs: Attributes): seq<Item> {
    if noHoles then Unreplaced(items, out, unit) else Kept(items, out, attrs)
  }

  /** No explicit hole meets two copies. */
  ghost predicate MeetsOne(it: Item, out: seq<Target>) {
    forall t, u | t in out && u in out && t.hole && u.hole && Meets(it, t) && Meets(it, u) :: t == u
  }

  ghost predicate HolesMeetOne(items: seq<Item>, out: seq<Target>) {
    forall it | it in items && IsHole(it) :: MeetsOne(it, out)
  }

  lemma LeftoversCount(it: Item, t: Target, attrs: Attributes, p: int)
    requires Meets(it, t) && t.len > 0
    ensures CountAt(Leftovers(it, t, attrs), p) == if Holds(it, p) && !t.Has(p) then 1 else 0
  {
    var a := if it.start < t.start then [HoleItem(it.start, t.start, attrs)] else [];
    var b := if t.End() < it.End() then [HoleItem(t.End(), it.End(), attrs)] else [];
    CountJoin(a, b, p);
    assert CountAt([], p) == 0;
    hide CountAt;
    if it.start < t.start { CountSingle(HoleItem(it.start, t.start, attrs), p); }
    if t.End() < it.End() { CountSingle(HoleItem(t.End(), it.End(), attrs), p); }
  }

  lemma KeptCountOne(items: seq<Item>, out: seq<Target>, extents: ExtentTree, attrs: Attributes, it: Item, p: int)
    requires Plan(items, out, extents) && it in items && (IsHole(it) ==> MeetsOne(it, out))
    ensures CountAt(KeptOne(it, out, attrs), p) == if Holds(it, p) && !Targeted(out, p) then 1 else 0
  {
    CountSingle(it, p);
    if !IsHole(it) {
      if Holds(it, p) { ReplacedWhole(items, out, extents, it, p); }
    } else {
      var found := HoleTargetFor(out, it);
      if found.Some? {
        var t := found.value;
        var i :| 0 <= i < |out| && out[i] == t;
        assert Fits(out[i], PiecesOf(items), extents);
        LeftoversCount(it, t, attrs, p);
        if t.Has(p) { assert out[i].Has(p); }
      }
      if Holds(it, p) && Targeted(out, p) {
        var j :| 0 <= j < |out| && out[j].Has(p);
        TargetOver(items, out, extents, it, out[j], p);
        assert out[j] in out && Meets(it, out[j]);
      }
    }
  }

  lemma {:induction false} KeptCount(items: seq<Item>, out: seq<Target>, extents: ExtentTree, attrs: Attributes, n: nat, p: int)
    requires Plan(items, out, extents) && HolesMeetOne(items, out) && n <= |items|
    ensures CountAt(Kept(items[..n], out, attrs), p) == if Targeted(out, p) then 0 else CountAt(items[..n], p)
    decreases n
  {
    hide Plan, KeptOne, Targeted, MeetsOne;
    if n > 0 {
      assert items[..n][..n-1] == items[..n-1];
      KeptCount(items, out, extents, attrs, n - 1, p);
      KeptCountOne(items, out, extents, attrs, items[n-1], p);
      CountJoin(Kept(items[..n-1], out, attrs), KeptOne(items[n-1], out, attrs), p);
    }
  }

  /** Of the items that are no holes, a copy takes the keys of those it copies. */
  lemma StartsReplaced(items: seq<Item>, out: seq<Target>, extents: ExtentTree, unit: Pos, it: Item)
    requires Plan(items, out, extents) && it in items && !IsHole(it)
    ensures Starts(out, unit, it.start) <==> Replaced(it, out)
  {
    assert it.num > 0 && Holds(it, it.start);
    ReplacedWhole(items, out, extents, it, it.start);
    forall t | t in out && !t.hole && t.start == it.start ensures Starts(out, unit, it.start) {
      TargetSome(items, out, extents, t);
      StartsTarget(out, unit, t);
    }
    hide Plan, IsHole;
  }

  lemma StartsTarget(out: seq<Target>, unit: Pos, t: Target)
    requires t in out && t.len > 0
    ensures Starts(out, unit, t.start)
  {
    var i :| 0 <= i < |out| && out[i] == t;
    assert out[i].Has(t.start);
  }

  // ------------------------------------------------------------------- the copies

  /** A target's copy: new extents one after another, each at most `unit` long. */
  function Chunks(at: nat, end: nat, unit: Pos, news: nat -> nat, attrs: Attributes): seq<Item>
    decreases end - at
  {
    if at >= end then [] else
      var n := MinNat(unit, end - at);
      [Item(at, n, news(at), 0, Regular, attrs)] + Chunks(at + n, end, unit, news, attrs)
  }

  function CopiesOf(out: seq<Target>, unit: Pos, news: nat -> nat, attrs: Attributes): seq<Item> {
    if out == [] then [] else
      var t := out[|out|-1];
      CopiesOf(out[..|out|-1], unit, news, attrs) + Chunks(t.start, t.End(), unit, news, attrs)
  }

  lemma {:induction false} ChunksCount(at: nat, end: nat, unit: Pos, news: nat -> nat, attrs: Attributes, p: int)
    ensures CountAt(Chunks(at, end, unit, news, attrs), p) == if at <= p < end then 1 else 0
    ensures forall x | x in Chunks(at, end, unit, news, attrs) :: x.num > 0
    decreases end - at
  {
    if at < end {
      var n := MinNat(unit, end - at);
      var first := Item(at, n, news(at), 0, Regular, attrs);
      ChunksCount(at + n, end, unit, news, attrs, p);
      CountJoin([first], Chunks(at + n, end, unit, news, attrs), p);
      CountSingle(first, p);
    }
  }

  lemma {:induction false} CopiesCount(out: seq<Target>, unit: Pos, news: nat -> nat, attrs: Attributes, p: int)
    requires Ascending(out)
    ensures CountAt(CopiesOf(out, unit, news, attrs), p) == if Targeted(out, p) then 1 else 0
    ensures forall x | x in CopiesOf(out, unit, news, attrs) :: x.num > 0
  {
    if out != [] {
      var init, t := out[..|out|-1], out[|out|-1];
      CopiesCount(init, unit, news, attrs, p);
      ChunksCount(t.start, t.End(), unit, news, attrs, p);
      CountJoin(CopiesOf(init, unit, news, attrs), Chunks(t.start, t.End(), unit, news, attrs), p);
      if Targeted(init, p) {
        var i :| 0 <= i < |init| && init[i].Has(p);
        assert out[i].Has(p);
      }
      if t.Has(p) { assert out[|out|-1].Has(p); }
    }
  }

  // ---------------------------------------------------------- every sector, once

  function GapItems(gaps: seq<(nat, nat)>, attrs: Attributes): seq<Item>
    requires forall i | 0 <= i < |gaps| :: gaps[i].0 <= gaps[i].1
  {
    if gaps == [] then [] else
      GapItems(gaps[..|gaps|-1], attrs) + [HoleItem(gaps[|gaps|-1].0, gaps[|gaps|-1].1, attrs)]
  }

  ghost predicate GapsOrdered(gaps: seq<(nat, nat)>) {
    && (forall i | 0 <= i < |gaps| :: gaps[i].0 < gaps[i].1)
    && (forall i, j | 0 <= i < j < |gaps| :: gaps[i].1 <= gaps[j].0)
  }

  lemma {:induction false} GapsCount(gaps: seq<(nat, nat)>, attrs: Attributes, p: int)
    requires GapsOrdered(gaps)
    ensures CountAt(GapItems(gaps, attrs), p) == if Spans(gaps, p) then 1 else 0
    ensures forall x | x in GapItems(gaps, attrs) :: x.num > 0
  {
    if gaps != [] {
      var init, g := gaps[..|gaps|-1], gaps[|gaps|-1];
      GapsCount(init, attrs, p);
      assert gaps == init + [(g.0, g.1)];
      SpansMore(init, g.0, g.1, p);
      var items := GapItems(gaps, attrs);
      assert items[..|items|-1] == GapItems(init, attrs);
    }
  }

  /** A write that may grow the file: what it copies, and the gap it records as holes. */
  datatype Write = Write(size: nat, offset: nat, end: nat, sector: Pos, noHoles: bool) {
    /** The old end, when the write leaves the rest of its sector behind. */
    function Tail(): Option<nat> { if offset > size && size % sector != 0 then Some(size) else None }

    function GapFrom(): nat { AlignUp(size, sector) }

    function GapTo(): nat { offset / sector * sector }
  }

  ghost predicate Aligned(items: seq<Item>, sector: Pos) {
    forall i | 0 <= i < |items| :: items[i].start % sector == 0 && items[i].End() % sector == 0
  }

  /** The gaps recorded: none on a volume with no-holes, else every stretch up to the
      write's first sector that no item covers. */
  ghost predicate GapsOf(w: Write, items: seq<Item>, gaps: seq<(nat, nat)>) {
    if w.noHoles then gaps == [] else GapsFill(items, gaps, w.GapFrom(), w.GapTo())
  }

  lemma GapsAreIn(w: Write, items: seq<Item>, gaps: seq<(nat, nat)>, p: int)
    requires GapsOf(w, items, gaps) && Spans(gaps, p)
    ensures w.GapFrom() <= p < w.GapTo() && NoneOver(items, p)
  {
  }

  /** Everything a planned write knows of the file it changes. */
  ghost predicate Writes(w: Write, items: seq<Item>, out: seq<Target>, gaps: seq<(nat, nat)>, extents: ExtentTree) {
    && w.offset < w.end
    && Sorted(items) && NoInline(items) && Aligned(items, w.sector)
    && CowPlanned(out, PiecesOf(items), extents, w.sector, w.Tail(), w.offset, w.end)
    && GapsOf(w, items, gaps) && GapsOrdered(gaps)
  }

  /** The file's items after the write. */
  function AfterWrite(noHoles: bool, items: seq<Item>, out: seq<Target>, gaps: seq<(nat, nat)>, unit: Pos, news: nat -> nat, hole: Attributes,
                      data: Attributes): seq<Item>
    requires forall i | 0 <= i < |gaps| :: gaps[i].0 <= gaps[i].1
  {
    Standing(noHoles, items, out, unit, hole) + GapItems(gaps, hole) + CopiesOf(out, unit, news, data)
  }

  lemma AfterCount(items: seq<Item>, out: seq<Target>, gaps: seq<(nat, nat)>, unit: Pos, news: nat -> nat, hole: Attributes,
                   data: Attributes, extents: ExtentTree, p: int)
    requires Plan(items, out, extents) && HolesMeetOne(items, out) && GapsOrdered(gaps)
    ensures CountAt(AfterWrite(false, items, out, gaps, unit, news, hole, data), p) ==
      (if Targeted(out, p) then 1 else CountAt(items, p)) + (if Spans(gaps, p) then 1 else 0)
  {
    hide Kept, CountAt, GapItems, CopiesOf, Spans, Targeted, HolesMeetOne;
    CountJoin(Kept(items, out, hole) + GapItems(gaps, hole), CopiesOf(out, unit, news, data), p);
    CountJoin(Kept(items, out, hole), GapItems(gaps, hole), p);
    KeptCount(items, out, extents, hole, |items|, p);
    assert items[..|items|] == items;
    GapsCount(gaps, hole, p);
    CopiesCount(out, unit, news, data, p);
  }

  lemma WritesPlan(w: Write, items: seq<Item>, out: seq<Target>, gaps: seq<(nat, nat)>, extents: ExtentTree)
    requires Writes(w, items, out, gaps, extents)
    ensures Plan(items, out, extents)
  {
  }

  /** A target starts and ends on whole sectors. */
  lemma TargetAligned(w: Write, items: seq<Item>, out: seq<Target>, gaps: seq<(nat, nat)>, extents: ExtentTree, i: nat)
    requires Writes(w, items, out, gaps, extents) && i < |out|
    ensures out[i].start % w.sector == 0 && out[i].End() % w.sector == 0
  {
    PiecesSorted(items);
    EdgeAligned(items, w.sector, out[i].start);
    EdgeAligned(items, w.sector, out[i].End());
  }

  lemma EdgeAligned(items: seq<Item>, sector: Pos, e: nat)
    requires Sorted(items) && Aligned(items, sector) && Edge(e, PiecesOf(items), sector)
    ensures e % sector == 0
  {
    PiecesSorted(items);
  }

  lemma OverPiece(items: seq<Item>, out: seq<Target>, extents: ExtentTree, i: nat, p: int)
    requires Plan(items, out, extents) && i < |out| && out[i].Has(p)
    ensures !out[i].hole ==> exists x :: x in items && Holds(x, p)
  {
    PiecesSorted(items);
    assert Fits(out[i], PiecesOf(items), extents);
    if !out[i].hole {
      var x :| x in PiecesOf(items) && Copies(out[i], x, extents);
      assert Holds(x, p);
    }
  }

  /** A copied sector of no item is one the write wants. */
  lemma HoleCopied(w: Write, items: seq<Item>, out: seq<Target>, gaps: seq<(nat, nat)>, extents: ExtentTree, p: nat)
    requires Writes(w, items, out, gaps, extents) && Targeted(out, p) && (forall x | x in items :: !Holds(x, p))
    ensures p < w.GapFrom() || w.GapTo() <= p
  {
    var i :| 0 <= i < |out| && out[i].Has(p);
    OverPiece(items, out, extents, i, p);
    assert Needed(out[i], w.sector, w.Tail(), w.offset, w.end);
    var q: nat :| q / w.sector == p / w.sector && Wanted(q, w.Tail(), w.offset, w.end);
    SectorOf(p, w.sector);
    SectorOf(q, w.sector);
    if q >= w.offset {
      SectorOf(w.offset, w.sector);
      SectorAfter(w.GapTo(), q, w.sector);
    } else {
      SizeSector(w.size, p, w.sector);
    }
  }

  lemma SizeSector(size: nat, p: nat, sector: Pos)
    requires size % sector != 0 && p / sector == size / sector
    ensures p < AlignUp(size, sector)
  {
    SectorOf(size, sector);
    SectorOf(p, sector);
    if AlignUp(size, sector) <= p { SectorAfter(AlignUp(size, sector), p, sector); }
  }

  /** No stretch recorded as a gap is copied or in an item. */
  lemma GapsClear(w: Write, items: seq<Item>, out: seq<Target>, gaps: seq<(nat, nat)>, extents: ExtentTree, p: nat)
    requires Writes(w, items, out, gaps, extents) && Spans(gaps, p)
    ensures CountAt(items, p) == 0 && !Targeted(out, p)
  {
    GapsAreIn(w, items, gaps, p);
    assert forall x | x in items :: !Holds(x, p);
    if CountAt(items, p) > 0 { CountedHas(items, p); }
    if Targeted(out, p) { HoleCopied(w, items, out, gaps, extents, p); }
  }

  /** A hole that meets a second copy is left over it: the first copy alone is cut out
      of the hole. */
  lemma LeftOver(it: Item, out: seq<Target>, attrs: Attributes, t: Target, p: int)
    requires Ascending(out) && IsHole(it) && t in out && t.hole && t.Has(p) && Holds(it, p)
    requires HoleTargetFor(out, it).Some? && HoleTargetFor(out, it).value != t && HoleTargetFor(out, it).value.len > 0
    ensures CountAt(KeptOne(it, out, attrs), p) == 1
  {
    var first := HoleTargetFor(out, it).value;
    var i :| 0 <= i < |out| && out[i] == first;
    var j :| 0 <= j < |out| && out[j] == t;
    LeftoversCount(it, first, attrs, p);
  }

  lemma {:induction false} KeptHas(items: seq<Item>, out: seq<Target>, attrs: Attributes, it: Item, p: int)
    requires it in items
    ensures CountAt(Kept(items, out, attrs), p) >= CountAt(KeptOne(it, out, attrs), p)
  {
    var init, last := items[..|items|-1], items[|items|-1];
    CountJoin(Kept(init, out, attrs), KeptOne(last, out, attrs), p);
    if it in init { KeptHas(init, out, attrs, it, p); }
  }

  lemma AfterHas(items: seq<Item>, out: seq<Target>, gaps: seq<(nat, nat)>, unit: Pos, news: nat -> nat, hole: Attributes,
                 data: Attributes, it: Item, p: int)
    requires it in items && GapsOrdered(gaps)
    ensures CountAt(AfterWrite(false, items, out, gaps, unit, news, hole, data), p)
         >= CountAt(KeptOne(it, out, hole), p) + CountAt(CopiesOf(out, unit, news, data), p)
  {
    hide Kept, CountAt, GapItems, CopiesOf, KeptOne;
    KeptHas(items, out, hole, it, p);
    CountJoin(Kept(items, out, hole) + GapItems(gaps, hole), CopiesOf(out, unit, news, data), p);
    CountJoin(Kept(items, out, hole), GapItems(gaps, hole), p);
  }

  lemma TargetSome(items: seq<Item>, out: seq<Target>, extents: ExtentTree, t: Target)
    requires AllFit(out, PiecesOf(items), extents) && t in out
    ensures t.len > 0
  {
    var i :| 0 <= i < |out| && out[i] == t;
    assert Fits(out[i], PiecesOf(items), extents);
  }

  /** Two copies over one explicit hole leave some byte in two items. */
  lemma TwoOverOne(w: Write, items: seq<Item>, out: seq<Target>, gaps: seq<(nat, nat)>, unit: Pos, news: nat -> nat,
                   hole: Attributes, data: Attributes, extents: ExtentTree, it: Item, t: Target)
    requires !w.noHoles && Writes(w, items, out, gaps, extents) && it in items && IsHole(it)
    requires t in out && t.hole && Meets(it, t) && HoleTargetFor(out, it) != Some(t)
    ensures exists p: nat :: CountAt(AfterWrite(w.noHoles, items, out, gaps, unit, news, hole, data), p) > 1
  {
    WritesPlan(w, items, out, gaps, extents);
    var p: nat := if it.start <= t.start then t.start else it.start;
    TargetSome(items, out, extents, t);
    TargetSome(items, out, extents, HoleTargetFor(out, it).value);
    assert it.num > 0;
    hide CowPlanned, AfterWrite, CountAt, KeptOne, AllFit, Sorted, NoInline, Aligned, GapsOf;
    LeftOver(it, out, hole, t, p);
    var i :| 0 <= i < |out| && out[i] == t;
    assert out[i].Has(p);
    CopiesCount(out, unit, news, data, p);
    AfterHas(items, out, gaps, unit, news, hole, data, it, p);
  }

  /** No byte ends up in two items exactly when no explicit hole meets two copies. */
  lemma NoneTwiceExactlyWhen(w: Write, items: seq<Item>, out: seq<Target>, gaps: seq<(nat, nat)>, unit: Pos, news: nat -> nat,
                             hole: Attributes, data: Attributes, extents: ExtentTree)
    requires !w.noHoles && Writes(w, items, out, gaps, extents)
    ensures NoneTwiceIn(AfterWrite(w.noHoles, items, out, gaps, unit, news, hole, data)) <==> HolesMeetOne(items, out)
  {
    WritesPlan(w, items, out, gaps, extents);
    if HolesMeetOne(items, out) {
      forall p: nat ensures CountAt(AfterWrite(w.noHoles, items, out, gaps, unit, news, hole, data), p) <= 1 {
        NoneTwice(w, items, out, gaps, unit, news, hole, data, extents, p);
      }
    } else {
      var it :| it in items && IsHole(it) && !MeetsOne(it, out);
      var t, u :| t in out && u in out && t.hole && u.hole && Meets(it, t) && Meets(it, u) && t != u;
      var second := if HoleTargetFor(out, it) == Some(t) then u else t;
      TwoOverOne(w, items, out, gaps, unit, news, hole, data, extents, it, second);
    }
  }

  lemma NoneTwice(w: Write, items: seq<Item>, out: seq<Target>, gaps: seq<(nat, nat)>, unit: Pos, news: nat -> nat,
                  hole: Attributes, data: Attributes, extents: ExtentTree, p: nat)
    requires !w.noHoles && Writes(w, items, out, gaps, extents) && HolesMeetOne(items, out)
    ensures CountAt(AfterWrite(w.noHoles, items, out, gaps, unit, news, hole, data), p) <= 1
  {
    hide CowPlanned, AfterWrite, HolesMeetOne, CountAt, Targeted;
    WritesPlan(w, items, out, gaps, extents);
    AfterCount(items, out, gaps, unit, news, hole, data, extents, p);
    SortedCount(items, p);
    if Spans(gaps, p) { GapsClear(w, items, out, gaps, extents, p); }
  }

  /** The write's own sectors are all copied, or in items. */
  lemma WrittenSectors(w: Write, items: seq<Item>, out: seq<Target>, gaps: seq<(nat, nat)>, extents: ExtentTree, p: nat)
    requires Writes(w, items, out, gaps, extents)
    requires w.GapTo() <= p < AlignUp(w.end, w.sector)
    ensures Targeted(out, p)
  {
    var q := if p < w.offset then w.offset else if p < w.end then p else w.end - 1;
    assert Wanted(q, w.Tail(), w.offset, w.end);
    var i :| 0 <= i < |out| && out[i].Has(q);
    TargetAligned(w, items, out, gaps, extents, i);
    if p < w.offset { SectorAfter(out[i].start, q, w.sector); }
    if p >= w.end { AlignUpLeast(w.end, w.sector, out[i].End()); }
    assert out[i].Has(p);
  }

  /** Every byte up to the new end, in whole sectors, is in exactly one item. */
  lemma EverySectorOnce(w: Write, items: seq<Item>, out: seq<Target>, gaps: seq<(nat, nat)>, unit: Pos, news: nat -> nat,
                        hole: Attributes, data: Attributes, extents: ExtentTree, p: nat)
    requires Writes(w, items, out, gaps, extents) && HolesMeetOne(items, out) && !w.noHoles
    requires forall q: nat | q < w.GapFrom() :: CountAt(items, q) == 1
    requires p < AlignUp(w.end, w.sector) || p < w.GapFrom()
    ensures CountAt(AfterWrite(w.noHoles, items, out, gaps, unit, news, hole, data), p) == 1
  {
    hide AfterWrite, HolesMeetOne, AlignUp;
    WritesPlan(w, items, out, gaps, extents);
    AfterCount(items, out, gaps, unit, news, hole, data, extents, p);
    if w.GapTo() <= p < AlignUp(w.end, w.sector) { WrittenSectors(w, items, out, gaps, extents, p); }
    if Spans(gaps, p) { GapsClear(w, items, out, gaps, extents, p); }
    if w.GapFrom() <= p < w.GapTo() {
      SortedCount(items, p);
      if CountAt(items, p) == 0 { Uncounted(items, p); }
    }
  }

  lemma Uncounted(items: seq<Item>, p: int)
    requires CountAt(items, p) == 0
    ensures NoneOver(items, p)
  {
    forall i | 0 <= i < |items| ensures !Holds(items[i], p) {
      if Holds(items[i], p) { CountPart(items, p, i); }
    }
  }

  // --------------------------------------- when an explicit hole meets two copies

  /** An explicit hole that holds the file's last sector and runs on over the sector the
      write starts in, with another sector between the two. */
  predicate HoleRunsOn(items: seq<Item>, w: Write) {
    w.Tail().Some? && w.GapFrom() < w.GapTo() && exists it :: it in items && RunsOn(it, w)
  }

  predicate RunsOn(it: Item, w: Write) { IsHole(it) && it.start <= w.size && w.GapTo() < it.End() }

  /** Two copies over one hole: either a sector starts between them that is copied too,
      or the first is the old last sector's and the hole runs on to the write's. */
  lemma BetweenCopies(w: Write, items: seq<Item>, out: seq<Target>, gaps: seq<(nat, nat)>, extents: ExtentTree, it: Item, i: nat, j: nat)
    requires Writes(w, items, out, gaps, extents)
    requires it in items && IsHole(it) && i < j < |out| && out[i].hole && out[j].hole && Meets(it, out[i]) && Meets(it, out[j])
    ensures Targeted(out, out[i].End()) || HoleRunsOn(items, w)
  {
    var x := out[i].End();
    TargetAligned(w, items, out, gaps, extents, i);
    TargetSome(items, out, extents, out[i]);
    TargetSome(items, out, extents, out[j]);
    assert out[i].Has(x - 1) && out[j].Has(out[j].start);
    assert Needed(out[i], w.sector, w.Tail(), w.offset, w.end) && Needed(out[j], w.sector, w.Tail(), w.offset, w.end);
    var a: nat :| a / w.sector == (x - 1) / w.sector && Wanted(a, w.Tail(), w.offset, w.end);
    var b: nat :| b / w.sector == out[j].start / w.sector && Wanted(b, w.Tail(), w.offset, w.end);
    BeforeSector(a, x, w.sector);
    FromSector(b, out[j].start, x, w.sector);
    StartSector(w, b, out[j].start);
    if w.offset <= x {
      assert Wanted(x, w.Tail(), w.offset, w.end);
    } else {
      SectorEnd(w.size, x, w.sector);
      if w.GapTo() <= x {
        FirstSectorCopied(w, items, out, gaps, extents, x);
      } else {
        HoleBefore(it, items, w);
      }
    }
  }

  /** A byte the write wants past its start is in a sector from the write's first on. */
  lemma StartSector(w: Write, b: nat, p: nat)
    requires b / w.sector == p / w.sector && w.offset <= b
    ensures w.GapTo() <= p
  {
    SectorOf(w.offset, w.sector);
    SectorOf(p, w.sector);
    SectorOf(b, w.sector);
    if p < w.GapTo() { SectorAfter(w.GapTo(), b, w.sector); }
  }

  /** From the start of the write's first sector to its own first byte all is copied. */
  lemma FirstSectorCopied(w: Write, items: seq<Item>, out: seq<Target>, gaps: seq<(nat, nat)>, extents: ExtentTree, x: nat)
    requires Writes(w, items, out, gaps, extents) && w.GapTo() <= x <= w.offset
    ensures Targeted(out, x)
  {
    AlignUpLeast(w.end, w.sector, AlignUp(w.end, w.sector));
    WrittenSectors(w, items, out, gaps, extents, x);
  }

  /** A hole that reaches into the sector the file ends in holds the file's last byte. */
  lemma HoleBefore(it: Item, items: seq<Item>, w: Write)
    requires Aligned(items, w.sector) && it in items && IsHole(it) && it.start < w.GapFrom() && w.GapTo() < it.End()
    requires w.Tail().Some? && w.GapFrom() < w.GapTo()
    ensures HoleRunsOn(items, w)
  {
    var k :| 0 <= k < |items| && items[k] == it;
    if it.start > w.size { AlignUpLeast(w.size, w.sector, it.start); }
    assert RunsOn(it, w);
  }

  /** A hole that runs on from the file's last sector to the write's meets two copies. */
  lemma RunsOnMeetsTwo(w: Write, items: seq<Item>, out: seq<Target>, gaps: seq<(nat, nat)>, extents: ExtentTree)
    requires Writes(w, items, out, gaps, extents) && HoleRunsOn(items, w)
    ensures !HolesMeetOne(items, out)
  {
    var it :| it in items && RunsOn(it, w);
    WritesPlan(w, items, out, gaps, extents);
    var i := CopyOver(w, items, out, gaps, extents, it, w.size);
    var j := CopyOver(w, items, out, gaps, extents, it, w.offset);
    NeededAt(w, items, out, gaps, extents, i);
    NotBoth(w, out[i]);
    assert out[i] != out[j] by { if i != j { DifferentTargets(out, i, j); } }
    hide Writes;
    assert Meets(it, out[i]) && Meets(it, out[j]);
    assert !MeetsOne(it, out);
  }

  lemma DifferentTargets(out: seq<Target>, i: nat, j: nat)
    requires Ascending(out) && i < |out| && j < |out| && i != j && out[i].len > 0 && out[j].len > 0
    ensures out[i] != out[j]
  {
  }

  /** Over a wanted byte of a hole lies a hole's copy. */
  lemma CopyOver(w: Write, items: seq<Item>, out: seq<Target>, gaps: seq<(nat, nat)>, extents: ExtentTree, it: Item, p: nat) returns (i: nat)
    requires Writes(w, items, out, gaps, extents) && it in items && RunsOn(it, w)
    requires Wanted(p, w.Tail(), w.offset, w.end) && it.start <= p && (p < w.GapTo() || p == w.offset)
    ensures i < |out| && out[i].Has(p) && out[i].hole && Meets(it, out[i]) && out[i].len > 0
  {
    i :| 0 <= i < |out| && out[i].Has(p);
    SectorOf(w.offset, w.sector);
    HoleEnds(items, it, w);
    WritesPlan(w, items, out, gaps, extents);
    TargetSome(items, out, extents, out[i]);
    hide Writes;
    TargetOver(items, out, extents, it, out[i], p);
  }

  lemma HoleEnds(items: seq<Item>, it: Item, w: Write)
    requires Aligned(items, w.sector) && it in items && w.GapTo() < it.End()
    ensures w.offset < it.End()
  {
    var k :| 0 <= k < |items| && items[k] == it;
    SectorOf(w.offset, w.sector);
    MultiplesApart(w.GapTo(), it.End(), w.sector);
  }

  /** The sector after the old end is none the write wants, when it is not the write's. */
  lemma BetweenUnwanted(w: Write, q: nat)
    requires w.Tail().Some? && w.GapFrom() < w.GapTo() && q / w.sector == w.GapFrom() / w.sector
    ensures !Wanted(q, w.Tail(), w.offset, w.end)
  {
    SectorOf(q, w.sector);
    SectorOf(w.GapFrom(), w.sector);
    if q >= w.offset { StartSector(w, q, w.GapFrom()); } else { SectorAfter(w.GapFrom(), q, w.sector); }
  }

  /** One copy cannot hold both: the sector between is none the write wants. */
  lemma NotBoth(w: Write, t: Target)
    requires Needed(t, w.sector, w.Tail(), w.offset, w.end) && w.Tail().Some? && w.GapFrom() < w.GapTo() && t.hole && t.Has(w.size)
    ensures !t.Has(w.offset)
  {
    SectorOf(w.offset, w.sector);
    var p := w.GapFrom();
    if t.Has(p) {
      var q: nat :| q / w.sector == p / w.sector && Wanted(q, w.Tail(), w.offset, w.end);
      hide Wanted;
      BetweenUnwanted(w, q);
    }
  }

  lemma {:induction false} NeededAt(w: Write, items: seq<Item>, out: seq<Target>, gaps: seq<(nat, nat)>, extents: ExtentTree, i: nat)
    requires Writes(w, items, out, gaps, extents) && i < |out|
    ensures Needed(out[i], w.sector, w.Tail(), w.offset, w.end)
  {
    hide Needed, AllFit, OnEdges, GapsOf, Aligned, Sorted, NoInline;
  }

  /** A byte in the sector that ends at `x`, and one in a sector from `x` on. */
  lemma BeforeSector(a: nat, x: nat, sector: Pos)
    requires x > 0 && x % sector == 0 && a / sector == (x - 1) / sector
    ensures x - sector <= a < x
  {
    SectorOf(a, sector);
    SectorOf(x - 1, sector);
    MultiplesApart((x - 1) / sector * sector, x, sector);
  }

  lemma FromSector(b: nat, p: nat, x: nat, sector: Pos)
    requires x % sector == 0 && x <= p && b / sector == p / sector
    ensures x <= b
  {
    SectorOf(b, sector);
    SectorAfter(x, p, sector);
  }

  lemma SectorEnd(size: nat, x: nat, sector: Pos)
    requires x % sector == 0 && size % sector != 0 && x - sector <= size < x
    ensures x == AlignUp(size, sector)
  {
    AlignUpLeast(size, sector, x);
    if AlignUp(size, sector) < x { MultiplesApart(AlignUp(size, sector), x, sector); }
  }

  lemma HolesFarApart(w: Write, items: seq<Item>, out: seq<Target>, gaps: seq<(nat, nat)>, extents: ExtentTree)
    requires Writes(w, items, out, gaps, extents)
    ensures HolesApart(out) && Ascending(out) && AllFit(out, PiecesOf(items), extents)
  {
    hide HolesApart, AllFit, OnEdges, AllNeeded, GapsOf, Aligned, Sorted, NoInline, Ascending;
  }

  /** No hole's copy starts where another ends. */
  lemma NoHoleNextTo(out: seq<Target>, i: nat, k: nat)
    requires HolesApart(out) && Ascending(out) && i < |out| && k < |out| && out[i].hole && out[i].len > 0
    requires out[k].Has(out[i].End())
    ensures !out[k].hole
  {
  }

  lemma OneCopy(w: Write, items: seq<Item>, out: seq<Target>, gaps: seq<(nat, nat)>, extents: ExtentTree, it: Item, i: nat, j: nat)
    requires Writes(w, items, out, gaps, extents) && !HoleRunsOn(items, w)
    requires it in items && IsHole(it) && i < j < |out| && out[i].hole && out[j].hole && Meets(it, out[i])
    ensures !Meets(it, out[j])
  {
    if Meets(it, out[j]) {
      BetweenCopies(w, items, out, gaps, extents, it, i, j);
      WritesPlan(w, items, out, gaps, extents);
      HolesFarApart(w, items, out, gaps, extents);
      TargetSome(items, out, extents, out[i]);
      hide Writes, HoleRunsOn, IsHole, Plan;
      var x := out[i].End();
      var k :| 0 <= k < |out| && out[k].Has(x);
      assert out[i].End() < out[j].start;
      TargetOver(items, out, extents, it, out[k], x);
      NoHoleNextTo(out, i, k);
    }
  }

  /** Each explicit hole meets one copy at most, exactly unless one runs on. */
  lemma HolesMeetOneExactlyWhen(w: Write, items: seq<Item>, out: seq<Target>, gaps: seq<(nat, nat)>, extents: ExtentTree)
    requires Writes(w, items, out, gaps, extents)
    ensures HolesMeetOne(items, out) <==> !HoleRunsOn(items, w)
  {
    if HoleRunsOn(items, w) {
      RunsOnMeetsTwo(w, items, out, gaps, extents);
    } else {
      forall it, t, u | it in items && IsHole(it) && t in out && u in out && t.hole && u.hole && Meets(it, t) && Meets(it, u)
        ensures t == u
      {
        var i :| 0 <= i < |out| && out[i] == t;
        var j :| 0 <= j < |out| && out[j] == u;
        if i < j { OneCopy(w, items, out, gaps, extents, it, i, j); }
        if j < i { OneCopy(w, items, out, gaps, extents, it, j, i); }
      }
    }
  }

  /** No byte ends up in two items exactly unless an explicit hole runs on from the file's
      last sector over the write's first, past a sector between the two. */
  lemma NoneTwiceUnlessHoleRunsOn(w: Write, items: seq<Item>, out: seq<Target>, gaps: seq<(nat, nat)>, unit: Pos, news: nat -> nat,
                                  hole: Attributes, data: Attributes, extents: ExtentTree)
    requires !w.noHoles && Writes(w, items, out, gaps, extents)
    ensures NoneTwiceIn(AfterWrite(w.noHoles, items, out, gaps, unit, news, hole, data)) <==> !HoleRunsOn(items, w)
  {
    NoneTwiceExactlyWhen(w, items, out, gaps, unit, news, hole, data, extents);
    HolesMeetOneExactlyWhen(w, items, out, gaps, extents);
  }

  // -------------------------------------------------------------- what it reads

  /** A byte as the write leaves it: its own data, else what the file held. */
  function Written(value: Cell -> int, items: seq<Item>, w: Write, bytes: int -> int, p: int): int {
    if w.offset <= p < w.end then bytes(p - w.offset)
    else if p < w.size then value(Read(items, p)) else value(Zero)
  }

  /** Each copy holds the old bytes with the write's laid over them. */
  ghost predicate CopiesHold(value: Cell -> int, copies: seq<Item>, items: seq<Item>, w: Write, bytes: int -> int) {
    forall c, p: int | c in copies && Holds(c, p) :: value(CellOf(c, p)) == Written(value, items, w, bytes, p)
  }

  lemma {:induction false} KeptReads(items: seq<Item>, out: seq<Target>, extents: ExtentTree, hole: Attributes, n: nat, p: int)
    requires Plan(items, out, extents) && n <= |items|
    ensures Read(Kept(items[..n], out, hole), p) == if Targeted(out, p) then Zero else Read(items[..n], p)
    decreases n
  {
    hide Plan, KeptOne, Targeted, CellOf;
    if n > 0 {
      assert items[..n][..n-1] == items[..n-1];
      KeptReads(items, out, extents, hole, n - 1, p);
      KeptReadsOne(items, out, extents, hole, items[n-1], p);
      ReadJoin(Kept(items[..n-1], out, hole), KeptOne(items[n-1], out, hole), p);
    }
  }

  /** Items left whole read as they did, but for those copied. */
  lemma {:induction false} UnreplacedReads(items: seq<Item>, out: seq<Target>, extents: ExtentTree, unit: Pos, n: nat, p: int)
    requires Plan(items, out, extents) && n <= |items|
    ensures Read(Unreplaced(items[..n], out, unit), p) == if Targeted(out, p) then Zero else Read(items[..n], p)
    decreases n
  {
    hide Plan, Starts, Targeted, CellOf;
    if n > 0 {
      var it := items[n-1];
      assert items[..n][..n-1] == items[..n-1];
      UnreplacedReads(items, out, extents, unit, n - 1, p);
      UnreplacedReadsOne(items, out, extents, unit, it, p);
      ReadJoin(Unreplaced(items[..n-1], out, unit), if Starts(out, unit, it.start) then [] else [it], p);
    }
  }

  lemma UnreplacedReadsOne(items: seq<Item>, out: seq<Target>, extents: ExtentTree, unit: Pos, it: Item, p: int)
    requires Plan(items, out, extents) && it in items
    ensures Read(if Starts(out, unit, it.start) then [] else [it], p) == if Targeted(out, p) then Zero else CellOf(it, p)
  {
    ReadSingle(it, p);
    if !IsHole(it) {
      StartsReplaced(items, out, extents, unit, it);
      hide Starts;
      if Holds(it, p) { ReplacedWhole(items, out, extents, it, p); }
    }
  }

  lemma StandingReads(noHoles: bool, items: seq<Item>, out: seq<Target>, extents: ExtentTree, unit: Pos, hole: Attributes, p: int)
    requires Plan(items, out, extents)
    ensures Read(Standing(noHoles, items, out, unit, hole), p) == if Targeted(out, p) then Zero else Read(items, p)
  {
    assert items[..|items|] == items;
    hide Plan, Read, Targeted, Kept, Unreplaced;
    KeptReads(items, out, extents, hole, |items|, p);
    UnreplacedReads(items, out, extents, unit, |items|, p);
  }

  lemma ReadSingle(it: Item, p: int)
    ensures Read([it], p) == CellOf(it, p)
  {
    assert [it][..0] == [];
  }

  lemma KeptReadsOne(items: seq<Item>, out: seq<Target>, extents: ExtentTree, hole: Attributes, it: Item, p: int)
    requires Plan(items, out, extents) && it in items
    ensures Read(KeptOne(it, out, hole), p) == if Targeted(out, p) then Zero else CellOf(it, p)
  {
    ReadSingle(it, p);
    if !IsHole(it) {
      if Holds(it, p) { ReplacedWhole(items, out, extents, it, p); }
    } else if HoleTargetFor(out, it).Some? {
      LeftoversRead(it, HoleTargetFor(out, it).value, hole, p);
    }
  }

  lemma LeftoversRead(it: Item, t: Target, attrs: Attributes, p: int)
    requires Meets(it, t)
    ensures Read(Leftovers(it, t, attrs), p) == Zero
  {
    var a := if it.start < t.start then [HoleItem(it.start, t.start, attrs)] else [];
    var b := if t.End() < it.End() then [HoleItem(t.End(), it.End(), attrs)] else [];
    ReadJoin(a, b, p);
    if a != [] { ReadSingle(HoleItem(it.start, t.start, attrs), p); }
    if b != [] { ReadSingle(HoleItem(t.End(), it.End(), attrs), p); }
  }

  lemma {:induction false} GapsRead(gaps: seq<(nat, nat)>, attrs: Attributes, p: int)
    requires forall i | 0 <= i < |gaps| :: gaps[i].0 <= gaps[i].1
    ensures Read(GapItems(gaps, attrs), p) == Zero
  {
    if gaps != [] {
      GapsRead(gaps[..|gaps|-1], attrs, p);
      var items := GapItems(gaps, attrs);
      assert items[..|items|-1] == GapItems(gaps[..|gaps|-1], attrs);
    }
  }

  lemma {:induction false} ReadSomewhere(items: seq<Item>, p: int)
    ensures Read(items, p) == Zero || exists c :: c in items && Holds(c, p) && Read(items, p) == CellOf(c, p)
    ensures (exists c :: c in items && CellOf(c, p) != Zero) ==> Read(items, p) != Zero
  {
    if items != [] {
      var init, last := items[..|items|-1], items[|items|-1];
      ReadSomewhere(init, p);
      assert items == init + [last];
    }
  }

  lemma {:induction false} ChunksData(at: nat, end: nat, unit: Pos, news: nat -> nat, attrs: Attributes)
    requires forall p :: news(p) > 0
    ensures forall x | x in Chunks(at, end, unit, news, attrs) :: x.kind == Regular && x.bytenr != 0
    decreases end - at
  {
    if at < end { ChunksData(at + MinNat(unit, end - at), end, unit, news, attrs); }
  }

  lemma {:induction false} CopiesData(out: seq<Target>, unit: Pos, news: nat -> nat, attrs: Attributes)
    requires forall p :: news(p) > 0
    ensures forall x | x in CopiesOf(out, unit, news, attrs) :: x.kind == Regular && x.bytenr != 0
  {
    if out != [] {
      CopiesData(out[..|out|-1], unit, news, attrs);
      ChunksData(out[|out|-1].start, out[|out|-1].End(), unit, news, attrs);
    }
  }

  /** What a copied byte reads. */
  lemma CopiedReads(value: Cell -> int, items: seq<Item>, w: Write, bytes: int -> int, out: seq<Target>, unit: Pos,
                    news: nat -> nat, data: Attributes, p: int)
    requires Ascending(out) && forall q :: news(q) > 0
    requires CopiesHold(value, CopiesOf(out, unit, news, data), items, w, bytes)
    ensures Targeted(out, p) ==> Read(CopiesOf(out, unit, news, data), p) != Zero
    ensures Targeted(out, p) ==> value(Read(CopiesOf(out, unit, news, data), p)) == Written(value, items, w, bytes, p)
    ensures !Targeted(out, p) ==> Read(CopiesOf(out, unit, news, data), p) == Zero
  {
    var copies := CopiesOf(out, unit, news, data);
    CopiesCount(out, unit, news, data, p);
    CopiesData(out, unit, news, data);
    ReadSomewhere(copies, p);
    hide CopiesOf, Read;
    if Targeted(out, p) {
      CountedHas(copies, p);
      var i :| 0 <= i < |copies| && Holds(copies[i], p);
      assert copies[i] in copies && CellOf(copies[i], p) != Zero;
    } else if Read(copies, p) != Zero {
      var c :| c in copies && Holds(c, p);
      var i :| 0 <= i < |copies| && copies[i] == c;
      CountPart(copies, p, i);
    }
  }

  lemma TailCopied(w: Write, items: seq<Item>, out: seq<Target>, gaps: seq<(nat, nat)>, extents: ExtentTree, p: nat)
    requires Writes(w, items, out, gaps, extents) && w.size <= p < w.GapFrom() && w.size < w.offset
    ensures Targeted(out, p)
  {
    assert w.size % w.sector != 0;
    assert Wanted(w.size, w.Tail(), w.offset, w.end);
    var i :| 0 <= i < |out| && out[i].Has(w.size);
    TargetAligned(w, items, out, gaps, extents, i);
    AlignUpLeast(w.size, w.sector, out[i].End());
    assert out[i].Has(p);
  }

  /** A byte the write does not copy is none of its own, and reads as it did. */
  lemma LeftAlone(w: Write, items: seq<Item>, out: seq<Target>, gaps: seq<(nat, nat)>, extents: ExtentTree, p: nat)
    requires Writes(w, items, out, gaps, extents) && p < Max(w.size, w.end)
    requires forall q: nat | w.GapFrom() <= q :: Read(items, q) == Zero
    ensures !Targeted(out, p) ==> !(w.offset <= p < w.end) && (p < w.size || Read(items, p) == Zero)
  {
    if w.offset <= p < w.end { assert Wanted(p, w.Tail(), w.offset, w.end); }
    if w.size <= p < w.GapFrom() && p < w.offset { TailCopied(w, items, out, gaps, extents, p); }
  }

  /** The write's bytes where it wrote, the old ones elsewhere, and zeros between the
      old end and the write. */
  lemma WriteOverlays(value: Cell -> int, w: Write, items: seq<Item>, out: seq<Target>, gaps: seq<(nat, nat)>, extents: ExtentTree,
                      unit: Pos, news: nat -> nat, hole: Attributes, data: Attributes, bytes: int -> int, p: nat)
    requires Writes(w, items, out, gaps, extents) && p < Max(w.size, w.end)
    requires forall q: nat | w.GapFrom() <= q :: Read(items, q) == Zero
    requires (forall q :: news(q) > 0) && CopiesHold(value, CopiesOf(out, unit, news, data), items, w, bytes)
    ensures value(Read(AfterWrite(w.noHoles, items, out, gaps, unit, news, hole, data), p)) == Written(value, items, w, bytes, p)
  {
    WritesPlan(w, items, out, gaps, extents);
    LeftAlone(w, items, out, gaps, extents, p);
    hide CowPlanned, Read, Standing, GapItems, CopiesOf, CopiesHold, Targeted, Sorted;
    var left := Standing(w.noHoles, items, out, unit, hole);
    StandingReads(w.noHoles, items, out, extents, unit, hole, p);
    GapsRead(gaps, hole, p);
    CopiedReads(value, items, w, bytes, out, unit, news, data, p);
    ReadJoin(left, GapItems(gaps, hole), p);
    ReadJoin(left + GapItems(gaps, hole), CopiesOf(out, unit, news, data), p);
  }

  // ------------------------------------------------- the edits come to these items

  lemma {:induction false} AsMapHas(items: seq<Item>, x: Item)
    requires x in items
    ensures x.start in AsMap(items)
  {
    if x in items[..|items|-1] { AsMapHas(items[..|items|-1], x); }
  }

  /** The keys the copies take are the starts of their extents. */
  lemma {:induction false} ChunksStart(at: nat, end: nat, unit: Pos, news: nat -> nat, attrs: Attributes, p: nat)
    ensures at <= p < end && (p - at) % unit == 0 ==> p in AsMap(Chunks(at, end, unit, news, attrs))
    ensures (exists x :: x in Chunks(at, end, unit, news, attrs) && x.start == p) ==> at <= p < end && (p - at) % unit == 0
    decreases end - at
  {
    if at < end {
      var n := MinNat(unit, end - at);
      var first, rest := Item(at, n, news(at), 0, Regular, attrs), Chunks(at + n, end, unit, news, attrs);
      ChunksStart(at + n, end, unit, news, attrs, p);
      AsMapJoin([first], rest);
      OneAsMap(first);
      UnitOn(at, p, unit);
      hide Chunks, AsMap;
      assert Chunks(at, end, unit, news, attrs) == [first] + rest;
    }
  }

  lemma UnitOn(at: nat, p: int, unit: Pos)
    ensures at <= p && (p - at) % unit == 0 ==> p == at || (at + unit <= p && (p - (at + unit)) % unit == 0)
    ensures (at + unit <= p && (p - (at + unit)) % unit == 0) ==> (p - at) % unit == 0
    ensures p == at ==> (p - at) % unit == 0
  {
    ModOfMultiple(1, unit);
    ModOfMultiple(0, unit);
    if at < p && (p - at) % unit == 0 {
      MultiplesApart(0, p - at, unit);
      ModSum(p - at, unit, unit);
    }
    if at + unit <= p && (p - (at + unit)) % unit == 0 { ModSum(p - (at + unit), unit, unit); }
  }

  lemma {:induction false} CopiesStart(out: seq<Target>, unit: Pos, news: nat -> nat, attrs: Attributes, p: nat)
    ensures Starts(out, unit, p) ==> p in AsMap(CopiesOf(out, unit, news, attrs))
    ensures (exists x :: x in CopiesOf(out, unit, news, attrs) && x.start == p) ==> Starts(out, unit, p)
  {
    if out != [] {
      var init, last := out[..|out|-1], out[|out|-1];
      var more := Chunks(last.start, last.End(), unit, news, attrs);
      CopiesStart(init, unit, news, attrs, p);
      ChunksStart(last.start, last.End(), unit, news, attrs, p);
      AsMapJoin(CopiesOf(init, unit, news, attrs), more);
      StartsMore(out, unit, p);
      hide AsMap, Chunks, Starts;
      assert CopiesOf(out, unit, news, attrs) == CopiesOf(init, unit, news, attrs) + more;
    }
  }

  lemma StartsMore(out: seq<Target>, unit: Pos, p: nat)
    requires out != []
    ensures var init, last := out[..|out|-1], out[|out|-1];
      Starts(out, unit, p) <==> Starts(init, unit, p) || (last.start <= p < last.End() && (p - last.start) % unit == 0)
  {
    var init, n := out[..|out|-1], |out| - 1;
    if Starts(init, unit, p) {
      var i :| 0 <= i < |init| && init[i].Has(p) && (p - init[i].start) % unit == 0;
      assert out[i].Has(p);
    }
    if Starts(out, unit, p) {
      var i :| 0 <= i < |out| && out[i].Has(p) && (p - out[i].start) % unit == 0;
      if i < n { assert init[i].Has(p); }
    }
    if out[n].start <= p < out[n].End() { assert out[n].Has(p); }
  }

  lemma PutOver(m: map<nat, Item>, it: Item, over: map<nat, Item>)
    requires it.start in over
    ensures (m + AsMap([it])) + over == m + over
  {
    OneAsMap(it);
  }

  lemma Regroup(a: map<nat, Item>, b: map<nat, Item>, c: map<nat, Item>)
    ensures (a + b) + c == a + (b + c)
  {
  }

  /** An item copied is put over under its own key. */
  lemma {:induction false} TrimmedUnder(items: seq<Item>, out: seq<Target>, attrs: Attributes, over: map<nat, Item>, n: nat)
    requires n <= |items| && forall t | t in out && !t.hole :: t.start in over
    ensures AsMap(Trimmed(items[..n], out, attrs)) + over == AsMap(Kept(items[..n], out, attrs)) + over
    decreases n
  {
    hide AsMap, TrimOne;
    if n > 0 {
      var it := items[n-1];
      assert items[..n][..n-1] == items[..n-1];
      TrimmedUnder(items, out, attrs, over, n - 1);
      var trimmed, kept := Trimmed(items[..n-1], out, attrs), Kept(items[..n-1], out, attrs);
      AsMapJoin(trimmed, TrimOne(it, out, attrs));
      AsMapJoin(kept, KeptOne(it, out, attrs));
      if !IsHole(it) && Replaced(it, out) {
        TrimOfPiece(it, out, attrs);
        PutOver(AsMap(trimmed), it, over);
        assert kept + [] == kept;
      } else {
        UnderBoth(AsMap(trimmed), AsMap(kept), AsMap(TrimOne(it, out, attrs)), over);
      }
    }
  }

  lemma TrimOfPiece(it: Item, out: seq<Target>, attrs: Attributes)
    requires !IsHole(it)
    ensures TrimOne(it, out, attrs) == [it]
  {
  }

  lemma UnderBoth(a: map<nat, Item>, b: map<nat, Item>, c: map<nat, Item>, over: map<nat, Item>)
    requires a + over == b + over
    ensures (a + c) + over == (b + c) + over
  {
    forall k | k in (a + c) + over ensures k in (b + c) + over && ((a + c) + over)[k] == ((b + c) + over)[k] {
      assert k in a + over ==> (a + over)[k] == (b + over)[k];
    }
    forall k | k in (b + c) + over ensures k in (a + c) + over {
      assert k in b + over ==> (a + over)[k] == (b + over)[k];
    }
  }

  /** An item left whole is put over under its own key where a copy takes it. */
  lemma {:induction false} WholeUnder(items: seq<Item>, out: seq<Target>, unit: Pos, over: map<nat, Item>, n: nat)
    requires n <= |items| && forall p: nat | Starts(out, unit, p) :: p in over
    ensures AsMap(items[..n]) + over == AsMap(Unreplaced(items[..n], out, unit)) + over
    decreases n
  {
    hide AsMap, Starts;
    if n > 0 {
      var it := items[n-1];
      assert items[..n][..n-1] == items[..n-1] && items[..n] == items[..n-1] + [it];
      WholeUnder(items, out, unit, over, n - 1);
      var left := Unreplaced(items[..n-1], out, unit);
      AsMapJoin(items[..n-1], [it]);
      AsMapJoin(left, [it]);
      if Starts(out, unit, it.start) {
        PutOver(AsMap(items[..n-1]), it, over);
        assert left + [] == left;
      } else {
        UnderBoth(AsMap(items[..n-1]), AsMap(left), AsMap([it]), over);
      }
    }
  }

  /** The hole edits leave, under the gaps' holes and the copies, the items that stand. */
  lemma StandsUnder(noHoles: bool, items: seq<Item>, out: seq<Target>, unit: Pos, attrs: Attributes, over: map<nat, Item>, to: int)
    requires Sorted(items) && Within(items, 0, to) && 0 <= to
    requires (forall p: nat | Starts(out, unit, p) :: p in over) && forall t | t in out && !t.hole :: t.start in over
    ensures Edited(AsMap(items), ByKey(HoleEdits(noHoles, items, out, attrs))) + over == AsMap(Standing(noHoles, items, out, unit, attrs)) + over
  {
    HolesTrimmed(items, out, attrs, 0, to);
    NothingEdited();
    EditedByNone(AsMap(items));
    hide Edited, AsMap, ByKey, HoleEditsOf, Trimmed, Kept, Unreplaced, Starts, Sorted, Within;
    assert items[..|items|] == items;
    TrimmedUnder(items, out, attrs, over, |items|);
    WholeUnder(items, out, unit, over, |items|);
  }

  /** The hole edits, then the gaps' holes, then the copies under their items' keys,
      leave in the tree exactly the items after the write. */
  lemma EditsLeaveWrite(w: Write, items: seq<Item>, out: seq<Target>, gaps: seq<(nat, nat)>, unit: Pos, news: nat -> nat,
                        hole: Attributes, data: Attributes, extents: ExtentTree, to: int)
    requires Writes(w, items, out, gaps, extents) && Within(items, 0, to) && 0 <= to
    ensures Edited(AsMap(items), ByKey(HoleEdits(w.noHoles, items, out, hole))) + AsMap(GapItems(gaps, hole)) + AsMap(CopiesOf(out, unit, news, data))
         == AsMap(AfterWrite(w.noHoles, items, out, gaps, unit, news, hole, data))
  {
    var g, c := AsMap(GapItems(gaps, hole)), AsMap(CopiesOf(out, unit, news, data));
    forall p: nat | Starts(out, unit, p) ensures p in g + c { CopiesStart(out, unit, news, data, p); }
    forall t | t in out && !t.hole ensures t.start in g + c {
      TargetSome(items, out, extents, t);
      StartsTarget(out, unit, t);
    }
    hide Edited, AsMap, ByKey, HoleEdits, Standing, GapItems, CopiesOf, CowPlanned, Sorted, Within, Starts;
    StandsUnder(w.noHoles, items, out, unit, hole, g + c, to);
    var left := Standing(w.noHoles, items, out, unit, hole);
    Regroup(Edited(AsMap(items), ByKey(HoleEdits(w.noHoles, items, out, hole))), g, c);
    Regroup(AsMap(left), g, c);
    AsMapJoin(left + GapItems(gaps, hole), CopiesOf(out, unit, news, data));
    AsMapJoin(left, GapItems(gaps, hole));
  }

  // ------------------------------------------------------- a hole past the old end

  const SHORT: Write := Write(100, 20480, 20481, 4096, false)

  function LongHole(attrs: Attributes): Item { HoleItem(0, 32768, attrs) }

  function FirstAndSixth(): seq<Target> { [HoleTarget(0, 4096), HoleTarget(20480, 24576)] }

  lemma ShortNeeds()
    ensures AllNeeded(FirstAndSixth(), 4096, SHORT.Tail(), 20480, 20481)
    ensures SHORT.Tail() == Some(100) && SHORT.GapFrom() == 4096 && SHORT.GapTo() == 20480
  {
    var out := FirstAndSixth();
    assert Wanted(100, SHORT.Tail(), 20480, 20481) && Wanted(20480, SHORT.Tail(), 20480, 20481);
    forall p: nat | out[0].Has(p) ensures exists q: nat :: q / 4096 == p / 4096 && Wanted(q, SHORT.Tail(), 20480, 20481) {
      assert 100 / 4096 == p / 4096;
    }
    forall p: nat | out[1].Has(p) ensures exists q: nat :: q / 4096 == p / 4096 && Wanted(q, SHORT.Tail(), 20480, 20481) {
      assert 20480 / 4096 == p / 4096;
    }
  }

  lemma ShortPlanned(attrs: Attributes)
    ensures CowPlanned(FirstAndSixth(), [], map[], 4096, SHORT.Tail(), 20480, 20481)
  {
    ShortNeeds();
    var out := FirstAndSixth();
    assert out[0].Has(100) && out[1].Has(20480);
    hide AllNeeded;
  }

  lemma ShortWrites(attrs: Attributes)
    ensures Writes(SHORT, [LongHole(attrs)], FirstAndSixth(), [], map[])
  {
    ShortNeeds();
    ShortPlanned(attrs);
    var items := [LongHole(attrs)];
    assert items[..0] == [] && PiecesOf(items) == [];
    forall p: int | 4096 <= p < 20480 ensures !NoneOver(items, p) { assert Holds(items[0], p); }
    hide CowPlanned;
  }

  /** A file of 100 bytes in one explicit hole of eight sectors: a byte written into
      the sixth copies the first sector and the sixth, and the hole, cut around the
      first alone, still lies over the second. */
  lemma HolePastTheEnd(attrs: Attributes, unit: Pos, news: nat -> nat)
    ensures Writes(SHORT, [LongHole(attrs)], FirstAndSixth(), [], map[]) && HoleRunsOn([LongHole(attrs)], SHORT)
    ensures exists p: nat :: CountAt(AfterWrite(false, [LongHole(attrs)], FirstAndSixth(), [], unit, news, attrs, attrs), p) > 1
  {
    ShortNeeds();
    ShortWrites(attrs);
    var it, out := LongHole(attrs), FirstAndSixth();
    assert it in [it] && RunsOn(it, SHORT);
    assert out[1] in out && Meets(it, out[1]) && HoleTargetFor(out, it) == Some(out[0]);
    hide Writes, CountAt, AfterWrite;
    TwoOverOne(SHORT, [it], out, [], unit, news, attrs, attrs, map[], it, out[1]);
  }
}
