/** Explicit holes under a copy-on-write write (src/cow_write.rs): when one is left lying
    over a byte copied. Where the volume records its holes they are cut around the copies;
    on a volume with no-holes they are not edited, and go only where a copy takes their
    key. */
module CowHoles {
  import opened Base
  import opened FileItems
  import opened Extents
  import opened CowPlan
  import opened CowWrite

  // ------------------------------------------------------------- what stands whole

  lemma {:induction false} UnreplacedHas(items: seq<Item>, out: seq<Target>, unit: Pos)
    ensures forall x :: x in Unreplaced(items, out, unit) <==> x in items && !Starts(out, unit, x.start)
  {
    hide Starts;
    if items != [] {
      var init, last := items[..|items|-1], items[|items|-1];
      UnreplacedHas(init, out, unit);
      assert items == init + [last];
    }
  }

  lemma {:induction false} UnreplacedCount(items: seq<Item>, out: seq<Target>, unit: Pos, p: int)
    ensures CountAt(Unreplaced(items, out, unit), p) <= CountAt(items, p)
  {
    hide Starts;
    if items != [] {
      var init, last := items[..|items|-1], items[|items|-1];
      UnreplacedCount(init, out, unit, p);
      CountJoin(Unreplaced(init, out, unit), if Starts(out, unit, last.start) then [] else [last], p);
      CountSingle(last, p);
      assert CountAt([], p) == 0;
    }
  }

  /** An explicit hole that keeps its key and lies over a copied byte. */
  ghost predicate Under(it: Item, out: seq<Target>, unit: Pos, p: nat) {
    IsHole(it) && Holds(it, p) && Targeted(out, p) && !Starts(out, unit, it.start)
  }

  /** An item left whole over a copied byte is such a hole. */
  lemma WholeOver(items: seq<Item>, out: seq<Target>, extents: ExtentTree, unit: Pos, it: Item, p: nat)
    requires Plan(items, out, extents) && it in Unreplaced(items, out, unit) && Holds(it, p) && Targeted(out, p)
    ensures it in items && Under(it, out, unit, p)
  {
    UnreplacedHas(items, out, unit);
    if !IsHole(it) {
      StartsReplaced(items, out, extents, unit, it);
      hide Starts;
      ReplacedWhole(items, out, extents, it, p);
    }
  }

  /** On a volume with no-holes, how many items lie over a byte after the write. */
  lemma WholeAfter(items: seq<Item>, out: seq<Target>, unit: Pos, news: nat -> nat, hole: Attributes, data: Attributes, p: int)
    requires Ascending(out)
    ensures CountAt(AfterWrite(true, items, out, [], unit, news, hole, data), p)
         == CountAt(Unreplaced(items, out, unit), p) + if Targeted(out, p) then 1 else 0
  {
    hide CountAt, Unreplaced, CopiesOf, Targeted;
    var left := Unreplaced(items, out, unit);
    assert left + GapItems([], hole) == left;
    CountJoin(left, CopiesOf(out, unit, news, data), p);
    CopiesCount(out, unit, news, data, p);
  }

  lemma WholeOnce(w: Write, items: seq<Item>, out: seq<Target>, gaps: seq<(nat, nat)>, unit: Pos, news: nat -> nat, hole: Attributes,
                  data: Attributes, extents: ExtentTree, p: nat)
    requires w.noHoles && Writes(w, items, out, gaps, extents) && forall it | it in items :: !Under(it, out, unit, p)
    ensures CountAt(AfterWrite(true, items, out, gaps, unit, news, hole, data), p) <= 1
  {
    WritesPlan(w, items, out, gaps, extents);
    hide CowPlanned, AfterWrite, CountAt, Unreplaced, Under, Targeted;
    WholeAfter(items, out, unit, news, hole, data, p);
    UnreplacedCount(items, out, unit, p);
    SortedCount(items, p);
    var left := Unreplaced(items, out, unit);
    if Targeted(out, p) && CountAt(left, p) > 0 {
      CountedHas(left, p);
      var i :| 0 <= i < |left| && Holds(left[i], p);
      WholeOver(items, out, extents, unit, left[i], p);
      assert false;
    }
  }

  lemma UnderTwice(w: Write, items: seq<Item>, out: seq<Target>, gaps: seq<(nat, nat)>, unit: Pos, news: nat -> nat, hole: Attributes,
                   data: Attributes, extents: ExtentTree, it: Item, p: nat)
    requires w.noHoles && Writes(w, items, out, gaps, extents) && it in items && Under(it, out, unit, p)
    ensures CountAt(AfterWrite(true, items, out, gaps, unit, news, hole, data), p) > 1
  {
    WritesPlan(w, items, out, gaps, extents);
    UnreplacedHas(items, out, unit);
    hide CowPlanned, AfterWrite, CountAt, Unreplaced, Targeted, Starts;
    WholeAfter(items, out, unit, news, hole, data, p);
    var left := Unreplaced(items, out, unit);
    var i :| 0 <= i < |left| && left[i] == it;
    CountPart(left, p, i);
  }

  // ------------------------------------------------- told from the file and the write

  /** The sectors the write fills, where no extent is: its own, and the old last one when
      it leaves the rest of that behind. */
  predicate Spanned(w: Write, p: nat) {
    || w.GapTo() <= p < AlignUp(w.end, w.sector)
    || (w.Tail().Some? && w.size / w.sector * w.sector <= p < w.GapFrom())
  }

  predicate NoPiece(items: seq<Item>, p: nat) { forall x | x in items && Holds(x, p) :: IsHole(x) }

  /** A byte that a hole's copy fills. */
  predicate Filled(items: seq<Item>, w: Write, p: nat) { Spanned(w, p) && NoPiece(items, p) }

  /** Where the stretch of filled bytes up to `p` begins. */
  function FillStart(items: seq<Item>, w: Write, p: nat): nat {
    if p > 0 && Filled(items, w, p - 1) then FillStart(items, w, p - 1) else p
  }

  /** One of the extents that fill a stretch starts at `p`. */
  predicate FillsFrom(items: seq<Item>, w: Write, unit: Pos, p: nat) {
    Filled(items, w, p) && (p - FillStart(items, w, p)) % unit == 0
  }

  predicate MeetsSpan(it: Item, w: Write) {
    || (it.start < AlignUp(w.end, w.sector) && w.GapTo() < it.End())
    || (w.Tail().Some? && it.start < w.GapFrom() && w.size / w.sector * w.sector < it.End())
  }

  /** An explicit hole lies over a sector the write fills, and no extent that fills one
      starts where the hole does. */
  predicate HoleKeepsKey(items: seq<Item>, w: Write, unit: Pos) { exists it :: it in items && KeepsKey(it, items, w, unit) }

  predicate KeepsKey(it: Item, items: seq<Item>, w: Write, unit: Pos) {
    IsHole(it) && MeetsSpan(it, w) && !FillsFrom(items, w, unit, it.start)
  }

  predicate HoleOver(out: seq<Target>, p: int) { exists i :: 0 <= i < |out| && out[i].hole && out[i].Has(p) }

  /** A target over the old end reaches over the whole of its sector. */
  lemma TailSector(w: Write, items: seq<Item>, out: seq<Target>, gaps: seq<(nat, nat)>, extents: ExtentTree, p: nat)
    requires Writes(w, items, out, gaps, extents) && w.Tail().Some? && w.size / w.sector * w.sector <= p < w.GapFrom()
    ensures Targeted(out, p)
  {
    assert Wanted(w.size, w.Tail(), w.offset, w.end);
    var i :| 0 <= i < |out| && out[i].Has(w.size);
    TargetAligned(w, items, out, gaps, extents, i);
    hide Writes;
    SectorOf(w.size, w.sector);
    SectorAfter(out[i].start, w.size, w.sector);
    AlignUpLeast(w.size, w.sector, out[i].End());
    assert out[i].Has(p);
  }

  lemma SpannedCopied(w: Write, items: seq<Item>, out: seq<Target>, gaps: seq<(nat, nat)>, extents: ExtentTree, p: nat)
    requires Writes(w, items, out, gaps, extents) && Spanned(w, p)
    ensures Targeted(out, p)
  {
    hide Writes, Targeted, AlignUp;
    if w.GapTo() <= p < AlignUp(w.end, w.sector) {
      WrittenSectors(w, items, out, gaps, extents, p);
    } else {
      TailSector(w, items, out, gaps, extents, p);
    }
  }

  /** A byte in a sector the write wants is in one it fills, or copies. */
  lemma WantedSpanned(w: Write, q: nat, p: nat)
    requires w.offset < w.end && q / w.sector == p / w.sector && Wanted(q, w.Tail(), w.offset, w.end)
    ensures Spanned(w, p)
  {
    SectorOf(p, w.sector);
    SectorOf(q, w.sector);
    if w.offset <= q {
      StartSector(w, q, p);
      if AlignUp(w.end, w.sector) <= p { SectorAfter(AlignUp(w.end, w.sector), p, w.sector); }
    } else {
      SizeSector(w.size, p, w.sector);
    }
  }

  /** The filled bytes are those of the plan's hole targets. */
  lemma FilledIsCopied(w: Write, items: seq<Item>, out: seq<Target>, gaps: seq<(nat, nat)>, extents: ExtentTree, p: nat)
    requires Writes(w, items, out, gaps, extents)
    ensures Filled(items, w, p) <==> HoleOver(out, p)
  {
    WritesPlan(w, items, out, gaps, extents);
    PiecesSorted(items);
    if Filled(items, w, p) {
      SpannedCopied(w, items, out, gaps, extents, p);
      var i :| 0 <= i < |out| && out[i].Has(p);
      OverPiece(items, out, extents, i, p);
      if !out[i].hole {
        var x :| x in items && Holds(x, p);
        TargetOver(items, out, extents, x, out[i], p);
      }
    }
    if HoleOver(out, p) {
      var i :| 0 <= i < |out| && out[i].hole && out[i].Has(p);
      NeededAt(w, items, out, gaps, extents, i);
      var q: nat :| q / w.sector == p / w.sector && Wanted(q, w.Tail(), w.offset, w.end);
      WantedSpanned(w, q, p);
      forall x | x in items && Holds(x, p) ensures IsHole(x) { TargetOver(items, out, extents, x, out[i], p); }
    }
  }

  /** Before a hole's target there is no byte of another's. */
  lemma NoneJustBefore(out: seq<Target>, i: nat)
    requires Ascending(out) && HolesApart(out) && i < |out| && out[i].hole && out[i].len > 0
    ensures !HoleOver(out, out[i].start - 1)
  {
  }

  /** A stretch of filled bytes begins where its target does. */
  lemma {:induction false} FillStartIs(w: Write, items: seq<Item>, out: seq<Target>, gaps: seq<(nat, nat)>, extents: ExtentTree, i: nat, p: nat)
    requires Writes(w, items, out, gaps, extents) && i < |out| && out[i].hole && out[i].Has(p)
    ensures FillStart(items, w, p) == out[i].start
    decreases p
  {
    HolesFarApart(w, items, out, gaps, extents);
    TargetSome(items, out, extents, out[i]);
    FillStep(items, w, p);
    if p > 0 { FilledIsCopied(w, items, out, gaps, extents, p - 1); }
    hide *;
    if p > out[i].start {
      HasBefore(out, i, p);
      FillStartIs(w, items, out, gaps, extents, i, p - 1);
    } else {
      HasFrom(out[i], p);
      NoneJustBefore(out, i);
    }
  }

  lemma FillStep(items: seq<Item>, w: Write, p: nat)
    ensures FillStart(items, w, p) == if p > 0 && Filled(items, w, p - 1) then FillStart(items, w, p - 1) else p
  {
  }

  lemma HasBefore(out: seq<Target>, i: nat, p: nat)
    requires i < |out| && out[i].hole && out[i].Has(p) && out[i].start < p
    ensures out[i].Has(p - 1) && HoleOver(out, p - 1)
  {
    assert out[i].Has(p - 1);
  }

  lemma HasFrom(t: Target, p: nat)
    requires t.Has(p)
    ensures t.start <= p
  {
  }

  /** Where a hole starts, a copy's extent does exactly when one that fills does. */
  lemma StartsFills(w: Write, items: seq<Item>, out: seq<Target>, gaps: seq<(nat, nat)>, extents: ExtentTree, unit: Pos, it: Item)
    requires Writes(w, items, out, gaps, extents) && it in items && IsHole(it)
    ensures Starts(out, unit, it.start) <==> FillsFrom(items, w, unit, it.start)
  {
    var p := it.start;
    hide *;
    FillsFromIs(items, w, unit, p);
    FilledIsCopied(w, items, out, gaps, extents, p);
    if Targeted(out, p) {
      var i := OverHole(w, items, out, gaps, extents, it);
      FillStartIs(w, items, out, gaps, extents, i, p);
      WritesAscend(w, items, out, gaps, extents);
      StartsAt(out, unit, i, p);
    } else {
      NotTargeted(out, unit, p);
    }
  }

  lemma FillsFromIs(items: seq<Item>, w: Write, unit: Pos, p: nat)
    ensures FillsFrom(items, w, unit, p) <==> Filled(items, w, p) && (p - FillStart(items, w, p)) % unit == 0
  {
  }

  lemma NotTargeted(out: seq<Target>, unit: Pos, p: nat)
    requires !Targeted(out, p)
    ensures !Starts(out, unit, p) && !HoleOver(out, p)
  {
  }

  lemma WritesAscend(w: Write, items: seq<Item>, out: seq<Target>, gaps: seq<(nat, nat)>, extents: ExtentTree)
    requires Writes(w, items, out, gaps, extents)
    ensures Ascending(out)
  {
  }

  /** The target over the start of a hole. */
  lemma OverHole(w: Write, items: seq<Item>, out: seq<Target>, gaps: seq<(nat, nat)>, extents: ExtentTree, it: Item) returns (i: nat)
    requires Writes(w, items, out, gaps, extents) && it in items && IsHole(it) && Targeted(out, it.start)
    ensures i < |out| && out[i].hole && out[i].Has(it.start) && HoleOver(out, it.start)
  {
    WritesPlan(w, items, out, gaps, extents);
    i :| 0 <= i < |out| && out[i].Has(it.start);
    assert it.num > 0 && Holds(it, it.start);
    hide Writes, Plan;
    TargetOver(items, out, extents, it, out[i], it.start);
  }

  lemma StartsAt(out: seq<Target>, unit: Pos, i: nat, p: nat)
    requires Ascending(out) && i < |out| && out[i].Has(p)
    ensures Starts(out, unit, p) <==> (p - out[i].start) % unit == 0
  {
  }

  lemma SectorsWhole(w: Write)
    requires w.offset < w.end
    ensures w.GapTo() < AlignUp(w.end, w.sector) && (w.Tail().Some? ==> w.size / w.sector * w.sector <= w.size < w.GapFrom())
  {
    SectorOf(w.offset, w.sector);
    SectorOf(w.size, w.sector);
    if w.Tail().Some? { SizeSector(w.size, w.size, w.sector); }
  }

  /** A hole meets the sectors filled exactly when it holds a byte copied. */
  lemma MeetsCopied(w: Write, items: seq<Item>, out: seq<Target>, gaps: seq<(nat, nat)>, extents: ExtentTree, it: Item)
    requires Writes(w, items, out, gaps, extents) && it in items && IsHole(it)
    ensures MeetsSpan(it, w) <==> exists p: nat :: Holds(it, p) && Targeted(out, p)
  {
    assert it.num > 0;
    SectorsWhole(w);
    WritesPlan(w, items, out, gaps, extents);
    if MeetsSpan(it, w) {
      var lo := if it.start < AlignUp(w.end, w.sector) && w.GapTo() < it.End() then w.GapTo() else w.size / w.sector * w.sector;
      var p: nat := if it.start <= lo then lo else it.start;
      hide Writes;
      SpannedCopied(w, items, out, gaps, extents, p);
      assert Holds(it, p);
    }
    if exists p: nat :: Holds(it, p) && Targeted(out, p) {
      var p: nat :| Holds(it, p) && Targeted(out, p);
      var i :| 0 <= i < |out| && out[i].Has(p);
      TargetOver(items, out, extents, it, out[i], p);
      NeededAt(w, items, out, gaps, extents, i);
      var q: nat :| q / w.sector == p / w.sector && Wanted(q, w.Tail(), w.offset, w.end);
      WantedSpanned(w, q, p);
    }
  }

  lemma NoGaps(w: Write, items: seq<Item>, out: seq<Target>, gaps: seq<(nat, nat)>, extents: ExtentTree)
    requires w.noHoles && Writes(w, items, out, gaps, extents)
    ensures gaps == []
  {
  }

  /** On a volume with no-holes no byte ends up in two items exactly unless an explicit
      hole over a sector filled keeps its key. */
  lemma NoneTwiceUnlessKeyKept(w: Write, items: seq<Item>, out: seq<Target>, gaps: seq<(nat, nat)>, unit: Pos, news: nat -> nat,
                               hole: Attributes, data: Attributes, extents: ExtentTree)
    requires w.noHoles && Writes(w, items, out, gaps, extents)
    ensures NoneTwiceIn(AfterWrite(true, items, out, gaps, unit, news, hole, data)) <==> !HoleKeepsKey(items, w, unit)
  {
    hide Writes, MeetsSpan, FillsFrom, Starts, CountAt, AfterWrite, Targeted, IsHole;
    NoGaps(w, items, out, gaps, extents);
    if HoleKeepsKey(items, w, unit) {
      var it :| it in items && KeepsKey(it, items, w, unit);
      MeetsCopied(w, items, out, gaps, extents, it);
      StartsFills(w, items, out, gaps, extents, unit, it);
      var p: nat :| Holds(it, p) && Targeted(out, p);
      UnderTwice(w, items, out, gaps, unit, news, hole, data, extents, it, p);
    } else {
      forall p: nat ensures CountAt(AfterWrite(true, items, out, gaps, unit, news, hole, data), p) <= 1 {
        forall it | it in items ensures !Under(it, out, unit, p) {
          if IsHole(it) && Holds(it, p) && Targeted(out, p) {
            MeetsCopied(w, items, out, gaps, extents, it);
            StartsFills(w, items, out, gaps, extents, unit, it);
            assert !KeepsKey(it, items, w, unit);
          }
        }
        WholeOnce(w, items, out, gaps, unit, news, hole, data, extents, p);
      }
    }
  }

  /** An explicit hole the write leaves lying over a byte it copies. */
  predicate HoleLeft(items: seq<Item>, w: Write, unit: Pos) {
    if w.noHoles then HoleKeepsKey(items, w, unit) else HoleRunsOn(items, w)
  }

  /** On every volume, no byte ends up in two items exactly unless an explicit hole is
      left under a copy. */
  lemma NoneTwiceUnlessHoleLeft(w: Write, items: seq<Item>, out: seq<Target>, gaps: seq<(nat, nat)>, unit: Pos, news: nat -> nat,
                                hole: Attributes, data: Attributes, extents: ExtentTree)
    requires Writes(w, items, out, gaps, extents)
    ensures NoneTwiceIn(AfterWrite(w.noHoles, items, out, gaps, unit, news, hole, data)) <==> !HoleLeft(items, w, unit)
  {
    hide Writes, CountAt, AfterWrite, HoleKeepsKey, HoleRunsOn, NoneTwiceIn;
    if w.noHoles {
      NoneTwiceUnlessKeyKept(w, items, out, gaps, unit, news, hole, data, extents);
    } else {
      NoneTwiceUnlessHoleRunsOn(w, items, out, gaps, unit, news, hole, data, extents);
    }
  }

  // ------------------------------------------------- a hole left whole over the data

  const WITHIN: Write := Write(32768, 4096, 8192, 4096, true)

  lemma WithinPlanned()
    ensures CowPlanned([HoleTarget(4096, 8192)], [], map[], 4096, None, 4096, 8192)
  {
    var out := [HoleTarget(4096, 8192)];
    forall p: nat | out[0].Has(p) ensures exists q: nat :: q / 4096 == p / 4096 && Wanted(q, None, 4096, 8192) {
      assert Wanted(p, None, 4096, 8192);
    }
    forall p: nat | Wanted(p, None, 4096, 8192) ensures Targeted(out, p) { assert out[0].Has(p); }
  }

  lemma WithinWrites(attrs: Attributes)
    ensures Writes(WITHIN, [LongHole(attrs)], [HoleTarget(4096, 8192)], [], map[])
  {
    WithinPlanned();
    var items := [LongHole(attrs)];
    assert items[..0] == [] && PiecesOf(items) == [];
    hide CowPlanned;
  }

  /** On a volume with no-holes, a file of eight sectors in one explicit hole: the second
      sector written, the hole still lies over it. */
  lemma HoleLeftWhole(attrs: Attributes, unit: Pos, news: nat -> nat)
    ensures Writes(WITHIN, [LongHole(attrs)], [HoleTarget(4096, 8192)], [], map[])
    ensures HoleLeft([LongHole(attrs)], WITHIN, unit)
    ensures exists p: nat :: CountAt(AfterWrite(true, [LongHole(attrs)], [HoleTarget(4096, 8192)], [], unit, news, attrs, attrs), p) > 1
  {
    WithinWrites(attrs);
    var it, out := LongHole(attrs), [HoleTarget(4096, 8192)];
    assert it in [it] && !Filled([it], WITHIN, 0);
    assert KeepsKey(it, [it], WITHIN, unit);
    hide Writes, CountAt, AfterWrite;
    NoneTwiceUnlessKeyKept(WITHIN, [it], out, [], unit, news, attrs, attrs, map[]);
  }
}
