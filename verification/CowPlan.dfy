/** Planning a copy-on-write write (src/cow_write.rs): which items and hole sectors it
    copies, and what the copies make the file read. Inline data moved into an extent
    and writes through preallocated items are not part of this model. */
module CowPlan {
  import opened Base
  import opened FileItems
  import opened Clones
  import opened Extents

  /** Part of the file to copy: one whole item, or sectors of a hole. */
  datatype Target = Target(start: nat, len: nat, extentStart: nat, extentLen: nat, extentOffset: nat, shared: bool, hole: bool) {
    function End(): nat { start + len }

    predicate Has(p: int) { start <= p < End() }
  }

  datatype PlanError = NotWritable(at: nat) | WindowOutside(at: nat) | Unrecorded(bytenr: nat) | TooManyItems(bytenr: nat)

  predicate Holds(it: Item, p: int) { it.start <= p < it.End() }

  /** The items `file_extents` reports: everything but explicit holes. */
  predicate IsHole(it: Item) { it.kind == Regular && it.bytenr == 0 }

  /** The first piece over `pos`. */
  function Find(pieces: seq<Item>, pos: nat): (r: Option<Item>)
    ensures r.Some? ==> r.value in pieces && Holds(r.value, pos)
    ensures r.None? ==> forall q | q in pieces :: !Holds(q, pos)
  {
    if pieces == [] then None
    else if Holds(pieces[0], pos) then Some(pieces[0])
    else Find(pieces[1..], pos)
  }

  /** The largest end of a piece at or before `pos`, or zero. */
  function EndBefore(pieces: seq<Item>, pos: nat): (e: nat)
    ensures e <= pos
    ensures forall q | q in pieces && q.End() <= pos :: q.End() <= e
    ensures e == 0 || exists q :: q in pieces && q.End() == e
  {
    if pieces == [] then 0 else
      var rest := EndBefore(pieces[1..], pos);
      if pieces[0].End() <= pos && rest < pieces[0].End() then pieces[0].End() else rest
  }

  /** The smallest start of a piece after `pos`, or the largest offset. */
  function NextStart(pieces: seq<Item>, pos: nat): (n: nat)
    requires pos < U64_SPAN - 1
    ensures pos < n < U64_SPAN
    ensures forall q | q in pieces && pos < q.start :: n <= q.start
    ensures n == U64_SPAN - 1 || exists q :: q in pieces && q.start == n
  {
    if pieces == [] then U64_SPAN - 1 else
      var rest := NextStart(pieces[1..], pos);
      if pos < pieces[0].start < rest then pieces[0].start else rest
  }

  // ------------------------------------------------------------ what a plan is

  /** One whole piece the write may replace, or sectors no piece holds. */
  ghost predicate Fits(t: Target, pieces: seq<Item>, extents: ExtentTree) {
    && t.len > 0
    && if t.hole then forall q | q in pieces :: q.End() <= t.start || t.End() <= q.start
       else exists q :: q in pieces && Copies(t, q, extents)
  }

  predicate Copies(t: Target, q: Item, extents: ExtentTree) {
    && t.start == q.start && t.len == q.num && q.kind == Regular
    && q.bytenr in extents && t.extentStart == q.bytenr && t.extentOffset == q.offset
    && t.extentLen == extents[q.bytenr].len && InExtent(q, t.extentLen)
  }

  ghost predicate Ascending(out: seq<Target>) {
    forall i, j | 0 <= i < j < |out| :: out[i].End() <= out[j].start
  }

  ghost predicate AllFit(out: seq<Target>, pieces: seq<Item>, extents: ExtentTree) {
    forall i | 0 <= i < |out| :: Fits(out[i], pieces, extents)
  }

  predicate Targeted(out: seq<Target>, p: int) { exists i :: 0 <= i < |out| && out[i].Has(p) }

  /** Bytes the write needs copied: its own, and the old end when it leaves a gap. */
  predicate Wanted(p: nat, tail: Option<nat>, offset: nat, end: nat) {
    offset <= p < end || (tail.Some? && p == tail.value)
  }

  /** Nothing is copied that the write does not touch: an item holds a wanted byte, and
      so does every sector of a hole's copy. */
  ghost predicate Needed(t: Target, sector: Pos, tail: Option<nat>, offset: nat, end: nat) {
    if t.hole then forall p: nat | t.Has(p) :: exists w: nat :: w / sector == p / sector && Wanted(w, tail, offset, end)
    else exists w: nat :: t.Has(w) && Wanted(w, tail, offset, end)
  }

  ghost predicate AllNeeded(out: seq<Target>, sector: Pos, tail: Option<nat>, offset: nat, end: nat) {
    forall i | 0 <= i < |out| :: Needed(out[i], sector, tail, offset, end)
  }

  /** Sectors of a hole that lie side by side are one target. */
  ghost predicate HolesApart(out: seq<Target>) {
    forall i, j | 0 <= i < j < |out| && out[i].hole && out[j].hole :: out[i].End() < out[j].start
  }

  /** Where the next target may start: at a sector's boundary or a piece's. */
  ghost predicate Edge(e: nat, pieces: seq<Item>, sector: Pos) {
    e % sector == 0 || exists q :: q in pieces && (q.start == e || q.End() == e)
  }

  ghost predicate OnEdges(out: seq<Target>, pieces: seq<Item>, sector: Pos) {
    forall i | 0 <= i < |out| :: Edge(out[i].start, pieces, sector) && Edge(out[i].End(), pieces, sector)
  }

  ghost predicate Planned(out: seq<Target>, pieces: seq<Item>, extents: ExtentTree, sector: Pos, pos: nat) {
    && Ascending(out) && HolesApart(out) && AllFit(out, pieces, extents)
    && (out != [] ==> out[|out|-1].End() <= pos)
    && OnEdges(out, pieces, sector)
  }

  /** The whole sectors of a hole around `pos`, between the pieces on either side. */
  function HoleStart(pieces: seq<Item>, sector: Pos, pos: nat): nat {
    Max(pos / sector * sector, EndBefore(pieces, pos))
  }

  function HoleStop(pieces: seq<Item>, sector: Pos, pos: nat, end: nat): nat
    requires pos < U64_SPAN - 1
  {
    Min(AlignUp(end, sector), NextStart(pieces, pos))
  }

  lemma SectorOf(p: nat, sector: Pos)
    ensures p / sector * sector <= p < p / sector * sector + sector
    ensures (p / sector * sector) % sector == 0
  {
    ModOfMultiple(p / sector, sector);
  }

  /** A multiple of the sector at or before `pos` is at or before `pos`'s sector. */
  lemma SectorAfter(e: nat, pos: nat, sector: Pos)
    requires e % sector == 0 && e <= pos
    ensures e <= pos / sector * sector
  {
    SectorOf(pos, sector);
    if pos / sector * sector < e { MultiplesApart(pos / sector * sector, e, sector); }
  }

  predicate Positive(pieces: seq<Item>) { forall i | 0 <= i < |pieces| :: pieces[i].num > 0 }

  lemma HoleEdges(pieces: seq<Item>, sector: Pos, pos: nat, end: nat)
    requires pos < end && AlignUp(end, sector) < U64_SPAN
    ensures Edge(HoleStart(pieces, sector, pos), pieces, sector)
    ensures Edge(HoleStop(pieces, sector, pos, end), pieces, sector)
  {
    hide AlignUp;
    SectorOf(pos, sector);
    var e, n := EndBefore(pieces, pos), NextStart(pieces, pos);
    ModOfMultiple(0, sector);
    assert Edge(e, pieces, sector);
    assert n < AlignUp(end, sector) ==> Edge(n, pieces, sector);
  }

  /** The hole around `pos` meets no piece. */
  lemma HoleApart(pieces: seq<Item>, sector: Pos, pos: nat, end: nat)
    requires pos < end && AlignUp(end, sector) < U64_SPAN
    requires forall q | q in pieces :: !Holds(q, pos)
    ensures var start, stop := HoleStart(pieces, sector, pos), HoleStop(pieces, sector, pos, end);
      && start <= pos < stop && Edge(start, pieces, sector) && Edge(stop, pieces, sector)
      && (forall q | q in pieces :: q.End() <= start || stop <= q.start)
  {
    HoleEdges(pieces, sector, pos, end);
    SectorOf(pos, sector);
    hide Edge;
    assert forall q | q in pieces :: q.End() <= pos || pos < q.start;
  }

  /** It starts no earlier than an edge before it. */
  lemma HoleAfter(pieces: seq<Item>, sector: Pos, pos: nat, e: nat)
    requires Positive(pieces) && forall q | q in pieces :: !Holds(q, pos)
    requires e <= pos && Edge(e, pieces, sector)
    ensures e <= HoleStart(pieces, sector, pos)
  {
    if e % sector == 0 {
      SectorAfter(e, pos, sector);
    } else {
      var q :| q in pieces && (q.start == e || q.End() == e);
      assert q.End() <= pos;
    }
  }

  // ------------------------------------------------------------- the planning loop

  function HoleTarget(start: nat, stop: nat): Target
    requires start < stop
  {
    Target(start, stop - start, 0, 0, 0, false, true)
  }

  function PieceTarget(q: Item, len: nat): Target { Target(q.start, q.num, q.bytenr, len, q.offset, false, false) }

  /** What the loop over one span keeps: the plan so far, everything wanted behind
      `pos` copied, and nothing copied that is not wanted. */
  ghost predicate SpanKeeps(out: seq<Target>, was: seq<Target>, pieces: seq<Item>, extents: ExtentTree, sector: Pos,
                            tail: Option<nat>, offset: nat, end: nat, from: nat, pos: nat) {
    && Planned(out, pieces, extents, sector, pos)
    && AllNeeded(out, sector, tail, offset, end)
    && (forall p: nat | from <= p < pos || Targeted(was, p) :: Targeted(out, p))
  }

  /** A write into the items fails at a piece whose bytes it cannot replace, and there
      only. */
  predicate Writable(q: Item, extents: ExtentTree) {
    && q.kind == Regular && q.bytenr in extents
    && InExtent(q, extents[q.bytenr].len)
  }

  /** Putting the next target after the others keeps the plan. */
  lemma PushKeeps(out: seq<Target>, was: seq<Target>, pieces: seq<Item>, extents: ExtentTree, sector: Pos,
                  tail: Option<nat>, offset: nat, end: nat, from: nat, pos: nat, t: Target)
    requires SpanKeeps(out, was, pieces, extents, sector, tail, offset, end, from, pos)
    requires t.start <= pos < t.End() && Fits(t, pieces, extents) && Needed(t, sector, tail, offset, end)
    requires out != [] ==> out[|out|-1].End() <= t.start
    requires out != [] && out[|out|-1].hole && t.hole ==> out[|out|-1].End() < t.start
    requires Edge(t.start, pieces, sector) && Edge(t.End(), pieces, sector)
    ensures SpanKeeps(out + [t], was, pieces, extents, sector, tail, offset, end, from, t.End())
  {
    assert out != [] ==> Fits(out[|out|-1], pieces, extents);
    hide Fits, Needed, Edge;
    forall p: nat | from <= p < t.End() || Targeted(was, p) ensures Targeted(out + [t], p) {
      if t.Has(p) {
        assert (out + [t])[|out|].Has(p);
      } else {
        assert from <= p < pos || Targeted(was, p);
        assert Targeted(out, p);
        var i :| 0 <= i < |out| && out[i].Has(p);
        assert (out + [t])[i].Has(p);
      }
    }
  }

  /** A hole that goes on where the last one stopped makes it longer. */
  lemma GrowKeeps(out: seq<Target>, was: seq<Target>, pieces: seq<Item>, extents: ExtentTree, sector: Pos,
                  tail: Option<nat>, offset: nat, end: nat, from: nat, pos: nat, t: Target)
    requires SpanKeeps(out, was, pieces, extents, sector, tail, offset, end, from, pos) && Positive(pieces)
    requires t.start <= pos < t.End() && t.hole && Fits(t, pieces, extents) && Needed(t, sector, tail, offset, end)
    requires out != [] && out[|out|-1].hole && out[|out|-1].End() == t.start
    requires Edge(t.End(), pieces, sector)
    ensures var grown := out[|out|-1].(len := t.End() - out[|out|-1].start);
      SpanKeeps(out[|out|-1 := grown], was, pieces, extents, sector, tail, offset, end, from, t.End())
  {
    hide Fits, Needed, Edge;
    var n := |out| - 1;
    var last := out[n];
    var grown := last.(len := t.End() - last.start);
    var now := out[n := grown];
    FitsGrows(last, t, pieces, extents);
    NeededGrows(last, t, sector, tail, offset, end);
    forall p: nat | from <= p < t.End() || Targeted(was, p) ensures Targeted(now, p) {
      if t.Has(p) {
        assert now[n].Has(p);
      } else {
        assert from <= p < pos || Targeted(was, p);
        assert Targeted(out, p);
        var i :| 0 <= i < |out| && out[i].Has(p);
        assert now[i].Has(p);
      }
    }
  }

  lemma FitsGrows(last: Target, t: Target, pieces: seq<Item>, extents: ExtentTree)
    requires last.hole && t.hole && last.End() == t.start && Positive(pieces)
    requires Fits(last, pieces, extents) && Fits(t, pieces, extents)
    ensures Fits(last.(len := t.End() - last.start), pieces, extents)
  {
  }

  lemma NeededGrows(last: Target, t: Target, sector: Pos, tail: Option<nat>, offset: nat, end: nat)
    requires last.hole && t.hole && last.End() == t.start
    requires Needed(last, sector, tail, offset, end) && Needed(t, sector, tail, offset, end)
    ensures Needed(last.(len := t.End() - last.start), sector, tail, offset, end)
  {
    var grown := last.(len := t.End() - last.start);
    forall p: nat | grown.Has(p) ensures exists w: nat :: w / sector == p / sector && Wanted(w, tail, offset, end) {
      if last.Has(p) {
        var w: nat :| w / sector == p / sector && Wanted(w, tail, offset, end);
      } else {
        assert t.Has(p);
        var w: nat :| w / sector == p / sector && Wanted(w, tail, offset, end);
      }
    }
  }

  /** A wanted hole's sectors each hold a wanted byte. */
  lemma HoleNeeded(t: Target, sector: Pos, tail: Option<nat>, offset: nat, end: nat, pos: nat, spanEnd: nat)
    requires t.hole && pos / sector * sector <= t.start <= pos < spanEnd && t.End() <= AlignUp(spanEnd, sector)
    requires forall p: nat | pos <= p < spanEnd :: Wanted(p, tail, offset, end)
    ensures Needed(t, sector, tail, offset, end)
  {
    forall p: nat | t.Has(p) ensures exists w: nat :: w / sector == p / sector && Wanted(w, tail, offset, end) {
      SectorOf(p, sector);
      SectorOf(pos, sector);
      if p / sector == pos / sector {
        assert Wanted(pos, tail, offset, end);
      } else {
        var w := p / sector * sector;
        LaterSector(pos, p, sector);
        if w >= spanEnd { AlignUpLeast(spanEnd, sector, w); }
        DivUnique(w, sector, p / sector, 0);
        assert Wanted(w, tail, offset, end);
      }
    }
  }

  lemma LaterSector(pos: nat, p: nat, sector: Pos)
    requires pos / sector * sector <= p && p / sector != pos / sector
    ensures pos < p / sector * sector
  {
    var a, b := pos / sector, p / sector;
    Euclid(pos, sector);
    Euclid(p, sector);
    TimesNext(a, sector);
    TimesNext(b, sector);
    if b < a { TimesMonotonic(b + 1, a, sector); } else { TimesMonotonic(a + 1, b, sector); }
  }

  lemma PieceAfter(out: seq<Target>, pieces: seq<Item>, extents: ExtentTree, sector: Pos, pos: nat, q: Item)
    requires Planned(out, pieces, extents, sector, pos) && Sorted(pieces) && q in pieces && Holds(q, pos) && out != []
    ensures out[|out|-1].End() <= q.start
  {
    var last := out[|out|-1];
    assert Fits(last, pieces, extents);
    if !last.hole {
      var p :| p in pieces && Copies(last, p, extents);
      var i :| 0 <= i < |pieces| && pieces[i] == p;
      var j :| 0 <= j < |pieces| && pieces[j] == q;
    }
  }

  ghost predicate AllWanted(from: nat, to: nat, tail: Option<nat>, offset: nat, end: nat) {
    forall p: nat | from <= p < to :: Wanted(p, tail, offset, end)
  }

  /** Every piece the span meets can be written. */
  ghost predicate SpanWritable(pieces: seq<Item>, extents: ExtentTree, from: nat, to: nat) {
    forall q, p: nat | q in pieces && from <= p < to && Holds(q, p) :: Writable(q, extents)
  }

  lemma WritableOn(pieces: seq<Item>, extents: ExtentTree, from: nat, pos: nat, to: nat)
    requires SpanWritable(pieces, extents, from, pos)
    requires forall q, p: nat | q in pieces && pos <= p < to && Holds(q, p) :: Writable(q, extents)
    ensures SpanWritable(pieces, extents, from, to)
  {
  }

  lemma OnlyPiece(pieces: seq<Item>, extents: ExtentTree, q: Item, pos: nat)
    requires Sorted(pieces) && q in pieces && Holds(q, pos) && Writable(q, extents)
    ensures forall x, p: nat | x in pieces && pos <= p < q.End() && Holds(x, p) :: Writable(x, extents)
  {
    hide Writable;
    forall x, p: nat | x in pieces && pos <= p < q.End() && Holds(x, p) ensures x == q {
      var i :| 0 <= i < |pieces| && pieces[i] == x;
      var j :| 0 <= j < |pieces| && pieces[j] == q;
    }
  }

  lemma Stopped(pieces: seq<Item>, extents: ExtentTree, q: Item, from: nat, pos: nat, to: nat)
    requires q in pieces && Holds(q, pos) && from <= pos < to && !Writable(q, extents)
    ensures !SpanWritable(pieces, extents, from, to)
  {
  }

  /** The next target when `pos` is in no piece. */
  lemma HoleStep(out: seq<Target>, pieces: seq<Item>, extents: ExtentTree, sector: Pos, tail: Option<nat>,
                 offset: nat, end: nat, pos: nat, spanEnd: nat)
    requires Sorted(pieces) && Planned(out, pieces, extents, sector, pos)
    requires forall q | q in pieces :: !Holds(q, pos)
    requires pos < spanEnd && AlignUp(spanEnd, sector) < U64_SPAN && AllWanted(pos, spanEnd, tail, offset, end)
    ensures var start, stop := HoleStart(pieces, sector, pos), HoleStop(pieces, sector, pos, spanEnd);
      && start <= pos < stop && Edge(start, pieces, sector) && Edge(stop, pieces, sector)
      && Fits(HoleTarget(start, stop), pieces, extents)
      && Needed(HoleTarget(start, stop), sector, tail, offset, end)
      && (out != [] ==> out[|out|-1].End() <= start)
      && (forall q, p: nat | q in pieces && pos <= p < stop && Holds(q, p) :: Writable(q, extents))
  {
    hide AllFit, Edge, Needed;
    HoleApart(pieces, sector, pos, spanEnd);
    HoleNeeded(HoleTarget(HoleStart(pieces, sector, pos), HoleStop(pieces, sector, pos, spanEnd)), sector, tail, offset, end, pos, spanEnd);
    if out != [] { HoleAfter(pieces, sector, pos, out[|out|-1].End()); }
  }

  lemma PieceStep(out: seq<Target>, pieces: seq<Item>, extents: ExtentTree, sector: Pos, tail: Option<nat>,
                  offset: nat, end: nat, pos: nat, q: Item)
    requires Sorted(pieces) && Planned(out, pieces, extents, sector, pos)
    requires q in pieces && Holds(q, pos) && Writable(q, extents) && Wanted(pos, tail, offset, end)
    ensures var t := PieceTarget(q, extents[q.bytenr].len);
      && Fits(t, pieces, extents) && Needed(t, sector, tail, offset, end)
      && Edge(t.start, pieces, sector) && Edge(t.End(), pieces, sector)
      && (out != [] ==> out[|out|-1].End() <= t.start)
  {
    if out != [] { PieceAfter(out, pieces, extents, sector, pos, q); }
    var t := PieceTarget(q, extents[q.bytenr].len);
    assert Copies(t, q, extents);
    assert t.Has(pos);
  }

  lemma KeepsPlanned(out: seq<Target>, was: seq<Target>, pieces: seq<Item>, extents: ExtentTree, sector: Pos,
                     tail: Option<nat>, offset: nat, end: nat, from: nat, pos: nat)
    requires SpanKeeps(out, was, pieces, extents, sector, tail, offset, end, from, pos)
    ensures Planned(out, pieces, extents, sector, pos)
  {
  }

  lemma WantedFrom(from: nat, pos: nat, to: nat, tail: Option<nat>, offset: nat, end: nat)
    requires AllWanted(from, to, tail, offset, end) && from <= pos < to
    ensures AllWanted(pos, to, tail, offset, end) && Wanted(pos, tail, offset, end)
  {
  }

  lemma SortedPositive(pieces: seq<Item>)
    requires Sorted(pieces)
    ensures Positive(pieces)
  {
  }

  /** Adjacent sectors of a hole are written back as one range. */
  function WithHole(out: seq<Target>, t: Target): seq<Target>
    requires out != [] ==> out[|out|-1].start <= t.End()
  {
    if out != [] && out[|out|-1].hole && out[|out|-1].End() == t.start
    then out[|out|-1 := out[|out|-1].(len := t.End() - out[|out|-1].start)]
    else out + [t]
  }

  lemma HoleKeeps(out: seq<Target>, was: seq<Target>, pieces: seq<Item>, extents: ExtentTree, sector: Pos,
                  tail: Option<nat>, offset: nat, end: nat, from: nat, pos: nat, spanEnd: nat)
    requires SpanKeeps(out, was, pieces, extents, sector, tail, offset, end, from, pos) && from <= pos
    requires SpanWritable(pieces, extents, from, pos)
    requires Sorted(pieces) && forall q | q in pieces :: !Holds(q, pos)
    requires pos < spanEnd && AlignUp(spanEnd, sector) < U64_SPAN && AllWanted(from, spanEnd, tail, offset, end)
    ensures var start, stop := HoleStart(pieces, sector, pos), HoleStop(pieces, sector, pos, spanEnd);
      && start <= pos < stop
      && (out != [] ==> out[|out|-1].start <= stop)
      && SpanKeeps(WithHole(out, HoleTarget(start, stop)), was, pieces, extents, sector, tail, offset, end, from, stop)
      && SpanWritable(pieces, extents, from, stop)
  {
    hide SpanKeeps, SpanWritable, Planned, Fits, Needed, AllWanted, Edge, HoleStart, HoleStop, AlignUp, Writable, Positive, Sorted, Holds;
    var start, stop := HoleStart(pieces, sector, pos), HoleStop(pieces, sector, pos, spanEnd);
    SortedPositive(pieces);
    KeepsPlanned(out, was, pieces, extents, sector, tail, offset, end, from, pos);
    WantedFrom(from, pos, spanEnd, tail, offset, end);
    HoleStep(out, pieces, extents, sector, tail, offset, end, pos, spanEnd);
    WritableOn(pieces, extents, from, pos, stop);
    var t := HoleTarget(start, stop);
    if out != [] && out[|out|-1].hole && out[|out|-1].End() == start {
      GrowKeeps(out, was, pieces, extents, sector, tail, offset, end, from, pos, t);
    } else {
      PushKeeps(out, was, pieces, extents, sector, tail, offset, end, from, pos, t);
    }
  }

  lemma PieceKeeps(out: seq<Target>, was: seq<Target>, pieces: seq<Item>, extents: ExtentTree, sector: Pos,
                   tail: Option<nat>, offset: nat, end: nat, from: nat, pos: nat, spanEnd: nat, q: Item)
    requires SpanKeeps(out, was, pieces, extents, sector, tail, offset, end, from, pos) && from <= pos < spanEnd
    requires SpanWritable(pieces, extents, from, pos) && AllWanted(from, spanEnd, tail, offset, end)
    requires Sorted(pieces) && q in pieces && Holds(q, pos) && Writable(q, extents)
    ensures SpanKeeps(out + [PieceTarget(q, extents[q.bytenr].len)], was, pieces, extents, sector, tail, offset, end, from, q.End())
    ensures SpanWritable(pieces, extents, from, q.End())
  {
    KeepsPlanned(out, was, pieces, extents, sector, tail, offset, end, from, pos);
    WantedFrom(from, pos, spanEnd, tail, offset, end);
    OnlyPiece(pieces, extents, q, pos);
    hide SpanKeeps, SpanWritable, Planned, Fits, Needed, AllWanted, Edge, Sorted, InExtent;
    WritableOn(pieces, extents, from, pos, q.End());
    PieceStep(out, pieces, extents, sector, tail, offset, end, pos, q);
    PushKeeps(out, was, pieces, extents, sector, tail, offset, end, from, pos, PieceTarget(q, extents[q.bytenr].len));
  }

  lemma SpanStarts(was: seq<Target>, pieces: seq<Item>, extents: ExtentTree, sector: Pos, tail: Option<nat>,
                   offset: nat, end: nat, from: nat)
    requires Planned(was, pieces, extents, sector, from) && AllNeeded(was, sector, tail, offset, end)
    ensures SpanKeeps(was, was, pieces, extents, sector, tail, offset, end, from, from)
    ensures SpanWritable(pieces, extents, from, from)
  {
  }

  lemma WritableLess(pieces: seq<Item>, extents: ExtentTree, from: nat, pos: nat, to: nat)
    requires SpanWritable(pieces, extents, from, pos) && to <= pos
    ensures SpanWritable(pieces, extents, from, to)
  {
  }

  lemma HoldsEnd(q: Item, pos: nat)
    requires Holds(q, pos)
    ensures pos < q.End()
  {
  }

  method PlanSpan(pieces: seq<Item>, extents: ExtentTree, sector: Pos, was: seq<Target>, from: nat, spanEnd: nat,
                  ghost tail: Option<nat>, ghost offset: nat, ghost end: nat)
    returns (r: Result<seq<Target>, PlanError>, ghost reached: nat)
    requires Sorted(pieces) && AlignUp(spanEnd, sector) < U64_SPAN
    requires Planned(was, pieces, extents, sector, from) && AllNeeded(was, sector, tail, offset, end)
    requires AllWanted(from, spanEnd, tail, offset, end)
    ensures r.Ok? <==> SpanWritable(pieces, extents, from, spanEnd)
    ensures r.Ok? ==> reached >= spanEnd && reached >= from && SpanWritable(pieces, extents, from, reached)
    ensures r.Ok? ==> SpanKeeps(r.value, was, pieces, extents, sector, tail, offset, end, from, reached)
  {
    hide SpanKeeps, SpanWritable, Planned, AllNeeded, AllWanted, Sorted, HoleStart, HoleStop, AlignUp, InExtent, Holds, WithHole;
    var out, pos := was, from;
    SpanStarts(was, pieces, extents, sector, tail, offset, end, from);
    while pos < spanEnd
      invariant from <= pos
      invariant SpanKeeps(out, was, pieces, extents, sector, tail, offset, end, from, pos)
      invariant SpanWritable(pieces, extents, from, pos)
      decreases spanEnd - pos
    {
      var piece := Find(pieces, pos);
      if piece.None? {
        HoleKeeps(out, was, pieces, extents, sector, tail, offset, end, from, pos, spanEnd);
        var start, stop := HoleStart(pieces, sector, pos), HoleStop(pieces, sector, pos, spanEnd);
        out := WithHole(out, HoleTarget(start, stop));
        pos := stop;
        continue;
      }
      var q := piece.value;
      if q.kind != Regular || q.bytenr !in extents || !InExtent(q, extents[q.bytenr].len) {
        Stopped(pieces, extents, q, from, pos, spanEnd);
        return Err(if q.kind != Regular then NotWritable(pos) else if q.bytenr !in extents then Unrecorded(q.bytenr)
                   else WindowOutside(pos)), pos;
      }
      PieceKeeps(out, was, pieces, extents, sector, tail, offset, end, from, pos, spanEnd, q);
      out := out + [PieceTarget(q, extents[q.bytenr].len)];
      HoldsEnd(q, pos);
      pos := q.End();
    }
    WritableLess(pieces, extents, from, pos, spanEnd);
    return Ok(out), pos;
  }

  /** How many of a plan's items name the extent at `b`. */
  function ItemsNaming(out: seq<Target>, b: nat): nat {
    if out == [] then 0 else
      var t := out[|out|-1];
      ItemsNaming(out[..|out|-1], b) + if !t.hole && t.extentStart == b then 1 else 0
  }

  /** An extent is shared when it has references beyond the write's own items. */
  function SharedNow(t: Target, out: seq<Target>, extents: ExtentTree): Target
    requires !t.hole ==> t.extentStart in extents
  {
    if t.hole then t else t.(shared := ItemsNaming(out, t.extentStart) < |extents[t.extentStart].held|)
  }

  ghost predicate AllRecorded(out: seq<Target>, extents: ExtentTree) {
    forall i | 0 <= i < |out| :: !out[i].hole ==> out[i].extentStart in extents
  }

  ghost predicate MarkedFrom(out: seq<Target>, marked: seq<Target>, extents: ExtentTree)
    requires AllRecorded(out, extents)
  {
    |marked| == |out| && forall i | 0 <= i < |out| :: marked[i] == SharedNow(out[i], out, extents)
  }

  predicate Overcounted(t: Target, out: seq<Target>, extents: ExtentTree) {
    !t.hole && t.extentStart in extents && ItemsNaming(out, t.extentStart) > |extents[t.extentStart].held|
  }

  method MarkShared(out: seq<Target>, extents: ExtentTree) returns (r: Result<seq<Target>, PlanError>)
    requires AllRecorded(out, extents)
    ensures r.Ok? <==> forall i | 0 <= i < |out| :: !Overcounted(out[i], out, extents)
    ensures r.Ok? ==> MarkedFrom(out, r.value, extents)
  {
    var ours: map<nat, nat> := map[];
    for i := 0 to |out|
      invariant forall b :: b in ours ==> ours[b] == ItemsNaming(out[..i], b)
      invariant forall b :: b !in ours ==> ItemsNaming(out[..i], b) == 0
      invariant forall j | 0 <= j < i :: !out[j].hole ==> out[j].extentStart in ours
    {
      assert out[..i+1][..i] == out[..i];
      var b := out[i].extentStart;
      if !out[i].hole { ours := ours[b := (if b in ours then ours[b] else 0) + 1]; }
    }
    assert out[..|out|] == out;
    var marked: seq<Target> := [];
    for i := 0 to |out|
      invariant |marked| == i
      invariant forall j | 0 <= j < i :: marked[j] == SharedNow(out[j], out, extents) && !Overcounted(out[j], out, extents)
    {
      var t := out[i];
      if !t.hole {
        var items, refs := ours[t.extentStart], |extents[t.extentStart].held|;
        if items > refs { return Err(TooManyItems(t.extentStart)); }
        t := t.(shared := items < refs);
      }
      marked := marked + [t];
    }
    return Ok(marked);
  }

  /** The plan as the write uses it. */
  ghost predicate CowPlanned(out: seq<Target>, pieces: seq<Item>, extents: ExtentTree, sector: Pos,
                             tail: Option<nat>, offset: nat, end: nat) {
    && Ascending(out) && HolesApart(out) && AllFit(out, pieces, extents)
    && AllNeeded(out, sector, tail, offset, end)
    && OnEdges(out, pieces, sector)
    && (forall p: nat | Wanted(p, tail, offset, end) :: Targeted(out, p))
  }

  /** Every item of a plan names a recorded extent, and is marked shared exactly when
      that extent has references beyond the plan's own items. */
  ghost predicate Marked(out: seq<Target>, extents: ExtentTree) {
    forall i | 0 <= i < |out| && !out[i].hole ::
      && out[i].extentStart in extents
      && ItemsNaming(out, out[i].extentStart) <= |extents[out[i].extentStart].held|
      && (out[i].shared <==> ItemsNaming(out, out[i].extentStart) < |extents[out[i].extentStart].held|)
  }

  lemma {:induction false} SameNaming(out: seq<Target>, marked: seq<Target>, b: nat)
    requires |out| == |marked|
    requires forall i | 0 <= i < |out| :: marked[i] == out[i].(shared := marked[i].shared)
    ensures ItemsNaming(out, b) == ItemsNaming(marked, b)
  {
    if out != [] { SameNaming(out[..|out|-1], marked[..|out|-1], b); }
  }

  lemma MarkAlone(t: Target, shared: bool, pieces: seq<Item>, extents: ExtentTree, sector: Pos, tail: Option<nat>, offset: nat, end: nat)
    requires Fits(t, pieces, extents) && Needed(t, sector, tail, offset, end)
    ensures Fits(t.(shared := shared), pieces, extents) && Needed(t.(shared := shared), sector, tail, offset, end)
  {
    var m := t.(shared := shared);
    assert forall q :: Copies(t, q, extents) ==> Copies(m, q, extents);
    if t.hole {
      forall p: nat | m.Has(p) ensures exists w: nat :: w / sector == p / sector && Wanted(w, tail, offset, end) {
        assert t.Has(p);
      }
    } else {
      var w: nat :| t.Has(w) && Wanted(w, tail, offset, end);
      assert m.Has(w);
    }
  }

  lemma MarkedIs(out: seq<Target>, marked: seq<Target>, extents: ExtentTree)
    requires AllRecorded(out, extents) && MarkedFrom(out, marked, extents)
    requires forall i | 0 <= i < |out| :: !Overcounted(out[i], out, extents)
    ensures Marked(marked, extents)
    ensures |marked| == |out| && forall i | 0 <= i < |out| :: marked[i] == out[i].(shared := marked[i].shared)
  {
    hide ItemsNaming;
    forall b: nat ensures ItemsNaming(out, b) == ItemsNaming(marked, b) { SameNaming(out, marked, b); }
  }

  lemma MarkingKeeps(out: seq<Target>, marked: seq<Target>, pieces: seq<Item>, extents: ExtentTree, sector: Pos,
                     tail: Option<nat>, offset: nat, end: nat)
    requires CowPlanned(out, pieces, extents, sector, tail, offset, end)
    requires AllRecorded(out, extents) && MarkedFrom(out, marked, extents)
    requires forall i | 0 <= i < |out| :: !Overcounted(out[i], out, extents)
    ensures CowPlanned(marked, pieces, extents, sector, tail, offset, end) && Marked(marked, extents)
  {
    hide Fits, Needed, Edge, ItemsNaming, Wanted, Marked;
    MarkedIs(out, marked, extents);
    hide MarkedFrom, Overcounted;
    forall i | 0 <= i < |marked| ensures Fits(marked[i], pieces, extents) && Needed(marked[i], sector, tail, offset, end) {
      MarkAlone(out[i], marked[i].shared, pieces, extents, sector, tail, offset, end);
    }
    forall p: nat | Wanted(p, tail, offset, end) ensures Targeted(marked, p) {
      var i :| 0 <= i < |out| && out[i].Has(p);
      assert marked[i].Has(p);
    }
  }

  /** The items a write must replace can be: what else a plan refuses is a record
      that counts fewer references than the file's own items. */
  ghost predicate WantedWritable(pieces: seq<Item>, extents: ExtentTree, tail: Option<nat>, offset: nat, end: nat) {
    && (tail.Some? ==> SpanWritable(pieces, extents, tail.value, tail.value + 1))
    && SpanWritable(pieces, extents, offset, end)
  }

  ghost predicate CountsHold(pieces: seq<Item>, extents: ExtentTree) {
    forall b | b in extents && b != 0 :: |Naming(0, pieces, b)| <= |extents[b].held|
  }

  /** Where the write's own span starts, and that it covers what the tail's copy has
      not reached. */
  lemma BothSpans(tailed: seq<Target>, out: seq<Target>, pieces: seq<Item>, extents: ExtentTree, sector: Pos,
                  tail: Option<nat>, offset: nat, end: nat, first: nat, from: nat, reached: nat)
    requires tail.None? ==> from == offset
    requires tail.Some? ==> tail.value < offset <= from <= Max(offset, first) && tail.value < first
    requires tail.Some? ==> forall p: nat | tail.value <= p < first :: Targeted(tailed, p)
    requires SpanKeeps(out, tailed, pieces, extents, sector, tail, offset, end, from, reached) && reached >= end
    ensures CowPlanned(out, pieces, extents, sector, tail, offset, end)
  {
    hide AllFit, AllNeeded, Edge, Targeted;
  }

  lemma FitsRecorded(out: seq<Target>, pieces: seq<Item>, extents: ExtentTree, sector: Pos, tail: Option<nat>, offset: nat, end: nat)
    requires CowPlanned(out, pieces, extents, sector, tail, offset, end)
    ensures AllFit(out, pieces, extents) && Ascending(out) && AllRecorded(out, extents)
  {
    forall i | 0 <= i < |out| && !out[i].hole ensures out[i].extentStart in extents {
      assert Fits(out[i], pieces, extents);
    }
  }

  lemma NamingGrows(items: seq<Item>, j: nat, n: nat, b: nat)
    requires j <= n <= |items|
    ensures Naming(0, items[..j], b) <= Naming(0, items[..n], b)
  {
    assert items[..n] == items[..j] + items[j..n];
    NamingJoin(0, items[..j], items[j..n], b);
  }

  lemma NamingNext(items: seq<Item>, j: nat, b: nat)
    requires j < |items|
    ensures Naming(0, items[..j+1], b) == Naming(0, items[..j], b) + NamesOf(0, items[j], b)
  {
    assert items[..j+1][..j] == items[..j];
  }

  ghost predicate Skips(out: seq<Target>, q: Item) { forall i | 0 <= i < |out| && !out[i].hole :: out[i].start != q.start }

  /** A plan's items are different items of the file, so of those that name an extent
      it has at most as many; and fewer, when it leaves out `pieces[k]`, one of them. */
  lemma {:induction false} TargetsAreItems(out: seq<Target>, pieces: seq<Item>, extents: ExtentTree, n: nat, limit: nat, b: nat, k: int)
    requires Sorted(pieces) && AllFit(out, pieces, extents) && Ascending(out) && n <= |pieces| && b != 0
    requires forall i | 0 <= i < |out| :: out[i].End() <= limit
    requires forall i | n <= i < |pieces| :: limit <= pieces[i].start
    requires 0 <= k < |pieces| ==> pieces[k].Names(b) && Skips(out, pieces[k])
    ensures ItemsNaming(out, b) + (if 0 <= k < n then 1 else 0) <= |Naming(0, pieces[..n], b)|
  {
    hide Naming, NamesOf, Sorted, AllFit, Ascending, Fits, Copies;
    if out == [] {
      if 0 <= k < n {
        NamingNext(pieces, k, b);
        NamingGrows(pieces, k + 1, n, b);
        SizeOfPart(Naming(0, pieces[..k+1], b), Naming(0, pieces[..n], b));
        NamesOne(pieces[k], b);
      }
    } else {
      var init, t := out[..|out|-1], out[|out|-1];
      AllButLast(out, pieces, extents);
      if t.hole {
        TargetsAreItems(init, pieces, extents, n, limit, b, k);
      } else {
        var j := LastItem(out, pieces, extents, n, limit, b);
        TargetsAreItems(init, pieces, extents, j, t.start, b, k);
        hide ItemsNaming, Skips;
        NamingNext(pieces, j, b);
        NamesOne(pieces[j], b);
        NamingGrows(pieces, j + 1, n, b);
        SizeOfPart(Naming(0, pieces[..j+1], b), Naming(0, pieces[..n], b));
        if j < k < n { LaterNamed(pieces, j, k, n, b); }
      }
    }
  }

  lemma AllButLast(out: seq<Target>, pieces: seq<Item>, extents: ExtentTree)
    requires out != [] && AllFit(out, pieces, extents) && Ascending(out)
    ensures AllFit(out[..|out|-1], pieces, extents) && Ascending(out[..|out|-1])
    ensures forall i | 0 <= i < |out| - 1 :: out[i].End() <= out[|out|-1].start
  {
    hide Fits;
  }

  /** The last target's item, and that the pieces from it on start no earlier. */
  lemma LastItem(out: seq<Target>, pieces: seq<Item>, extents: ExtentTree, n: nat, limit: nat, b: nat) returns (j: nat)
    requires out != [] && !out[|out|-1].hole && Sorted(pieces) && AllFit(out, pieces, extents) && n <= |pieces| && b != 0
    requires out[|out|-1].End() <= limit && forall i | n <= i < |pieces| :: limit <= pieces[i].start
    ensures j < n && pieces[j].start == out[|out|-1].start && (pieces[j].Names(b) <==> out[|out|-1].extentStart == b)
    ensures forall i | j <= i < |pieces| :: pieces[j].start <= pieces[i].start
  {
    var t := out[|out|-1];
    assert Fits(t, pieces, extents);
    var q :| q in pieces && Copies(t, q, extents);
    j :| 0 <= j < |pieces| && pieces[j] == q;
  }

  lemma NamesOne(q: Item, b: nat)
    ensures |NamesOf(0, q, b)| == if q.Names(b) then 1 else 0
  {
  }

  lemma LaterNamed(pieces: seq<Item>, j: nat, k: nat, n: nat, b: nat)
    requires j < k < n <= |pieces| && pieces[k].Names(b)
    ensures |Naming(0, pieces[..j+1], b)| + 1 <= |Naming(0, pieces[..n], b)|
  {
    hide Naming, NamesOf;
    NamingNext(pieces, k, b);
    NamesOne(pieces[k], b);
    NamingGrows(pieces, j + 1, k, b);
    NamingGrows(pieces, k + 1, n, b);
    SizeOfPart(Naming(0, pieces[..j+1], b), Naming(0, pieces[..k], b));
    SizeOfPart(Naming(0, pieces[..k+1], b), Naming(0, pieces[..n], b));
  }

  /** The whole plan against the whole file. */
  lemma PlanCounts(out: seq<Target>, pieces: seq<Item>, extents: ExtentTree, b: nat, k: nat)
    requires Sorted(pieces) && AllFit(out, pieces, extents) && Ascending(out) && b != 0
    ensures ItemsNaming(out, b) <= |Naming(0, pieces, b)|
    ensures k < |pieces| && pieces[k].Names(b) && Skips(out, pieces[k]) ==> ItemsNaming(out, b) < |Naming(0, pieces, b)|
  {
    hide AllFit, Naming, ItemsNaming, Sorted;
    var limit := if out == [] then 0 else out[|out|-1].End();
    TargetsAreItems(out, pieces, extents, |pieces|, limit, b, -1);
    if k < |pieces| && pieces[k].Names(b) && Skips(out, pieces[k]) {
      TargetsAreItems(out, pieces, extents, |pieces|, limit, b, k);
    }
    assert pieces[..|pieces|] == pieces;
  }

  lemma NeverOvercounted(out: seq<Target>, pieces: seq<Item>, extents: ExtentTree)
    requires Sorted(pieces) && AllFit(out, pieces, extents) && Ascending(out) && CountsHold(pieces, extents) && 0 !in extents
    ensures forall i | 0 <= i < |out| :: !Overcounted(out[i], out, extents)
  {
    hide Sorted, AllFit, Ascending, Naming, ItemsNaming;
    forall i | 0 <= i < |out| && !out[i].hole && out[i].extentStart in extents
      ensures ItemsNaming(out, out[i].extentStart) <= |extents[out[i].extentStart].held|
    {
      PlanCounts(out, pieces, extents, out[i].extentStart, 0);
    }
  }

  /** Whose bytes a released extent holds: an extent a plan's item names without being
      marked shared is named by the plan's items and by nothing else, in any file. */
  lemma NotSharedIsWhole(out: seq<Target>, pieces: seq<Item>, extents: ExtentTree, i: nat, k: nat)
    requires Sorted(pieces) && AllFit(out, pieces, extents) && Ascending(out) && Marked(out, extents) && 0 !in extents
    requires i < |out| && !out[i].hole && !out[i].shared && CountsHold(pieces, extents)
    ensures k < |pieces| && pieces[k].Names(out[i].extentStart) ==> !Skips(out, pieces[k])
    ensures |Naming(0, pieces, out[i].extentStart)| == |extents[out[i].extentStart].held|
  {
    hide Sorted, AllFit, Ascending, Naming, ItemsNaming, Skips;
    PlanCounts(out, pieces, extents, out[i].extentStart, k);
  }

  lemma NothingPlanned(pieces: seq<Item>, extents: ExtentTree, sector: Pos, tail: Option<nat>, offset: nat, end: nat)
    ensures forall p: nat :: Planned([], pieces, extents, sector, p)
    ensures AllNeeded([], sector, tail, offset, end)
    ensures tail.Some? ==> AllWanted(tail.value, tail.value + 1, tail, offset, end)
    ensures AllWanted(offset, end, tail, offset, end)
  {
  }

  /** The tail's copy, and where it leaves the write's own span to start. */
  lemma TailPlanned(out: seq<Target>, pieces: seq<Item>, extents: ExtentTree, sector: Pos,
                    tail: Option<nat>, offset: nat, end: nat, reached: nat)
    requires tail.Some? && tail.value < reached && tail.value < offset
    requires SpanKeeps(out, [], pieces, extents, sector, tail, offset, end, tail.value, reached)
    ensures out != [] && out[|out|-1].End() <= reached
    ensures forall p: nat | tail.value <= p < reached :: Targeted(out, p)
    ensures var from := Max(offset, out[|out|-1].End());
      Planned(out, pieces, extents, sector, from) && AllNeeded(out, sector, tail, offset, end)
  {
    assert Targeted(out, tail.value);
  }

  lemma WantedLater(from: nat, tail: Option<nat>, offset: nat, end: nat)
    requires offset <= from
    ensures AllWanted(from, end, tail, offset, end)
  {
  }

  lemma WantedWhen(pieces: seq<Item>, extents: ExtentTree, tail: Option<nat>, offset: nat, end: nat, first: nat, from: nat, reached: nat)
    requires tail.None? ==> from == offset
    requires tail.Some? ==> tail.value < first && tail.value < offset && from <= Max(offset, first) && SpanWritable(pieces, extents, tail.value, first)
    requires SpanWritable(pieces, extents, from, reached) && end <= reached
    ensures WantedWritable(pieces, extents, tail, offset, end)
  {
  }

  lemma NotWantedWhen(pieces: seq<Item>, extents: ExtentTree, tail: Option<nat>, offset: nat, end: nat, from: nat)
    requires offset <= from && !SpanWritable(pieces, extents, from, end)
    ensures !WantedWritable(pieces, extents, tail, offset, end)
  {
  }

  /** The extents a write touches, each checked writable, and what each copy replaces. */
  method PlanCowTargets(pieces: seq<Item>, extents: ExtentTree, sector: Pos, tail: Option<nat>, offset: nat, end: nat)
    returns (r: Result<seq<Target>, PlanError>)
    requires Sorted(pieces) && offset < end && AlignUp(end, sector) < U64_SPAN && 0 !in extents
    requires tail.Some? ==> tail.value < offset
    ensures r.Ok? ==> CowPlanned(r.value, pieces, extents, sector, tail, offset, end) && Marked(r.value, extents)
    ensures r.Ok? ==> WantedWritable(pieces, extents, tail, offset, end)
    ensures WantedWritable(pieces, extents, tail, offset, end) && CountsHold(pieces, extents) ==> r.Ok?
  {
    hide Sorted, AlignUp, AllNeeded, CountsHold, SpanWritable, Wanted, SpanKeeps, Planned, CowPlanned, AllWanted, Marked, AllFit;
    var out: seq<Target> := [];
    var from := offset;
    ghost var first := 0;
    NothingPlanned(pieces, extents, sector, tail, offset, end);
    if tail.Some? {
      AlignUpGrows(tail.value + 1, end, sector);
      var tailed, reached := PlanSpan(pieces, extents, sector, [], tail.value, tail.value + 1, tail, offset, end);
      if tailed.Err? { return tailed; }
      TailPlanned(tailed.value, pieces, extents, sector, tail, offset, end, reached);
      first := reached;
      out := tailed.value;
      from := Max(offset, out[|out|-1].End());
    }
    WantedLater(from, tail, offset, end);
    var planned, reached := PlanSpan(pieces, extents, sector, out, from, end, tail, offset, end);
    if planned.Err? {
      NotWantedWhen(pieces, extents, tail, offset, end, from);
      return planned;
    }
    WantedWhen(pieces, extents, tail, offset, end, first, from, reached);
    BothSpans(out, planned.value, pieces, extents, sector, tail, offset, end, first, from, reached);
    FitsRecorded(planned.value, pieces, extents, sector, tail, offset, end);
    if CountsHold(pieces, extents) { NeverOvercounted(planned.value, pieces, extents); }
    r := MarkShared(planned.value, extents);
    if r.Ok? { MarkingKeeps(planned.value, r.value, pieces, extents, sector, tail, offset, end); }
  }
}
