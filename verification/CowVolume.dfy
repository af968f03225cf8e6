/** A copy-on-write write from plan to commit (`write_cow_copying` in src/cow_write.rs):
    its copies' buffers, and the file, the extents and the bytes it leaves. */
module CowVolume {
  import opened Base
  import opened FileItems
  import opened Keyed
  import opened Cut
  import opened Extents
  import opened Clone
  import opened Replace
  import opened CowPlan
  import opened CowWrite
  import opened CowHoles
  import opened CowTree
  import opened CowCommit

  // --------------------------------------------------------------- the copies' buffers

  /** The bytes a write is given, by their place in it. */
  function DataAt(data: seq<int>): int -> int { (q: int) => if 0 <= q < |data| then data[q] else 0 }

  /** One new extent's file offset and bytes. */
  datatype Piece = Piece(start: nat, bytes: seq<int>)

  /** A byte of a buffer with the write's bytes laid over it from `from` up to `at`. */
  function Laid(value: Cell -> int, items: seq<Item>, w: Write, data: seq<int>, from: int, at: int, p: int): int {
    if from <= p < at then DataAt(data)(p - w.offset)
    else if p < w.size then value(Read(items, p)) else 0
  }

  /** A target's buffer: what the file reads there now, zeros past its end, and the
      write's own bytes laid over. */
  method FillCopy(value: Cell -> int, items: seq<Item>, w: Write, data: seq<int>, t: Target) returns (buf: array<int>)
    requires value(Zero) == 0 && w.end == w.offset + |data|
    ensures fresh(buf) && buf.Length == t.len
    ensures forall k | 0 <= k < t.len :: buf[k] == Written(value, items, w, DataAt(data), t.start + k)
  {
    buf := new int[t.len](_ => 0);
    for i := 0 to t.len
      invariant forall k | 0 <= k < i :: buf[k] == if t.start + k < w.size then value(Read(items, t.start + k)) else 0
      invariant forall k | i <= k < t.len :: buf[k] == 0
    {
      if t.start + i < w.size { buf[i] := value(Read(items, t.start + i)); }
    }
    var from, to := Max(w.offset, t.start), Min(w.end, t.End());
    var at := from;
    while at < to
      invariant from <= at <= Max(from, to)
      invariant forall k | 0 <= k < t.len :: buf[k] == Laid(value, items, w, data, from, at, t.start + k)
    {
      buf[at - t.start] := data[at - w.offset];
      at := at + 1;
    }
  }

  /** Pieces against the items that will name them. */
  ghost predicate PiecesHold(value: Cell -> int, items: seq<Item>, w: Write, bytes: int -> int, pieces: seq<Piece>, copies: seq<Item>) {
    |pieces| == |copies| && forall i | 0 <= i < |pieces| :: PieceHolds(value, items, w, bytes, pieces[i], copies[i])
  }

  ghost predicate PieceHolds(value: Cell -> int, items: seq<Item>, w: Write, bytes: int -> int, x: Piece, c: Item) {
    && x.start == c.start && |x.bytes| == c.num && c.offset == 0
    && forall k | 0 <= k < c.num :: x.bytes[k] == Written(value, items, w, bytes, c.start + k)
  }

  lemma {:induction false} PiecesJoin(value: Cell -> int, items: seq<Item>, w: Write, bytes: int -> int, a: seq<Piece>, c: seq<Item>, b: seq<Piece>, d: seq<Item>)
    requires PiecesHold(value, items, w, bytes, a, c) && PiecesHold(value, items, w, bytes, b, d)
    ensures PiecesHold(value, items, w, bytes, a + b, c + d)
  {
    hide PieceHolds;
  }

  /** The chunks up to one place and the chunks from it on. */
  lemma {:induction false} ChunksJoin(at: nat, mid: nat, end: nat, unit: Pos, news: nat -> nat, attrs: Attributes, n: nat)
    requires at <= mid <= end && mid == at + Times(n, unit)
    ensures Chunks(at, end, unit, news, attrs) == Chunks(at, mid, unit, news, attrs) + Chunks(mid, end, unit, news, attrs)
    decreases n
  {
    if n == 0 {
      assert Times(0, unit) == 0;
      assert Chunks(at, mid, unit, news, attrs) == [];
    } else {
      TimesNext(n - 1, unit);
      hide Times;
      ChunksJoin(at + unit, mid, end, unit, news, attrs, n - 1);
    }
  }

  /** A buffer cut into units, a new extent each. */
  method CutBuffer(value: Cell -> int, items: seq<Item>, w: Write, ghost bytes: int -> int, t: Target, buf: seq<int>, unit: Pos,
                   ghost news: nat -> nat, ghost attrs: Attributes) returns (pieces: seq<Piece>)
    requires |buf| == t.len && forall k | 0 <= k < t.len :: buf[k] == Written(value, items, w, bytes, t.start + k)
    ensures PiecesHold(value, items, w, bytes, pieces, Chunks(t.start, t.End(), unit, news, attrs))
  {
    pieces := [];
    var at := 0;
    ghost var n := 0;
    FirstChunks(t, unit, news, attrs);
    hide Written, Chunks, PieceHolds, Times, ChunksTo;
    while at < t.len
      invariant 0 <= at <= t.len && (at < t.len ==> at == Times(n, unit))
      invariant PiecesHold(value, items, w, bytes, pieces, ChunksTo(t, at, unit, news, attrs))
    {
      var k := MinNat(unit, t.len - at);
      pieces := pieces + [Piece(t.start + at, buf[at..at + k])];
      OnePiece(value, items, w, bytes, t, buf, unit, news, attrs, pieces[..|pieces|-1], at, k, n);
      TimesNext(n, unit);
      at, n := at + k, n + 1;
    }
    AllChunks(t, unit, news, attrs);
  }

  /** A target's chunks up to `at` bytes in. */
  ghost function ChunksTo(t: Target, at: nat, unit: Pos, news: nat -> nat, attrs: Attributes): seq<Item> {
    Chunks(t.start, if at < t.len then t.start + at else t.End(), unit, news, attrs)
  }

  lemma FirstChunks(t: Target, unit: Pos, news: nat -> nat, attrs: Attributes)
    ensures ChunksTo(t, 0, unit, news, attrs) == [] && Times(0, unit) == 0
  {
  }

  lemma AllChunks(t: Target, unit: Pos, news: nat -> nat, attrs: Attributes)
    ensures ChunksTo(t, t.len, unit, news, attrs) == Chunks(t.start, t.End(), unit, news, attrs)
  {
  }

  lemma {:induction false} OnePiece(value: Cell -> int, items: seq<Item>, w: Write, bytes: int -> int, t: Target, buf: seq<int>, unit: Pos,
                                    news: nat -> nat, attrs: Attributes, pieces: seq<Piece>, at: nat, k: nat, n: nat)
    requires |buf| == t.len && forall j | 0 <= j < t.len :: buf[j] == Written(value, items, w, bytes, t.start + j)
    requires at < t.len && at == Times(n, unit) && k == MinNat(unit, t.len - at)
    requires PiecesHold(value, items, w, bytes, pieces, ChunksTo(t, at, unit, news, attrs))
    ensures PiecesHold(value, items, w, bytes, pieces + [Piece(t.start + at, buf[at..at + k])], ChunksTo(t, at + k, unit, news, attrs))
  {
    var stop := t.start + at + k;
    hide Written, Times, Chunks, PieceHolds, PiecesHold;
    ChunksJoin(t.start, t.start + at, stop, unit, news, attrs, n);
    var c := Item(t.start + at, k, news(t.start + at), 0, Regular, attrs);
    LastChunk(t.start + at, stop, unit, news, attrs);
    var x := Piece(t.start + at, buf[at..at + k]);
    SliceHolds(value, items, w, bytes, t, buf, at, c);
    OnePieceHolds(value, items, w, bytes, x, c);
    PiecesJoin(value, items, w, bytes, pieces, Chunks(t.start, t.start + at, unit, news, attrs), [x], [c]);
  }

  lemma {:induction false} SliceHolds(value: Cell -> int, items: seq<Item>, w: Write, bytes: int -> int, t: Target, buf: seq<int>, at: nat, c: Item)
    requires |buf| == t.len && forall j | 0 <= j < t.len :: buf[j] == Written(value, items, w, bytes, t.start + j)
    requires c.start == t.start + at && at + c.num <= t.len && c.offset == 0
    ensures PieceHolds(value, items, w, bytes, Piece(c.start, buf[at..at + c.num]), c)
  {
    hide Written;
    var s := buf[at..at + c.num];
    forall j | 0 <= j < c.num ensures s[j] == Written(value, items, w, bytes, c.start + j) {
      assert s[j] == buf[at + j];
    }
  }

  lemma {:induction false} OnePieceHolds(value: Cell -> int, items: seq<Item>, w: Write, bytes: int -> int, x: Piece, c: Item)
    requires PieceHolds(value, items, w, bytes, x, c)
    ensures PiecesHold(value, items, w, bytes, [x], [c])
  {
    hide PieceHolds;
  }

  lemma LastChunk(at: nat, end: nat, unit: Pos, news: nat -> nat, attrs: Attributes)
    requires at < end <= at + unit
    ensures Chunks(at, end, unit, news, attrs) == [Item(at, end - at, news(at), 0, Regular, attrs)]
  {
    assert Chunks(end, end, unit, news, attrs) == [];
  }

  /** Every target's buffer, cut into pieces. */
  method FillCopies(value: Cell -> int, items: seq<Item>, w: Write, data: seq<int>, out: seq<Target>, unit: Pos,
                    ghost news: nat -> nat, ghost attrs: Attributes) returns (pieces: seq<Piece>)
    requires value(Zero) == 0 && w.end == w.offset + |data|
    ensures PiecesHold(value, items, w, DataAt(data), pieces, CopiesOf(out, unit, news, attrs))
  {
    pieces := [];
    assert out[..0] == [] && out[..|out|] == out && CopiesOf([], unit, news, attrs) == [];
    hide PiecesHold, Chunks, Written;
    assert PiecesHold(value, items, w, DataAt(data), [], []) by { NoPieces(value, items, w, DataAt(data)); }
    for i := 0 to |out|
      invariant PiecesHold(value, items, w, DataAt(data), pieces, CopiesOf(out[..i], unit, news, attrs))
    {
      var t := out[i];
      assert out[..i+1][..i] == out[..i];
      var buf := FillCopy(value, items, w, data, t);
      var more := CutBuffer(value, items, w, DataAt(data), t, buf[..], unit, news, attrs);
      PiecesJoin(value, items, w, DataAt(data), pieces, CopiesOf(out[..i], unit, news, attrs), more, Chunks(t.start, t.End(), unit, news, attrs));
      pieces := pieces + more;
    }
  }

  lemma NoPieces(value: Cell -> int, items: seq<Item>, w: Write, bytes: int -> int)
    ensures PiecesHold(value, items, w, bytes, [], [])
  {
  }

  // ---------------------------------------------------------- the copies written out

  /** The volume with one piece written at its extent. */
  function Wrote(value: Cell -> int, c: Item, x: Piece): Cell -> int {
    (cell: Cell) => if cell.Byte? && cell.bytenr == c.bytenr && 0 <= cell.at < |x.bytes| then x.bytes[cell.at] else value(cell)
  }

  ghost predicate SameElsewhere(value: Cell -> int, now: Cell -> int, copies: seq<Item>) {
    forall cell: Cell :: (cell.Zero? || forall i | 0 <= i < |copies| :: copies[i].bytenr != cell.bytenr) ==> now(cell) == value(cell)
  }

  ghost predicate StoredAt(now: Cell -> int, c: Item, x: Piece) {
    |x.bytes| == c.num && forall k | 0 <= k < c.num :: now(Byte(c.bytenr, k, c.attrs)) == x.bytes[k]
  }

  /** Every piece at its own extent; nothing else on the volume changes. */
  method StorePieces(value: Cell -> int, copies: seq<Item>, pieces: seq<Piece>) returns (now: Cell -> int)
    requires |copies| == |pieces| && forall i | 0 <= i < |copies| :: copies[i].num == |pieces[i].bytes|
    requires forall i, j | 0 <= i < j < |copies| :: copies[i].bytenr != copies[j].bytenr
    ensures SameElsewhere(value, now, copies)
    ensures forall i | 0 <= i < |copies| :: StoredAt(now, copies[i], pieces[i])
  {
    now := value;
    for i := 0 to |copies|
      invariant SameElsewhere(value, now, copies[..i])
      invariant forall j | 0 <= j < i :: StoredAt(now, copies[j], pieces[j])
    {
      assert forall j | 0 <= j < i :: copies[..i+1][j] == copies[..i][j];
      assert copies[..i+1][i] == copies[i];
      now := Wrote(now, copies[i], pieces[i]);
    }
    assert copies[..|copies|] == copies;
  }

  /** What the file read before is on extents the copies are not on. */
  ghost predicate ReadsRecorded(items: seq<Item>, extents: ExtentTree) {
    forall x | x in items && x.kind == Regular && x.bytenr != 0 :: x.bytenr in extents
  }

  /** Inline data names no extent. */
  predicate InlineNameless(items: seq<Item>) { forall x | x in items && x.kind == Inline :: x.bytenr == 0 }

  lemma {:induction false} NoneNameless(items: seq<Item>)
    requires NoInline(items)
    ensures InlineNameless(items)
  {
    forall x | x in items ensures x.kind != Inline {
      var i :| 0 <= i < |items| && items[i] == x;
    }
  }

  lemma {:induction false} OldReads(items: seq<Item>, extents: ExtentTree, p: int)
    requires InlineNameless(items) && ReadsRecorded(items, extents)
    ensures Read(items, p) == Zero || Read(items, p).bytenr in extents || Read(items, p).bytenr == 0
  {
    if items != [] {
      var last := items[|items|-1];
      assert last in items;
      OldReads(items[..|items|-1], extents, p);
    }
  }

  /** Once stored, the copies hold the old bytes with the write's laid over them. */
  lemma {:induction false} StoredHold(value: Cell -> int, now: Cell -> int, items: seq<Item>, w: Write, bytes: int -> int,
                                      copies: seq<Item>, pieces: seq<Piece>, extents: ExtentTree)
    requires InlineNameless(items) && ReadsRecorded(items, extents) && FreshCopies(copies, extents)
    requires PiecesHold(value, items, w, bytes, pieces, copies) && SameElsewhere(value, now, copies)
    requires forall i | 0 <= i < |copies| :: StoredAt(now, copies[i], pieces[i])
    ensures CopiesHold(now, copies, items, w, bytes)
    ensures forall p: int :: Written(now, items, w, bytes, p) == Written(value, items, w, bytes, p)
  {
    forall p: int ensures Written(now, items, w, bytes, p) == Written(value, items, w, bytes, p) {
      OldReads(items, extents, p);
      assert now(Zero) == value(Zero);
    }
    forall c, p: int | c in copies && Holds(c, p) ensures now(CellOf(c, p)) == Written(now, items, w, bytes, p) {
      var i :| 0 <= i < |copies| && copies[i] == c;
      OneHolds(value, now, items, w, bytes, c, pieces[i], p);
    }
  }

  lemma {:induction false} OneHolds(value: Cell -> int, now: Cell -> int, items: seq<Item>, w: Write, bytes: int -> int, c: Item, x: Piece, p: int)
    requires PieceHolds(value, items, w, bytes, x, c) && StoredAt(now, c, x) && Holds(c, p) && c.kind == Regular && c.bytenr != 0
    ensures now(CellOf(c, p)) == Written(value, items, w, bytes, p)
  {
    hide Written;
    var k := p - c.start;
    assert x.bytes[k] == Written(value, items, w, bytes, c.start + k);
  }

  // ------------------------------------------------------------------ the whole write

  /** Where the allocator puts the copy that starts at each file offset: free places, a
      different one for each. */
  ghost predicate NewPlaces(news: nat -> nat, extents: ExtentTree) {
    && (forall p: nat :: news(p) > 0 && news(p) !in extents)
    && forall p: nat, q: nat :: news(p) == news(q) ==> p == q
  }

  lemma {:induction false} CopiesPlaced(out: seq<Target>, unit: Pos, news: nat -> nat, attrs: Attributes)
    ensures forall x | x in CopiesOf(out, unit, news, attrs) :: x.bytenr == news(x.start) && x.kind == Regular
  {
    if out != [] {
      CopiesPlaced(out[..|out|-1], unit, news, attrs);
      ChunksPlaced(out[|out|-1].start, out[|out|-1].End(), unit, news, attrs);
    }
  }

  lemma {:induction false} ChunksPlaced(at: nat, end: nat, unit: Pos, news: nat -> nat, attrs: Attributes)
    ensures forall x | x in Chunks(at, end, unit, news, attrs) :: x.bytenr == news(x.start) && x.kind == Regular
    decreases end - at
  {
    if at < end { ChunksPlaced(at + MinNat(unit, end - at), end, unit, news, attrs); }
  }

  lemma {:induction false} CopiesFresh(out: seq<Target>, unit: Pos, news: nat -> nat, attrs: Attributes, extents: ExtentTree)
    requires Ascending(out) && NewPlaces(news, extents)
    ensures FreshCopies(CopiesOf(out, unit, news, attrs), extents)
  {
    var copies := CopiesOf(out, unit, news, attrs);
    CopiesPlaced(out, unit, news, attrs);
    CopiesCount(out, unit, news, attrs, 0);
    forall i | 0 <= i < |copies| ensures copies[i].bytenr == news(copies[i].start) && copies[i].num > 0 && copies[i].kind == Regular {
      assert copies[i] in copies;
    }
    forall i, j | 0 <= i < j < |copies| ensures copies[i].bytenr != copies[j].bytenr {
      if copies[i].start == copies[j].start {
        TwiceCounted(copies, copies[i].start, i, j);
        CopiesCount(out, unit, news, attrs, copies[i].start);
      }
    }
  }

  lemma {:induction false} NamedIn(ino: nat, items: seq<Item>, x: Item)
    requires x in items && x.Names(x.bytenr)
    ensures Naming(ino, items, x.bytenr) != multiset{}
  {
    var init, last := items[..|items|-1], items[|items|-1];
    if x in init { NamedIn(ino, init, x); }
  }

  /** Every extent the file names is recorded, with no fewer references than its items. */
  lemma {:induction false} NamesRecorded(ino: nat, files: Files, extents: ExtentTree)
    requires Accounted(extents, files) && ino in files
    ensures ReadsRecorded(files[ino], extents) && CountsHold(PiecesOf(files[ino]), extents)
  {
    var items := files[ino];
    forall x | x in items && x.kind == Regular && x.bytenr != 0 ensures x.bytenr in extents {
      assert AccountedAt(extents, files, x.bytenr);
      NamedIn(ino, items, x);
      NamedIsHeld(extents, files, ino, x.bytenr);
    }
    forall b | b in extents && b != 0 ensures |Naming(0, PiecesOf(items), b)| <= |extents[b].held| {
      assert AccountedAt(extents, files, b);
      NamedIsHeld(extents, files, ino, b);
      SizeOfPart(Naming(ino, items, b), Held(extents, b));
      PiecesName(ino, items, b);
      NamingSize(ino, 0, PiecesOf(items), b);
    }
  }

  lemma {:induction false} PiecesName(ino: nat, items: seq<Item>, b: nat)
    requires b != 0
    ensures Naming(ino, PiecesOf(items), b) == Naming(ino, items, b)
  {
    if items != [] {
      var init, it := items[..|items|-1], items[|items|-1];
      PiecesName(ino, init, b);
      NamingJoin(ino, PiecesOf(init), if IsHole(it) then [] else [it], b);
      OneNaming(ino, it, b);
      NoneNamed(ino, b);
    }
  }

  lemma {:induction false} GapsKnown(w: Write, items: seq<Item>, gaps: seq<(nat, nat)>)
    requires if w.noHoles || w.end <= w.size then gaps == [] else GapsFill(items, gaps, w.GapFrom(), w.GapTo())
    requires w.offset < w.end
    ensures GapsOf(w, items, gaps) && GapsOrdered(gaps) && forall i | 0 <= i < |gaps| :: gaps[i].0 <= gaps[i].1
  {
    if w.end <= w.size { SectorOf(w.offset, w.sector); }
  }

  lemma {:induction false} PlanReady(ino: nat, files: Files, extents: ExtentTree, w: Write)
    requires Accounted(extents, files) && ino in files && Sorted(files[ino]) && w.offset < w.end
    ensures Sorted(PiecesOf(files[ino])) && 0 !in extents && CountsHold(PiecesOf(files[ino]), extents) && ReadsRecorded(files[ino], extents)
    ensures w.Tail().Some? ==> w.Tail().value < w.offset
  {
    NamesRecorded(ino, files, extents);
    PiecesSorted(files[ino]);
    hide AccountedAt, CountsHold, ReadsRecorded, Sorted;
  }

  lemma {:induction false} WritesAre(w: Write, items: seq<Item>, out: seq<Target>, gaps: seq<(nat, nat)>, extents: ExtentTree)
    requires w.offset < w.end && Sorted(items) && NoInline(items) && Aligned(items, w.sector)
    requires CowPlanned(out, PiecesOf(items), extents, w.sector, w.Tail(), w.offset, w.end) && GapsOf(w, items, gaps) && GapsOrdered(gaps)
    ensures Writes(w, items, out, gaps, extents) && Ascending(out) && AllFit(out, PiecesOf(items), extents)
  {
    hide AllFit, OnEdges, AllNeeded, GapsOf, Aligned, Sorted, NoInline, Ascending, HolesApart;
  }

  lemma {:induction false} PiecesAre(value: Cell -> int, items: seq<Item>, w: Write, bytes: int -> int, pieces: seq<Piece>, copies: seq<Item>,
                                     extents: ExtentTree)
    requires PiecesHold(value, items, w, bytes, pieces, copies) && FreshCopies(copies, extents)
    ensures |copies| == |pieces| && forall i | 0 <= i < |copies| :: copies[i].num == |pieces[i].bytes|
    ensures forall i, j | 0 <= i < j < |copies| :: copies[i].bytenr != copies[j].bytenr
  {
    hide Written;
    forall i | 0 <= i < |copies| ensures copies[i].num == |pieces[i].bytes| {
      assert PieceHolds(value, items, w, bytes, pieces[i], copies[i]);
    }
  }

  lemma {:induction false} PlacesPositive(news: nat -> nat, extents: ExtentTree)
    requires NewPlaces(news, extents)
    ensures forall p :: news(p) > 0
  {
  }

  lemma {:induction false} AfterCopiesIs(ino: nat, extents: ExtentTree, releases: seq<DataRef>, unrefs: seq<DataRef>, copies: seq<Item>)
    ensures AfterCopies(ino, extents, releases, unrefs, copies) == AfterRefs(ino, extents, releases, unrefs, []) + NewRecords(ino, copies)
  {
  }

  /** What the write leaves reads, in key order. */
  lemma {:induction false} WriteReads(value: Cell -> int, w: Write, items: seq<Item>, out: seq<Target>, gaps: seq<(nat, nat)>,
                                      extents: ExtentTree, unit: Pos, news: nat -> nat, hole: Attributes, attrs: Attributes, bytes: int -> int, p: nat)
    requires Writes(w, items, out, gaps, extents) && (forall q :: news(q) > 0) && forall q: nat | w.GapFrom() <= q :: Read(items, q) == Zero
    requires CopiesHold(value, CopiesOf(out, unit, news, attrs), items, w, bytes) && p < Max(w.size, w.end)
    ensures value(Read(InOrder(AsMap(AfterWrite(w.noHoles, items, out, gaps, unit, news, hole, attrs))), p)) == Written(value, items, w, bytes, p)
  {
    var left := AfterWrite(w.noHoles, items, out, gaps, unit, news, hole, attrs);
    hide *;
    AfterOwn(w, items, out, gaps, unit, news, hole, attrs, extents);
    WriteOverlays(value, w, items, out, gaps, extents, unit, news, hole, attrs, bytes, p);
    AfterSays(w, items, out, gaps, unit, news, hole, attrs, extents, p);
    TreeReads(left, p);
  }

  /** Its items lie apart exactly unless an explicit hole is left under a copy. */
  lemma {:induction false} WriteApart(w: Write, items: seq<Item>, out: seq<Target>, gaps: seq<(nat, nat)>, extents: ExtentTree, unit: Pos,
                                      news: nat -> nat, hole: Attributes, attrs: Attributes)
    requires Writes(w, items, out, gaps, extents)
    ensures Sorted(InOrder(AsMap(AfterWrite(w.noHoles, items, out, gaps, unit, news, hole, attrs)))) <==> !HoleLeft(items, w, unit)
  {
    var left := AfterWrite(w.noHoles, items, out, gaps, unit, news, hole, attrs);
    hide Writes, AfterWrite, InOrder, AsMap, Sorted, HoleLeft, OwnStarts, NoneTwiceIn;
    AfterOwn(w, items, out, gaps, unit, news, hole, attrs, extents);
    NoneTwiceUnlessHoleLeft(w, items, out, gaps, unit, news, hole, attrs, extents);
    TreeApart(left);
  }

  /** A byte up to the new end lies in one of them. */
  lemma {:induction false} WriteCovers(w: Write, items: seq<Item>, out: seq<Target>, gaps: seq<(nat, nat)>, extents: ExtentTree, unit: Pos,
                                       news: nat -> nat, hole: Attributes, attrs: Attributes, p: nat)
    requires Writes(w, items, out, gaps, extents) && !w.noHoles && !HoleLeft(items, w, unit)
    requires (forall q: nat | q < w.GapFrom() :: CountAt(items, q) == 1) && (p < AlignUp(w.end, w.sector) || p < w.GapFrom())
    ensures CountAt(InOrder(AsMap(AfterWrite(w.noHoles, items, out, gaps, unit, news, hole, attrs))), p) == 1
  {
    var left := AfterWrite(w.noHoles, items, out, gaps, unit, news, hole, attrs);
    HoleLeftMeans(items, w, unit);
    hide *;
    AfterOwn(w, items, out, gaps, unit, news, hole, attrs, extents);
    HolesMeetOneExactlyWhen(w, items, out, gaps, extents);
    EverySectorOnce(w, items, out, gaps, unit, news, hole, attrs, extents, p);
    TreePermutes(left);
    CountPermuted(InOrder(AsMap(left)), left, p);
  }

  lemma HoleLeftMeans(items: seq<Item>, w: Write, unit: Pos)
    ensures !w.noHoles ==> (HoleLeft(items, w, unit) <==> HoleRunsOn(items, w))
  {
  }

  /** The references are those of the items in the tree, in whatever order they come. */
  lemma {:induction false} AccountedInOrder(ino: nat, left: seq<Item>, files: Files, extents: ExtentTree)
    requires OwnStarts(left) && Accounted(extents, files[ino := left])
    ensures Accounted(extents, files[ino := InOrder(AsMap(left))])
  {
    var now := InOrder(AsMap(left));
    var were, are := files[ino := left], files[ino := now];
    hide InOrder, AsMap, OwnStarts, Naming, AccountedAt;
    TreePermutes(left);
    forall b: nat | b != 0 ensures AccountedAt(extents, are, b) {
      assert AccountedAt(extents, were, b);
      NamingPermuted(ino, now, left, b);
      AccountedAs(ino, now, left, files, extents, b);
    }
  }

  lemma AccountedAs(ino: nat, now: seq<Item>, left: seq<Item>, files: Files, extents: ExtentTree, b: nat)
    requires AccountedAt(extents, files[ino := left], b) && Naming(ino, now, b) == Naming(ino, left, b)
    ensures AccountedAt(extents, files[ino := now], b)
  {
    hide Naming;
  }

  /** What a write leaves: the file's tree, the extent tree, and the volume's bytes. */
  datatype Left = Left(tree: map<nat, Item>, extents: ExtentTree, value: Cell -> int)

  /** A write that is refused exactly where an item it must replace cannot be. What it
      leaves reads the write's bytes over the old ones; its references are accounted for;
      and its items lie apart exactly unless an explicit hole is left under a copy. */
  method WriteCow(ino: nat, files: Files, extents: ExtentTree, w: Write, data: seq<int>, value: Cell -> int, unit: Pos, news: nat -> nat,
                  hole: Attributes, attrs: Attributes) returns (r: Result<Left, PlanError>)
    requires Accounted(extents, files) && ino in files && value(Zero) == 0 && NewPlaces(news, extents)
    requires Sorted(files[ino]) && NoInline(files[ino]) && Aligned(files[ino], w.sector) && Within(files[ino], 0, U64_SPAN)
    requires data != [] && w.end == w.offset + |data| && AlignUp(w.end, w.sector) < U64_SPAN
    requires forall q: nat | w.GapFrom() <= q :: Read(files[ino], q) == Zero
    ensures r.Ok? <==> WantedWritable(PiecesOf(files[ino]), extents, w.Tail(), w.offset, w.end)
    ensures r.Ok? ==> Accounted(r.value.extents, files[ino := InOrder(r.value.tree)])
    ensures r.Ok? ==> forall p: nat | p < Max(w.size, w.end) ::
      r.value.value(Read(InOrder(r.value.tree), p)) == Written(value, files[ino], w, DataAt(data), p)
    ensures r.Ok? ==> (Sorted(InOrder(r.value.tree)) <==> !HoleLeft(files[ino], w, unit))
    ensures r.Ok? && !HoleLeft(files[ino], w, unit) && !w.noHoles && (forall q: nat | q < w.GapFrom() :: CountAt(files[ino], q) == 1) ==>
      forall p: nat | p < AlignUp(w.end, w.sector) || p < w.GapFrom() :: CountAt(InOrder(r.value.tree), p) == 1
  {
    hide *;
    var items := files[ino];
    PlanReady(ino, files, extents, w);
    var gaps: seq<(nat, nat)> := [];
    if w.end > w.size && !w.noHoles { gaps := CowGaps(items, w.GapFrom(), w.GapTo()); }
    GapsKnown(w, items, gaps);
    var plan := PlanCowTargets(PiecesOf(items), extents, w.sector, w.Tail(), w.offset, w.end);
    if plan.Err? { return Err(plan.error); }
    var out := plan.value;
    WritesAre(w, items, out, gaps, extents);
    CopiesFresh(out, unit, news, attrs, extents);
    var pieces := FillCopies(value, items, w, data, out, unit, news, attrs);
    var copies := CopiesOf(out, unit, news, attrs);
    PiecesAre(value, items, w, DataAt(data), pieces, copies, extents);
    var after := StorePieces(value, copies, pieces);
    NoneNameless(items);
    StoredHold(value, after, items, w, DataAt(data), copies, pieces, extents);
    var edits := CowHoleEdits(w.noHoles, items, out, hole);
    var tree := Edited(AsMap(items), ByKey(edits)) + AsMap(GapItems(gaps, hole)) + AsMap(copies);
    EditsLeaveWrite(w, items, out, gaps, unit, news, hole, attrs, extents, U64_SPAN);
    var releases, unrefs := DropTargets(out);
    ghost var left := AfterWrite(w.noHoles, items, out, gaps, unit, news, hole, attrs);
    WriteAccounted(ino, w.noHoles, items, out, gaps, unit, news, hole, attrs, files, extents);
    var settled := SettleRefs(ino, extents, releases, unrefs, []);
    if settled.Err? { return Err(NotWritable(w.offset)); }
    AfterCopiesIs(ino, extents, releases, unrefs, copies);
    PlacesPositive(news, extents);
    forall p: nat | p < Max(w.size, w.end) ensures after(Read(InOrder(tree), p)) == Written(value, items, w, DataAt(data), p) {
      WriteReads(after, w, items, out, gaps, extents, unit, news, hole, attrs, DataAt(data), p);
    }
    WriteApart(w, items, out, gaps, extents, unit, news, hole, attrs);
    if !HoleLeft(items, w, unit) && !w.noHoles && forall q: nat | q < w.GapFrom() :: CountAt(items, q) == 1 {
      forall p: nat | p < AlignUp(w.end, w.sector) || p < w.GapFrom() ensures CountAt(InOrder(tree), p) == 1 {
        WriteCovers(w, items, out, gaps, extents, unit, news, hole, attrs, p);
      }
    }
    AfterOwn(w, items, out, gaps, unit, news, hole, attrs, extents);
    AccountedInOrder(ino, left, files, settled.value + NewRecords(ino, copies));
    return Ok(Left(tree, settled.value + NewRecords(ino, copies), after));
  }
}
