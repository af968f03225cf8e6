/** First-fit placement of data extents (src/block_group.rs): sector-aligned, inside
    free runs, and clear of every device row that holds a superblock copy. */
module Allocator {
  import opened Base
  import opened ChunkMap
  import opened FreeSpace

  datatype AllocError = NotWholeSectors(len: nat) | NoRoom(len: nat)

  /** Stripes of one chunk on one device start at the same place in a stripe row,
      as device extents placed on MiB boundaries do. */
  ghost predicate OnGrid(chunks: seq<Chunk>)
    requires Ordered(chunks)
  {
    forall i | 0 <= i < |chunks| :: StripesOnGrid(chunks[i])
  }

  ghost predicate StripesOnGrid(c: Chunk) {
    c.stripeLen > 0 && forall s, t | 0 <= s < |c.stripes| && 0 <= t < |c.stripes| ::
      c.stripes[s].devid == c.stripes[t].devid ==>
      c.stripes[s].offset % c.stripeLen == c.stripes[t].offset % c.stripeLen
  }

  /** Counting rows of `row` bytes from `offset`, the one that holds `physical`
      holds the first byte of a superblock copy. */
  ghost predicate SharesRow(physical: nat, offset: nat, row: nat)
    requires row > 0
  {
    offset <= physical && exists k | 0 <= k < |SUPER_OFFSETS| :: SameRow(physical, SUPER_OFFSETS[k], offset, row)
  }

  predicate SameRow(physical: nat, copy: nat, offset: nat, row: nat)
    requires row > 0
  {
    offset <= physical && offset <= copy && (physical - offset) / row == (copy - offset) / row
  }

  /** Some copy of the byte lies in a row of its stripe with a superblock copy. */
  ghost predicate Dangerous(chunks: seq<Chunk>, b: nat)
    requires Ordered(chunks)
  {
    exists mirror | 0 <= mirror < CopiesAt(chunks, b) :: DangerousCopy(chunks, b, mirror)
  }

  ghost predicate DangerousCopy(chunks: seq<Chunk>, b: nat, mirror: nat)
    requires Ordered(chunks)
  {
    var c, m := ChunkFor(chunks, b), MapAt(chunks, b, mirror);
    c.Some? && m.Ok? && DangerousPlace(c.value, b, mirror, m.value.physical)
  }

  ghost predicate DangerousPlace(c: Chunk, b: nat, mirror: nat, physical: nat) {
    && WellFormed(c) && c.logical <= b && StripePlace(c, b, mirror).0 < |c.stripes|
    && SharesRow(physical, c.stripes[StripePlace(c, b, mirror).0].offset, c.stripeLen)
  }

  ghost predicate Clear(chunks: seq<Chunk>, at: nat, len: nat)
    requires Ordered(chunks)
  {
    forall b | at <= b < at + len :: !Dangerous(chunks, b)
  }

  lemma CopyInOneRow(copy: nat, offset: nat, row: nat, p: nat)
    requires row > 0 && row % SUPERBLOCK_SIZE == 0
    requires copy % SUPERBLOCK_SIZE == 0 && offset % SUPERBLOCK_SIZE == 0
    requires offset <= p && copy <= p < copy + SUPERBLOCK_SIZE
    ensures SameRow(p, copy, offset, row)
  {
    if offset > copy { MultiplesApart(copy, offset, SUPERBLOCK_SIZE); }
    var x := copy - offset;
    ModSum(copy, offset, SUPERBLOCK_SIZE);
    var t := x / row;
    Euclid(x, row);
    hide Times;
    TimesNext(t, row);
    MultipleOfMultiple(t + 1, row, SUPERBLOCK_SIZE);
    MultiplesApart(x, Times(t, row) + row, SUPERBLOCK_SIZE);
    RowAndRest(t, row, x % row + (p - copy));
  }

  lemma MultipleOfMultiple(q: nat, row: nat, a: nat)
    requires a > 0 && row % a == 0
    ensures Times(q, row) % a == 0
  {
    Euclid(row, a);
    TimesAssociates(q, row / a, a);
    ModOfMultiple(Times(q, row / a), a);
  }

  // --------------------------------------------------- the test of one stripe row

  /** Where the row of `s` that holds the copy at `copy` starts. */
  function RowStart(s: Stripe, row: nat, copy: nat): nat
    requires row > 0 && copy >= s.offset
  {
    s.offset + Times((copy - s.offset) / row, row)
  }

  predicate Touches(s: Stripe, row: nat, copy: nat, m: Mapping, len: nat)
    requires row > 0
  {
    && s.devid == m.devid && s.offset <= m.physical && copy >= s.offset
    && m.physical < RowStart(s, row, copy) + row && RowStart(s, row, copy) < m.physical + len
  }

  lemma RowsFromMultiple(x: nat, m: nat, row: nat)
    requires row > 0 && m % row == 0 && m <= x
    ensures m == Times(m / row, row) && (x - m) / row == x / row - m / row && (x - m) % row == x % row
  {
    hide Times;
    Euclid(m, row);
    Euclid(x - m, row);
    TimesSum(m / row, (x - m) / row, row);
    RowAndRest(m / row + (x - m) / row, row, (x - m) % row);
  }

  /** The same, with the first row starting at zero. */
  lemma TouchesFromZero(offset: nat, row: nat, copy: nat, p: nat, len: nat)
    requires row > 0 && offset % row == 0 && len > 0 && p % row + len <= row && offset <= p && offset <= copy
    ensures var start := offset + Times((copy - offset) / row, row);
      (p < start + row && start < p + len) <==> p / row == copy / row
  {
    hide Times;
    var q := copy / row;
    RowsFromMultiple(copy, offset, row);
    RowsFromMultiple(p, offset, row);
    TimesSum(offset / row, (copy - offset) / row, row);
    Euclid(p, row);
    if p / row < q { TimesMonotonic(p / row + 1, q, row); TimesNext(p / row, row); }
    if p / row > q { TimesMonotonic(q + 1, p / row, row); TimesNext(q, row); }
  }

  /** Being in one row does not depend on which row of the grid is counted first. */
  lemma SameRowAnywhere(p: nat, copy: nat, offset: nat, row: nat)
    requires row > 0 && offset <= p
    ensures var g := offset % row;
      SameRow(p, copy, offset, row) <==> copy >= g && (p - g) / row == (copy - g) / row
  {
    hide Times;
    var g := offset % row;
    var m := offset - g;
    Euclid(offset, row);
    RowAndRest(offset / row, row, 0);
    RowsFromMultiple(p - g, m, row);
    if copy >= g {
      Euclid(copy - g, row);
      if (copy - g) / row >= m / row {
        TimesMonotonic(m / row, (copy - g) / row, row);
        RowsFromMultiple(copy - g, m, row);
      } else if copy >= offset {
        RowsFromMultiple(copy - g, m, row);
      }
    }
  }

  /** A piece of one row of its stripe touches the row of any stripe on the same
      grid that holds a copy exactly when the copy is in the piece's own row. */
  lemma TouchesIsSameRow(s: Stripe, offset: nat, row: nat, copy: nat, m: Mapping, len: nat)
    requires row > 0 && s.offset % row == offset % row && len > 0
    requires s.devid == m.devid && s.offset <= m.physical && offset <= m.physical
    requires (m.physical - offset) % row + len <= row
    ensures Touches(s, row, copy, m, len) <==> SameRow(m.physical, copy, offset, row)
  {
    hide SameRow, Times;
    SameRowAnywhere(m.physical, copy, offset, row);
    SameRowAnywhere(m.physical, copy, s.offset, row);
    var g, t := offset % row, s.offset - s.offset % row;
    OffsetOnGrid(m.physical, offset, row);
    OffsetOnGrid(m.physical, s.offset, row);
    if copy >= s.offset {
      TouchesFromZero(t, row, copy - g, m.physical - g, len);
    } else {
      NotBelow(m.physical, copy, s.offset, row);
    }
  }

  lemma OffsetOnGrid(p: nat, offset: nat, row: nat)
    requires row > 0 && offset <= p
    ensures var g := offset % row;
      g <= offset && (offset - g) % row == 0 && (p - g) % row == (p - offset) % row
  {
    hide Times;
    Euclid(offset, row);
    RowAndRest(offset / row, row, 0);
    RowsFromMultiple(p - offset % row, offset - offset % row, row);
  }

  lemma NotBelow(p: nat, copy: nat, offset: nat, row: nat)
    requires row > 0 && copy < offset
    ensures !SameRow(p, copy, offset, row)
  {
  }

  /** How far a mapped byte lies into its stripe: which row, and how far into it. */
  lemma RowOfByte(c: Chunk, b: nat, mirror: nat)
    requires WellFormed(c) && MapMirror(c, b, mirror).Ok?
    ensures var m, row, q := MapMirror(c, b, mirror).value, c.stripeLen, (b - c.logical) / c.stripeLen;
      var (index, into) := StripePlace(c, b, mirror);
      && index == Place(c, q, mirror).0 && index < |c.stripes| && m.devid == c.stripes[index].devid
      && c.stripes[index].offset <= m.physical
      && (m.physical - c.stripes[index].offset) % row == (b - c.logical) % row
      && (m.physical - c.stripes[index].offset) / row == Place(c, q, mirror).1
  {
    hide Place, Times;
    SizesPositive(c);
    StripePlaceIsWhereItMaps(c, b, mirror);
    hide WellFormed, MapMirror;
    var row, o := c.stripeLen, b - c.logical;
    Euclid(o, row);
    RowAndRest(Place(c, o / row, mirror).1, row, o % row);
  }

  /** Bytes of one logical row share a row of their stripe on every copy, so they
      are dangerous together. */
  lemma RowIsAllOrNothing(chunks: seq<Chunk>, i: nat, a: nat, b: nat)
    requires Sound(chunks) && i < |chunks| && Translatable(chunks[i])
    requires chunks[i].logical <= a < chunks[i].End() && chunks[i].logical <= b < chunks[i].End()
    requires chunks[i].stripeLen > 0
    requires (a - chunks[i].logical) / chunks[i].stripeLen == (b - chunks[i].logical) / chunks[i].stripeLen
    ensures Dangerous(chunks, a) <==> Dangerous(chunks, b)
  {
    var c := chunks[i];
    CopiesInChunk(chunks, i, a);
    CopiesInChunk(chunks, i, b);
    hide DeviceExtentsDisjoint, StripesFit, Place, MapMirror, ChunkFor, CopiesAt, SharesRow, WellFormed;
    forall mirror | 0 <= mirror < NumMirrors(c)
      ensures DangerousCopy(chunks, a, mirror) <==> DangerousCopy(chunks, b, mirror)
    {
      MapsOnSoundPool(chunks, i, a, mirror);
      MapsOnSoundPool(chunks, i, b, mirror);
      RowOfByte(c, a, mirror);
      RowOfByte(c, b, mirror);
      SameRowShares(MapMirror(c, a, mirror).value.physical, MapMirror(c, b, mirror).value.physical,
                    c.stripes[StripePlace(c, a, mirror).0].offset, c.stripeLen);
    }
    hide DangerousCopy;
  }

  lemma SameRowShares(p: nat, q: nat, offset: nat, row: nat)
    requires row > 0 && offset <= p && offset <= q && (p - offset) / row == (q - offset) / row
    ensures SharesRow(p, offset, row) <==> SharesRow(q, offset, row)
  {
  }

  lemma CopiesInChunk(chunks: seq<Chunk>, i: nat, at: nat)
    requires Ordered(chunks) && i < |chunks| && chunks[i].logical <= at < chunks[i].End()
    ensures ChunkFor(chunks, at) == Some(chunks[i]) && CopiesAt(chunks, at) == NumMirrors(chunks[i])
  {
    hide WellFormed, ChunkFor;
    ChunkForFindsTheChunk(chunks, at, chunks[i]);
  }

  /** The piece lies in chunk `i`, within one of its stripe rows. */
  ghost predicate OneRow(chunks: seq<Chunk>, i: nat, at: nat, len: nat)
    requires i < |chunks|
  {
    var c := chunks[i];
    && c.stripeLen > 0 && len > 0 && c.logical <= at && at + len <= c.End()
    && (at - c.logical) % c.stripeLen + len <= c.stripeLen
  }

  /** The rows of every stripe on the mapped byte's device, against every copy. */
  method TouchesAny(c: Chunk, m: Mapping, len: nat, ghost index: nat) returns (hit: bool)
    requires StripesOnGrid(c) && len > 0 && index < |c.stripes|
    requires c.stripes[index].devid == m.devid && c.stripes[index].offset <= m.physical
    requires (m.physical - c.stripes[index].offset) % c.stripeLen + len <= c.stripeLen
    ensures hit <==> SharesRow(m.physical, c.stripes[index].offset, c.stripeLen)
  {
    hide Touches, SameRow;
    var row := c.stripeLen;
    ghost var offset := c.stripes[index].offset;
    for s := 0 to |c.stripes|
      invariant s > index ==> forall k | 0 <= k < |SUPER_OFFSETS| :: !SameRow(m.physical, SUPER_OFFSETS[k], offset, row)
    {
      if c.stripes[s].devid == m.devid && c.stripes[s].offset <= m.physical {
        for k := 0 to |SUPER_OFFSETS|
          invariant forall j | 0 <= j < k :: !SameRow(m.physical, SUPER_OFFSETS[j], offset, row)
        {
          TouchesIsSameRow(c.stripes[s], offset, row, SUPER_OFFSETS[k], m, len);
          if Touches(c.stripes[s], row, SUPER_OFFSETS[k], m, len) {
            return true;
          }
        }
      }
    }
    return false;
  }

  /** Whether a piece of one stripe row shares a row with a superblock copy on any
      of its copies. */
  method OnSuperblockCopy(chunks: seq<Chunk>, at: nat, len: nat, ghost i: nat) returns (hit: bool)
    requires Sound(chunks) && OnGrid(chunks) && i < |chunks| && Translatable(chunks[i])
    requires OneRow(chunks, i, at, len)
    ensures hit <==> Dangerous(chunks, at)
  {
    CopiesInChunk(chunks, i, at);
    assert StripesOnGrid(chunks[i]);
    hide WellFormed, DeviceExtentsDisjoint, StripesFit, OnGrid, ChunkFor, MapMirror, Place, SharesRow, MapAt, Ordered, CopiesAt, DangerousCopy, StripesOnGrid;
    var c := ChunkFor(chunks, at).value;
    for mirror := 0 to NumMirrors(c)
      invariant forall n | 0 <= n < mirror :: !DangerousCopy(chunks, at, n)
    {
      ghost var index := CopyLies(chunks, i, at, mirror);
      var m := MapAt(chunks, at, mirror).value;
      var touches := TouchesAny(c, m, len, index);
      if touches {
        return true;
      }
    }
    return false;
  }

  /** The stripe a copy of the byte is on, and how far into its row it lies. */
  lemma CopyLies(chunks: seq<Chunk>, i: nat, at: nat, mirror: nat) returns (index: nat)
    requires Sound(chunks) && i < |chunks| && Translatable(chunks[i])
    requires chunks[i].logical <= at < chunks[i].End() && mirror < NumMirrors(chunks[i])
    ensures var c := chunks[i];
      && c.stripeLen > 0 && MapAt(chunks, at, mirror).Ok? && index < |c.stripes|
      && var m := MapAt(chunks, at, mirror).value;
         m.devid == c.stripes[index].devid && c.stripes[index].offset <= m.physical
         && (m.physical - c.stripes[index].offset) % c.stripeLen == (at - c.logical) % c.stripeLen
         && (DangerousCopy(chunks, at, mirror) <==> SharesRow(m.physical, c.stripes[index].offset, c.stripeLen))
  {
    var c := chunks[i];
    SizesPositive(c);
    hide DeviceExtentsDisjoint, StripesFit, ChunkFor, MapMirror, Place, MapAt, SharesRow;
    MapsOnSoundPool(chunks, i, at, mirror);
    RowOfByte(c, at, mirror);
    index := StripePlace(c, at, mirror).0;
    hide WellFormed;
  }

  /** A byte clear of the copies' rows is no byte of a copy, on any mirror. */
  lemma ClearOfTheCopies(chunks: seq<Chunk>, i: nat, b: nat, mirror: nat, k: nat)
    requires Sound(chunks) && i < |chunks| && Translatable(chunks[i]) && !Dangerous(chunks, b)
    requires chunks[i].logical <= b < chunks[i].End() && mirror < NumMirrors(chunks[i]) && k < |SUPER_OFFSETS|
    requires chunks[i].stripeLen % SUPERBLOCK_SIZE == 0
    requires forall s | 0 <= s < |chunks[i].stripes| :: chunks[i].stripes[s].offset % SUPERBLOCK_SIZE == 0
    ensures MapAt(chunks, b, mirror).Ok?
    ensures var p := MapAt(chunks, b, mirror).value.physical;
      p < SUPER_OFFSETS[k] || SUPER_OFFSETS[k] + SUPERBLOCK_SIZE <= p
  {
    CopiesInChunk(chunks, i, b);
    hide WellFormed, ChunkFor, CopiesAt, DeviceExtentsDisjoint, StripesFit, DangerousCopy, MapAt, SharesRow, Ordered;
    var index := CopyLies(chunks, i, b, mirror);
    assert !DangerousCopy(chunks, b, mirror);
    NoRowNoCopy(MapAt(chunks, b, mirror).value.physical, chunks[i].stripes[index].offset, chunks[i].stripeLen, k);
  }

  lemma NoRowNoCopy(p: nat, offset: nat, row: nat, k: nat)
    requires row > 0 && row % SUPERBLOCK_SIZE == 0 && offset % SUPERBLOCK_SIZE == 0 && offset <= p
    requires k < |SUPER_OFFSETS| && !SharesRow(p, offset, row)
    ensures p < SUPER_OFFSETS[k] || SUPER_OFFSETS[k] + SUPERBLOCK_SIZE <= p
  {
    hide SameRow;
    if SUPER_OFFSETS[k] <= p < SUPER_OFFSETS[k] + SUPERBLOCK_SIZE {
      CopyInOneRow(SUPER_OFFSETS[k], offset, row, p);
    }
  }

  ghost predicate RangeInChunk(chunks: seq<Chunk>, i: nat, at: nat, len: nat)
    requires i < |chunks|
  {
    chunks[i].logical <= at && at + len <= chunks[i].End()
  }

  /** The first stripe row of the range that shares a device row with a superblock
      copy: where it ends. Every byte of the range from that row's first to its
      last is dangerous, and none is before it. */
  method SuperblockRowIn(chunks: seq<Chunk>, at: nat, len: nat, ghost i: nat) returns (r: Option<nat>)
    requires Sound(chunks) && OnGrid(chunks) && i < |chunks| && Translatable(chunks[i]) && len > 0
    requires RangeInChunk(chunks, i, at, len)
    ensures r.None? <==> Clear(chunks, at, len)
    ensures r.Some? ==> at < r.value <= at + len && Dangerous(chunks, r.value - 1)
  {
    CopiesInChunk(chunks, i, at);
    SizesPositive(chunks[i]);
    hide Ordered, DeviceExtentsDisjoint, StripesFit, OnGrid, ChunkFor, Dangerous, Translatable;
    var c := ChunkFor(chunks, at).value;
    var row := c.stripeLen;
    var end := at + len;
    var pos := at;
    while pos < end
      invariant at <= pos <= end
      invariant Clear(chunks, at, pos - at)
    {
      var q := (pos - c.logical) / row;
      Euclid(pos - c.logical, row);
      var rowEnd := Min(c.logical + Times(q, row) + row, end);
      var hit := OnSuperblockCopy(chunks, pos, rowEnd - pos, i);
      forall b | pos <= b < rowEnd ensures Dangerous(chunks, b) <==> hit {
        RowAndRest(q, row, b - c.logical - Times(q, row));
        RowIsAllOrNothing(chunks, i, pos, b);
      }
      if hit {
        assert Dangerous(chunks, pos);
        return Some(rowEnd);
      }
      pos := rowEnd;
    }
    return None;
  }

  // ------------------------------------------------------------------- one run

  ghost predicate Good(chunks: seq<Chunk>, run: FreeExtent, at: nat, len: nat, sector: nat)
    requires Ordered(chunks) && sector > 0
  {
    at % sector == 0 && run.start <= at && at + len <= run.End() && Clear(chunks, at, len)
  }

  ghost predicate RunInChunk(chunks: seq<Chunk>, run: FreeExtent) {
    exists i | 0 <= i < |chunks| :: Translatable(chunks[i]) && chunks[i].logical <= run.start && run.End() <= chunks[i].End()
  }

  /** The first clear, aligned place for `len` bytes in a run, if the run has any:
      stepping past the row a copy is in never steps over one. */
  method PlaceIn(chunks: seq<Chunk>, run: FreeExtent, len: nat, sector: nat) returns (r: Option<nat>)
    requires Sound(chunks) && OnGrid(chunks) && sector > 0 && len > 0 && RunInChunk(chunks, run)
    ensures r.Some? ==> Good(chunks, run, r.value, len, sector)
    ensures r.Some? ==> forall a: nat | a < r.value :: !Good(chunks, run, a, len, sector)
    ensures r.None? ==> forall a: nat :: !Good(chunks, run, a, len, sector)
  {
    ghost var i :| 0 <= i < |chunks| && Translatable(chunks[i]) && chunks[i].logical <= run.start && run.End() <= chunks[i].End();
    hide Ordered, DeviceExtentsDisjoint, StripesFit, OnGrid, Dangerous, Translatable;
    var at := AlignUp(run.start, sector);
    forall a: nat | a < at ensures !Good(chunks, run, a, len, sector) {
      if Good(chunks, run, a, len, sector) { AlignUpLeast(run.start, sector, a); }
    }
    while at + len <= run.End()
      invariant at % sector == 0 && run.start <= at
      invariant forall a: nat | a < at :: !Good(chunks, run, a, len, sector)
      decreases run.End() - at
    {
      var row := SuperblockRowIn(chunks, at, len, i);
      if row.None? {
        return Some(at);
      }
      var next := AlignUp(row.value, sector);
      forall a: nat | at <= a < next ensures !Good(chunks, run, a, len, sector) {
        if a < row.value {
          assert a <= row.value - 1 < a + len;
        } else if a % sector == 0 {
          AlignUpLeast(row.value, sector, a);
        }
      }
      at := next;
    }
    return None;
  }

  // ------------------------------------------------------------------ many runs

  ghost predicate GoodIn(chunks: seq<Chunk>, runs: seq<FreeExtent>, at: nat, len: nat, sector: nat)
    requires Ordered(chunks) && sector > 0
  {
    exists j | 0 <= j < |runs| :: Good(chunks, runs[j], at, len, sector)
  }

  /** Run `j` with `len` bytes at `at` taken out of it. */
  function Taken(runs: seq<FreeExtent>, j: nat, at: nat, len: nat): seq<FreeExtent>
    requires j < |runs| && runs[j].start <= at && at + len <= runs[j].End()
  {
    runs[..j] + [FreeExtent(runs[j].start, at - runs[j].start), FreeExtent(at + len, runs[j].End() - (at + len))]
    + runs[j+1..]
  }

  lemma TakenBytes(runs: seq<FreeExtent>, j: nat, at: nat, len: nat)
    requires j < |runs| && runs[j].start <= at && at + len <= runs[j].End() && Ascending(runs)
    ensures forall b: nat :: In(Taken(runs, j, at, len), b) <==> In(runs, b) && !(at <= b < at + len)
    ensures forall b: nat | at <= b < at + len :: In(runs, b)
    ensures Ascending(Taken(runs, j, at, len))
  {
    var left := FreeExtent(runs[j].start, at - runs[j].start);
    var right := FreeExtent(at + len, runs[j].End() - (at + len));
    AroundBytes(runs, j);
    InConcat(runs[..j] + [left, right], runs[j+1..]);
    InConcat(runs[..j], [left, right]);
    assert [left, right] == [left] + [right] && [left] == [] + [left];
    InAppendAll([left], right);
    InAppendAll([], left);
    TakenAscending(runs, j, left, right);
  }

  lemma {:induction false} AroundBytes(runs: seq<FreeExtent>, j: nat)
    requires j < |runs| && Ascending(runs)
    ensures forall b: nat :: In(runs, b) <==>
      In(runs[..j], b) || runs[j].start <= b < runs[j].End() || In(runs[j+1..], b)
    ensures forall b: nat | runs[j].start <= b < runs[j].End() :: !In(runs[..j], b) && !In(runs[j+1..], b)
  {
    assert runs == (runs[..j] + [runs[j]]) + runs[j+1..];
    InConcat(runs[..j] + [runs[j]], runs[j+1..]);
    InAppendAll(runs[..j], runs[j]);
    forall b: nat | runs[j].start <= b < runs[j].End() ensures !In(runs[..j], b) && !In(runs[j+1..], b) {
      var earlier, later := runs[..j], runs[j+1..];
      assert forall i | 0 <= i < |earlier| :: earlier[i] == runs[i];
      forall i | 0 <= i < |later| ensures b < later[i].start {
        assert later[i] == runs[j+1+i];
      }
    }
  }

  lemma TakenAscending(runs: seq<FreeExtent>, j: nat, left: FreeExtent, right: FreeExtent)
    requires j < |runs| && Ascending(runs)
    requires left.start == runs[j].start && left.End() <= right.start && right.End() == runs[j].End()
    ensures Ascending(runs[..j] + [left, right] + runs[j+1..])
  {
  }

  ghost predicate RunsInChunks(chunks: seq<Chunk>, runs: seq<FreeExtent>) {
    forall j | 0 <= j < |runs| :: RunInChunk(chunks, runs[j])
  }

  /** Each run lies inside one of the original runs. */
  ghost predicate Within(runs: seq<FreeExtent>, original: seq<FreeExtent>) {
    forall j | 0 <= j < |runs| :: InsideOne(runs[j].start, runs[j].len, original)
  }

  ghost predicate InsideOne(start: nat, len: nat, original: seq<FreeExtent>) {
    exists k | 0 <= k < |original| :: original[k].start <= start && start + len <= original[k].End()
  }

  /** First fit: the lowest good place in any run, that run split around it. */
  method TakeFirst(chunks: seq<Chunk>, runs: seq<FreeExtent>, len: nat, sector: nat)
    returns (r: Option<nat>, left: seq<FreeExtent>)
    requires Sound(chunks) && OnGrid(chunks) && sector > 0 && len > 0
    requires Ascending(runs) && RunsInChunks(chunks, runs)
    ensures r.None? ==> left == runs && forall a: nat :: !GoodIn(chunks, runs, a, len, sector)
    ensures r.Some? ==> GoodIn(chunks, runs, r.value, len, sector)
    ensures r.Some? ==> forall a: nat | GoodIn(chunks, runs, a, len, sector) :: r.value <= a
    ensures r.Some? ==> exists j | 0 <= j < |runs| ::
      runs[j].start <= r.value && r.value + len <= runs[j].End() && left == Taken(runs, j, r.value, len)
  {
    hide Ordered, DeviceExtentsDisjoint, StripesFit, OnGrid, Clear, RunInChunk, Taken;
    for j := 0 to |runs|
      invariant forall k, a: nat | 0 <= k < j :: !Good(chunks, runs[k], a, len, sector)
    {
      var at := PlaceIn(chunks, runs[j], len, sector);
      if at.Some? {
        forall a: nat | GoodIn(chunks, runs, a, len, sector) ensures at.value <= a {
          var k :| 0 <= k < |runs| && Good(chunks, runs[k], a, len, sector);
          if k > j { assert runs[j].End() <= runs[k].start; }
        }
        return at, Taken(runs, j, at.value, len);
      }
    }
    return None, runs;
  }

  lemma TakenStaysInside(chunks: seq<Chunk>, runs: seq<FreeExtent>, j: nat, at: nat, len: nat, original: seq<FreeExtent>)
    requires j < |runs| && runs[j].start <= at && at + len <= runs[j].End()
    requires RunsInChunks(chunks, runs) && Within(runs, original)
    ensures RunsInChunks(chunks, Taken(runs, j, at, len)) && Within(Taken(runs, j, at, len), original)
    ensures InsideOne(at, len, original)
  {
    var taken := Taken(runs, j, at, len);
    var i :| 0 <= i < |chunks| && Translatable(chunks[i]) && chunks[i].logical <= runs[j].start && runs[j].End() <= chunks[i].End();
    var k :| 0 <= k < |original| && original[k].start <= runs[j].start && runs[j].start + runs[j].len <= original[k].End();
    forall n | 0 <= n < |taken| ensures RunInChunk(chunks, taken[n]) && InsideOne(taken[n].start, taken[n].len, original) {
      if n < j { assert taken[n] == runs[n]; }
      else if n > j + 1 { assert taken[n] == runs[n-1]; }
      else { assert chunks[i].logical <= taken[n].start && taken[n].End() <= chunks[i].End(); }
    }
  }

  function Sum(lens: seq<nat>): nat {
    if lens == [] then 0 else Sum(lens[..|lens|-1]) + lens[|lens|-1]
  }

  ghost predicate InChosen(at: seq<nat>, lens: seq<nat>, b: nat)
    requires |at| <= |lens|
  {
    exists k | 0 <= k < |at| :: at[k] <= b < at[k] + lens[k]
  }

  ghost predicate ChosenApart(at: seq<nat>, lens: seq<nat>)
    requires |at| <= |lens|
  {
    forall j, k | 0 <= j < k < |at| :: at[j] + lens[j] <= at[k] || at[k] + lens[k] <= at[j]
  }

  ghost predicate WholeSectors(lens: seq<nat>, sector: nat)
    requires sector > 0
  {
    forall k | 0 <= k < |lens| :: lens[k] > 0 && lens[k] % sector == 0
  }

  /** One aligned run, clear throughout: what a new chunk starts as. */
  ghost predicate OneClearRun(chunks: seq<Chunk>, runs: seq<FreeExtent>, sector: nat)
    requires Ordered(chunks) && sector > 0
  {
    |runs| == 1 && runs[0].start % sector == 0 && Clear(chunks, runs[0].start, runs[0].len)
  }

  /** The free bytes are the ones left and the ones chosen, and none is both. */
  ghost predicate Conserved(free: seq<FreeExtent>, left: seq<FreeExtent>, chosen: seq<nat>, lens: seq<nat>)
    requires |chosen| <= |lens|
  {
    && (forall b: nat :: In(free, b) <==> In(left, b) || InChosen(chosen, lens, b))
    && (forall b: nat :: !(In(left, b) && InChosen(chosen, lens, b)))
  }

  /** Each choice is aligned, inside a run that was free, and clear of the
      superblock rows on every copy across its whole length. */
  ghost predicate WellChosen(chunks: seq<Chunk>, free: seq<FreeExtent>, chosen: seq<nat>, lens: seq<nat>, sector: nat)
    requires Ordered(chunks) && sector > 0 && |chosen| <= |lens|
  {
    forall k | 0 <= k < |chosen| ::
      chosen[k] % sector == 0 && InsideOne(chosen[k], lens[k], free) && Clear(chunks, chosen[k], lens[k])
  }

  /** What the allocator keeps after each choice. */
  ghost predicate Placed(chunks: seq<Chunk>, free: seq<FreeExtent>, left: seq<FreeExtent>,
                         chosen: seq<nat>, lens: seq<nat>, sector: nat)
    requires Ordered(chunks) && sector > 0 && |chosen| <= |lens|
  {
    && Ascending(left) && RunsInChunks(chunks, left) && Within(left, free)
    && WholeSectors(lens[..|chosen|], sector)
    && WellChosen(chunks, free, chosen, lens, sector)
    && ChosenApart(chosen, lens) && Conserved(free, left, chosen, lens)
  }

  lemma PlacedOneMore(chunks: seq<Chunk>, free: seq<FreeExtent>, left: seq<FreeExtent>,
                      chosen: seq<nat>, lens: seq<nat>, sector: nat, j: nat, at: nat)
    requires Ordered(chunks) && sector > 0 && |chosen| < |lens|
    requires Placed(chunks, free, left, chosen, lens, sector)
    requires var len := lens[|chosen|];
      && len > 0 && len % sector == 0 && GoodIn(chunks, left, at, len, sector)
      && j < |left| && left[j].start <= at && at + len <= left[j].End()
    ensures Placed(chunks, free, Taken(left, j, at, lens[|chosen|]), chosen + [at], lens, sector)
  {
    var len := lens[|chosen|];
    GoodPlaceIsClear(chunks, left, at, len, sector);
    hide Ordered, Clear, In, InChosen, Good, Taken, ChosenApart, Ascending;
    TakenBytes(left, j, at, len);
    TakenStaysInside(chunks, left, j, at, len, free);
    hide InsideOne, RunsInChunks, Within;
    assert forall k | 0 <= k < |chosen| :: lens[..|chosen|][k] == lens[k];
    ChosenOneMore(chosen, lens, at, left);
    assert lens[..|chosen|+1] == lens[..|chosen|] + [len];
  }

  /** Room for an extent of each length: the free bytes are conserved between what
      is chosen and what is left, and a length is refused only when no clear
      aligned place for it is left. A run clear throughout is packed from its
      start, so lengths that add up to no more than it always fit. */
  method FindExtentsIn(chunks: seq<Chunk>, free: seq<FreeExtent>, lens: seq<nat>, sector: nat)
    returns (r: Result<seq<nat>, AllocError>, chosen: seq<nat>, left: seq<FreeExtent>)
    requires Sound(chunks) && OnGrid(chunks) && sector > 0
    requires Ascending(free) && RunsInChunks(chunks, free)
    ensures |chosen| <= |lens| && (r.Ok? ==> r.value == chosen && |chosen| == |lens|)
    ensures WellChosen(chunks, free, chosen, lens, sector)
    ensures ChosenApart(chosen, lens) && Conserved(free, left, chosen, lens)
    ensures r.Err? ==> |chosen| < |lens|
    ensures r.Err? ==> r.error == (if WholeSectors([lens[|chosen|]], sector) then NoRoom(lens[|chosen|]) else NotWholeSectors(lens[|chosen|]))
    ensures r.Err? && r.error.NoRoom? ==> forall a: nat :: !GoodIn(chunks, left, a, lens[|chosen|], sector)
    ensures OneClearRun(chunks, free, sector) && WholeSectors(lens, sector) && Sum(lens) <= free[0].len ==>
      r.Ok? && forall k | 0 <= k < |lens| :: chosen[k] == free[0].start + Sum(lens[..k])
  {
    hide DeviceExtentsDisjoint, StripesFit, OnGrid, Ordered, Placed, Packed, GoodIn, Clear, WholeSectors, WellChosen, ChosenApart, Conserved, Ascending, RunsInChunks, Sum;
    chosen, left := [], free;
    PlacedNone(chunks, free, lens, sector);
    ghost var packs := OneClearRun(chunks, free, sector) && WholeSectors(lens, sector) && Sum(lens) <= free[0].len;
    if packs { PackedNone(chunks, free, lens, sector); }
    for n := 0 to |lens|
      invariant |chosen| == n && Placed(chunks, free, left, chosen, lens, sector)
      invariant packs ==> Packed(free[0], left, chosen, lens)
    {
      var len := lens[n];
      PlacedMeans(chunks, free, left, chosen, lens, sector);
      WholeAt(lens, sector, n);
      if len == 0 || len % sector != 0 {
        return Err(NotWholeSectors(len)), chosen, left;
      }
      var at, rest := TakeFirst(chunks, left, len, sector);
      if packs { NextIsPacked(chunks, free, left, chosen, lens, sector); }
      if at.None? {
        return Err(NoRoom(len)), chosen, left;
      }
      ghost var j :| 0 <= j < |left| && left[j].start <= at.value && at.value + len <= left[j].End() && rest == Taken(left, j, at.value, len);
      PlacedOneMore(chunks, free, left, chosen, lens, sector, j, at.value);
      if packs { PackedOneMore(free[0], left, chosen, lens, j, at.value); }
      left := rest;
      chosen := chosen + [at.value];
    }
    PlacedMeans(chunks, free, left, chosen, lens, sector);
    if packs { PackedMeans(free[0], left, chosen, lens); }
    r := Ok(chosen);
  }

  lemma WholeAt(lens: seq<nat>, sector: nat, n: nat)
    requires sector > 0 && n < |lens|
    ensures WholeSectors([lens[n]], sector) <==> lens[n] > 0 && lens[n] % sector == 0
    ensures WholeSectors(lens, sector) ==> WholeSectors([lens[n]], sector)
  {
    assert [lens[n]][0] == lens[n];
  }

  lemma PlacedNone(chunks: seq<Chunk>, free: seq<FreeExtent>, lens: seq<nat>, sector: nat)
    requires Ordered(chunks) && sector > 0 && Ascending(free) && RunsInChunks(chunks, free)
    ensures Placed(chunks, free, free, [], lens, sector)
  {
    NothingChosen(lens);
  }

  lemma PlacedMeans(chunks: seq<Chunk>, free: seq<FreeExtent>, left: seq<FreeExtent>,
                    chosen: seq<nat>, lens: seq<nat>, sector: nat)
    requires Ordered(chunks) && sector > 0 && |chosen| <= |lens|
    requires Placed(chunks, free, left, chosen, lens, sector)
    ensures Ascending(left) && RunsInChunks(chunks, left)
    ensures WellChosen(chunks, free, chosen, lens, sector)
    ensures ChosenApart(chosen, lens) && Conserved(free, left, chosen, lens)
  {
  }

  lemma NothingChosen(lens: seq<nat>)
    ensures forall b: nat :: !InChosen([], lens, b)
  {
  }

  lemma GoodPlaceIsClear(chunks: seq<Chunk>, runs: seq<FreeExtent>, at: nat, len: nat, sector: nat)
    requires Ordered(chunks) && sector > 0 && GoodIn(chunks, runs, at, len, sector)
    ensures at % sector == 0 && Clear(chunks, at, len)
  {
  }

  lemma ChosenOneMore(chosen: seq<nat>, lens: seq<nat>, at: nat, left: seq<FreeExtent>)
    requires |chosen| < |lens| && ChosenApart(chosen, lens)
    requires forall k | 0 <= k < |chosen| :: lens[k] > 0
    requires lens[|chosen|] > 0
    requires forall b: nat | at <= b < at + lens[|chosen|] :: In(left, b)
    requires forall b: nat :: !(In(left, b) && InChosen(chosen, lens, b))
    ensures forall b: nat :: InChosen(chosen + [at], lens, b) <==>
      InChosen(chosen, lens, b) || at <= b < at + lens[|chosen|]
    ensures ChosenApart(chosen + [at], lens)
  {
    hide In;
    var more, n := chosen + [at], |chosen|;
    forall b: nat ensures InChosen(more, lens, b) <==> InChosen(chosen, lens, b) || at <= b < at + lens[n] {
      if InChosen(chosen, lens, b) {
        var k :| 0 <= k < n && chosen[k] <= b < chosen[k] + lens[k];
        assert more[k] == chosen[k];
      }
      if at <= b < at + lens[n] { assert more[n] == at; }
    }
    forall k | 0 <= k < n ensures chosen[k] + lens[k] <= at || at + lens[n] <= chosen[k] {
      var b := Max(at, chosen[k]);
      assert chosen[k] <= b < chosen[k] + lens[k] ==> InChosen(chosen, lens, b);
    }
  }

  /** The free bytes `[from, end)` are all in the last run, the others empty. */
  ghost predicate LastRunIsRest(left: seq<FreeExtent>, from: nat, end: nat) {
    && |left| > 0 && left[|left|-1].start == from && left[|left|-1].End() == end
    && (forall j | 0 <= j < |left| - 1 :: left[j].len == 0 && left[j].start <= from)
  }

  lemma {:induction false} SumPrefix(lens: seq<nat>, n: nat)
    requires n <= |lens|
    ensures Sum(lens[..n]) <= Sum(lens)
    decreases |lens|
  {
    if n < |lens| {
      SumPrefix(lens[..|lens|-1], n);
      assert lens[..|lens|-1][..n] == lens[..n];
    } else {
      assert lens[..n] == lens;
    }
  }

  lemma {:induction false} SumWhole(lens: seq<nat>, sector: nat)
    requires sector > 0 && WholeSectors(lens, sector)
    ensures Sum(lens) % sector == 0
  {
    if lens != [] {
      SumWhole(lens[..|lens|-1], sector);
      ModSum(Sum(lens[..|lens|-1]), lens[|lens|-1], sector);
    }
  }

  /** Every extent so far follows the one before it from the run's start, and the
      free bytes left are the rest of the run. */
  ghost predicate Packed(whole: FreeExtent, left: seq<FreeExtent>, chosen: seq<nat>, lens: seq<nat>)
    requires |chosen| <= |lens|
  {
    && (forall k | 0 <= k < |chosen| :: chosen[k] == whole.start + Sum(lens[..k]))
    && LastRunIsRest(left, whole.start + Sum(lens[..|chosen|]), whole.End())
  }

  lemma PackedNone(chunks: seq<Chunk>, free: seq<FreeExtent>, lens: seq<nat>, sector: nat)
    requires Ordered(chunks) && sector > 0 && OneClearRun(chunks, free, sector)
    ensures |free| == 1 && Packed(free[0], free, [], lens)
  {
  }

  lemma PackedMeans(whole: FreeExtent, left: seq<FreeExtent>, chosen: seq<nat>, lens: seq<nat>)
    requires |chosen| <= |lens| && Packed(whole, left, chosen, lens)
    ensures forall k | 0 <= k < |chosen| :: chosen[k] == whole.start + Sum(lens[..k])
  {
  }

  /** In a packed run the next extent's place is good, and no lower one is. */
  lemma NextIsPacked(chunks: seq<Chunk>, free: seq<FreeExtent>, left: seq<FreeExtent>,
                     chosen: seq<nat>, lens: seq<nat>, sector: nat)
    requires Ordered(chunks) && sector > 0 && OneClearRun(chunks, free, sector)
    requires WholeSectors(lens, sector) && |chosen| < |lens| && Sum(lens) <= free[0].len
    requires Packed(free[0], left, chosen, lens)
    ensures var n, at := |chosen|, free[0].start + Sum(lens[..|chosen|]);
      && GoodIn(chunks, left, at, lens[n], sector)
      && forall a: nat | GoodIn(chunks, left, a, lens[n], sector) :: at <= a
  {
    hide Ordered, Dangerous;
    var n, whole := |chosen|, free[0];
    var at := whole.start + Sum(lens[..n]);
    SumPrefix(lens, n + 1);
    assert lens[..n+1][..n] == lens[..n];
    assert Sum(lens[..n+1]) == Sum(lens[..n]) + lens[n];
    SumWhole(lens[..n], sector);
    ModSum(whole.start, Sum(lens[..n]), sector);
    hide Sum, WholeSectors;
    GoodAtRest(chunks, left, whole, at, lens[n], sector);
    hide LastRunIsRest, Clear, Good, Packed;
    forall a: nat | GoodIn(chunks, left, a, lens[n], sector) ensures at <= a {
      var j :| 0 <= j < |left| && Good(chunks, left[j], a, lens[n], sector);
      OnlyTheLast(chunks, left, j, a, lens[n], sector, at, whole.End());
    }
  }

  lemma GoodAtRest(chunks: seq<Chunk>, left: seq<FreeExtent>, whole: FreeExtent, at: nat, len: nat, sector: nat)
    requires Ordered(chunks) && sector > 0 && LastRunIsRest(left, at, whole.End())
    requires at % sector == 0 && whole.start <= at && at + len <= whole.End() && Clear(chunks, whole.start, whole.len)
    ensures GoodIn(chunks, left, at, len, sector)
  {
    hide Ordered, Dangerous;
    assert Good(chunks, left[|left|-1], at, len, sector);
  }

  lemma OnlyTheLast(chunks: seq<Chunk>, left: seq<FreeExtent>, j: nat, at: nat, len: nat, sector: nat, from: nat, end: nat)
    requires Ordered(chunks) && sector > 0 && len > 0 && LastRunIsRest(left, from, end)
    requires j < |left| && Good(chunks, left[j], at, len, sector)
    ensures j == |left| - 1 && from <= at
  {
    hide Ordered, Clear;
  }

  lemma PackedOneMore(whole: FreeExtent, left: seq<FreeExtent>, chosen: seq<nat>, lens: seq<nat>, j: nat, at: nat)
    requires |chosen| < |lens| && Packed(whole, left, chosen, lens) && lens[|chosen|] > 0
    requires at == whole.start + Sum(lens[..|chosen|])
    requires j < |left| && left[j].start <= at && at + lens[|chosen|] <= left[j].End()
    ensures Packed(whole, Taken(left, j, at, lens[|chosen|]), chosen + [at], lens)
  {
    assert lens[..|chosen|+1][..|chosen|] == lens[..|chosen|];
  }
}
