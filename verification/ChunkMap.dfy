/** Address translation (src/chunk.rs, src/raid56.rs): where each copy of a logical
    byte lies, and the ordered map of chunks it is looked up in. */
module ChunkMap {
  import opened Base

  datatype Profile = Single | Dup | Raid1 | Raid1c3 | Raid1c4 | Raid0 | Raid10 | Raid5 | Raid6

  datatype Stripe = Stripe(devid: nat, offset: nat)

  datatype Chunk = Chunk(
    logical: nat, length: nat, stripeLen: nat, profile: Profile, subStripes: nat, stripes: seq<Stripe>)
  {
    function End(): nat { logical + length }
  }

  datatype Mapping = Mapping(devid: nat, physical: nat, len: nat)

  datatype MapError = UnmappedLogical(at: nat) | UnsupportedProfile | BadChunkItem

  const MAX_STRIPES: nat := 256

  /** The structural checks a chunk passes before it enters a map. That its stripe
      length is a power of two is checked as well, and nothing here rests on it. */
  ghost predicate WellFormed(c: Chunk) {
    var n := |c.stripes|;
    && c.length > 0
    && c.stripeLen > 0
    && c.logical + c.length < U64_SPAN
    && n > 0
    && match c.profile
       case Single => n == 1
       case Dup => n == 2
       case Raid1 => n == 2
       case Raid1c3 => n == 3
       case Raid1c4 => n == 4
       case Raid0 => n >= 2
       case Raid5 => n >= 2
       case Raid6 => n >= 3
       case Raid10 => c.subStripes == 2 && n >= 2 && n % 2 == 0
  }

  function NumMirrors(c: Chunk): nat {
    match c.profile
    case Dup => 2
    case Raid1 => 2
    case Raid1c3 => 3
    case Raid1c4 => 4
    case Raid10 => c.subStripes
    case _ => 1
  }

  function ParityCount(p: Profile): nat {
    match p
    case Raid5 => 1
    case Raid6 => 2
    case _ => 0
  }

  predicate Striped(p: Profile) { p == Raid0 || p == Raid10 }

  /** How many different stripes consecutive rows of a chunk are dealt across. */
  function Columns(c: Chunk): (k: nat)
    requires WellFormed(c)
    ensures 0 < k <= |c.stripes|
  {
    match c.profile
    case Raid0 => |c.stripes|
    case Raid10 => |c.stripes| / c.subStripes
    case Raid5 => |c.stripes| - 1
    case Raid6 => |c.stripes| - 2
    case _ => 1
  }

  /** Which stripe holds column `column` of the full row `full`, in copy `mirror`.
      Parity rotates one stripe further with each full row. */
  function Lane(c: Chunk, column: nat, full: nat, mirror: nat): nat
    requires WellFormed(c)
  {
    match c.profile
    case Single => 0
    case Raid0 => column
    case Raid10 => column * 2 + mirror
    case Raid5 => (column + full % |c.stripes|) % |c.stripes|
    case Raid6 => (column + full % |c.stripes|) % |c.stripes|
    case _ => mirror
  }

  /** Which stripe row `row` of the chunk's copy `mirror` is on, and how many of
      that stripe's own rows come before it. */
  function Place(c: Chunk, row: nat, mirror: nat): (nat, nat)
    requires WellFormed(c)
  {
    var k := Columns(c);
    (Lane(c, row % k, row / k, mirror), row / k)
  }

  /** Translate `logical` using copy `mirror`: the same refusals, in the same order. */
  function MapMirror(c: Chunk, logical: nat, mirror: nat): Result<Mapping, MapError>
    requires WellFormed(c)
  {
    if logical < c.logical || logical >= c.End() then Err(UnmappedLogical(logical))
    else if ParityCount(c.profile) > 0 && mirror > 0 then Err(UnsupportedProfile)
    else if mirror >= NumMirrors(c) then Err(BadChunkItem)
    else if ParityCount(c.profile) > 0 && |c.stripes| > MAX_STRIPES then Err(BadChunkItem)
    else
      var offset := logical - c.logical;
      Euclid(offset, c.stripeLen);
      var within := offset % c.stripeLen;
      var (index, row) := Place(c, offset / c.stripeLen, mirror);
      if index >= |c.stripes| then Err(BadChunkItem)
      else
        var stripe := c.stripes[index];
        var physical := stripe.offset + Times(row, c.stripeLen) + within;
        if physical >= U64_SPAN then Err(BadChunkItem)
        else
          var toEnd := c.End() - logical;
          var len := if Striped(c.profile) || ParityCount(c.profile) > 0
                     then Min(c.stripeLen - within, toEnd) else toEnd;
          Ok(Mapping(stripe.devid, physical, len))
  }

  /** The stripe a mapped byte is in and how far into that stripe it lies. */
  function StripePlace(c: Chunk, logical: nat, mirror: nat): (nat, nat)
    requires WellFormed(c) && c.logical <= logical
  {
    var offset := logical - c.logical;
    var (index, row) := Place(c, offset / c.stripeLen, mirror);
    (index, Times(row, c.stripeLen) + offset % c.stripeLen)
  }

  lemma StripePlaceIsWhereItMaps(c: Chunk, logical: nat, mirror: nat)
    requires WellFormed(c) && MapMirror(c, logical, mirror).Ok?
    ensures var (index, into) := StripePlace(c, logical, mirror);
      var m := MapMirror(c, logical, mirror).value;
      index < |c.stripes| && m.devid == c.stripes[index].devid && m.physical == c.stripes[index].offset + into
  {
  }

  lemma Rotated(n: nat, a: nat, rot: nat)
    requires a < n && rot < n
    ensures (a + rot) % n == if a + rot < n then a + rot else a + rot - n
  {
    if a + rot >= n { DivUnique(a + rot, n, 1, a + rot - n); }
  }

  /** Different columns and copies of one full row are on different stripes. */
  lemma LaneDistinct(c: Chunk, i: nat, m: nat, j: nat, l: nat, full: nat)
    requires WellFormed(c) && m < NumMirrors(c) && l < NumMirrors(c)
    requires i < Columns(c) && j < Columns(c)
    ensures Lane(c, i, full, m) < |c.stripes|
    ensures Lane(c, i, full, m) == Lane(c, j, full, l) ==> i == j && m == l
  {
    if c.profile == Raid5 || c.profile == Raid6 {
      Rotated(|c.stripes|, i, full % |c.stripes|);
      Rotated(|c.stripes|, j, full % |c.stripes|);
    }
  }

  /** No two (row, copy) pairs of a chunk share a row of a stripe. */
  lemma PlaceDistinct(c: Chunk, r1: nat, m1: nat, r2: nat, m2: nat)
    requires WellFormed(c) && m1 < NumMirrors(c) && m2 < NumMirrors(c)
    requires Place(c, r1, m1) == Place(c, r2, m2)
    ensures r1 == r2 && m1 == m2
  {
    hide WellFormed, Columns, Lane, NumMirrors;
    var k := Columns(c);
    Euclid(r1, k);
    Euclid(r2, k);
    LaneDistinct(c, r1 % k, m1, r2 % k, m2, r1 / k);
  }

  /** No two (byte, copy) pairs of a chunk share a place on its stripes. */
  lemma MappingIsInjective(c: Chunk, l1: nat, m1: nat, l2: nat, m2: nat)
    requires WellFormed(c) && MapMirror(c, l1, m1).Ok? && MapMirror(c, l2, m2).Ok?
    requires StripePlace(c, l1, m1) == StripePlace(c, l2, m2)
    ensures l1 == l2 && m1 == m2
  {
    hide Columns, Lane, Place;
    var s := c.stripeLen;
    var o1, o2 := l1 - c.logical, l2 - c.logical;
    Euclid(o1, s);
    Euclid(o2, s);
    RowAndRest(Place(c, o1 / s, m1).1, s, o1 % s);
    RowAndRest(Place(c, o2 / s, m2).1, s, o2 % s);
    PlaceDistinct(c, o1 / s, m1, o2 / s, m2);
  }

  /** Every byte of a returned run maps to the next device byte, with a run one
      shorter, so a run may be read or written whole. */
  lemma RunIsContiguous(c: Chunk, logical: nat, mirror: nat, k: nat)
    requires WellFormed(c) && MapMirror(c, logical, mirror).Ok?
    requires var m := MapMirror(c, logical, mirror).value;
      k < m.len && m.physical + k < U64_SPAN
    ensures var m := MapMirror(c, logical, mirror).value;
      MapMirror(c, logical + k, mirror) == Ok(Mapping(m.devid, m.physical + k, m.len - k))
  {
    hide WellFormed;
    var s, o := c.stripeLen, logical - c.logical;
    SizesPositive(c);
    Euclid(o, s);
    if Striped(c.profile) || ParityCount(c.profile) > 0 {
      hide Lane, Place, Columns;
      RowAndRest(o / s, s, o % s + k);
    } else {
      Euclid(o + k, s);
      OneColumn(c, o / s, mirror);
      OneColumn(c, (o + k) / s, mirror);
    }
  }

  lemma SizesPositive(c: Chunk)
    requires WellFormed(c)
    ensures c.stripeLen > 0 && c.length > 0 && c.End() < U64_SPAN
  {
  }

  lemma OneColumn(c: Chunk, row: nat, mirror: nat)
    requires WellFormed(c) && !Striped(c.profile) && ParityCount(c.profile) == 0
    ensures Columns(c) == 1 && Place(c, row, mirror) == (if c.profile == Single then 0 else mirror, row)
  {
    DivUnique(row, 1, row, 0);
  }

  lemma RunIsNonEmpty(c: Chunk, logical: nat, mirror: nat)
    requires WellFormed(c) && MapMirror(c, logical, mirror).Ok?
    ensures 0 < MapMirror(c, logical, mirror).value.len <= c.End() - logical
  {
    hide Lane, Place, Columns;
  }

  // ---------------------------------------------- the device extent of a stripe

  /** How long each stripe's device extent is, as the checker expects it
      (src/check.rs). */
  function PerStripe(c: Chunk): nat
    requires WellFormed(c)
  {
    if Striped(c.profile) then c.length / Columns(c) else c.length
  }

  /** The bytes of one row across every column. */
  function Across(c: Chunk): (t: nat)
    requires WellFormed(c)
    ensures t > 0
  {
    TimesMonotonic(1, Columns(c), c.stripeLen);
    Times(Columns(c), c.stripeLen)
  }

  predicate WholeRows(c: Chunk)
    requires WellFormed(c)
  {
    Striped(c.profile) && Columns(c) > 1 ==> c.length % Across(c) == 0
  }

  lemma StripePlaceRow(c: Chunk, q: nat, within: nat, mirror: nat)
    requires WellFormed(c) && within < c.stripeLen
    ensures StripePlace(c, c.logical + Times(q, c.stripeLen) + within, mirror).1
         == Times(q / Columns(c), c.stripeLen) + within
  {
    hide Lane, Columns, WellFormed, Times;
    RowAndRest(q, c.stripeLen, within);
  }

  /** In whole rows: `rows` of them across `k` columns of `s` bytes. */
  lemma RowsContain(rows: nat, k: nat, s: nat, q: nat, within: nat)
    requires k > 0 && within < s
    requires Times(q, s) + within < Times(rows, Times(k, s))
    ensures Times(q / k, s) + s <= Times(rows, s) == Times(rows, Times(k, s)) / k
  {
    hide Times;
    TimesAssociates(rows, k, s);
    if q >= Times(rows, k) { TimesMonotonic(Times(rows, k), q, s); }
    Euclid(q, k);
    if q / k >= rows { TimesMonotonic(rows, q / k, k); }
    TimesMonotonic(q / k + 1, rows, s);
    TimesNext(q / k, s);
    ShareOfRows(rows, k, s, 0);
  }

  /** An equal share, among `k`, of whole rows and a remainder. */
  lemma ShareOfRows(rows: nat, k: nat, s: nat, rem: nat)
    requires k > 0
    ensures (Times(rows, Times(k, s)) + rem) / k == Times(rows, s) + rem / k
  {
    hide Times;
    TimesCommutes(k, s);
    TimesAssociates(rows, s, k);
    Euclid(rem, k);
    TimesSum(Times(rows, s), rem / k, k);
    RowAndRest(Times(rows, s) + rem / k, k, rem % k);
  }

  lemma WholeRowsContain(c: Chunk, logical: nat, mirror: nat)
    requires WellFormed(c) && WholeRows(c) && MapMirror(c, logical, mirror).Ok?
    ensures StripePlace(c, logical, mirror).1 + MapMirror(c, logical, mirror).value.len <= PerStripe(c)
  {
    var s, o, k := c.stripeLen, logical - c.logical, Columns(c);
    if Striped(c.profile) && k > 1 {
      hide Columns, WellFormed, Lane, Times;
      Euclid(o, s);
      Euclid(c.length, Across(c));
      RowsContain(c.length / Across(c), k, s, o / s, o % s);
    } else {
      OneColumnContains(c, logical, mirror);
    }
  }

  /** Unstriped, a byte lies no further into its stripe than into the chunk. */
  lemma OneColumnContains(c: Chunk, logical: nat, mirror: nat)
    requires WellFormed(c) && MapMirror(c, logical, mirror).Ok?
    requires !Striped(c.profile) || Columns(c) == 1
    ensures StripePlace(c, logical, mirror).1 <= logical - c.logical
    ensures PerStripe(c) == c.length
  {
    hide Lane, Times, WellFormed, Columns;
    var s, o, k := c.stripeLen, logical - c.logical, Columns(c);
    SizesPositive(c);
    Euclid(o, s);
    Euclid(o / s, k);
    TimesAtLeast(o / s / k, k);
    TimesMonotonic(o / s / k, o / s, s);
    if k == 1 { DivUnique(c.length, 1, c.length, 0); }
  }

  lemma TimesAtLeast(q: nat, k: nat)
    requires k > 0
    ensures q <= Times(q, k)
  {
  }

  /** With a ragged end, the first column runs past the share every stripe gets. */
  lemma RaggedEnd(rows: nat, k: nat, s: nat, rem: nat)
    requires k > 1 && s > 0 && 0 < rem < Times(k, s)
    ensures (Times(rows, Times(k, s)) + rem) / k < Times(rows, s) + Min(rem, s)
    ensures Times(rows, Times(k, s)) == Times(Times(rows, k), s)
  {
    hide Times;
    TimesAssociates(rows, k, s);
    ShareOfRows(rows, k, s, rem);
    var share := rem / k;
    Euclid(rem, k);
    TimesCommutes(k, s);
    if share >= s { TimesMonotonic(s, share, k); }
    TimesMonotonic(2, k, share);
    TimesCommutes(k, share);
    assert Times(2, share) == 2 * share by { TimesNext(1, share); TimesOne(share); TimesCommutes(share, 1); }
  }

  /** The last byte the ragged rows put on the first stripe. */
  function LastRagged(c: Chunk): nat
    requires WellFormed(c) && !WholeRows(c)
  {
    c.logical + Times(c.length / Across(c), Across(c)) + Min(c.length % Across(c), c.stripeLen) - 1
  }

  lemma RaggedRowsEscape(c: Chunk)
    requires WellFormed(c) && !WholeRows(c)
    ensures c.logical <= LastRagged(c) < c.End()
    ensures StripePlace(c, LastRagged(c), 0).1 >= PerStripe(c)
  {
    var s, k := c.stripeLen, Columns(c);
    SizesPositive(c);
    hide WellFormed, Columns, Lane;
    var rows, rem := c.length / Across(c), c.length % Across(c);
    Euclid(c.length, Across(c));
    RaggedEnd(rows, k, s, rem);
    StripePlaceRow(c, Times(rows, k), Min(rem, s) - 1, 0);
    RowAndRest(rows, k, 0);
  }

  /** A striped chunk stays inside its device extents exactly when its length is
      a whole number of rows across all of its columns, or it has one column. */
  lemma StripesContainedIffWholeRows(c: Chunk)
    requires WellFormed(c)
    requires forall s | s in c.stripes :: s.offset + c.length < U64_SPAN
    ensures WholeRows(c) <==>
      forall l: nat, m: nat | MapMirror(c, l, m).Ok? ::
        StripePlace(c, l, m).1 + MapMirror(c, l, m).value.len <= PerStripe(c)
  {
    hide Place, PerStripe;
    if WholeRows(c) {
      forall l: nat, m: nat | MapMirror(c, l, m).Ok?
        ensures StripePlace(c, l, m).1 + MapMirror(c, l, m).value.len <= PerStripe(c)
      {
        WholeRowsContain(c, l, m);
      }
    } else {
      RaggedRowsEscape(c);
      MapsUnlessOverflow(c, LastRagged(c), 0);
      RunIsNonEmpty(c, LastRagged(c), 0);
    }
  }

  lemma MapsUnlessOverflow(c: Chunk, logical: nat, mirror: nat)
    requires WellFormed(c) && c.logical <= logical < c.End() && mirror < NumMirrors(c)
    requires ParityCount(c.profile) == 0 || |c.stripes| <= MAX_STRIPES
    requires forall s | s in c.stripes :: s.offset + c.length < U64_SPAN
    ensures MapMirror(c, logical, mirror).Ok?
  {
    var s, o, k := c.stripeLen, logical - c.logical, Columns(c);
    SizesPositive(c);
    hide WellFormed, Columns, Lane;
    Euclid(o, s);
    var q := o / s;
    Euclid(q, k);
    LaneDistinct(c, q % k, mirror, q % k, mirror, q / k);
    TimesAtLeast(q / k, k);
    TimesMonotonic(q / k, q, s);
    assert c.stripes[Place(c, q, mirror).0] in c.stripes;
  }

  // ------------------------------------------------------------- the chunk map

  /** Chunks ordered by logical address, no two overlapping. */
  ghost predicate Ordered(chunks: seq<Chunk>) {
    && (forall i | 0 <= i < |chunks| :: WellFormed(chunks[i]))
    && (forall i, j | 0 <= i < j < |chunks| :: chunks[i].End() <= chunks[j].logical)
  }

  predicate StartsBefore(c: Chunk, at: nat, inclusive: bool) {
    c.logical < at || (inclusive && c.logical == at)
  }

  /** How many chunks, from the front, start before `at`, or at it too when `inclusive`:
      the bisection of `slice::partition_point`. */
  function PartitionPoint(chunks: seq<Chunk>, at: nat, inclusive: bool, lo: nat, hi: nat): (r: nat)
    requires lo <= hi <= |chunks|
    ensures lo <= r <= hi
    decreases hi - lo
  {
    if lo == hi then lo else
      var mid := (lo + hi) / 2;
      if StartsBefore(chunks[mid], at, inclusive)
      then PartitionPoint(chunks, at, inclusive, mid + 1, hi)
      else PartitionPoint(chunks, at, inclusive, lo, mid)
  }

  lemma SizesOf(chunks: seq<Chunk>)
    requires Ordered(chunks)
    ensures forall i | 0 <= i < |chunks| :: chunks[i].logical < chunks[i].End()
  {
  }

  lemma AscendAround(chunks: seq<Chunk>, mid: nat)
    requires Ordered(chunks) && mid < |chunks|
    ensures forall i | 0 <= i < mid :: chunks[i].logical < chunks[mid].logical
    ensures forall i | mid < i < |chunks| :: chunks[mid].logical < chunks[i].logical
  {
    SizesOf(chunks);
    hide WellFormed;
  }

  /** The chunks below `lo` start before `at`, those from `hi` on do not. */
  predicate Splits(chunks: seq<Chunk>, at: nat, inclusive: bool, lo: nat, hi: nat)
    requires lo <= hi <= |chunks|
  {
    && (forall i | 0 <= i < lo :: StartsBefore(chunks[i], at, inclusive))
    && (forall i | hi <= i < |chunks| :: !StartsBefore(chunks[i], at, inclusive))
  }

  lemma SplitsAtMiddle(chunks: seq<Chunk>, at: nat, inclusive: bool, lo: nat, hi: nat, mid: nat)
    requires Ordered(chunks) && lo <= mid < hi <= |chunks| && Splits(chunks, at, inclusive, lo, hi)
    ensures StartsBefore(chunks[mid], at, inclusive) ==> Splits(chunks, at, inclusive, mid + 1, hi)
    ensures !StartsBefore(chunks[mid], at, inclusive) ==> Splits(chunks, at, inclusive, lo, mid)
  {
    AscendAround(chunks, mid);
    hide Ordered, WellFormed;
  }

  lemma {:induction false} PartitionPointSplits(chunks: seq<Chunk>, at: nat, inclusive: bool, lo: nat, hi: nat)
    requires Ordered(chunks) && lo <= hi <= |chunks| && Splits(chunks, at, inclusive, lo, hi)
    ensures var r := PartitionPoint(chunks, at, inclusive, lo, hi); Splits(chunks, at, inclusive, r, r)
    decreases hi - lo
  {
    hide Ordered, Splits;
    if lo < hi {
      var mid := (lo + hi) / 2;
      SplitsAtMiddle(chunks, at, inclusive, lo, hi, mid);
      if StartsBefore(chunks[mid], at, inclusive) {
        PartitionPointSplits(chunks, at, inclusive, mid + 1, hi);
      } else {
        PartitionPointSplits(chunks, at, inclusive, lo, mid);
      }
    }
  }

  function ChunkFor(chunks: seq<Chunk>, logical: nat): Option<Chunk> {
    var at := PartitionPoint(chunks, logical, true, 0, |chunks|);
    if at == 0 then None
    else if logical < chunks[at-1].End() then Some(chunks[at-1])
    else None
  }

  /** The bisection finds the one chunk covering an address, whenever there is one. */
  lemma ChunkForFindsTheChunk(chunks: seq<Chunk>, logical: nat, c: Chunk)
    requires Ordered(chunks)
    ensures ChunkFor(chunks, logical) == Some(c) <==> c in chunks && c.logical <= logical < c.End()
  {
    hide WellFormed;
    var at := PartitionPoint(chunks, logical, true, 0, |chunks|);
    PartitionPointSplits(chunks, logical, true, 0, |chunks|);
    if c in chunks && c.logical <= logical < c.End() {
      var i :| 0 <= i < |chunks| && chunks[i] == c;
      assert i < at;
    }
  }

  function MapAt(chunks: seq<Chunk>, logical: nat, mirror: nat): Result<Mapping, MapError>
    requires Ordered(chunks)
  {
    var c := ChunkFor(chunks, logical);
    if c.None? then Err(UnmappedLogical(logical))
    else
      ChunkForFindsTheChunk(chunks, logical, c.value);
      MapMirror(c.value, logical, mirror)
  }

  function Inserted(chunks: seq<Chunk>, at: nat, chunk: Chunk): seq<Chunk>
    requires at <= |chunks|
  {
    chunks[..at] + [chunk] + chunks[at..]
  }

  lemma InsertedAt(chunks: seq<Chunk>, at: nat, chunk: Chunk, i: nat)
    requires at <= |chunks| && i <= |chunks|
    ensures Inserted(chunks, at, chunk)[i] == if i < at then chunks[i] else if i == at then chunk else chunks[i-1]
  {
  }

  lemma OrderedPair(chunks: seq<Chunk>, i: nat, j: nat)
    requires Ordered(chunks) && i < j < |chunks|
    ensures chunks[i].End() <= chunks[j].logical < chunks[j].End()
    ensures chunks[i].logical < chunks[i].End()
  {
    SizesOf(chunks);
    hide WellFormed;
  }

  lemma ApartFromInserted(chunks: seq<Chunk>, at: nat, chunk: Chunk, i: nat)
    requires Ordered(chunks) && at <= |chunks| && i < |chunks|
    requires at > 0 ==> chunks[at-1].End() <= chunk.logical
    requires at < |chunks| ==> chunk.End() <= chunks[at].logical
    ensures if i < at then chunks[i].End() <= chunk.logical else chunk.End() <= chunks[i].logical
  {
    if i < at - 1 { OrderedPair(chunks, i, at - 1); }
    if at < i { OrderedPair(chunks, at, i); }
    hide Ordered;
  }

  lemma OrderedInsert(chunks: seq<Chunk>, at: nat, chunk: Chunk)
    requires Ordered(chunks) && WellFormed(chunk) && at <= |chunks|
    requires at > 0 ==> chunks[at-1].End() <= chunk.logical
    requires at < |chunks| ==> chunk.End() <= chunks[at].logical
    ensures Ordered(Inserted(chunks, at, chunk))
  {
    hide WellFormed, Inserted, Chunk.End;
    var grown := Inserted(chunks, at, chunk);
    assert |grown| == |chunks| + 1 by { InsertedLength(chunks, at, chunk); }
    forall i | 0 <= i < |grown| ensures WellFormed(grown[i]) { InsertedAt(chunks, at, chunk, i); }
    forall i, j | 0 <= i < j < |grown| ensures grown[i].End() <= grown[j].logical {
      InsertedAt(chunks, at, chunk, i);
      InsertedAt(chunks, at, chunk, j);
      if j == at {
        ApartFromInserted(chunks, at, chunk, i);
      } else if i == at {
        ApartFromInserted(chunks, at, chunk, j - 1);
      } else {
        OrderedPair(chunks, if i < at then i else i - 1, if j < at then j else j - 1);
      }
    }
  }

  lemma InsertedLength(chunks: seq<Chunk>, at: nat, chunk: Chunk)
    requires at <= |chunks|
    ensures |Inserted(chunks, at, chunk)| == |chunks| + 1
  {
  }

  /** The map itself, grown one chunk at a time. */
  class Map {
    var chunks: seq<Chunk>

    constructor ()
      ensures chunks == []
    {
      chunks := [];
    }

    /** Keep the map ordered, or refuse a chunk that overlaps one already there
        and change nothing. */
    method Insert(chunk: Chunk) returns (r: Result<(), MapError>)
      requires Ordered(chunks) && WellFormed(chunk)
      modifies this
      ensures Ordered(chunks)
      ensures r.Ok? <==> forall c | c in old(chunks) :: c.End() <= chunk.logical || chunk.End() <= c.logical
      ensures r.Ok? ==> exists at | 0 <= at <= |old(chunks)| ::
        chunks == old(chunks)[..at] + [chunk] + old(chunks)[at..]
      ensures r.Err? ==> chunks == old(chunks)
    {
      hide WellFormed, Ordered;
      SizesPositive(chunk);
      var at := PartitionPoint(chunks, chunk.logical, false, 0, |chunks|);
      PartitionPointSplits(chunks, chunk.logical, false, 0, |chunks|);
      if at > 0 {
        if chunks[at-1].End() > chunk.logical {
          assert chunks[at-1] in chunks && chunk.End() > chunks[at-1].logical;
          return Err(BadChunkItem);
        }
      }
      if at < |chunks| {
        if chunk.End() > chunks[at].logical {
          SizesOf(chunks);
          assert chunks[at] in chunks && chunks[at].End() > chunk.logical;
          return Err(BadChunkItem);
        }
      }
      forall c | c in chunks ensures c.End() <= chunk.logical || chunk.End() <= c.logical {
        var i :| 0 <= i < |chunks| && chunks[i] == c;
        ApartFromInserted(chunks, at, chunk, i);
      }
      OrderedInsert(chunks, at, chunk);
      chunks := Inserted(chunks, at, chunk);
      return Ok(());
    }
  }

  // ---------------------------------------------------- one device, many chunks

  predicate StripesApart(a: Stripe, aLen: nat, b: Stripe, bLen: nat) {
    a.devid != b.devid || a.offset + aLen <= b.offset || b.offset + bLen <= a.offset
  }

  /** No two stripes of a pool take the same device bytes. */
  ghost predicate DeviceExtentsDisjoint(chunks: seq<Chunk>)
    requires Ordered(chunks)
  {
    forall i, s, j, t |
      0 <= i < |chunks| && 0 <= s < |chunks[i].stripes| &&
      0 <= j < |chunks| && 0 <= t < |chunks[j].stripes| && (i != j || s != t) ::
        StripesApart(chunks[i].stripes[s], PerStripe(chunks[i]), chunks[j].stripes[t], PerStripe(chunks[j]))
  }

  lemma OneStripeHoldsIt(chunks: seq<Chunk>, i: nat, s: nat, x: nat, j: nat, t: nat, y: nat)
    requires Ordered(chunks) && DeviceExtentsDisjoint(chunks)
    requires i < |chunks| && s < |chunks[i].stripes| && x < PerStripe(chunks[i])
    requires j < |chunks| && t < |chunks[j].stripes| && y < PerStripe(chunks[j])
    requires chunks[i].stripes[s].devid == chunks[j].stripes[t].devid
    requires chunks[i].stripes[s].offset + x == chunks[j].stripes[t].offset + y
    ensures i == j && s == t
  {
    hide WellFormed, PerStripe;
  }

  /** Across the whole map, one device byte is one copy of one logical byte. */
  lemma DeviceByteHasOneOwner(chunks: seq<Chunk>, l1: nat, m1: nat, l2: nat, m2: nat)
    requires Ordered(chunks) && DeviceExtentsDisjoint(chunks)
    requires forall i | 0 <= i < |chunks| :: WholeRows(chunks[i])
    requires MapAt(chunks, l1, m1).Ok? && MapAt(chunks, l2, m2).Ok?
    requires var a, b := MapAt(chunks, l1, m1).value, MapAt(chunks, l2, m2).value;
      a.devid == b.devid && a.physical == b.physical
    ensures l1 == l2 && m1 == m2
  {
    hide WholeRows, PerStripe, Place, WellFormed, MapMirror, DeviceExtentsDisjoint, ChunkFor;
    var c, d := ChunkFor(chunks, l1).value, ChunkFor(chunks, l2).value;
    ChunkForFindsTheChunk(chunks, l1, c);
    ChunkForFindsTheChunk(chunks, l2, d);
    var i :| 0 <= i < |chunks| && chunks[i] == c;
    var j :| 0 <= j < |chunks| && chunks[j] == d;
    var (s, intoC) := StripePlace(c, l1, m1);
    var (t, intoD) := StripePlace(d, l2, m2);
    WholeRowsContain(c, l1, m1);
    WholeRowsContain(d, l2, m2);
    RunIsNonEmpty(c, l1, m1);
    RunIsNonEmpty(d, l2, m2);
    StripePlaceIsWhereItMaps(c, l1, m1);
    StripePlaceIsWhereItMaps(d, l2, m2);
    OneStripeHoldsIt(chunks, i, s, intoC, j, t, intoD);
    MappingIsInjective(c, l1, m1, l2, m2);
  }

  // ------------------------------------------------------------- sound pools

  /** A pool the checker accepts: stripes disjoint on their devices, each chunk in
      whole rows, and every device extent inside 64 bits. */
  ghost predicate Sound(chunks: seq<Chunk>) {
    Ordered(chunks) && DeviceExtentsDisjoint(chunks) && StripesFit(chunks)
  }

  ghost predicate StripesFit(chunks: seq<Chunk>)
    requires Ordered(chunks)
  {
    && (forall i | 0 <= i < |chunks| :: WholeRows(chunks[i]))
    && (forall i, s | 0 <= i < |chunks| && 0 <= s < |chunks[i].stripes| ::
          chunks[i].stripes[s].offset + PerStripe(chunks[i]) <= U64_SPAN)
  }

  /** How many copies there are of a byte, by the chunk it is in. */
  function CopiesAt(chunks: seq<Chunk>, logical: nat): nat {
    var c := ChunkFor(chunks, logical);
    if c.None? then 0 else NumMirrors(c.value)
  }

  /** A parity chunk is read only up to a number of stripes. */
  predicate Translatable(c: Chunk) {
    ParityCount(c.profile) == 0 || |c.stripes| <= MAX_STRIPES
  }

  lemma MapsWherePlaced(c: Chunk, at: nat, mirror: nat)
    requires WellFormed(c) && Translatable(c)
    requires c.logical <= at < c.End() && mirror < NumMirrors(c)
    requires var (index, into) := StripePlace(c, at, mirror);
      index < |c.stripes| && c.stripes[index].offset + into < U64_SPAN
    ensures MapMirror(c, at, mirror).Ok?
  {
    SizesPositive(c);
    hide WellFormed, Place;
  }

  /** A byte has a stripe and lies inside the length that stripe is given, whether
      or not its device address fits 64 bits: as on the same chunk at offset zero. */
  lemma PlacedInside(c: Chunk, at: nat, mirror: nat)
    requires WellFormed(c) && WholeRows(c) && Translatable(c)
    requires c.logical <= at < c.End() && mirror < NumMirrors(c)
    ensures StripePlace(c, at, mirror).0 < |c.stripes| && StripePlace(c, at, mirror).1 < PerStripe(c)
  {
    var grounded := c.(stripes := seq(|c.stripes|, (_: nat) => Stripe(0, 0)));
    SizesPositive(c);
    assert Columns(grounded) == Columns(c);
    hide Columns, Times;
    assert WellFormed(grounded) && WholeRows(grounded) && PerStripe(grounded) == PerStripe(c);
    MapsUnlessOverflow(grounded, at, mirror);
    WholeRowsContain(grounded, at, mirror);
    RunIsNonEmpty(grounded, at, mirror);
    StripePlaceIsWhereItMaps(grounded, at, mirror);
    hide WellFormed, MapMirror;
    assert StripePlace(grounded, at, mirror) == StripePlace(c, at, mirror);
  }

  /** On a sound pool every copy of every byte of a chunk maps. */
  lemma MapsOnSoundPool(chunks: seq<Chunk>, i: nat, at: nat, mirror: nat)
    requires Sound(chunks) && i < |chunks| && Translatable(chunks[i])
    requires chunks[i].logical <= at < chunks[i].End() && mirror < NumMirrors(chunks[i])
    ensures ChunkFor(chunks, at) == Some(chunks[i]) && CopiesAt(chunks, at) == NumMirrors(chunks[i])
    ensures MapAt(chunks, at, mirror) == MapMirror(chunks[i], at, mirror) && MapAt(chunks, at, mirror).Ok?
  {
    hide WellFormed, Place, WholeRows, PerStripe, MapMirror, DeviceExtentsDisjoint, ChunkFor;
    var c := chunks[i];
    ChunkForFindsTheChunk(chunks, at, c);
    PlacedInside(c, at, mirror);
    var (index, into) := StripePlace(c, at, mirror);
    assert chunks[i].stripes[index].offset + PerStripe(chunks[i]) <= U64_SPAN;
    MapsWherePlaced(c, at, mirror);
  }
}
