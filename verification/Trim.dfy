/** Trim (src/trim.rs): every free run of every group, on every copy, as the device
    ranges to discard. */
module Trim {
  import opened Base
  import opened ChunkMap
  import opened FreeSpace

  datatype TrimRange = TrimRange(logical: nat, mirror: nat, devid: nat, physical: nat, len: nat)

  /** A block group's free runs, and whether it is RAID5 or RAID6. */
  datatype TrimGroup = TrimGroup(start: nat, parity: bool, free: seq<FreeExtent>)

  datatype TrimError = ParityGroup(start: nat) | Unmapped(at: nat)

  /** Every byte of the range is on the device where the range says. */
  ghost predicate Faithful(chunks: seq<Chunk>, r: TrimRange)
    requires Ordered(chunks)
  {
    forall l | r.logical <= l < r.logical + r.len ::
      var m := MapAt(chunks, l, r.mirror);
      m.Ok? && m.value.devid == r.devid && m.value.physical == r.physical + (l - r.logical)
  }

  predicate Covers(r: TrimRange, logical: nat, mirror: nat) {
    r.mirror == mirror && r.logical <= logical < r.logical + r.len
  }

  /** How many of the ranges discard copy `mirror` of byte `logical`. */
  function Discards(ranges: seq<TrimRange>, logical: nat, mirror: nat): nat {
    if ranges == [] then 0 else
      Discards(ranges[..|ranges|-1], logical, mirror)
      + if Covers(ranges[|ranges|-1], logical, mirror) then 1 else 0
  }

  lemma {:induction false} DiscardsSplit(a: seq<TrimRange>, b: seq<TrimRange>, logical: nat, mirror: nat)
    ensures Discards(a + b, logical, mirror) == Discards(a, logical, mirror) + Discards(b, logical, mirror)
    decreases |b|
  {
    if b == [] {
      assert a + b == a;
    } else {
      DiscardsSplit(a, b[..|b|-1], logical, mirror);
      assert (a + b)[..|a + b|-1] == a + b[..|b|-1];
    }
  }

  lemma DiscardsConcat(a: seq<TrimRange>, b: seq<TrimRange>)
    ensures forall l: nat, m: nat ::
      Discards(a + b, l, m) == Discards(a, l, m) + Discards(b, l, m)
  {
    forall l: nat, m: nat { DiscardsSplit(a, b, l, m); }
  }

  lemma DiscardsOne(r: TrimRange)
    ensures forall l: nat, m: nat :: Discards([r], l, m) == if Covers(r, l, m) then 1 else 0
  {
    assert [r][..0] == [];
  }

  function RunCount(chunks: seq<Chunk>, run: FreeExtent, logical: nat, mirror: nat): nat {
    if mirror < CopiesAt(chunks, run.start) && run.start <= logical < run.End() then 1 else 0
  }

  function RunsCount(chunks: seq<Chunk>, runs: seq<FreeExtent>, logical: nat, mirror: nat): nat {
    if runs == [] then 0 else
      RunsCount(chunks, runs[..|runs|-1], logical, mirror)
      + RunCount(chunks, runs[|runs|-1], logical, mirror)
  }

  function GroupsCount(chunks: seq<Chunk>, groups: seq<TrimGroup>, logical: nat, mirror: nat): nat {
    if groups == [] then 0 else
      GroupsCount(chunks, groups[..|groups|-1], logical, mirror)
      + RunsCount(chunks, groups[|groups|-1].free, logical, mirror)
  }

  /** The run lies in one chunk that trim can translate. */
  ghost predicate InOneChunk(chunks: seq<Chunk>, run: FreeExtent) {
    exists c | c in chunks :: ParityCount(c.profile) == 0 && c.logical <= run.start < c.End() && run.End() <= c.End()
  }

  ghost predicate AllInOneChunk(chunks: seq<Chunk>, runs: seq<FreeExtent>) {
    forall i | 0 <= i < |runs| :: InOneChunk(chunks, runs[i])
  }

  /** A mapped run on a sound pool is positive and contiguous byte for byte. */
  lemma MappedRun(chunks: seq<Chunk>, logical: nat, mirror: nat, n: nat)
    requires Sound(chunks) && MapAt(chunks, logical, mirror).Ok?
    requires n <= MapAt(chunks, logical, mirror).value.len
    ensures MapAt(chunks, logical, mirror).value.len > 0
    ensures var m := MapAt(chunks, logical, mirror).value;
      Faithful(chunks, TrimRange(logical, mirror, m.devid, m.physical, n))
  {
    hide WellFormed, Place, MapMirror, StripePlace, DeviceExtentsDisjoint, ChunkFor, StripesFit;
    var c := ChunkFor(chunks, logical).value;
    ChunkForFindsTheChunk(chunks, logical, c);
    var i :| 0 <= i < |chunks| && chunks[i] == c;
    RunIsNonEmpty(c, logical, mirror);
    var m := MapMirror(c, logical, mirror).value;
    RunFits(chunks, i, logical, mirror);
    hide Ordered;
    forall l | logical <= l < logical + n
      ensures MapAt(chunks, l, mirror).Ok? && MapAt(chunks, l, mirror).value.devid == m.devid
      ensures MapAt(chunks, l, mirror).value.physical == m.physical + (l - logical)
    {
      RunIsContiguous(c, logical, mirror, l - logical);
      ChunkForFindsTheChunk(chunks, l, c);
    }
  }

  lemma RunFits(chunks: seq<Chunk>, i: nat, logical: nat, mirror: nat)
    requires Sound(chunks) && i < |chunks| && MapMirror(chunks[i], logical, mirror).Ok?
    ensures var m := MapMirror(chunks[i], logical, mirror).value;
      m.physical + m.len <= U64_SPAN
  {
    hide WellFormed, Place, WholeRows, PerStripe, StripePlace, DeviceExtentsDisjoint;
    var c := chunks[i];
    WholeRowsContain(c, logical, mirror);
    StripePlaceIsWhereItMaps(c, logical, mirror);
    assert chunks[i].stripes[StripePlace(c, logical, mirror).0].offset + PerStripe(chunks[i]) <= U64_SPAN;
  }

  /** A byte of a one-chunk run maps on each of that chunk's copies. */
  lemma ByteMaps(chunks: seq<Chunk>, run: FreeExtent, at: nat, mirror: nat)
    requires Sound(chunks) && InOneChunk(chunks, run) && run.start <= at < run.End()
    requires mirror < CopiesAt(chunks, run.start)
    ensures MapAt(chunks, at, mirror).Ok?
  {
    hide WellFormed, Place, WholeRows, PerStripe, MapMirror, DeviceExtentsDisjoint, ChunkFor;
    var c :| c in chunks && ParityCount(c.profile) == 0 && c.logical <= run.start < c.End() && run.End() <= c.End();
    ChunkForFindsTheChunk(chunks, run.start, c);
    var i :| 0 <= i < |chunks| && chunks[i] == c;
    MapsOnSoundPool(chunks, i, at, mirror);
  }

  /** One copy of one free run, split where its mapping splits. */
  method TrimCopy(chunks: seq<Chunk>, run: FreeExtent, mirror: nat) returns (r: Result<seq<TrimRange>, TrimError>)
    requires Sound(chunks)
    ensures r.Ok? ==> forall i | 0 <= i < |r.value| :: Faithful(chunks, r.value[i]) && r.value[i].len > 0
    ensures r.Ok? ==> forall l: nat, m: nat ::
      Discards(r.value, l, m) == if m == mirror && run.start <= l < run.End() then 1 else 0
    ensures InOneChunk(chunks, run) && mirror < CopiesAt(chunks, run.start) ==> r.Ok?
    ensures r.Err? ==> r.error.Unmapped?
  {
    hide MapAt, CopiesAt, Faithful, InOneChunk, Ordered, DeviceExtentsDisjoint, StripesFit;
    var out: seq<TrimRange> := [];
    var done := 0;
    while done < run.len
      invariant done <= run.len
      invariant forall i | 0 <= i < |out| :: Faithful(chunks, out[i]) && out[i].len > 0
      invariant forall l: nat, m: nat ::
        Discards(out, l, m) == if m == mirror && run.start <= l < run.start + done then 1 else 0
    {
      if InOneChunk(chunks, run) && mirror < CopiesAt(chunks, run.start) {
        ByteMaps(chunks, run, run.start + done, mirror);
      }
      var m := MapAt(chunks, run.start + done, mirror);
      if m.Err? { return Err(Unmapped(run.start + done)); }
      var n := Min(m.value.len, run.len - done);
      MappedRun(chunks, run.start + done, mirror, n);
      var piece := TrimRange(run.start + done, mirror, m.value.devid, m.value.physical, n);
      DiscardsConcat(out, [piece]);
      DiscardsOne(piece);
      out := out + [piece];
      done := done + n;
    }
    return Ok(out);
  }

  /** Every copy of one free run. */
  method TrimRun(chunks: seq<Chunk>, run: FreeExtent) returns (r: Result<seq<TrimRange>, TrimError>)
    requires Sound(chunks)
    ensures r.Ok? ==> forall i | 0 <= i < |r.value| :: Faithful(chunks, r.value[i]) && r.value[i].len > 0
    ensures r.Ok? ==> forall l: nat, m: nat :: Discards(r.value, l, m) == RunCount(chunks, run, l, m)
    ensures InOneChunk(chunks, run) ==> r.Ok?
    ensures r.Err? ==> r.error.Unmapped?
  {
    hide Faithful, InOneChunk, Ordered, DeviceExtentsDisjoint, StripesFit, ChunkFor;
    if InOneChunk(chunks, run) { RunHasChunk(chunks, run); }
    var chunk := ChunkFor(chunks, run.start);
    if chunk.None? { return Err(Unmapped(run.start)); }
    var out: seq<TrimRange> := [];
    for mirror := 0 to NumMirrors(chunk.value)
      invariant forall i | 0 <= i < |out| :: Faithful(chunks, out[i]) && out[i].len > 0
      invariant forall l: nat, m: nat ::
        Discards(out, l, m) == if m < mirror && run.start <= l < run.End() then 1 else 0
    {
      var copy := TrimCopy(chunks, run, mirror);
      if copy.Err? { return Err(copy.error); }
      DiscardsConcat(out, copy.value);
      out := out + copy.value;
    }
    return Ok(out);
  }

  lemma RunHasChunk(chunks: seq<Chunk>, run: FreeExtent)
    requires Sound(chunks) && InOneChunk(chunks, run)
    ensures ChunkFor(chunks, run.start).Some?
  {
    hide WellFormed, ChunkFor;
    var c :| c in chunks && ParityCount(c.profile) == 0 && c.logical <= run.start < c.End() && run.End() <= c.End();
    ChunkForFindsTheChunk(chunks, run.start, c);
  }

  method TrimRuns(chunks: seq<Chunk>, runs: seq<FreeExtent>) returns (r: Result<seq<TrimRange>, TrimError>)
    requires Sound(chunks)
    ensures r.Ok? ==> forall i | 0 <= i < |r.value| :: Faithful(chunks, r.value[i]) && r.value[i].len > 0
    ensures r.Ok? ==> forall l: nat, m: nat :: Discards(r.value, l, m) == RunsCount(chunks, runs, l, m)
    ensures AllInOneChunk(chunks, runs) ==> r.Ok?
    ensures r.Err? ==> r.error.Unmapped?
  {
    hide Faithful, Ordered, DeviceExtentsDisjoint, StripesFit, RunCount, InOneChunk;
    var out: seq<TrimRange> := [];
    for i := 0 to |runs|
      invariant forall j | 0 <= j < |out| :: Faithful(chunks, out[j]) && out[j].len > 0
      invariant forall l: nat, m: nat :: Discards(out, l, m) == RunsCount(chunks, runs[..i], l, m)
    {
      var one := TrimRun(chunks, runs[i]);
      if one.Err? { return Err(one.error); }
      assert runs[..i+1][..i] == runs[..i];
      DiscardsConcat(out, one.value);
      out := out + one.value;
    }
    assert runs[..|runs|] == runs;
    return Ok(out);
  }

  /** Every device range a trim discards. */
  method TrimRanges(chunks: seq<Chunk>, groups: seq<TrimGroup>) returns (r: Result<seq<TrimRange>, TrimError>)
    requires Sound(chunks)
    ensures r.Ok? ==> forall i | 0 <= i < |r.value| :: Faithful(chunks, r.value[i]) && r.value[i].len > 0
    ensures r.Ok? ==> forall l: nat, m: nat :: Discards(r.value, l, m) == GroupsCount(chunks, groups, l, m)
    ensures (exists i | 0 <= i < |groups| :: groups[i].parity) ==> r.Err?
    ensures (forall i | 0 <= i < |groups| :: !groups[i].parity && AllInOneChunk(chunks, groups[i].free)) ==> r.Ok?
  {
    hide Faithful, Ordered, DeviceExtentsDisjoint, StripesFit, RunsCount, AllInOneChunk;
    var out: seq<TrimRange> := [];
    for i := 0 to |groups|
      invariant forall j | 0 <= j < i :: !groups[j].parity
      invariant forall j | 0 <= j < |out| :: Faithful(chunks, out[j]) && out[j].len > 0
      invariant forall l: nat, m: nat :: Discards(out, l, m) == GroupsCount(chunks, groups[..i], l, m)
    {
      if groups[i].parity { return Err(ParityGroup(groups[i].start)); }
      var some := TrimRuns(chunks, groups[i].free);
      if some.Err? { return Err(some.error); }
      assert groups[..i+1][..i] == groups[..i];
      DiscardsConcat(out, some.value);
      out := out + some.value;
    }
    assert groups[..|groups|] == groups;
    return Ok(out);
  }

  // ------------------------------------------------- what is and is not discarded

  ghost predicate FreeIn(groups: seq<TrimGroup>, logical: nat) {
    exists i | 0 <= i < |groups| :: In(groups[i].free, logical)
  }

  /** No byte is in two runs, of one group or of two. */
  ghost predicate FreeOnce(groups: seq<TrimGroup>) {
    && (forall i | 0 <= i < |groups| :: Ascending(groups[i].free))
    && (forall i, j, l: nat | 0 <= i < j < |groups| :: !(In(groups[i].free, l) && In(groups[j].free, l)))
  }

  lemma {:induction false} RunsCountIsIn(chunks: seq<Chunk>, runs: seq<FreeExtent>, l: nat, m: nat)
    requires Ascending(runs) && Ordered(chunks) && AllInOneChunk(chunks, runs)
    ensures RunsCount(chunks, runs, l, m) ==
      if In(runs, l) && m < CopiesAt(chunks, l) then 1 else 0
  {
    if runs != [] {
      var front, run := runs[..|runs|-1], runs[|runs|-1];
      assert forall i | 0 <= i < |front| :: front[i] == runs[i];
      assert runs == front + [run];
      InAppend(front, run, l);
      assert InOneChunk(chunks, run) && Ascending(front) && AllInOneChunk(chunks, front);
      NotInFront(front, run, l);
      hide *;
      RunsCountIsIn(chunks, front, l, m);
      RunCountIs(chunks, run, l, m);
      RunsCountMore(chunks, runs, l, m);
    } else {
      NoneIn(chunks, l, m);
    }
  }

  lemma NoneIn(chunks: seq<Chunk>, l: nat, m: nat)
    ensures RunsCount(chunks, [], l, m) == 0 && !In([], l)
  {
  }

  lemma RunsCountMore(chunks: seq<Chunk>, runs: seq<FreeExtent>, l: nat, m: nat)
    requires runs != []
    ensures RunsCount(chunks, runs, l, m) == RunsCount(chunks, runs[..|runs|-1], l, m) + RunCount(chunks, runs[|runs|-1], l, m)
  {
  }

  lemma NotInFront(front: seq<FreeExtent>, run: FreeExtent, l: nat)
    requires Ascending(front + [run])
    ensures run.start <= l < run.End() ==> !In(front, l)
  {
    var all := front + [run];
    forall i | 0 <= i < |front| ensures front[i].End() <= run.start { assert all[i] == front[i] && all[|front|] == run; }
  }

  /** A run in one chunk counts the copies of each of its bytes. */
  lemma RunCountIs(chunks: seq<Chunk>, run: FreeExtent, l: nat, m: nat)
    requires Ordered(chunks) && InOneChunk(chunks, run)
    ensures RunCount(chunks, run, l, m) == if run.start <= l < run.End() && m < CopiesAt(chunks, l) then 1 else 0
  {
    if run.start <= l < run.End() {
      var c :| c in chunks && ParityCount(c.profile) == 0 && c.logical <= run.start < c.End() && run.End() <= c.End();
      hide Ordered, ChunkFor;
      ChunkForFindsTheChunk(chunks, run.start, c);
      ChunkForFindsTheChunk(chunks, l, c);
    }
  }

  /** Completeness: with the groups' runs disjoint and each inside its chunk, every
      copy of every free byte is discarded exactly once, and nothing else is. */
  lemma {:induction false} EachFreeCopyOnce(chunks: seq<Chunk>, groups: seq<TrimGroup>, l: nat, m: nat)
    requires Ordered(chunks) && FreeOnce(groups)
    requires forall i | 0 <= i < |groups| :: AllInOneChunk(chunks, groups[i].free)
    ensures GroupsCount(chunks, groups, l, m) ==
      if FreeIn(groups, l) && m < CopiesAt(chunks, l) then 1 else 0
  {
    if groups != [] {
      hide Ordered, CopiesAt, In, RunsCount, AllInOneChunk, Ascending;
      var front, last := groups[..|groups|-1], groups[|groups|-1];
      assert forall i | 0 <= i < |front| :: front[i] == groups[i];
      EachFreeCopyOnce(chunks, front, l, m);
      RunsCountIsIn(chunks, last.free, l, m);
      if FreeIn(front, l) {
        var i :| 0 <= i < |front| && In(front[i].free, l);
        assert In(groups[i].free, l);
      }
      if In(last.free, l) {
        assert In(groups[|groups|-1].free, l);
      }
    }
  }

  lemma {:induction false} DiscardedIsCovered(ranges: seq<TrimRange>, l: nat, m: nat, i: nat)
    requires i < |ranges| && Covers(ranges[i], l, m)
    ensures Discards(ranges, l, m) > 0
  {
    if i < |ranges| - 1 { DiscardedIsCovered(ranges[..|ranges|-1], l, m, i); }
  }

  /** Safety: no device byte a trim discards is the image, under any copy, of a
      logical byte outside the free list. */
  lemma NothingAllocatedIsDiscarded(
    chunks: seq<Chunk>, groups: seq<TrimGroup>, ranges: seq<TrimRange>, i: nat, k: nat, l: nat, m: nat)
    requires Sound(chunks) && FreeOnce(groups)
    requires forall g | 0 <= g < |groups| :: AllInOneChunk(chunks, groups[g].free)
    requires forall j | 0 <= j < |ranges| :: Faithful(chunks, ranges[j])
    requires forall b: nat, c: nat :: Discards(ranges, b, c) == GroupsCount(chunks, groups, b, c)
    requires i < |ranges| && k < ranges[i].len
    requires MapAt(chunks, l, m).Ok?
    requires MapAt(chunks, l, m).value.devid == ranges[i].devid
    requires MapAt(chunks, l, m).value.physical == ranges[i].physical + k
    ensures FreeIn(groups, l)
  {
    hide WellFormed, FreeIn, AllInOneChunk, FreeOnce, WholeRows, MapAt, DeviceExtentsDisjoint, CopiesAt;
    var r := ranges[i];
    assert MapAt(chunks, r.logical + k, r.mirror).Ok?;
    DeviceByteHasOneOwner(chunks, r.logical + k, r.mirror, l, m);
    DiscardedIsCovered(ranges, l, m, i);
    EachFreeCopyOnce(chunks, groups, l, m);
  }

  // ------------------------------------------------------ on the superblock copies

  /** A device byte that a superblock copy holds. */
  predicate OnCopy(p: nat) { exists k :: 0 <= k < |SUPER_OFFSETS| && SUPER_OFFSETS[k] <= p < SUPER_OFFSETS[k] + SUPERBLOCK_SIZE }

  ghost predicate DiscardsCopy(ranges: seq<TrimRange>) {
    exists i, p :: 0 <= i < |ranges| && ranges[i].physical <= p < ranges[i].physical + ranges[i].len && OnCopy(p)
  }

  ghost predicate LiesOnCopy(chunks: seq<Chunk>, l: nat, m: nat)
    requires Ordered(chunks)
  {
    m < CopiesAt(chunks, l) && MapAt(chunks, l, m).Ok? && OnCopy(MapAt(chunks, l, m).value.physical)
  }

  /** Some copy of some free byte lies on a superblock copy. */
  ghost predicate FreeOnCopy(chunks: seq<Chunk>, groups: seq<TrimGroup>)
    requires Ordered(chunks)
  {
    exists l: nat, m: nat :: FreeIn(groups, l) && LiesOnCopy(chunks, l, m)
  }

  lemma {:induction false} SomeDiscards(ranges: seq<TrimRange>, l: nat, m: nat) returns (i: nat)
    requires Discards(ranges, l, m) > 0
    ensures i < |ranges| && Covers(ranges[i], l, m)
  {
    var n := |ranges| - 1;
    if Covers(ranges[n], l, m) { return n; }
    i := SomeDiscards(ranges[..n], l, m);
  }

  /** A trim discards a byte of a superblock copy exactly when a copy of a free byte lies
      on one: nothing keeps the free runs off them. */
  lemma DiscardsCopyExactlyWhen(chunks: seq<Chunk>, groups: seq<TrimGroup>, ranges: seq<TrimRange>)
    requires Sound(chunks) && FreeOnce(groups)
    requires forall g | 0 <= g < |groups| :: AllInOneChunk(chunks, groups[g].free)
    requires forall j | 0 <= j < |ranges| :: Faithful(chunks, ranges[j])
    requires forall b: nat, c: nat :: Discards(ranges, b, c) == GroupsCount(chunks, groups, b, c)
    ensures DiscardsCopy(ranges) <==> FreeOnCopy(chunks, groups)
  {
    hide FreeOnce, FreeIn, AllInOneChunk, MapAt, CopiesAt, OnCopy, Ordered, DeviceExtentsDisjoint, StripesFit, Discards, GroupsCount;
    if DiscardsCopy(ranges) {
      var i, p :| 0 <= i < |ranges| && ranges[i].physical <= p < ranges[i].physical + ranges[i].len && OnCopy(p);
      var l, m := ranges[i].logical + (p - ranges[i].physical), ranges[i].mirror;
      DiscardedIsCovered(ranges, l, m, i);
      EachFreeCopyOnce(chunks, groups, l, m);
      assert MapAt(chunks, l, m).value.physical == p;
      assert LiesOnCopy(chunks, l, m);
    }
    if FreeOnCopy(chunks, groups) {
      var l: nat, m: nat :| FreeIn(groups, l) && LiesOnCopy(chunks, l, m);
      EachFreeCopyOnce(chunks, groups, l, m);
      var i := SomeDiscards(ranges, l, m);
      var p: nat := ranges[i].physical + (l - ranges[i].logical);
      assert MapAt(chunks, l, m).value.physical == p && OnCopy(p);
    }
  }

  const CROSSING: Chunk := Chunk(0x200_0000, 0x400_0000, 0x1_0000, Dup, 1, [Stripe(1, 0x200_0000), Stripe(1, 0x800_0000)])

  lemma CrossingSound()
    ensures Sound([CROSSING])
  {
  }

  lemma CrossingMaps()
    ensures WellFormed(CROSSING) && MapMirror(CROSSING, 0x400_0000, 0) == Ok(Mapping(1, 0x400_0000, 0x200_0000))
  {
    RowAndRest(0x200, 0x1_0000, 0);
  }

  /** A free DUP group that crosses 64 MiB on its device, as an empty one is recorded: its
      trim discards the second superblock copy. */
  lemma CrossingDiscarded()
    ensures var groups := [TrimGroup(CROSSING.logical, false, [FreeExtent(CROSSING.logical, CROSSING.length)])];
      Sound([CROSSING]) && FreeOnce(groups) && AllInOneChunk([CROSSING], groups[0].free) && FreeOnCopy([CROSSING], groups)
  {
    var run := FreeExtent(CROSSING.logical, CROSSING.length);
    var groups := [TrimGroup(CROSSING.logical, false, [run])];
    CrossingSound();
    CrossingMaps();
    ChunkForFindsTheChunk([CROSSING], 0x400_0000, CROSSING);
    hide Sound, Ordered, MapMirror, ChunkFor, WellFormed;
    assert CROSSING in [CROSSING] && InOneChunk([CROSSING], run);
    assert OnCopy(0x400_0000) by { assert SUPER_OFFSETS[1] == 0x400_0000; }
    assert In([run], 0x400_0000) by { assert [run][0] == run; }
    assert In(groups[0].free, 0x400_0000) && FreeIn(groups, 0x400_0000);
    assert LiesOnCopy([CROSSING], 0x400_0000, 0);
  }
}
