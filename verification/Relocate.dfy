/** A block group relocated (`relocate_block_group` in src/balance.rs), commit by commit:
    a new chunk, the extents moved a batch at a time, the old group removed. */
module Relocate {
  import opened Base
  import opened ChunkMap
  import opened FreeSpace
  import opened NewChunk
  import opened Moving
  import opened Midway
  import opened KeptFiles
  import opened RelocationPlan
  import Allocator

  const EXTENTS_PER_TRANSACTION: nat := 64

  /** How much of an extent is read and written at a time. */
  const COPY_PIECE: nat := 0x10_0000

  datatype RelocateError =
    | NotFound | NotConverted(own: Profile, to: Profile) | NotAllocated(own: Profile) | Miscounted(used: nat) | NoChunk(why: ChunkError)
    | Unreadable | NoRoomLeft | StillHolds(used: nat) | NotOneChunk | Io

  /** The profile of the new chunk: the group's own, or a conversion of single to dup or
      dup to single. */
  function Wanted(own: Profile, profile: Option<Profile>): Result<Profile, RelocateError> {
    var to := if profile.Some? then profile.value else own;
    if to != own && !(own == Single && to == Dup) && !(own == Dup && to == Single) then Err(NotConverted(own, to))
    else if own != Single && own != Dup then Err(NotAllocated(own))
    else Ok(to)
  }

  /** The profile of a group is its chunk's. */
  method GroupProfile(d: Disk, start: nat, sector: Pos) returns (own: Profile)
    requires Valid(d, sector) && start in d.groups
    ensures ProfileAt(d.chunks, start, own)
  {
    assert Mapped(d.chunks, start, d.groups[start].length, sector);
    hide Sound, Allocator.OnGrid, Tidy, AllMapped, Translatable;
    ghost var j :| 0 <= j < |d.chunks| && ChunkOf(d.chunks, j, start, d.groups[start].length);
    var i :| 0 <= i < |d.chunks| && d.chunks[i].logical == start;
    own := d.chunks[i].profile;
  }

  /** Refusals before anything is written, and failures of a device. */
  predicate Early(e: RelocateError) { e.NotFound? || e.NotConverted? || e.NotAllocated? || e.Miscounted? || e.NoChunk? }

  /** Room for a batch in the new group: there always is, and it is the next bytes. */
  method FindRoom(d: Disk, batch: seq<DataExtent>, to: nat, sector: Pos, ghost p: Plan, ghost n: nat, ghost m: nat, ghost w: map<nat, nat>)
    returns (r: Result<seq<nat>, RelocateError>)
    requires Planned(p, sector) && n < m <= |p.extents| && batch == p.extents[n..m] && to == p.to && MovedUpTo(p, n, d, w)
    ensures r.Ok? && |r.value| == |batch| && forall k | 0 <= k < m - n :: r.value[k] == p.to + Reach(p.extents, n + k)
  {
    hide Planned, MovedUpTo, ListIn, In, Reach, Sound, Allocator.OnGrid, Allocator.OneClearRun, Allocator.RunsInChunks, Allocator.WholeSectors, Allocator.WellChosen, Allocator.ChosenApart, Allocator.Conserved, Allocator.GoodIn, Ascending, NoneEmpty, Separated;
    CountedGroups(p, sector, n, d, w);
    var length := d.groups[to].length;
    var ats := ListIn(d.extents, to, to + length);
    ListedMidway(p, sector, n, d, w);
    PackedRunsAre(p, sector, n, d, w);
    PackedGaps(p, sector, n);
    SoundMidway(p, sector, n, d, w);
    var free := Gaps(BlockGroup(to, length), RunsAt(d.extents, ats));
    if free.Err? { return Err(NoRoomLeft); }
    FreeIsRest(p, sector, n, free.value);
    BatchFits(p, sector, n, m);
    var found, chosen, left := Allocator.FindExtentsIn(d.chunks, free.value, Lens(batch), sector);
    if found.Err? { return Err(NoRoomLeft); }
    return Ok(found.value);
  }

  /** The batch's edits, gathered into the state its commit makes durable. */
  method PlanMoves(d: Disk, batch: seq<DataExtent>, news: seq<nat>, start: nat, to: nat, ghost sector: Pos, ghost p: Plan, ghost n: nat, ghost m: nat, ghost w: map<nat, nat>)
    returns (now: Disk, ghost v: map<nat, nat>)
    requires Planned(p, sector) && n <= m <= |p.extents| && batch == p.extents[n..m] && start == p.start && to == p.to && MovedUpTo(p, n, d, w)
    requires |news| == |batch| && forall k | 0 <= k < m - n :: news[k] == p.to + Reach(p.extents, n + k)
    ensures MovedUpTo(p, m, now, v)
  {
    now, v := d, w;
    hide Planned, MovedUpTo, Reach, MoveOne;
    for i := 0 to |batch|
      invariant MovedUpTo(p, n + i, now, v)
    {
      v := MidwayNext(p, sector, n + i, now, v);
      now := MoveOne(now, batch[i], start, to, news[i]);
    }
  }

  /** A volume as one mount sees it: what is committed, and its bytes. */
  class Volume {
    const sector: Pos
    var disk: Disk
    var bytes: Bytes
    ghost var stable: Bytes
    ghost var dirty: seq<FreeExtent>
    /** Every moment at which a crash would have found something new. */
    ghost var moments: seq<Moment>

    ghost predicate Consistent()
      reads this
    {
      Valid(disk, sector) && Untouched(disk, dirty) && Settled(dirty, stable, bytes)
    }

    constructor (d: Disk, b: Bytes, s: Pos)
      requires Valid(d, s)
      ensures Consistent() && disk == d && bytes == b && stable == b && dirty == [] && moments == []
    {
      disk, bytes, stable, dirty, moments, sector := d, b, b, [], [], s;
    }

    /** A commit: it flushes what was written and makes the new state the one a crash
        leaves, or it fails and leaves the old one. */
    method Commit(d: Disk) returns (ok: bool)
      modifies this
      ensures bytes == old(bytes)
      ensures ok ==> disk == d && stable == bytes && dirty == [] && moments == old(moments) + [Moment(d, bytes, [])]
      ensures !ok ==> unchanged(this)
    {
      if * { return false; }
      disk, stable, dirty := d, bytes, [];
      moments := moments + [Moment(d, bytes, [])];
      return true;
    }

    /** One write to every copy, not yet flushed. */
    method Write(at: nat, buf: seq<byte>)
      modifies this
      ensures disk == old(disk) && stable == old(stable)
      ensures SameBut(old(bytes), bytes, at, at + |buf|) && Content(bytes, at, |buf|) == buf
      ensures dirty == old(dirty) + [FreeExtent(at, |buf|)] && moments == old(moments) + [Moment(disk, stable, dirty)]
    {
      var was := bytes;
      bytes := (x: nat) => if at <= x < at + |buf| then buf[x-at] else was(x);
      ContentIs(bytes, at, buf);
      dirty := dirty + [FreeExtent(at, |buf|)];
      moments := moments + [Moment(disk, stable, dirty)];
    }

    /** An extent's bytes read and written to their new place, a piece at a time. */
    method CopyExtent(at: nat, place: nat, len: nat) returns (ok: bool)
      requires (at + len <= place || place + len <= at) && Settled(dirty, stable, bytes)
      modifies this
      ensures disk == old(disk) && stable == old(stable)
      ensures SameBut(old(bytes), bytes, place, place + len)
      ensures ok ==> Content(bytes, place, len) == Content(old(bytes), at, len)
      ensures DirtyWithin(old(dirty), dirty, place, place + len)
      ensures Settled(dirty, stable, bytes)
      ensures OnlyWrote(old(moments), moments, disk, stable, old(dirty), place, place + len)
    {
      hide SameBut, DirtyWithin, Settled, OnlyWrote, Content, In;
      var done := 0;
      NothingWritten(bytes, disk, stable, dirty, moments, place, place + len);
      NoContent(bytes, at, place);
      while done < len
        invariant done <= len && disk == old(disk) && stable == old(stable)
        invariant Content(bytes, place, done) == Content(old(bytes), at, done)
        invariant Writing(old(bytes), bytes, disk, stable, old(dirty), dirty, old(moments), moments, place, place + len)
      {
        if * { return false; }
        var n := Min(len - done, COPY_PIECE);
        var buf := Content(bytes, at + done, n);
        ContentLength(bytes, at + done, n);
        ghost var was, before, seen := bytes, dirty, moments;
        Write(place + done, buf);
        StillSettled(before, stable, was, bytes, place + done, n);
        WroteOne(before, seen, disk, stable, place + done, n);
        WritingOn(old(bytes), was, bytes, disk, stable, old(dirty), before, dirty, old(moments), seen, moments, place, place + done, place + done + n, place + len);
        PieceCopied(old(bytes), was, bytes, at, place, len, done, n);
        done := done + n;
      }
      return true;
    }

    /** The batch's extents copied one after the other into the places found. */
    method CopyBatch(batch: seq<DataExtent>, news: seq<nat>, ghost p: Plan, ghost n: nat, ghost m: nat) returns (ok: bool)
      requires Planned(p, sector) && n <= m <= |p.extents| && batch == p.extents[n..m] && Settled(dirty, stable, bytes)
      requires |news| == |batch| && forall k | 0 <= k < m - n :: news[k] == p.to + Reach(p.extents, n + k)
      modifies this
      ensures disk == old(disk) && stable == old(stable)
      ensures Writing(old(bytes), bytes, disk, stable, old(dirty), dirty, old(moments), moments, p.to + Reach(p.extents, n), p.to + p.length)
      ensures ok ==> CopiedUpTo(p, n, m - n, old(bytes), bytes)
    {
      hide *;
      NothingCopied(p, n, bytes);
      ghost var lo, top := p.to + Reach(p.extents, n), p.to + p.length;
      NothingWritten(bytes, disk, stable, dirty, moments, lo, top);
      for i := 0 to |batch|
        invariant disk == old(disk) && stable == old(stable) && CopiedUpTo(p, n, i, old(bytes), bytes)
        invariant Writing(old(bytes), bytes, disk, stable, old(dirty), dirty, old(moments), moments, lo, top)
      {
        ghost var was, before, seen := bytes, dirty, moments;
        NextRoom(p, sector, n, i);
        WritingSettled(old(bytes), was, disk, stable, old(dirty), before, old(moments), seen, lo, top);
        ok := CopyExtent(batch[i].at, news[i], batch[i].len);
        WritingOn(old(bytes), was, bytes, disk, stable, old(dirty), before, dirty, old(moments), seen, moments, lo, news[i], news[i] + batch[i].len, top);
        if !ok { return false; }
        OneMoreCopied(p, sector, n, i, old(bytes), was, bytes);
      }
      return true;
    }

    /** One batch moved in one commit. It always finds room; a read, a write or the commit
        that fails leaves every extent where it was. */
    method MoveDataExtents(batch: seq<DataExtent>, start: nat, to: nat, ghost p: Plan, ghost n: nat, ghost m: nat, ghost w: map<nat, nat>,
                           ghost o: Disk, ghost ob: Bytes)
      returns (r: Result<(), RelocateError>, ghost v: map<nat, nat>)
      requires Planned(p, sector) && n < m <= |p.extents| && batch == p.extents[n..m] && start == p.start && to == p.to
      requires InRun(p, n, disk, w, o, ob, bytes) && dirty == [] && Settled(dirty, stable, bytes)
      modifies this
      ensures r.Err? ==> (r.error == Unreadable || r.error == Io) && disk == old(disk) && v == w && InRun(p, n, disk, v, o, ob, bytes)
      ensures r.Ok? ==> InRun(p, m, disk, v, o, ob, bytes) && dirty == []
      ensures Settled(dirty, stable, bytes) && Untouched(disk, dirty)
      ensures AllKept(old(moments), moments, o, ob, start, to, p.length, sector)
    {
      hide *;
      RunMeans(p, n, disk, w, o, ob, bytes);
      var news := FindRoom(disk, batch, to, sector, p, n, m, w);
      if news.Err? { return Err(NoRoomLeft), w; }
      var ok := CopyBatch(batch, news.value, p, n, m);
      WritingKept(p, sector, n, w, o, ob, old(bytes), bytes, disk, stable, dirty, old(moments), moments);
      if !ok { return Err(Unreadable), w; }
      var now;
      now, v := PlanMoves(disk, batch, news.value, start, to, sector, p, n, m, w);
      ghost var before, from := moments, disk;
      ok := Commit(now);
      if !ok { return Err(Io), w; }
      CommitKept(p, sector, n, m, from, now, w, v, o, ob, old(bytes), bytes, old(moments), before);
      return Ok(()), v;
    }

    /** The group's item and its chunk removed in one commit, only from a group that
        holds nothing. */
    method RemoveBlockGroup(start: nat) returns (r: Result<(), RelocateError>)
      requires Consistent() && start in disk.groups
      modifies this
      ensures Consistent() && bytes == old(bytes)
      ensures r.Ok? ==> Empty(old(disk), start) && RemovedFrom(old(disk), start, disk) && dirty == []
      ensures r.Ok? ==> moments == old(moments) + [Moment(disk, bytes, [])]
      ensures r.Err? ==> unchanged(this) && (r.error == Io || !Empty(disk, start))
    {
      hide Sound, Allocator.OnGrid, Tidy, ListIn, In, Translatable, ChunkFor;
      var group := disk.groups[start];
      if group.used != 0 || ListIn(disk.extents, start, start + group.length) != [] { return Err(StillHolds(group.used)); }
      assert Mapped(disk.chunks, start, group.length, sector);
      ghost var j :| 0 <= j < |disk.chunks| && ChunkOf(disk.chunks, j, start, group.length);
      var i :| 0 <= i < |disk.chunks| && disk.chunks[i].logical == start;
      OneChunkAt(disk.chunks, i, j);
      if disk.chunks[i].length != group.length { return Err(NotOneChunk); }
      RemovedValid(disk, sector, start, i);
      var now := Disk(WithoutAt(disk.chunks, i), disk.groups - {start}, disk.extents, disk.items);
      var ok := Commit(now);
      if !ok { return Err(Io); }
      InNone();
      return Ok(());
    }

    /** The group relocated: a new chunk, its extents moved a batch to a commit, the old
        group removed. Every moment keeps every file, each extent in one group. A refusal
        writes nothing; a failure leaves the batches committed, and no new group where the
        first of them failed. Batches always find room, and the old group is removed empty. */
    method RelocateBlockGroup(start: nat, profile: Option<Profile>, candidates: seq<Device>) returns (r: Result<nat, RelocateError>, done: nat)
      requires Consistent() && EndsWhole(disk.chunks, sector)
      requires start in disk.groups ==> NextLogical(disk.chunks) + disk.groups[start].length < U64_SPAN
      requires forall d | d in candidates :: d.total <= U64_SPAN
      modifies this
      ensures Consistent()
      ensures start in old(disk).groups ==>
        AllKept(old(moments), moments, old(disk), old(bytes), start, NextLogical(old(disk).chunks), old(disk).groups[start].length, sector)
      ensures r.Ok? ==> start in old(disk).groups && r.value == NextLogical(old(disk).chunks)
      ensures r.Ok? ==> exists own, to :: ProfileAt(old(disk).chunks, start, own) && Wanted(own, profile) == Ok(to) && Relocated(old(disk), disk, start, r.value, to)
      ensures r.Err? ==> Early(r.error) || r.error == Unreadable || r.error == Io
      ensures r.Err? && Early(r.error) ==> unchanged(this)
      ensures r.Err? && !Early(r.error) ==> disk == old(disk) || Partway(old(disk), disk, start, NextLogical(old(disk).chunks), done)
      ensures r.Err? && r.error == Unreadable ==> disk == old(disk) || done > 0
    {
      hide Valid, Planned, MovedUpTo, SameContent, Lists, Reach, Kept, AllKept, Relocated, Partway, Empty, RemovedFrom, PlanOf, Untouched, Settled,
        In, EndsWhole, Sound, InRun, NextLogical, Fresh, NoPlace, Best, Translatable, Allocator.OnGrid, Allocator.Clear, WithGroup, ProfileAt;
      done := 0;
      ghost var o, ob, first := disk, bytes, moments;
      NothingSince(first, o, ob, start, NextLogical(o.chunks), if start in o.groups then o.groups[start].length else 0, sector);
      if start !in disk.groups { return Err(NotFound), 0; }
      var group := disk.groups[start];
      var own := GroupProfile(disk, start, sector);
      var wanted := Wanted(own, profile);
      if wanted.Err? { return Err(wanted.error), 0; }
      var extents := ListExtents(disk, start, start + group.length);
      if group.used != Reach(extents, |extents|) { return Err(Miscounted(group.used)), 0; }
      SoundOf(disk, sector);
      var chunk := AllocateChunk(disk.chunks, candidates, wanted.value, group.length);
      if chunk.Err? { return Err(NoChunk(chunk.error)), 0; }
      var c, to := chunk.value, chunk.value.logical;
      ghost var p := Plan(WithGroup(disk, c), extents, start, to, group.length);
      PlanReady(disk, sector, start, c, extents, p);
      var ok := Commit(WithGroup(disk, c));
      if !ok { return Err(Io), 0; }
      ghost var w := Begun(p, o, c, sector, ob, first);
      while done < |extents|
        invariant 0 <= done <= |extents| && PlanOf(p, o, c, sector)
        invariant InRun(p, done, disk, w, o, ob, bytes) && dirty == [] && Settled(dirty, stable, bytes)
        invariant AllKept(first, moments, o, ob, start, to, group.length, sector)
      {
        var m := Min(done + EXTENTS_PER_TRANSACTION, |extents|);
        ghost var before := moments;
        PlanIs(p, o, c, sector);
        var moved;
        moved, w := MoveDataExtents(extents[done..m], start, to, p, done, m, w, o, ob);
        KeptOn(first, before, moments, o, ob, start, to, group.length, sector);
        if moved.Err? {
          StillSo(p, o, c, sector, done, disk, w, ob, bytes);
          if done == 0 {
            ghost var d, seen := disk, moments;
            EmptyNew(p, o, c, sector, d, w, ob, bytes);
            var undone := RemoveBlockGroup(to);
            if undone.Err? { return Err(undone.error), 0; }
            UndoneKept(p, o, c, sector, d, w, disk, ob, bytes, first, seen);
          }
          return Err(moved.error), done;
        }
        done := m;
      }
      StillSo(p, o, c, sector, done, disk, w, ob, bytes);
      EmptyOld(p, o, c, sector, disk, w, ob, bytes);
      ghost var d, seen := disk, moments;
      var removed := RemoveBlockGroup(start);
      if removed.Err? { return Err(removed.error), done; }
      Finished(p, o, c, sector, d, w, disk, ob, bytes, first, seen);
      return Ok(to), done;
    }
  }
}
