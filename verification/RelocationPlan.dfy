/** From a new chunk to a plan, and from the last batch to the old group's end
    (`relocate_block_group` in src/balance.rs): the two ends of a relocation. */
module RelocationPlan {
  import opened Base
  import opened ChunkMap
  import opened FreeSpace
  import opened NewChunk
  import opened Moving
  import opened Midway
  import opened KeptFiles
  import Allocator

  /** The state with a new chunk and the empty group that is its bytes. */
  function WithGroup(d: Disk, c: Chunk): Disk { Disk(d.chunks + [c], d.groups[c.logical := Group(c.length, 0)], d.extents, d.items) }

  /** A chunk as it is allocated: after every other, and clear of the copies' rows. */
  ghost predicate Fresh(d: Disk, c: Chunk, length: nat) {
    && c.logical == NextLogical(d.chunks) && c.length == length && Translatable(c)
    && Sound(d.chunks + [c]) && Allocator.OnGrid(d.chunks + [c]) && Allocator.Clear(d.chunks + [c], c.logical, length)
  }

  /** Chunks end on whole sectors. */
  predicate EndsWhole(chunks: seq<Chunk>, sector: Pos) { forall i | 0 <= i < |chunks| :: chunks[i].End() % sector == 0 }

  lemma {:induction false} NextWhole(chunks: seq<Chunk>, sector: Pos)
    requires EndsWhole(chunks, sector)
    ensures NextLogical(chunks) % sector == 0
  {
    if chunks != [] {
      assert chunks[|chunks|-1].End() % sector == 0;
      NextWhole(chunks[..|chunks|-1], sector);
    }
  }

  /** Every group, and every extent, ends before the next chunk starts. */
  lemma {:induction false} GroupsBefore(d: Disk, sector: Pos, g: nat)
    requires AllMapped(d, sector) && g in d.groups
    ensures g + d.groups[g].length <= NextLogical(d.chunks)
  {
    assert Mapped(d.chunks, g, d.groups[g].length, sector);
    var i :| 0 <= i < |d.chunks| && ChunkOf(d.chunks, i, g, d.groups[g].length);
    AfterAll(d.chunks, i);
  }

  lemma {:induction false} ExtentsBefore(d: Disk, sector: Pos, a: nat)
    requires AllMapped(d, sector) && Tidy(d, sector) && a in d.extents
    ensures a + d.extents[a].len <= NextLogical(d.chunks)
  {
    assert InGroups(d.groups, a, d.extents[a].len);
    var g :| g in d.groups && g <= a && a + d.extents[a].len <= g + d.groups[g].length;
    GroupsBefore(d, sector, g);
  }

  /** A chunk has bytes, so no group starts where the next chunk will. */
  lemma {:induction false} NotThereYet(d: Disk, sector: Pos, g: nat)
    requires Sound(d.chunks) && AllMapped(d, sector) && g in d.groups
    ensures g < NextLogical(d.chunks)
  {
    GroupsBefore(d, sector, g);
    assert Mapped(d.chunks, g, d.groups[g].length, sector);
    var i :| 0 <= i < |d.chunks| && ChunkOf(d.chunks, i, g, d.groups[g].length);
    ChunkHasBytes(d.chunks, i);
  }

  /** The state with the new group in it is valid. */
  lemma {:induction false} WithGroupValid(d: Disk, sector: Pos, c: Chunk, length: nat)
    requires Valid(d, sector) && Fresh(d, c, length) && EndsWhole(d.chunks, sector) && length % sector == 0
    ensures Valid(WithGroup(d, c), sector) && c.logical !in d.groups
  {
    hide Sound, Allocator.OnGrid, Allocator.Clear, Apart, Whole, Named, Translatable;
    var now := WithGroup(d, c);
    NextWhole(d.chunks, sector);
    if c.logical in d.groups { NotThereYet(d, sector, c.logical); }
    forall g | g in now.groups ensures Mapped(now.chunks, g, now.groups[g].length, sector) {
      if g == c.logical {
        assert now.chunks[|d.chunks|] == c;
        assert ChunkOf(now.chunks, |d.chunks|, g, length);
      } else {
        assert Mapped(d.chunks, g, d.groups[g].length, sector);
        var i :| 0 <= i < |d.chunks| && ChunkOf(d.chunks, i, g, d.groups[g].length);
        assert ChunkOf(now.chunks, i, g, now.groups[g].length);
      }
    }
    forall a | a in d.extents ensures InGroups(now.groups, a, d.extents[a].len) {
      assert InGroups(d.groups, a, d.extents[a].len);
      var g :| g in d.groups && g <= a && a + d.extents[a].len <= g + d.groups[g].length;
      assert g in now.groups && now.groups[g] == d.groups[g];
    }
    assert AllMapped(now, sector);
    assert Housed(now);
    assert Named(now) by { assert Named(d); SameNamed(d, now); }
  }

  lemma {:induction false} SameNamed(d: Disk, now: Disk)
    requires Named(d) && now.items == d.items && now.extents == d.extents
    ensures Named(now)
  {
  }

  /** A new, empty group and extents that add up to what the old one counts: that is all
      a relocation rests on. */
  lemma {:induction false} PlanMade(d: Disk, sector: Pos, start: nat, c: Chunk, extents: seq<DataExtent>)
    requires Valid(d, sector) && start in d.groups && Fresh(d, c, d.groups[start].length) && EndsWhole(d.chunks, sector)
    requires Lists(d, start, start + d.groups[start].length, extents) && d.groups[start].used == Reach(extents, |extents|)
    ensures c.logical !in d.groups && Planned(Plan(WithGroup(d, c), extents, start, c.logical, d.groups[start].length), sector)
  {
    hide Sound, Allocator.OnGrid, Allocator.Clear, Reach, Tidy, Mapped, ListedAt;
    var length := d.groups[start].length;
    WholeLength(d, sector, start);
    WithGroupValid(d, sector, c, length);
    GroupsBefore(d, sector, start);
    forall a | a in d.extents ensures a + d.extents[a].len <= c.logical { ExtentsBefore(d, sector, a); }
    StillLists(d, c, start, start + length, extents);
    hide Lists, Valid;
  }

  lemma {:induction false} WholeLength(d: Disk, sector: Pos, g: nat)
    requires AllMapped(d, sector) && g in d.groups
    ensures d.groups[g].length % sector == 0
  {
    assert Mapped(d.chunks, g, d.groups[g].length, sector);
  }

  lemma {:induction false} StillLists(d: Disk, c: Chunk, lo: nat, hi: nat, extents: seq<DataExtent>)
    requires Lists(d, lo, hi, extents)
    ensures Lists(WithGroup(d, c), lo, hi, extents)
  {
  }

  /** The walk of a group's extents, each with its items. */
  method ListExtents(d: Disk, lo: nat, hi: nat) returns (extents: seq<DataExtent>)
    requires lo <= hi
    ensures Lists(d, lo, hi, extents)
  {
    extents := [];
    for a := lo to hi
      invariant Lists(d, lo, a, extents)
    {
      ghost var was := extents;
      if a in d.extents { extents := extents + [DataExtent(a, d.extents[a].len, ItemsOf(d.items, a))]; }
      OneMoreListed(d, lo, a, was);
    }
  }

  lemma {:induction false} OneMoreListed(d: Disk, lo: nat, a: nat, extents: seq<DataExtent>)
    requires lo <= a && Lists(d, lo, a, extents)
    ensures Lists(d, lo, a + 1, if a in d.extents then extents + [DataExtent(a, d.extents[a].len, ItemsOf(d.items, a))] else extents)
  {
    hide ItemsOf;
    var more := if a in d.extents then extents + [DataExtent(a, d.extents[a].len, ItemsOf(d.items, a))] else extents;
    forall b | b in d.extents && lo <= b < a + 1 ensures ListedAt(more, |more|, b) {
      if b == a {
        assert more[|extents|].at == a;
      } else {
        assert ListedAt(extents, |extents|, b);
        var i :| 0 <= i < |extents| && extents[i].at == b;
        assert more[i].at == b;
      }
    }
  }

  // -------------------------------------------------------------------- the two ends

  /** Every extent of the old group is wholly in the new one, and no other has moved. */
  ghost predicate AllMovedIn(o: Disk, w: map<nat, nat>, start: nat, to: nat, length: nat)
    requires w.Keys == o.extents.Keys
  {
    forall a | a in w :: if start <= a < start + length then WhollyIn(w[a], o.extents[a].len, to, length) else w[a] == a
  }

  /** The chunk map with the old group's chunk gone and a new one of the profile wanted. */
  ghost predicate ChunkReplaced(was: seq<Chunk>, now: seq<Chunk>, start: nat, to: nat, length: nat, wanted: Profile) {
    && now != [] && now[|now|-1].logical == to && now[|now|-1].length == length && now[|now|-1].profile == wanted
    && exists i :: 0 <= i < |was| && was[i].logical == start && now == WithoutAt(was, i) + [now[|now|-1]]
  }

  /** The group relocated: gone, and all it held in the new one. */
  ghost predicate Relocated(o: Disk, d: Disk, start: nat, to: nat, wanted: Profile) {
    && start in o.groups && to !in o.groups
    && var length := o.groups[start].length;
      && d.groups == (o.groups - {start})[to := Group(length, o.groups[start].used)]
      && ListIn(d.extents, start, start + length) == []
      && ChunkReplaced(o.chunks, d.chunks, start, to, length, wanted)
      && exists w :: Renamed(o, d, w) && AllMovedIn(o, w, start, to, length)
  }

  /** The group partway: its first `n` extents in the new one, the others where they were,
      and both groups' counts as many bytes. */
  ghost predicate Partway(o: Disk, d: Disk, start: nat, to: nat, n: nat) {
    && start in o.groups && to !in o.groups
    && exists extents :: PartwayBy(o, d, start, to, n, extents)
  }

  ghost predicate PartwayBy(o: Disk, d: Disk, start: nat, to: nat, n: nat, extents: seq<DataExtent>)
    requires start in o.groups
  {
    var length, all := o.groups[start].length, Reach(extents, |extents|);
    && Lists(o, start, start + length, extents) && n <= |extents| && o.groups[start].used == all && Reach(extents, n) <= all
    && ListIn(d.extents, start, start + length) == Ats(extents[n..])
    && |ListIn(d.extents, to, to + length)| == n
    && d.groups == o.groups[start := Group(length, all - Reach(extents, n))][to := Group(length, Reach(extents, n))]
  }

  /** A plan made from `o` by adding the chunk `c`. */
  ghost predicate PlanOf(p: Plan, o: Disk, c: Chunk, sector: Pos) {
    && Planned(p, sector) && p.o == WithGroup(o, c) && p.to == c.logical && p.to !in o.groups
    && p.start in o.groups && o.groups[p.start].length == p.length == c.length && Valid(o, sector)
  }

  lemma {:induction false} PartwayIs(p: Plan, o: Disk, c: Chunk, sector: Pos, n: nat, d: Disk, w: map<nat, nat>)
    requires PlanOf(p, o, c, sector) && n <= |p.extents| && MovedUpTo(p, n, d, w)
    ensures Partway(o, d, p.start, p.to, n)
  {
    hide Planned, MovedUpTo, Lists, ListIn, Valid, Reach;
    ListedMidway(p, sector, n, d, w);
    CountedGroups(p, sector, n, d, w);
    SameListing(p, o, c, sector);
    GroupsOf(p, n, d, w);
    assert PartwayBy(o, d, p.start, p.to, n, p.extents);
  }

  lemma {:induction false} SameListing(p: Plan, o: Disk, c: Chunk, sector: Pos)
    requires PlanOf(p, o, c, sector)
    ensures Lists(o, p.start, p.start + p.length, p.extents) && o.groups[p.start].used == Reach(p.extents, |p.extents|) && p.start != p.to
  {
    hide Valid, Allocator.Clear, Reach;
    StartAndTo(p, sector);
    ListsBefore(o, c, p.start, p.start + p.length, p.extents);
    hide Lists;
  }

  lemma {:induction false} ListsBefore(d: Disk, c: Chunk, lo: nat, hi: nat, extents: seq<DataExtent>)
    requires Lists(WithGroup(d, c), lo, hi, extents)
    ensures Lists(d, lo, hi, extents)
  {
  }

  lemma {:induction false} GroupsOf(p: Plan, n: nat, d: Disk, w: map<nat, nat>)
    requires n <= |p.extents| && MovedUpTo(p, n, d, w)
    ensures Reach(p.extents, n) <= Reach(p.extents, |p.extents|) && d.chunks == p.o.chunks
    ensures d.groups == p.o.groups[p.start := Group(p.length, Reach(p.extents, |p.extents|) - Reach(p.extents, n))][p.to := Group(p.length, Reach(p.extents, n))]
  {
    hide Renamed, Places, Reach;
    ReachGrows(p.extents, n, |p.extents|);
  }

  /** Taking the new, still empty group away leaves the state there was. */
  lemma {:induction false} Undone(p: Plan, o: Disk, c: Chunk, sector: Pos, d: Disk, w: map<nat, nat>, now: Disk)
    requires PlanOf(p, o, c, sector) && MovedUpTo(p, 0, d, w) && RemovedFrom(d, p.to, now)
    ensures now == o
  {
    hide Planned, MovedUpTo, Sound, Lists, Valid, Translatable, Reach, WithoutAt;
    NothingMoved(p, d, w);
    SoundMidway(p, sector, 0, d, w);
    GroupsOf(p, 0, d, w);
    CountedGroups(p, sector, 0, d, w);
    SameListing(p, o, c, sector);
    var i :| 0 <= i < |d.chunks| && ChunkOf(d.chunks, i, p.to, d.groups[p.to].length)
      && now == Disk(WithoutAt(d.chunks, i), d.groups - {p.to}, d.extents, d.items);
    OneChunkAt(d.chunks, i, |o.chunks|);
    LastGone(o.chunks, c);
    NothingReached(p);
    assert d.groups - {p.to} == o.groups;
  }

  lemma LastGone(chunks: seq<Chunk>, c: Chunk) ensures WithoutAt(chunks + [c], |chunks|) == chunks {}

  lemma NothingReached(p: Plan) ensures Reach(p.extents, 0) == 0 {}

  lemma {:induction false} NothingMoved(p: Plan, d: Disk, w: map<nat, nat>)
    requires MovedUpTo(p, 0, d, w)
    ensures d.extents == p.o.extents && d.items == p.o.items
  {
    hide GroupsAfter;
    assert forall a | a in w :: !ListedAt(p.extents, 0, a) && w[a] == a;
    forall b ensures b in d.extents <==> b in p.o.extents {
      if b in d.extents { assert Comes(w, b); }
    }
    assert d.extents == p.o.extents;
    assert d.items == p.o.items;
  }

  /** That state keeps every file, as the moment it is committed again. */
  lemma {:induction false} KeptWhenUndone(p: Plan, o: Disk, c: Chunk, sector: Pos, w: map<nat, nat>, ob: Bytes, b: Bytes)
    requires PlanOf(p, o, c, sector) && MovedUpTo(p, 0, p.o, w) && w.Keys == o.extents.Keys && SameContent(o, ob, b, w)
    ensures Kept(o, ob, Moment(o, b, []), p.start, p.to, p.length, sector)
  {
    hide Planned, MovedUpTo, SameContent, Valid, InOneGroup, RecordsMoved, ItemsMoved, In;
    UsedMidway(p, sector, 0, p.o, w);
    InOneGroupMidway(p, sector, 0, p.o, w);
    SameGroups(p.o, o, w, p.start, p.to, p.length);
    RenamedMidway(p, 0, p.o, w);
    SameListing(p, o, c, sector);
    InNone();
    assert UsedRight(o, p.start) && UsedRight(o, p.to);
    hide UsedRight, UsedIn;
    assert KeptBy(o, ob, Moment(o, b, []), w, p.start, p.to, p.length, sector);
  }

  // ------------------------------------------------------------------ the old group gone

  /** Once all are moved the old group is empty. */
  lemma {:induction false} AllMoved(p: Plan, sector: Pos, d: Disk, w: map<nat, nat>)
    requires Planned(p, sector) && MovedUpTo(p, |p.extents|, d, w)
    ensures Empty(d, p.start)
  {
    hide Planned, MovedUpTo, ListIn, Reach;
    ListedMidway(p, sector, |p.extents|, d, w);
    CountedGroups(p, sector, |p.extents|, d, w);
    assert p.extents[|p.extents|..] == [] && Ats([]) == [];
  }

  lemma {:induction false} RemovedMeans(d: Disk, g: nat, now: Disk)
    requires RemovedFrom(d, g, now)
    ensures g in d.groups && now.groups == d.groups - {g} && now.extents == d.extents && now.items == d.items
  {
    hide WithoutAt;
  }

  lemma {:induction false} KeptAtTheEnd(p: Plan, o: Disk, c: Chunk, sector: Pos, d: Disk, w: map<nat, nat>, now: Disk, ob: Bytes, b: Bytes)
    requires PlanOf(p, o, c, sector) && InRun(p, |p.extents|, d, w, o, ob, b) && RemovedFrom(d, p.start, now) && Valid(now, sector)
    ensures Kept(o, ob, Moment(now, b, []), p.start, p.to, p.length, sector)
  {
    hide Planned, MovedUpTo, SameContent, Valid, InOneGroup, RecordsMoved, ItemsMoved, In, RemovedFrom, UsedIn;
    var n := |p.extents|;
    RemovedMeans(d, p.start, now);
    UsedMidway(p, sector, n, d, w);
    SameListing(p, o, c, sector);
    InOneGroupMidway(p, sector, n, d, w);
    SameGroups(p.o, o, w, p.start, p.to, p.length);
    RenamedMidway(p, n, d, w);
    InNone();
    assert UsedRight(now, p.start) && UsedRight(now, p.to);
    hide UsedRight;
    assert KeptBy(o, ob, Moment(now, b, []), w, p.start, p.to, p.length, sector);
  }

  lemma {:induction false} EachMovedIn(p: Plan, sector: Pos, d: Disk, w: map<nat, nat>, a: nat)
    requires Planned(p, sector) && MovedUpTo(p, |p.extents|, d, w) && a in w
    ensures a in p.o.extents
    ensures if p.start <= a < p.start + p.length then WhollyIn(w[a], p.o.extents[a].len, p.to, p.length) else w[a] == a
  {
    hide Planned, MovedUpTo, Reach;
    WhereSays(p, |p.extents|, d, w);
    var i := PlacesOf(p, sector, |p.extents|, w, a);
    if i < |p.extents| {
      InsideGroup(p, sector, i);
      GroupFits(p, sector, i + 1);
      ReachNext(p.extents, i);
    } else if p.start <= a < p.start + p.length {
      AllListed(p, sector, a);
    }
  }

  /** All moved and the old group removed: the relocation is done. */
  lemma {:induction false} RelocatedIs(p: Plan, o: Disk, c: Chunk, sector: Pos, d: Disk, w: map<nat, nat>, now: Disk)
    requires PlanOf(p, o, c, sector) && MovedUpTo(p, |p.extents|, d, w) && w.Keys == o.extents.Keys && RemovedFrom(d, p.start, now)
    ensures Relocated(o, now, p.start, p.to, c.profile)
  {
    hide Planned, MovedUpTo, Valid, RecordsMoved, ItemsMoved, ListIn, Reach;
    var n := |p.extents|;
    AllMoved(p, sector, d, w);
    GroupsOf(p, n, d, w);
    CountedGroups(p, sector, n, d, w);
    SameListing(p, o, c, sector);
    RenamedMidway(p, n, d, w);
    forall a | a in w
      ensures if p.start <= a < p.start + p.length then WhollyIn(w[a], o.extents[a].len, p.to, p.length) else w[a] == a
    {
      EachMovedIn(p, sector, d, w, a);
    }
    ChunkGone(p, o, c, d, now);
    hide Lists, ChunkReplaced;
    RemovedMeans(d, p.start, now);
    hide RemovedFrom;
    assert Renamed(o, now, w) && AllMovedIn(o, w, p.start, p.to, p.length);
    assert now.groups == (o.groups - {p.start})[p.to := Group(p.length, o.groups[p.start].used)];
  }

  lemma {:induction false} ChunkGone(p: Plan, o: Disk, c: Chunk, d: Disk, now: Disk)
    requires RemovedFrom(d, p.start, now) && d.chunks == o.chunks + [c] && c.logical == p.to && p.start != p.to && c.length == p.length
    ensures ChunkReplaced(o.chunks, now.chunks, p.start, p.to, p.length, c.profile)
  {
    var i :| 0 <= i < |d.chunks| && ChunkOf(d.chunks, i, p.start, d.groups[p.start].length)
      && now == Disk(WithoutAt(d.chunks, i), d.groups - {p.start}, d.extents, d.items);
    hide *;
    LastStays(o.chunks, c, i, p.start, d.groups[p.start].length);
    ReplacedIs(o.chunks, now.chunks, i, c, p.start);
  }

  /** Taking out a chunk that begins elsewhere leaves the last one where it is. */
  lemma {:induction false} LastStays(chunks: seq<Chunk>, c: Chunk, i: nat, start: nat, length: nat)
    requires i < |chunks + [c]| && ChunkOf(chunks + [c], i, start, length) && c.logical != start
    ensures i < |chunks| && chunks[i].logical == start && WithoutAt(chunks + [c], i) == WithoutAt(chunks, i) + [c]
  {
    assert (chunks + [c])[i] == if i < |chunks| then chunks[i] else c;
  }

  lemma {:induction false} ReplacedIs(was: seq<Chunk>, now: seq<Chunk>, i: nat, c: Chunk, start: nat)
    requires i < |was| && was[i].logical == start && now == WithoutAt(was, i) + [c]
    ensures ChunkReplaced(was, now, start, c.logical, c.length, c.profile)
  {
    hide WithoutAt;
    assert now[|now|-1] == c;
  }

  // --------------------------------------------------------------------- step by step

  ghost predicate ProfileAt(chunks: seq<Chunk>, start: nat, p: Profile) {
    exists i :: 0 <= i < |chunks| && chunks[i].logical == start && chunks[i].profile == p
  }

  lemma {:induction false} NothingSince(first: seq<Moment>, o: Disk, ob: Bytes, start: nat, to: nat, length: nat, sector: Pos)
    ensures AllKept(first, first, o, ob, start, to, length, sector)
  {
  }

  lemma {:induction false} SoundOf(d: Disk, sector: Pos)
    requires Valid(d, sector)
    ensures Sound(d.chunks) && Allocator.OnGrid(d.chunks)
  {
    hide Sound, Allocator.OnGrid, AllMapped, Tidy;
  }

  lemma {:induction false} PlanReady(d: Disk, sector: Pos, start: nat, c: Chunk, extents: seq<DataExtent>, p: Plan)
    requires Valid(d, sector) && start in d.groups && EndsWhole(d.chunks, sector)
    requires Lists(d, start, start + d.groups[start].length, extents) && d.groups[start].used == Reach(extents, |extents|)
    requires c.logical == NextLogical(d.chunks) && c.length == d.groups[start].length && Translatable(c)
    requires Sound(d.chunks + [c]) && Allocator.OnGrid(d.chunks + [c]) && Allocator.Clear(d.chunks + [c], c.logical, c.length)
    requires p == Plan(WithGroup(d, c), extents, start, c.logical, c.length)
    ensures PlanOf(p, d, c, sector)
  {
    hide Valid, Lists, Reach, Sound, Allocator.OnGrid, Allocator.Clear, Translatable, EndsWhole, NextLogical, Planned;
    PlanMade(d, sector, start, c, extents);
  }

  lemma {:induction false} PlanIs(p: Plan, o: Disk, c: Chunk, sector: Pos)
    requires PlanOf(p, o, c, sector)
    ensures Planned(p, sector) && p.o.extents == o.extents && p.o.items == o.items
  {
    hide Planned, Valid;
  }

  /** With the new chunk committed the run begins. */
  lemma {:induction false} Begun(p: Plan, o: Disk, c: Chunk, sector: Pos, ob: Bytes, first: seq<Moment>) returns (w: map<nat, nat>)
    requires PlanOf(p, o, c, sector)
    ensures InRun(p, 0, p.o, w, o, ob, ob) && Settled([], ob, ob) && p.start in p.o.groups && p.to in p.o.groups
    ensures AllKept(first, first + [Moment(p.o, ob, [])], o, ob, p.start, p.to, p.length, sector)
  {
    hide Planned, MovedUpTo, Valid, Kept, In, Content;
    w := map a | a in p.o.extents :: a;
    PlanIs(p, o, c, sector);
    AtTheStart(p, sector);
    InNone();
    KeptOnce(p, o, c, sector, 0, w, p.o, ob, ob, first, first);
  }

  /** One commit more of a run. */
  lemma {:induction false} KeptOnce(p: Plan, o: Disk, c: Chunk, sector: Pos, n: nat, w: map<nat, nat>, d: Disk, ob: Bytes, b: Bytes,
                                    first: seq<Moment>, seen: seq<Moment>)
    requires PlanOf(p, o, c, sector) && n <= |p.extents| && MovedUpTo(p, n, d, w) && w.Keys == o.extents.Keys && SameContent(o, ob, b, w)
    requires AllKept(first, seen, o, ob, p.start, p.to, p.length, sector)
    ensures AllKept(first, seen + [Moment(d, b, [])], o, ob, p.start, p.to, p.length, sector)
  {
    hide Planned, MovedUpTo, SameContent, Valid, Kept, In;
    InNone();
    PlanIs(p, o, c, sector);
    MidwayIsKept(p, sector, n, w, o, ob, Moment(d, b, []));
    OneKept(first, seen, Moment(d, b, []), o, ob, p.start, p.to, p.length, sector);
  }

  lemma {:induction false} OneKept(first: seq<Moment>, seen: seq<Moment>, m: Moment, o: Disk, ob: Bytes, start: nat, to: nat, length: nat, sector: Pos)
    requires AllKept(first, seen, o, ob, start, to, length, sector) && Kept(o, ob, m, start, to, length, sector)
    ensures AllKept(first, seen + [m], o, ob, start, to, length, sector)
  {
    hide Kept;
    var all := seen + [m];
    assert all[..|first|] == seen[..|first|];
    forall i | |first| <= i < |all| ensures Kept(o, ob, all[i], start, to, length, sector) {
      assert i < |seen| ==> all[i] == seen[i];
    }
  }

  lemma {:induction false} KeptOn(first: seq<Moment>, mid: seq<Moment>, now: seq<Moment>, o: Disk, ob: Bytes, start: nat, to: nat, length: nat, sector: Pos)
    requires AllKept(first, mid, o, ob, start, to, length, sector) && AllKept(mid, now, o, ob, start, to, length, sector)
    ensures AllKept(first, now, o, ob, start, to, length, sector)
  {
    hide Kept;
    assert now[..|first|] == now[..|mid|][..|first|];
    forall i | |first| <= i < |now| ensures Kept(o, ob, now[i], start, to, length, sector) {
      assert i < |mid| ==> now[i] == now[..|mid|][i];
    }
  }

  /** Between two batches the volume is valid, with both groups there. */
  lemma {:induction false} StillSo(p: Plan, o: Disk, c: Chunk, sector: Pos, n: nat, d: Disk, w: map<nat, nat>, ob: Bytes, b: Bytes)
    requires PlanOf(p, o, c, sector) && InRun(p, n, d, w, o, ob, b)
    ensures Valid(d, sector) && p.start in d.groups && p.to in d.groups && Partway(o, d, p.start, p.to, n) && Untouched(d, [])
  {
    hide Planned, MovedUpTo, SameContent, Valid, Partway, In;
    InNone();
    PlanIs(p, o, c, sector);
    StaysValid(p, sector, n, d, w);
    CountedGroups(p, sector, n, d, w);
    PartwayIs(p, o, c, sector, n, d, w);
  }

  lemma {:induction false} EmptyNew(p: Plan, o: Disk, c: Chunk, sector: Pos, d: Disk, w: map<nat, nat>, ob: Bytes, b: Bytes)
    requires PlanOf(p, o, c, sector) && InRun(p, 0, d, w, o, ob, b)
    ensures Empty(d, p.to)
  {
    hide Planned, MovedUpTo, SameContent, Valid, ListIn;
    PlanIs(p, o, c, sector);
    ListedMidway(p, sector, 0, d, w);
    CountedGroups(p, sector, 0, d, w);
  }

  lemma {:induction false} EmptyOld(p: Plan, o: Disk, c: Chunk, sector: Pos, d: Disk, w: map<nat, nat>, ob: Bytes, b: Bytes)
    requires PlanOf(p, o, c, sector) && InRun(p, |p.extents|, d, w, o, ob, b)
    ensures Empty(d, p.start)
  {
    hide Planned, MovedUpTo, SameContent, Valid, Empty;
    AllMoved(p, sector, d, w);
  }

  lemma {:induction false} UndoneKept(p: Plan, o: Disk, c: Chunk, sector: Pos, d: Disk, w: map<nat, nat>, now: Disk, ob: Bytes, b: Bytes,
                                      first: seq<Moment>, seen: seq<Moment>)
    requires PlanOf(p, o, c, sector) && InRun(p, 0, d, w, o, ob, b) && RemovedFrom(d, p.to, now)
    requires AllKept(first, seen, o, ob, p.start, p.to, p.length, sector)
    ensures now == o && AllKept(first, seen + [Moment(now, b, [])], o, ob, p.start, p.to, p.length, sector)
  {
    hide Planned, MovedUpTo, SameContent, Valid, RemovedFrom, Kept, AllKept;
    Undone(p, o, c, sector, d, w, now);
    NotBegun(p, o, c, sector, d, w);
    KeptWhenUndone(p, o, c, sector, w, ob, b);
    OneKept(first, seen, Moment(now, b, []), o, ob, p.start, p.to, p.length, sector);
  }

  lemma {:induction false} NotBegun(p: Plan, o: Disk, c: Chunk, sector: Pos, d: Disk, w: map<nat, nat>)
    requires PlanOf(p, o, c, sector) && MovedUpTo(p, 0, d, w)
    ensures MovedUpTo(p, 0, p.o, w)
  {
    NothingMoved(p, d, w);
    PlanIs(p, o, c, sector);
    AtTheStart(p, sector);
    hide Planned, Places, Renamed, PlanOf;
  }

  /** The last batch committed and the old group removed. */
  lemma {:induction false} Finished(p: Plan, o: Disk, c: Chunk, sector: Pos, d: Disk, w: map<nat, nat>, now: Disk, ob: Bytes, b: Bytes,
                                    first: seq<Moment>, seen: seq<Moment>)
    requires PlanOf(p, o, c, sector) && InRun(p, |p.extents|, d, w, o, ob, b) && RemovedFrom(d, p.start, now) && Valid(now, sector)
    requires AllKept(first, seen, o, ob, p.start, p.to, p.length, sector)
    ensures Relocated(o, now, p.start, p.to, c.profile)
    ensures AllKept(first, seen + [Moment(now, b, [])], o, ob, p.start, p.to, p.length, sector)
  {
    hide Planned, MovedUpTo, SameContent, Valid, RemovedFrom, Kept, AllKept, Relocated;
    RelocatedIs(p, o, c, sector, d, w, now);
    KeptAtTheEnd(p, o, c, sector, d, w, now, ob, b);
    OneKept(first, seen, Moment(now, b, []), o, ob, p.start, p.to, p.length, sector);
  }
}
