/** What a relocation keeps at every moment a crash may choose (src/balance.rs): each
    extent in one group, with its record, its items and its bytes. */
module KeptFiles {
  import opened Base
  import opened ChunkMap
  import opened FreeSpace
  import opened Moving
  import opened Midway
  import Allocator

  /** What a crash finds: the state committed last, the bytes flushed by then, and the
      runs written since, of which any part may have landed. */
  datatype Moment = Moment(disk: Disk, stable: Bytes, dirty: seq<FreeExtent>)

  ghost predicate AfterCrash(m: Moment, b: Bytes) { forall x: nat :: !In(m.dirty, x) ==> b(x) == m.stable(x) }

  ghost predicate Unused(d: Disk, x: nat) { forall a | a in d.extents :: x < a || a + d.extents[a].len <= x }

  /** Nothing written since the last flush lies in an extent. */
  ghost predicate Untouched(d: Disk, dirty: seq<FreeExtent>) { forall x: nat | In(dirty, x) :: Unused(d, x) }

  predicate WhollyIn(at: nat, len: nat, g: nat, length: nat) { g <= at && at + len <= g + length }

  /** Each extent of the old group is wholly in exactly one of the two groups, and every
      other is where it was. */
  ghost predicate InOneGroup(o: Disk, w: map<nat, nat>, start: nat, to: nat, length: nat)
    requires w.Keys == o.extents.Keys
  {
    forall a | a in w ::
      if start <= a < start + length then WhollyIn(w[a], o.extents[a].len, start, length) != WhollyIn(w[a], o.extents[a].len, to, length)
      else w[a] == a
  }

  ghost predicate KeptBy(o: Disk, ob: Bytes, m: Moment, w: map<nat, nat>, start: nat, to: nat, length: nat, sector: Pos) {
    && Renamed(o, m.disk, w) && SameContent(o, ob, m.stable, w) && InOneGroup(o, w, start, to, length)
    && Untouched(m.disk, m.dirty) && Valid(m.disk, sector) && UsedRight(m.disk, start) && UsedRight(m.disk, to)
  }

  /** A moment that keeps every file: a valid state, in which every extent of `o` is in
      one group, with its record, its items and its bytes. */
  ghost predicate Kept(o: Disk, ob: Bytes, m: Moment, start: nat, to: nat, length: nat, sector: Pos) {
    exists w :: KeptBy(o, ob, m, w, start, to, length, sector)
  }

  /** The bytes in use of the extents from `lo` up to `hi`. */
  function UsedIn(extents: map<nat, Rec>, lo: nat, hi: nat): nat {
    if hi <= lo then 0 else UsedIn(extents, lo, hi - 1) + if hi - 1 in extents then extents[hi-1].len else 0
  }

  /** A group's count of used bytes is its extents' lengths. */
  ghost predicate UsedRight(d: Disk, g: nat) {
    g in d.groups ==> d.groups[g].used == UsedIn(d.extents, g, g + d.groups[g].length)
  }

  // ------------------------------------------------------------------ what a crash leaves

  lemma {:induction false} SameBytesSameContent(b: Bytes, c: Bytes, at: nat, len: nat)
    requires forall x: nat | at <= x < at + len :: b(x) == c(x)
    ensures Content(b, at, len) == Content(c, at, len)
  {
  }

  /** Whatever part of the writes under way has landed when the power fails, every file
      reads what it read before the relocation began. */
  lemma {:induction false} CrashKeepsFiles(o: Disk, ob: Bytes, m: Moment, b: Bytes, k: Key, start: nat, to: nat, length: nat, sector: Pos)
    requires Kept(o, ob, m, start, to, length, sector) && AfterCrash(m, b) && k in o.items
    ensures Named(o) && Named(m.disk) && k in m.disk.items && ReadOf(m.disk, b, k) == ReadOf(o, ob, k)
  {
    var w :| KeptBy(o, ob, m, w, start, to, length, sector);
    hide Valid, UsedRight, InOneGroup;
    assert SameContent(o, ob, b, w) by {
      forall a | a in w ensures Content(b, w[a], o.extents[a].len) == Content(ob, a, o.extents[a].len) {
        CrashKeepsExtent(o, m, b, w, a);
      }
    }
    RenamedReads(o, ob, m.disk, b, w, k);
  }

  lemma {:induction false} CrashKeepsExtent(o: Disk, m: Moment, b: Bytes, w: map<nat, nat>, a: nat)
    requires Renamed(o, m.disk, w) && Untouched(m.disk, m.dirty) && AfterCrash(m, b) && a in w
    ensures a in o.extents && Content(b, w[a], o.extents[a].len) == Content(m.stable, w[a], o.extents[a].len)
  {
    hide Injective, Comes, ItemsMoved, In, Content;
    forall x: nat | w[a] <= x < w[a] + o.extents[a].len ensures b(x) == m.stable(x) {
      assert !Unused(m.disk, x);
    }
    SameBytesSameContent(b, m.stable, w[a], o.extents[a].len);
  }

  /** ... and every extent's count is still the number of items naming it. */
  lemma {:induction false} CrashKeepsCounts(o: Disk, ob: Bytes, m: Moment, start: nat, to: nat, length: nat, sector: Pos)
    requires Kept(o, ob, m, start, to, length, sector) && CountsRight(o)
    ensures CountsRight(m.disk)
  {
    var w :| KeptBy(o, ob, m, w, start, to, length, sector);
    RenamedCounts(o, m.disk, w);
  }

  // ---------------------------------------------------------- a moment between commits

  function SumAt(extents: map<nat, Rec>, ats: seq<nat>): nat
    requires forall i | 0 <= i < |ats| :: ats[i] in extents
  {
    if ats == [] then 0 else SumAt(extents, ats[..|ats|-1]) + extents[ats[|ats|-1]].len
  }

  lemma {:induction false} SumAtMore(extents: map<nat, Rec>, ats: seq<nat>, a: nat)
    requires (forall i | 0 <= i < |ats| :: ats[i] in extents) && a in extents
    ensures forall i | 0 <= i < |ats + [a]| :: (ats + [a])[i] in extents
    ensures SumAt(extents, ats + [a]) == SumAt(extents, ats) + extents[a].len
  {
    assert (ats + [a])[..|ats|] == ats;
  }

  lemma {:induction false} UsedIsListed(extents: map<nat, Rec>, lo: nat, hi: nat)
    ensures forall i | 0 <= i < |ListIn(extents, lo, hi)| :: ListIn(extents, lo, hi)[i] in extents
    ensures UsedIn(extents, lo, hi) == SumAt(extents, ListIn(extents, lo, hi))
    decreases hi
  {
    hide SumAt;
    if lo < hi {
      UsedIsListed(extents, lo, hi - 1);
      var init := ListIn(extents, lo, hi - 1);
      if hi - 1 in extents { SumAtMore(extents, init, hi - 1); } else { assert init + [] == init; }
    } else {
      NothingSummed(extents);
    }
  }

  lemma NothingSummed(extents: map<nat, Rec>) ensures SumAt(extents, []) == 0 {}

  /** Extents of the plan's lengths, packed, add up to how far they reach. */
  lemma {:induction false} PackedSum(p: Plan, extents: map<nat, Rec>, n: nat)
    requires n <= |p.extents|
    requires forall i | 0 <= i < n :: PackedAts(p, n)[i] in extents && extents[PackedAts(p, n)[i]].len == p.extents[i].len
    ensures SumAt(extents, PackedAts(p, n)) == Reach(p.extents, n)
  {
    if n > 0 {
      var ats, init := PackedAts(p, n), PackedAts(p, n - 1);
      var last := p.to + Reach(p.extents, n - 1);
      assert ats[n-1] == last;
      assert ats == init + [last];
      ReachNext(p.extents, n - 1);
      hide Reach, SumAt;
      assert forall i | 0 <= i < n - 1 :: init[i] == ats[i];
      PackedSum(p, extents, n - 1);
      SumAtMore(extents, init, last);
    } else {
      NothingSummed(extents);
    }
  }

  lemma {:induction false} PackedLengths(p: Plan, sector: Pos, n: nat, d: Disk, w: map<nat, nat>)
    requires Planned(p, sector) && n <= |p.extents| && MovedUpTo(p, n, d, w)
    ensures forall i | 0 <= i < n :: PackedAts(p, n)[i] in d.extents && d.extents[PackedAts(p, n)[i]].len == p.extents[i].len
  {
    hide Planned, MovedUpTo, Reach;
    PackedRunsAre(p, sector, n, d, w);
    forall i | 0 <= i < n ensures d.extents[PackedAts(p, n)[i]].len == p.extents[i].len {
      assert RunsAt(d.extents, PackedAts(p, n))[i] == PackedRuns(p, n)[i];
    }
  }

  lemma {:induction false} RestSum(p: Plan, sector: Pos, n: nat, d: Disk, w: map<nat, nat>, m: nat)
    requires Planned(p, sector) && n <= m <= |p.extents| && MovedUpTo(p, n, d, w)
    ensures forall i | 0 <= i < m - n :: Ats(p.extents[n..m])[i] in d.extents
    ensures SumAt(d.extents, Ats(p.extents[n..m])) == Reach(p.extents, m) - Reach(p.extents, n)
    decreases m
  {
    hide Planned, MovedUpTo, ListedAt;
    forall i | 0 <= i < m - n ensures Ats(p.extents[n..m])[i] in d.extents { NotYetMoved(p, sector, n, d, w, n + i); }
    if m > n {
      RestSum(p, sector, n, d, w, m - 1);
      assert Ats(p.extents[n..m])[..m-1-n] == Ats(p.extents[n..m-1]);
      NotYetMoved(p, sector, n, d, w, m - 1);
    }
  }

  /** Both groups' counts follow the extents. */
  lemma {:induction false} UsedMidway(p: Plan, sector: Pos, n: nat, d: Disk, w: map<nat, nat>)
    requires Planned(p, sector) && n <= |p.extents| && MovedUpTo(p, n, d, w)
    ensures UsedRight(d, p.start) && UsedRight(d, p.to)
  {
    hide Planned, MovedUpTo, ListIn, SumAt, Reach, UsedIn;
    ListedMidway(p, sector, n, d, w);
    UsedIsListed(d.extents, p.to, p.to + p.length);
    UsedIsListed(d.extents, p.start, p.start + p.length);
    PackedLengths(p, sector, n, d, w);
    PackedSum(p, d.extents, n);
    RestSum(p, sector, n, d, w, |p.extents|);
    assert p.extents[n..|p.extents|] == p.extents[n..];
    CountedGroups(p, sector, n, d, w);
  }

  lemma {:induction false} CountedGroups(p: Plan, sector: Pos, n: nat, d: Disk, w: map<nat, nat>)
    requires Planned(p, sector) && n <= |p.extents| && MovedUpTo(p, n, d, w)
    ensures p.start in d.groups && p.to in d.groups && p.start != p.to && Reach(p.extents, n) <= Reach(p.extents, |p.extents|)
    ensures d.groups[p.to] == Group(p.length, Reach(p.extents, n))
    ensures d.groups[p.start] == Group(p.length, Reach(p.extents, |p.extents|) - Reach(p.extents, n))
  {
    hide Valid, Lists, Allocator.Clear, Renamed, Places;
    ReachGrows(p.extents, n, |p.extents|);
    StartAndTo(p, sector);
  }

  lemma {:induction false} StartAndTo(p: Plan, sector: Pos)
    requires Planned(p, sector)
    ensures p.start != p.to
  {
    hide Lists, Allocator.Clear, Sound, Allocator.OnGrid, Tidy;
    assert Mapped(p.o.chunks, p.to, p.length, sector);
    var i :| 0 <= i < |p.o.chunks| && ChunkOf(p.o.chunks, i, p.to, p.length);
    ChunkHasBytes(p.o.chunks, i);
  }

  lemma {:induction false} ChunkHasBytes(chunks: seq<Chunk>, i: nat)
    requires Sound(chunks) && i < |chunks|
    ensures chunks[i].length > 0
  {
    hide DeviceExtentsDisjoint, StripesFit;
    SizesPositive(chunks[i]);
  }

  lemma {:induction false} InOneGroupMidway(p: Plan, sector: Pos, n: nat, d: Disk, w: map<nat, nat>)
    requires Planned(p, sector) && n <= |p.extents| && MovedUpTo(p, n, d, w)
    ensures w.Keys == p.o.extents.Keys && InOneGroup(p.o, w, p.start, p.to, p.length)
  {
    hide MovedUpTo, Planned, Places, WhollyIn;
    WhereSays(p, n, d, w);
    forall a | a in w
      ensures if p.start <= a < p.start + p.length then WhollyIn(w[a], p.o.extents[a].len, p.start, p.length) != WhollyIn(w[a], p.o.extents[a].len, p.to, p.length) else w[a] == a
    {
      OneGroupOf(p, sector, n, d, w, a);
    }
  }

  lemma {:induction false} WhereSays(p: Plan, n: nat, d: Disk, w: map<nat, nat>)
    requires n <= |p.extents| && MovedUpTo(p, n, d, w)
    ensures w.Keys == p.o.extents.Keys && Places(p, n, w)
  {
    hide Renamed, GroupsAfter;
  }

  lemma {:induction false} OneGroupOf(p: Plan, sector: Pos, n: nat, d: Disk, w: map<nat, nat>, a: nat)
    requires Planned(p, sector) && n <= |p.extents| && Places(p, n, w) && a in w
    ensures if p.start <= a < p.start + p.length then WhollyIn(w[a], p.o.extents[a].len, p.start, p.length) != WhollyIn(w[a], p.o.extents[a].len, p.to, p.length) else w[a] == a
  {
    hide Planned, Reach, ListedAt;
    var i := PlacesOf(p, sector, n, w, a);
    hide Places;
    GroupsDiffer(p, sector);
    WholeBefore(p, sector, a);
    if i < |p.extents| {
      InsideGroup(p, sector, i);
      InsideOwn(p, sector, i);
      GroupFits(p, sector, i + 1);
      ReachNext(p.extents, i);
    } else if p.start <= a < p.start + p.length {
      AllListed(p, sector, a);
    }
  }

  lemma {:induction false} AllListed(p: Plan, sector: Pos, a: nat)
    requires Planned(p, sector) && a in p.o.extents && p.start <= a < p.start + p.length
    ensures ListedAt(p.extents, |p.extents|, a)
  {
    hide Valid, Allocator.Clear;
  }

  lemma {:induction false} ListedLength(p: Plan, sector: Pos, i: nat)
    requires Planned(p, sector) && i < |p.extents|
    ensures p.extents[i].at in p.o.extents && p.extents[i].len == p.o.extents[p.extents[i].at].len
  {
    hide Valid, Allocator.Clear;
  }

  lemma {:induction false} NotListed(p: Plan, sector: Pos, n: nat, i: nat)
    requires Planned(p, sector) && n <= i < |p.extents|
    ensures !ListedAt(p.extents, n, p.extents[i].at)
  {
    hide Valid, Allocator.Clear;
  }

  lemma {:induction false} ReachNext(extents: seq<DataExtent>, n: nat)
    requires n < |extents|
    ensures Reach(extents, n + 1) == Reach(extents, n) + extents[n].len
  {
  }

  /** Between two commits, and while the next batch is being written, every file is kept. */
  lemma {:induction false} MidwayIsKept(p: Plan, sector: Pos, n: nat, w: map<nat, nat>, o: Disk, ob: Bytes, m: Moment)
    requires Planned(p, sector) && n <= |p.extents| && MovedUpTo(p, n, m.disk, w)
    requires p.o.extents == o.extents && p.o.items == o.items
    requires w.Keys == o.extents.Keys && SameContent(o, ob, m.stable, w) && Untouched(m.disk, m.dirty)
    ensures Kept(o, ob, m, p.start, p.to, p.length, sector)
  {
    hide Planned, MovedUpTo, SameContent, Untouched, Valid, UsedRight, RecordsMoved, ItemsMoved, InOneGroup;
    StaysValid(p, sector, n, m.disk, w);
    UsedMidway(p, sector, n, m.disk, w);
    InOneGroupMidway(p, sector, n, m.disk, w);
    SameGroups(p.o, o, w, p.start, p.to, p.length);
    RenamedMidway(p, n, m.disk, w);
    assert KeptBy(o, ob, m, w, p.start, p.to, p.length, sector);
  }

  lemma {:induction false} SameGroups(o: Disk, q: Disk, w: map<nat, nat>, start: nat, to: nat, length: nat)
    requires o.extents == q.extents && w.Keys == o.extents.Keys && InOneGroup(o, w, start, to, length)
    ensures InOneGroup(q, w, start, to, length)
  {
  }

  lemma {:induction false} RenamedMidway(p: Plan, n: nat, d: Disk, w: map<nat, nat>)
    requires n <= |p.extents| && MovedUpTo(p, n, d, w)
    ensures RecordsMoved(p.o.extents, d.extents, w) && ItemsMoved(p.o.items, d.items, w)
  {
    hide Places, GroupsAfter, RecordsMoved, ItemsMoved;
  }

  // ------------------------------------------------------------------------ one batch

  /** The batch's first `k` extents are copied into place, and nothing else has changed. */
  ghost predicate CopiedUpTo(p: Plan, n: nat, k: nat, was: Bytes, b: Bytes)
    requires n + k <= |p.extents|
  {
    && SameBut(was, b, p.to + Reach(p.extents, n), p.to + Reach(p.extents, n + k))
    && (forall j | n <= j < n + k ::
          Content(b, p.to + Reach(p.extents, j), p.extents[j].len) == Content(was, p.extents[j].at, p.extents[j].len))
  }

  lemma {:induction false} FewerListed(extents: seq<DataExtent>, n: nat, m: nat, a: nat)
    requires n <= m <= |extents| && !ListedAt(extents, m, a)
    ensures !ListedAt(extents, n, a)
  {
  }

  /** `c` is `b` but for the bytes from `lo` up to `hi`. */
  ghost predicate SameBut(b: Bytes, c: Bytes, lo: nat, hi: nat) { forall x: nat :: !(lo <= x < hi) ==> c(x) == b(x) }

  lemma {:induction false} SameOutside(b: Bytes, c: Bytes, lo: nat, hi: nat, at: nat, len: nat)
    requires SameBut(b, c, lo, hi) && (at + len <= lo || hi <= at)
    ensures Content(b, at, len) == Content(c, at, len)
  {
    SameBytesSameContent(b, c, at, len);
  }

  /** One extent more copied: its own bytes were still where they were. */
  lemma {:induction false} OneMoreCopied(p: Plan, sector: Pos, n: nat, k: nat, was: Bytes, b: Bytes, c: Bytes)
    requires Planned(p, sector) && n + k < |p.extents| && CopiedUpTo(p, n, k, was, b)
    requires SameBut(b, c, p.to + Reach(p.extents, n + k), p.to + Reach(p.extents, n + k + 1))
    requires Content(c, p.to + Reach(p.extents, n + k), p.extents[n+k].len) == Content(b, p.extents[n+k].at, p.extents[n+k].len)
    ensures CopiedUpTo(p, n, k + 1, was, c)
  {
    hide Planned, Content, Reach, SameBut;
    ReachGrows(p.extents, n, n + k);
    ReachGrows(p.extents, n + k, n + k + 1);
    assert SameBut(was, c, p.to + Reach(p.extents, n), p.to + Reach(p.extents, n + k + 1)) by {
      SameButMore(was, b, c, p.to + Reach(p.extents, n), p.to + Reach(p.extents, n + k), p.to + Reach(p.extents, n + k + 1));
    }
    OwnBytesKept(p, sector, n, k, was, b);
    forall j | n <= j < n + k
      ensures Content(c, p.to + Reach(p.extents, j), p.extents[j].len) == Content(b, p.to + Reach(p.extents, j), p.extents[j].len)
    {
      ReachGrows(p.extents, j, n + k);
      SameOutside(b, c, p.to + Reach(p.extents, n + k), p.to + Reach(p.extents, n + k + 1), p.to + Reach(p.extents, j), p.extents[j].len);
    }
  }

  lemma {:induction false} SameButMore(was: Bytes, b: Bytes, c: Bytes, lo: nat, mid: nat, hi: nat)
    requires lo <= mid <= hi && SameBut(was, b, lo, mid) && SameBut(b, c, mid, hi)
    ensures SameBut(was, c, lo, hi)
  {
  }

  lemma {:induction false} OwnBytesKept(p: Plan, sector: Pos, n: nat, k: nat, was: Bytes, b: Bytes)
    requires Planned(p, sector) && n + k < |p.extents|
    requires SameBut(was, b, p.to + Reach(p.extents, n), p.to + Reach(p.extents, n + k))
    ensures Content(b, p.extents[n+k].at, p.extents[n+k].len) == Content(was, p.extents[n+k].at, p.extents[n+k].len)
  {
    hide Planned, Content, Reach, SameBut;
    GroupsDiffer(p, sector);
    InsideOwn(p, sector, n + k);
    InsideGroup(p, sector, n + k);
    GroupFits(p, sector, n + k);
    SameOutside(was, b, p.to + Reach(p.extents, n), p.to + Reach(p.extents, n + k), p.extents[n+k].at, p.extents[n+k].len);
  }

  /** An extent moved before the batch: the batch is copied behind it. */
  lemma {:induction false} ContentBefore(p: Plan, sector: Pos, n: nat, k: nat, was: Bytes, b: Bytes, i: nat)
    requires Planned(p, sector) && i < n && n + k <= |p.extents| && CopiedUpTo(p, n, k, was, b)
    ensures Content(b, p.to + Reach(p.extents, i), p.extents[i].len) == Content(was, p.to + Reach(p.extents, i), p.extents[i].len)
  {
    hide Planned, Reach, Content, SameBut;
    ReachGrows(p.extents, i, n);
    SameOutside(was, b, p.to + Reach(p.extents, n), p.to + Reach(p.extents, n + k), p.to + Reach(p.extents, i), p.extents[i].len);
  }

  /** An extent that is not moved: it is outside the new group. */
  lemma {:induction false} ContentApart(p: Plan, sector: Pos, n: nat, k: nat, was: Bytes, b: Bytes, a: nat)
    requires Planned(p, sector) && n + k <= |p.extents| && CopiedUpTo(p, n, k, was, b) && a in p.o.extents
    ensures Content(b, a, p.o.extents[a].len) == Content(was, a, p.o.extents[a].len)
  {
    hide Planned, Reach, Content, SameBut;
    OutsideNew(p, sector, a);
    GroupFits(p, sector, n + k);
    SameOutside(was, b, p.to + Reach(p.extents, n), p.to + Reach(p.extents, n + k), a, p.o.extents[a].len);
  }

  /** Where an extent is before and after the batch: both places, or where it was. */
  lemma {:induction false} PlacesOf(p: Plan, sector: Pos, n: nat, w: map<nat, nat>, a: nat) returns (i: nat)
    requires Planned(p, sector) && n <= |p.extents| && Places(p, n, w) && a in w
    ensures i <= |p.extents| && (i < |p.extents| ==> p.extents[i].at == a && p.extents[i].len == p.o.extents[a].len)
    ensures a in p.o.extents && w[a] == if i < n then p.to + Reach(p.extents, i) else a
    ensures i == |p.extents| ==> !ListedAt(p.extents, |p.extents|, a)
  {
    hide Planned, Reach;
    if ListedAt(p.extents, |p.extents|, a) {
      i :| 0 <= i < |p.extents| && p.extents[i].at == a;
      ListedLength(p, sector, i);
      if i >= n { NotListed(p, sector, n, i); }
    } else {
      i := |p.extents|;
      FewerListed(p.extents, n, |p.extents|, a);
    }
  }

  lemma {:induction false} ListedTwice(p: Plan, sector: Pos, i: nat, j: nat)
    requires Planned(p, sector) && i < |p.extents| && j < |p.extents| && p.extents[i].at == p.extents[j].at
    ensures i == j
  {
    hide Valid, Allocator.Clear;
  }

  /** One extent's bytes are where the batch's commit will say. */
  lemma {:induction false} OneContent(p: Plan, sector: Pos, n: nat, m: nat, was: Bytes, b: Bytes, w: map<nat, nat>, v: map<nat, nat>, a: nat)
    requires Planned(p, sector) && n <= m <= |p.extents| && Places(p, n, w) && Places(p, m, v) && CopiedUpTo(p, n, m - n, was, b) && a in v
    ensures a in w && a in p.o.extents && Content(b, v[a], p.o.extents[a].len) == Content(was, w[a], p.o.extents[a].len)
  {
    hide Planned, Reach, Content, Places, CopiedUpTo;
    SameKeys(p, n, m, w, v);
    var i := PlacesOf(p, sector, m, v, a);
    var j := PlacesOf(p, sector, n, w, a);
    if i < |p.extents| && j < |p.extents| { ListedTwice(p, sector, i, j); }
    hide ListedAt;
    if i < n {
      ContentBefore(p, sector, n, m - n, was, b, i);
    } else if i < m {
      CopiedOne(p, n, m - n, was, b, i);
    } else {
      ContentApart(p, sector, n, m - n, was, b, a);
    }
  }

  lemma {:induction false} SameKeys(p: Plan, n: nat, m: nat, w: map<nat, nat>, v: map<nat, nat>)
    requires n <= |p.extents| && m <= |p.extents| && Places(p, n, w) && Places(p, m, v)
    ensures w.Keys == v.Keys == p.o.extents.Keys
  {
  }

  lemma {:induction false} CopiedOne(p: Plan, n: nat, k: nat, was: Bytes, b: Bytes, j: nat)
    requires n + k <= |p.extents| && CopiedUpTo(p, n, k, was, b) && n <= j < n + k
    ensures Content(b, p.to + Reach(p.extents, j), p.extents[j].len) == Content(was, p.extents[j].at, p.extents[j].len)
  {
    hide Reach, Content, SameBut;
  }

  /** With the batch copied, the bytes are where its commit will say. */
  lemma {:induction false} CopiedContent(p: Plan, sector: Pos, n: nat, m: nat, was: Bytes, b: Bytes, o: Disk, ob: Bytes, w: map<nat, nat>, v: map<nat, nat>)
    requires Planned(p, sector) && n <= m <= |p.extents| && Places(p, n, w) && Places(p, m, v) && CopiedUpTo(p, n, m - n, was, b)
    requires o.extents == p.o.extents && SameContent(o, ob, was, w)
    ensures SameContent(o, ob, b, v)
  {
    hide Planned, Content, Places, CopiedUpTo, Reach;
    SameKeys(p, n, m, w, v);
    forall a | a in v ensures Content(b, v[a], o.extents[a].len) == Content(ob, a, o.extents[a].len) {
      OneContent(p, sector, n, m, was, b, w, v, a);
    }
  }

  lemma {:induction false} OutsideNew(p: Plan, sector: Pos, a: nat)
    requires Planned(p, sector) && a in p.o.extents
    ensures a + p.o.extents[a].len <= p.to || p.to + p.length <= a
  {
    hide Valid, Allocator.Clear, Lists;
  }

  lemma {:induction false} PackedGaps(p: Plan, sector: Pos, n: nat)
    requires Planned(p, sector) && n <= |p.extents|
    ensures NoneEmpty(PackedRuns(p, n))
    ensures forall i | 0 <= i < n :: PackedRuns(p, n)[i].start < p.to + p.length
    ensures forall i | 0 <= i < n :: PackedRuns(p, n)[i].start == Cursor(BlockGroup(p.to, p.length), PackedRuns(p, n), i)
  {
    hide Planned;
    LensPositive(p, sector);
    GroupFits(p, sector, n);
    forall i | 0 <= i < n ensures Reach(p.extents, i) < p.length { ReachGrows(p.extents, i, n); }
  }

  lemma {:induction false} SoundMidway(p: Plan, sector: Pos, n: nat, d: Disk, w: map<nat, nat>)
    requires Planned(p, sector) && n <= |p.extents| && MovedUpTo(p, n, d, w)
    ensures Sound(d.chunks) && Allocator.OnGrid(d.chunks) && d.chunks == p.o.chunks
  {
    hide Lists, AllMapped, Tidy, Allocator.Clear, Renamed, Places, GroupsAfter, Sound, Allocator.OnGrid;
  }

  /** No extent reaches into what is still free of the new group. */
  lemma {:induction false} FreeUnused(p: Plan, sector: Pos, n: nat, d: Disk, w: map<nat, nat>, dirty: seq<FreeExtent>)
    requires Planned(p, sector) && n <= |p.extents| && MovedUpTo(p, n, d, w)
    requires DirtyWithin([], dirty, p.to + Reach(p.extents, n), p.to + p.length)
    ensures Untouched(d, dirty)
  {
    hide Planned, MovedUpTo, In, Reach, ListedAt;
    InNone();
    forall x: nat, b | In(dirty, x) && b in d.extents ensures x < b || b + d.extents[b].len <= x {
      var a, i := WhereFrom(p, sector, n, d, w, b);
    }
  }

  /** A run of moves so far: the state, and the bytes where it says. */
  ghost predicate InRun(p: Plan, n: nat, d: Disk, w: map<nat, nat>, o: Disk, ob: Bytes, b: Bytes) {
    && n <= |p.extents| && p.o.extents == o.extents && p.o.items == o.items
    && MovedUpTo(p, n, d, w) && w.Keys == o.extents.Keys && SameContent(o, ob, b, w)
  }

  /** Every moment since `was` keeps every file. */
  ghost predicate AllKept(was: seq<Moment>, now: seq<Moment>, o: Disk, ob: Bytes, start: nat, to: nat, length: nat, sector: Pos) {
    && |was| <= |now| && now[..|was|] == was
    && forall i | |was| <= i < |now| :: Kept(o, ob, now[i], start, to, length, sector)
  }

  // ------------------------------------------------------------------ an empty group

  /** Nothing is in use in the group: neither its count nor any extent says so. */
  ghost predicate Empty(d: Disk, g: nat) {
    g in d.groups && d.groups[g].used == 0 && ListIn(d.extents, g, g + d.groups[g].length) == []
  }

  function WithoutAt(chunks: seq<Chunk>, i: nat): seq<Chunk>
    requires i < |chunks|
  {
    chunks[..i] + chunks[i+1..]
  }

  /** The group's item and its chunk are gone, and nothing else is. */
  ghost predicate RemovedFrom(d: Disk, g: nat, now: Disk) {
    && g in d.groups
    && exists i :: 0 <= i < |d.chunks| && ChunkOf(d.chunks, i, g, d.groups[g].length) && now == Disk(WithoutAt(d.chunks, i), d.groups - {g}, d.extents, d.items)
  }

  lemma {:induction false} WithoutAtIs(chunks: seq<Chunk>, i: nat)
    requires i < |chunks|
    ensures forall j | 0 <= j < |chunks| - 1 :: WithoutAt(chunks, i)[j] == chunks[if j < i then j else j + 1]
  {
  }

  lemma {:induction false} SoundWithout(chunks: seq<Chunk>, i: nat)
    requires Sound(chunks) && Allocator.OnGrid(chunks) && i < |chunks|
    ensures Sound(WithoutAt(chunks, i)) && Allocator.OnGrid(WithoutAt(chunks, i))
  {
    var fewer := WithoutAt(chunks, i);
    WithoutAtIs(chunks, i);
    hide WellFormed, PerStripe, WholeRows, Allocator.StripesOnGrid, WithoutAt, StripesApart;
    assert Ordered(fewer);
    assert StripesFit(fewer);
    forall a, s, b, t | 0 <= a < |fewer| && 0 <= s < |fewer[a].stripes| && 0 <= b < |fewer| && 0 <= t < |fewer[b].stripes| && (a != b || s != t)
      ensures StripesApart(fewer[a].stripes[s], PerStripe(fewer[a]), fewer[b].stripes[t], PerStripe(fewer[b]))
    {
      var c, e := if a < i then a else a + 1, if b < i then b else b + 1;
      assert fewer[a] == chunks[c] && fewer[b] == chunks[e];
    }
  }

  lemma {:induction false} RemovedValid(d: Disk, sector: Pos, g: nat, i: nat)
    requires Valid(d, sector) && Empty(d, g) && i < |d.chunks| && ChunkOf(d.chunks, i, g, d.groups[g].length)
    ensures Valid(Disk(WithoutAt(d.chunks, i), d.groups - {g}, d.extents, d.items), sector)
  {
    hide Sound, Allocator.OnGrid, ListIn, Apart, WithoutAt, Mapped, ChunkOf, InGroups, Whole;
    SoundWithout(d.chunks, i);
    forall h | h in d.groups - {g} ensures Mapped(WithoutAt(d.chunks, i), h, d.groups[h].length, sector) {
      StillMapped(d.chunks, i, g, d.groups[g].length, h, d.groups[h].length, sector);
    }
    forall a | a in d.extents ensures InGroups(d.groups - {g}, a, d.extents[a].len) {
      StillHoused(d, sector, g, a);
    }
  }

  lemma {:induction false} StillMapped(chunks: seq<Chunk>, i: nat, g: nat, length: nat, h: nat, other: nat, sector: Pos)
    requires i < |chunks| && ChunkOf(chunks, i, g, length) && h != g && Mapped(chunks, h, other, sector)
    ensures Mapped(WithoutAt(chunks, i), h, other, sector)
  {
    WithoutAtIs(chunks, i);
    var j :| 0 <= j < |chunks| && ChunkOf(chunks, j, h, other);
    hide WithoutAt, Translatable;
    assert ChunkOf(WithoutAt(chunks, i), if j < i then j else j - 1, h, other);
  }

  lemma {:induction false} StillHoused(d: Disk, sector: Pos, g: nat, a: nat)
    requires Tidy(d, sector) && Empty(d, g) && a in d.extents
    ensures InGroups(d.groups - {g}, a, d.extents[a].len)
  {
    ListInIs(d.extents, g, g + d.groups[g].length);
    hide ListIn, Apart, Named;
    assert InGroups(d.groups, a, d.extents[a].len);
    var h :| h in d.groups && h <= a && a + d.extents[a].len <= h + d.groups[h].length;
    assert h != g;
    assert h in d.groups - {g};
  }

  // ------------------------------------------------------------------- the volume

  /** The runs written since are those there were, and others from `lo` up to `hi`. */
  ghost predicate DirtyWithin(before: seq<FreeExtent>, after: seq<FreeExtent>, lo: nat, hi: nat) {
    forall x: nat :: In(after, x) ==> In(before, x) || lo <= x < hi
  }

  /** Since `was`, nothing has been committed, and only bytes from `lo` up to `hi` written. */
  ghost predicate OnlyWrote(was: seq<Moment>, now: seq<Moment>, d: Disk, stable: Bytes, before: seq<FreeExtent>, lo: nat, hi: nat) {
    && |was| <= |now| && now[..|was|] == was
    && forall i | |was| <= i < |now| :: now[i].disk == d && now[i].stable == stable && DirtyWithin(before, now[i].dirty, lo, hi)
  }

  lemma {:induction false} WroteMore(was: seq<Moment>, mid: seq<Moment>, now: seq<Moment>, d: Disk, stable: Bytes,
                                     before: seq<FreeExtent>, between: seq<FreeExtent>, lo: nat, at: nat, hi: nat, top: nat)
    requires lo <= at <= hi <= top
    requires OnlyWrote(was, mid, d, stable, before, lo, top) && DirtyWithin(before, between, lo, top)
    requires OnlyWrote(mid, now, d, stable, between, at, hi)
    ensures OnlyWrote(was, now, d, stable, before, lo, top)
  {
    hide In;
    assert now[..|was|] == now[..|mid|][..|was|];
    forall i | |was| <= i < |now| ensures now[i].disk == d && now[i].stable == stable && DirtyWithin(before, now[i].dirty, lo, top) {
      if i < |mid| { assert now[i] == now[..|mid|][i]; }
    }
  }

  lemma {:induction false} DirtyMore(before: seq<FreeExtent>, between: seq<FreeExtent>, after: seq<FreeExtent>, lo: nat, at: nat, hi: nat, top: nat)
    requires lo <= at <= hi <= top && DirtyWithin(before, between, lo, top) && DirtyWithin(between, after, at, hi)
    ensures DirtyWithin(before, after, lo, top)
  {
    hide In;
  }

  /** Bytes not written since the flush are as it left them. */
  ghost predicate Settled(dirty: seq<FreeExtent>, stable: Bytes, b: Bytes) { forall x: nat :: !In(dirty, x) ==> b(x) == stable(x) }

  lemma {:induction false} ContentJoins(b: Bytes, at: nat, n: nat, k: nat)
    ensures Content(b, at, n + k) == Content(b, at, n) + Content(b, at + n, k)
  {
  }

  lemma {:induction false} ContentIs(b: Bytes, at: nat, buf: seq<byte>)
    requires forall i: nat {:trigger buf[i]} | i < |buf| :: b(at + i) == buf[i]
    ensures Content(b, at, |buf|) == buf
  {
  }

  lemma {:induction false} StillSettled(dirty: seq<FreeExtent>, stable: Bytes, b: Bytes, c: Bytes, at: nat, len: nat)
    requires Settled(dirty, stable, b) && SameBut(b, c, at, at + len)
    ensures Settled(dirty + [FreeExtent(at, len)], stable, c)
  {
    InAppendAll(dirty, FreeExtent(at, len));
  }

  lemma {:induction false} NoContent(b: Bytes, at: nat, place: nat) ensures Content(b, at, 0) == Content(b, place, 0) {}

  lemma {:induction false} ContentLength(b: Bytes, at: nat, n: nat) ensures |Content(b, at, n)| == n {}

  /** One write more, and the moment it makes. */
  lemma {:induction false} WroteOne(dirty: seq<FreeExtent>, moments: seq<Moment>, d: Disk, stable: Bytes, at: nat, n: nat)
    ensures var more := dirty + [FreeExtent(at, n)];
      DirtyWithin(dirty, more, at, at + n) && OnlyWrote(moments, moments + [Moment(d, stable, more)], d, stable, dirty, at, at + n)
  {
    InAppendAll(dirty, FreeExtent(at, n));
    hide In;
  }

  lemma {:induction false} PieceCopied(first: Bytes, was: Bytes, now: Bytes, at: nat, place: nat, len: nat, done: nat, n: nat)
    requires (at + len <= place || place + len <= at) && done + n <= len
    requires SameBut(first, was, place, place + len) && SameBut(was, now, place + done, place + done + n)
    requires Content(was, place, done) == Content(first, at, done)
    requires Content(now, place + done, n) == Content(was, at + done, n)
    ensures Content(now, place, done + n) == Content(first, at, done + n) && SameBut(first, now, place, place + len)
  {
    SameOutside(first, was, place, place + len, at + done, n);
    SameOutside(was, now, place + done, place + done + n, place, done);
    ContentJoins(now, place, done, n);
    ContentJoins(first, at, done, n);
    hide Content;
  }

  /** Nothing is committed and nothing written but from `lo` up to `hi`. */
  ghost predicate Writing(first: Bytes, b: Bytes, d: Disk, stable: Bytes, before: seq<FreeExtent>, dirty: seq<FreeExtent>,
                          was: seq<Moment>, now: seq<Moment>, lo: nat, hi: nat) {
    && SameBut(first, b, lo, hi) && Settled(dirty, stable, b)
    && DirtyWithin(before, dirty, lo, hi) && OnlyWrote(was, now, d, stable, before, lo, hi)
  }

  lemma {:induction false} WritingSettled(first: Bytes, b: Bytes, d: Disk, stable: Bytes, before: seq<FreeExtent>, dirty: seq<FreeExtent>,
                                          was: seq<Moment>, now: seq<Moment>, lo: nat, hi: nat)
    requires Writing(first, b, d, stable, before, dirty, was, now, lo, hi)
    ensures Settled(dirty, stable, b)
  {
  }

  lemma {:induction false} WritingOn(first: Bytes, b: Bytes, c: Bytes, d: Disk, stable: Bytes,
                                     before: seq<FreeExtent>, dirty: seq<FreeExtent>, more: seq<FreeExtent>,
                                     was: seq<Moment>, now: seq<Moment>, later: seq<Moment>, lo: nat, at: nat, hi: nat, top: nat)
    requires lo <= at <= hi <= top && Writing(first, b, d, stable, before, dirty, was, now, lo, top)
    requires SameBut(b, c, at, hi) && Settled(more, stable, c) && DirtyWithin(dirty, more, at, hi)
    requires OnlyWrote(now, later, d, stable, dirty, at, hi)
    ensures Writing(first, c, d, stable, before, more, was, later, lo, top)
  {
    hide SameBut, DirtyWithin, OnlyWrote, Settled;
    SameButWider(first, b, c, lo, at, hi, top);
    DirtyMore(before, dirty, more, lo, at, hi, top);
    WroteMore(was, now, later, d, stable, before, dirty, lo, at, hi, top);
  }

  lemma {:induction false} NothingCopied(p: Plan, n: nat, b: Bytes)
    requires n <= |p.extents|
    ensures CopiedUpTo(p, n, 0, b, b)
  {
  }

  lemma {:induction false} NothingWritten(b: Bytes, d: Disk, stable: Bytes, dirty: seq<FreeExtent>, moments: seq<Moment>, lo: nat, hi: nat)
    requires Settled(dirty, stable, b)
    ensures Writing(b, b, d, stable, dirty, dirty, moments, moments, lo, hi)
  {
  }

  lemma {:induction false} SameButWider(first: Bytes, was: Bytes, now: Bytes, lo: nat, at: nat, hi: nat, top: nat)
    requires lo <= at <= hi <= top && SameBut(first, was, lo, top) && SameBut(was, now, at, hi)
    ensures SameBut(first, now, lo, top)
  {
  }

  /** The next extent's place lies in what is left of the new group, away from where it is. */
  lemma {:induction false} NextRoom(p: Plan, sector: Pos, n: nat, k: nat)
    requires Planned(p, sector) && n + k < |p.extents|
    ensures var e, place := p.extents[n+k], p.to + Reach(p.extents, n + k);
      && (e.at + e.len <= place || place + e.len <= e.at)
      && p.to + Reach(p.extents, n) <= place && place + e.len == p.to + Reach(p.extents, n + k + 1) <= p.to + p.length
  {
    hide Planned;
    GroupsDiffer(p, sector);
    InsideOwn(p, sector, n + k);
    InsideGroup(p, sector, n + k);
    GroupFits(p, sector, n + k + 1);
    ReachGrows(p.extents, n, n + k);
  }

  lemma {:induction false} RunMeans(p: Plan, n: nat, d: Disk, w: map<nat, nat>, o: Disk, ob: Bytes, b: Bytes)
    requires InRun(p, n, d, w, o, ob, b)
    ensures n <= |p.extents| && MovedUpTo(p, n, d, w)
  {
  }

  lemma {:induction false} SameContentStill(o: Disk, ob: Bytes, b: Bytes, c: Bytes, w: map<nat, nat>, d: Disk, dirty: seq<FreeExtent>)
    requires Renamed(o, d, w) && SameContent(o, ob, b, w) && Untouched(d, dirty)
    requires forall x: nat :: !In(dirty, x) ==> c(x) == b(x)
    ensures SameContent(o, ob, c, w)
  {
    hide In, Content;
    forall a | a in w ensures Content(c, w[a], o.extents[a].len) == Content(b, w[a], o.extents[a].len) {
      CrashKeepsExtent(o, Moment(d, b, dirty), c, w, a);
    }
  }

  /** While a batch is written, no moment loses a file. */
  lemma {:induction false} WritingKept(p: Plan, sector: Pos, n: nat, w: map<nat, nat>, o: Disk, ob: Bytes, first: Bytes, b: Bytes, d: Disk,
                                       stable: Bytes, dirty: seq<FreeExtent>, was: seq<Moment>, now: seq<Moment>)
    requires Planned(p, sector) && InRun(p, n, d, w, o, ob, first) && Settled([], stable, first)
    requires Writing(first, b, d, stable, [], dirty, was, now, p.to + Reach(p.extents, n), p.to + p.length)
    ensures AllKept(was, now, o, ob, p.start, p.to, p.length, sector)
    ensures Untouched(d, dirty) && Settled(dirty, stable, b) && InRun(p, n, d, w, o, ob, b)
  {
    hide Planned, MovedUpTo, SameContent, Kept, Reach, Untouched, In;
    InNone();
    FreeUnused(p, sector, n, d, w, dirty);
    FreeUnused(p, sector, n, d, w, []) by { assert DirtyWithin([], [], p.to + Reach(p.extents, n), p.to + p.length); }
    StableContent(p, n, d, w, o, ob, first, stable);
    forall i | |was| <= i < |now| ensures Kept(o, ob, now[i], p.start, p.to, p.length, sector) {
      FreeUnused(p, sector, n, d, w, now[i].dirty);
      MidwayIsKept(p, sector, n, w, o, ob, now[i]);
    }
    LaterContent(p, n, d, w, o, ob, stable, b, dirty);
  }

  lemma {:induction false} RenamedRun(p: Plan, n: nat, d: Disk, w: map<nat, nat>, o: Disk)
    requires n <= |p.extents| && MovedUpTo(p, n, d, w) && p.o.extents == o.extents && p.o.items == o.items
    ensures Renamed(o, d, w)
  {
    hide Places, GroupsAfter, RecordsMoved, ItemsMoved;
  }

  lemma {:induction false} StableContent(p: Plan, n: nat, d: Disk, w: map<nat, nat>, o: Disk, ob: Bytes, first: Bytes, stable: Bytes)
    requires InRun(p, n, d, w, o, ob, first) && Settled([], stable, first)
    ensures SameContent(o, ob, stable, w)
  {
    InNone();
    hide In, Content, MovedUpTo;
    forall a | a in w ensures Content(stable, w[a], o.extents[a].len) == Content(first, w[a], o.extents[a].len) {
      SameBytesSameContent(stable, first, w[a], o.extents[a].len);
    }
  }

  lemma {:induction false} LaterContent(p: Plan, n: nat, d: Disk, w: map<nat, nat>, o: Disk, ob: Bytes, stable: Bytes, b: Bytes, dirty: seq<FreeExtent>)
    requires n <= |p.extents| && MovedUpTo(p, n, d, w) && p.o.extents == o.extents && p.o.items == o.items
    requires w.Keys == o.extents.Keys && SameContent(o, ob, stable, w) && Untouched(d, dirty) && Settled(dirty, stable, b)
    ensures SameContent(o, ob, b, w)
  {
    RenamedRun(p, n, d, w, o);
    hide MovedUpTo, Renamed, SameContent, Untouched;
    SameContentStill(o, ob, stable, b, w, d, dirty);
  }

  lemma {:induction false} CommitKept(p: Plan, sector: Pos, n: nat, m: nat, d: Disk, now: Disk, w: map<nat, nat>, v: map<nat, nat>, o: Disk, ob: Bytes,
                                      was: Bytes, b: Bytes, first: seq<Moment>, before: seq<Moment>)
    requires Planned(p, sector) && n <= m <= |p.extents| && InRun(p, n, d, w, o, ob, was)
    requires CopiedUpTo(p, n, m - n, was, b) && MovedUpTo(p, m, now, v)
    requires AllKept(first, before, o, ob, p.start, p.to, p.length, sector)
    ensures InRun(p, m, now, v, o, ob, b) && Untouched(now, []) && Settled([], b, b)
    ensures AllKept(first, before + [Moment(now, b, [])], o, ob, p.start, p.to, p.length, sector)
  {
    hide Planned, SameContent, CopiedUpTo, Kept, Places, MovedUpTo, In;
    InNone();
    WhereSays(p, n, d, w);
    WhereSays(p, m, now, v);
    CopiedContent(p, sector, n, m, was, b, o, ob, w, v);
    var last := Moment(now, b, []);
    MidwayIsKept(p, sector, m, v, o, ob, last);
    var all := before + [last];
    assert all[..|first|] == before[..|first|];
    forall i | |first| <= i < |all| ensures Kept(o, ob, all[i], p.start, p.to, p.length, sector) {
      assert i < |before| ==> all[i] == before[i];
    }
  }

  lemma {:induction false} OneChunkAt(chunks: seq<Chunk>, i: nat, j: nat)
    requires Sound(chunks) && i < |chunks| && j < |chunks| && chunks[i].logical == chunks[j].logical
    ensures i == j
  {
    ChunkHasBytes(chunks, i);
    ChunkHasBytes(chunks, j);
    hide WellFormed, DeviceExtentsDisjoint, StripesFit;
  }
}
