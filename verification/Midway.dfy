/** A relocation between two of its commits (src/balance.rs): the extents moved so far
    packed from the start of the new group, the others where they were. */
module Midway {
  import opened Base
  import opened ChunkMap
  import opened FreeSpace
  import opened Moving
  import Allocator

  // ------------------------------------------------------------ what a group's walk lists

  /** The addresses of the extents from `lo` up to `hi`, in order. */
  function ListIn(extents: map<nat, Rec>, lo: nat, hi: nat): seq<nat> {
    if hi <= lo then [] else ListIn(extents, lo, hi - 1) + if hi - 1 in extents then [hi - 1] else []
  }

  ghost predicate Rising(s: seq<nat>) { forall i, j | 0 <= i < j < |s| :: s[i] < s[j] }

  lemma {:induction false} ListInIs(extents: map<nat, Rec>, lo: nat, hi: nat)
    ensures Rising(ListIn(extents, lo, hi))
    ensures forall a: nat :: a in ListIn(extents, lo, hi) <==> a in extents && lo <= a < hi
    decreases hi
  {
    if lo < hi {
      ListInIs(extents, lo, hi - 1);
      var init := ListIn(extents, lo, hi - 1);
      assert forall i | 0 <= i < |init| :: init[i] in init;
    }
  }

  /** A rising list is told by its members. */
  lemma {:induction false} RisingSame(s: seq<nat>, t: seq<nat>)
    requires Rising(s) && Rising(t) && forall a: nat :: a in s <==> a in t
    ensures s == t
  {
    if s == [] {
      assert forall i | 0 <= i < |t| :: t[i] in t;
    } else {
      var x := s[|s|-1];
      assert x in t && t[|t|-1] in s;
      var init, tail := s[..|s|-1], t[..|t|-1];
      var i :| 0 <= i < |s| && s[i] == t[|t|-1];
      var j :| 0 <= j < |t| && t[j] == x;
      assert t[|t|-1] == x;
      forall a: nat ensures a in init <==> a in tail {
        LastIsMore(s, a);
        LastIsMore(t, a);
      }
      RisingSame(init, tail);
    }
  }

  lemma {:induction false} LastIsMore(s: seq<nat>, a: nat)
    requires Rising(s) && s != []
    ensures a in s[..|s|-1] <==> a in s && a != s[|s|-1]
  {
    if a in s && a != s[|s|-1] {
      var i :| 0 <= i < |s| && s[i] == a;
      assert s[..|s|-1][i] == a;
    }
  }

  /** The group's extents as a walk lists them, each with its length and its items. */
  ghost predicate Lists(d: Disk, lo: nat, hi: nat, extents: seq<DataExtent>) {
    && (forall i | 0 <= i < |extents| :: extents[i].at in d.extents && lo <= extents[i].at < hi)
    && (forall i | 0 <= i < |extents| :: extents[i].len == d.extents[extents[i].at].len && extents[i].items == ItemsOf(d.items, extents[i].at))
    && (forall i, j | 0 <= i < j < |extents| :: extents[i].at < extents[j].at)
    && (forall a | a in d.extents && lo <= a < hi :: ListedAt(extents, |extents|, a))
  }

  /** One of the first `n` extents is the one at `a`. */
  ghost predicate ListedAt(extents: seq<DataExtent>, n: nat, a: nat)
    requires n <= |extents|
  {
    exists i :: 0 <= i < n && extents[i].at == a
  }

  // ------------------------------------------------------------------------------ sums

  /** How far into the new group the first `n` extents reach. */
  function Reach(extents: seq<DataExtent>, n: nat): nat
    requires n <= |extents|
  {
    if n == 0 then 0 else Reach(extents, n - 1) + extents[n-1].len
  }

  lemma {:induction false} ReachIsSum(extents: seq<DataExtent>, n: nat, m: nat, k: nat)
    requires n + k <= m <= |extents|
    ensures Reach(extents, n + k) == Reach(extents, n) + Allocator.Sum(Lens(extents[n..m])[..k])
    decreases k
  {
    var lens := Lens(extents[n..m]);
    if k > 0 {
      ReachIsSum(extents, n, m, k - 1);
      assert lens[..k][..k-1] == lens[..k-1];
      assert lens[k-1] == extents[n+k-1].len;
    } else {
      assert lens[..0] == [];
    }
  }

  lemma {:induction false} ReachGrows(extents: seq<DataExtent>, n: nat, m: nat)
    requires n <= m <= |extents|
    ensures Reach(extents, n) <= Reach(extents, m)
    ensures n < m ==> Reach(extents, n) + extents[n].len <= Reach(extents, m)
    decreases m
  {
    if n < m { ReachGrows(extents, n, m - 1); }
  }

  // ---------------------------------------------------------------------------- validity

  ghost predicate Apart(extents: map<nat, Rec>) { forall a, b | a in extents && b in extents && a < b :: a + extents[a].len <= b }

  ghost predicate Whole(extents: map<nat, Rec>, sector: Pos) {
    forall a | a in extents :: extents[a].len > 0 && extents[a].len % sector == 0
  }

  ghost predicate Housed(d: Disk) { forall a | a in d.extents :: InGroups(d.groups, a, d.extents[a].len) }

  ghost predicate InGroups(groups: map<nat, Group>, a: nat, len: nat) {
    exists g :: g in groups && g <= a && a + len <= g + groups[g].length
  }

  /** A block group is one chunk's bytes, whole sectors of them. */
  ghost predicate Mapped(chunks: seq<Chunk>, g: nat, length: nat, sector: Pos) {
    && g % sector == 0 && length % sector == 0
    && exists i :: 0 <= i < |chunks| && ChunkOf(chunks, i, g, length)
  }

  ghost predicate ChunkOf(chunks: seq<Chunk>, i: nat, g: nat, length: nat)
    requires i < |chunks|
  {
    chunks[i].logical == g && chunks[i].length == length && Translatable(chunks[i])
  }

  ghost predicate AllMapped(d: Disk, sector: Pos) { forall g | g in d.groups :: Mapped(d.chunks, g, d.groups[g].length, sector) }

  /** Extents apart, whole, each inside a block group, and every item naming one. */
  ghost predicate Tidy(d: Disk, sector: Pos) {
    Apart(d.extents) && Whole(d.extents, sector) && Housed(d) && Named(d)
  }

  ghost predicate Valid(d: Disk, sector: Pos) {
    Sound(d.chunks) && Allocator.OnGrid(d.chunks) && AllMapped(d, sector) && Tidy(d, sector)
  }

  // -------------------------------------------------------------------- between commits

  /** What does not change while a group's extents are moved: `o` is the state the new,
      empty group at `to` was committed with, and `extents` all those of the old one. */
  datatype Plan = Plan(o: Disk, extents: seq<DataExtent>, start: nat, to: nat, length: nat)

  ghost predicate Planned(p: Plan, sector: Pos) {
    && Valid(p.o, sector) && Lists(p.o, p.start, p.start + p.length, p.extents)
    && p.start in p.o.groups && p.to in p.o.groups && p.o.groups[p.start].length == p.o.groups[p.to].length == p.length
    && p.o.groups[p.start].used == Reach(p.extents, |p.extents|) && p.o.groups[p.to].used == 0
    && (p.start + p.length <= p.to || p.to + p.length <= p.start)
    && (forall a | a in p.o.extents :: a + p.o.extents[a].len <= p.to || p.to + p.length <= a)
    && Allocator.Clear(p.o.chunks, p.to, p.length)
  }

  /** Where each extent is once the first `n` are moved. */
  ghost predicate Places(p: Plan, n: nat, w: map<nat, nat>)
    requires n <= |p.extents|
  {
    && w.Keys == p.o.extents.Keys
    && (forall i | 0 <= i < n :: p.extents[i].at in w && w[p.extents[i].at] == p.to + Reach(p.extents, i))
    && (forall a | a in w && !ListedAt(p.extents, n, a) :: w[a] == a)
  }

  function GroupsAfter(p: Plan, n: nat): map<nat, Group>
    requires n <= |p.extents|
  {
    var all, moved := Reach(p.extents, |p.extents|), Reach(p.extents, n);
    ReachGrows(p.extents, n, |p.extents|);
    p.o.groups[p.start := Group(p.length, all - moved)][p.to := Group(p.length, moved)]
  }

  /** The state once the first `n` extents are moved. */
  ghost predicate MovedUpTo(p: Plan, n: nat, d: Disk, w: map<nat, nat>)
    requires n <= |p.extents|
  {
    Renamed(p.o, d, w) && Places(p, n, w) && d.chunks == p.o.chunks && d.groups == GroupsAfter(p, n)
  }

  lemma {:induction false} AtTheStart(p: Plan, sector: Pos)
    requires Planned(p, sector)
    ensures MovedUpTo(p, 0, p.o, map a | a in p.o.extents :: a)
  {
    hide Sound, Allocator.OnGrid, Allocator.Clear, AllMapped, RecordsMoved, ItemsMoved, Lists, Apart, Whole, Housed, Named;
    var w := map a | a in p.o.extents :: a;
    Unmoved(p.o, w);
    assert GroupsAfter(p, 0) == p.o.groups;
  }

  lemma {:induction false} Unmoved(o: Disk, w: map<nat, nat>)
    requires Named(o) && w == map a | a in o.extents :: a
    ensures RecordsMoved(o.extents, o.extents, w) && ItemsMoved(o.items, o.items, w)
  {
    forall b | b in o.extents ensures Comes(w, b) { assert w[b] == b; }
  }

  /** What fits in the old group fits in the new one. */
  lemma {:induction false} GroupFits(p: Plan, sector: Pos, n: nat)
    requires Planned(p, sector) && n <= |p.extents|
    ensures Reach(p.extents, n) <= p.length
    ensures n < |p.extents| ==> p.start + Reach(p.extents, n) <= p.extents[n].at
  {
    hide Sound, Allocator.OnGrid, Allocator.Clear, AllMapped;
    if n > 0 {
      GroupFits(p, sector, n - 1);
      InsideOwn(p, sector, n - 1);
      assert n < |p.extents| ==> p.extents[n-1].at < p.extents[n].at;
    }
  }

  /** An extent that starts in the old group ends in it. */
  lemma {:induction false} InsideOwn(p: Plan, sector: Pos, i: nat)
    requires Planned(p, sector) && i < |p.extents|
    ensures p.extents[i].at + p.extents[i].len <= p.start + p.length
  {
    var a := p.extents[i].at;
    assert InGroups(p.o.groups, a, p.o.extents[a].len);
    var g :| g in p.o.groups && g <= a && a + p.o.extents[a].len <= g + p.o.groups[g].length;
    SameGroup(p.o, sector, g, p.start, a);
  }

  /** A byte is in one block group. */
  lemma {:induction false} SameGroup(d: Disk, sector: Pos, g: nat, h: nat, a: nat)
    requires Sound(d.chunks) && AllMapped(d, sector) && g in d.groups && h in d.groups
    requires g <= a < g + d.groups[g].length && h <= a < h + d.groups[h].length
    ensures g == h
  {
    hide DeviceExtentsDisjoint, StripesFit, WellFormed;
    var i :| 0 <= i < |d.chunks| && ChunkOf(d.chunks, i, g, d.groups[g].length);
    var j :| 0 <= j < |d.chunks| && ChunkOf(d.chunks, j, h, d.groups[h].length);
  }

  // -------------------------------------------------------------------- one extent moved

  /** An extent whose turn has not come is where it was. */
  lemma {:induction false} NotYetMoved(p: Plan, sector: Pos, n: nat, d: Disk, w: map<nat, nat>, i: nat)
    requires Planned(p, sector) && n <= i < |p.extents| && MovedUpTo(p, n, d, w)
    ensures var a := p.extents[i].at;
      a in w && w[a] == a && a in d.extents && d.extents[a] == p.o.extents[a] && d.extents[a].len == p.extents[i].len
  {
    hide Sound, Allocator.OnGrid, Allocator.Clear, AllMapped, Tidy, ItemsMoved, GroupsAfter, Injective, Comes;
    assert !ListedAt(p.extents, n, p.extents[i].at);
  }

  /** A moved extent is packed behind those before it; another is outside the new group. */
  lemma {:induction false} WhereFrom(p: Plan, sector: Pos, n: nat, d: Disk, w: map<nat, nat>, b: nat) returns (a: nat, i: nat)
    requires Planned(p, sector) && n <= |p.extents| && MovedUpTo(p, n, d, w) && b in d.extents
    ensures a in w && w[a] == b && a in p.o.extents && d.extents[b] == p.o.extents[a] && i <= n && d.extents[b].len > 0
    ensures i < n ==> p.extents[i].at == a && b == p.to + Reach(p.extents, i) && d.extents[b].len == p.extents[i].len
    ensures i < n ==> p.to <= b && b + d.extents[b].len <= p.to + Reach(p.extents, n) <= p.to + p.length
    ensures i == n ==> b == a && !ListedAt(p.extents, n, a) && (b + d.extents[b].len <= p.to || p.to + p.length <= b)
  {
    hide Sound, Allocator.OnGrid, Allocator.Clear, AllMapped, Apart, Housed, Named, ItemsMoved, GroupsAfter, Injective;
    assert Comes(w, b);
    a :| a in w && w[a] == b;
    GroupFits(p, sector, n);
    if ListedAt(p.extents, n, a) {
      i :| 0 <= i < n && p.extents[i].at == a;
      ReachGrows(p.extents, i, n);
    } else {
      i := n;
    }
  }

  /** The next place in the new group is free, and so the next extent can move to it. */
  lemma {:induction false} NextPlaceFree(p: Plan, sector: Pos, n: nat, d: Disk, w: map<nat, nat>)
    requires Planned(p, sector) && n < |p.extents| && MovedUpTo(p, n, d, w)
    ensures p.to + Reach(p.extents, n) !in d.extents && Movable(d, p.extents[n], p.start, p.to)
  {
    hide Planned, MovedUpTo;
    NotYetMoved(p, sector, n, d, w, n);
    GroupsHold(p, sector, n, d, w);
    GroupFits(p, sector, n + 1);
    LensPositive(p, sector);
    if p.to + Reach(p.extents, n) in d.extents {
      var a, i := WhereFrom(p, sector, n, d, w, p.to + Reach(p.extents, n));
    }
  }

  lemma {:induction false} GroupsHold(p: Plan, sector: Pos, n: nat, d: Disk, w: map<nat, nat>)
    requires Planned(p, sector) && n < |p.extents| && MovedUpTo(p, n, d, w)
    ensures p.start != p.to && p.start in d.groups && p.to in d.groups && d.groups[p.start].used >= p.extents[n].len
  {
    hide Valid, Lists, Renamed, Places, Allocator.Clear;
    GroupFits(p, sector, n + 1);
    LensPositive(p, sector);
    GroupsNext(p, n);
  }

  lemma {:induction false} LensPositive(p: Plan, sector: Pos)
    requires Planned(p, sector)
    ensures forall i | 0 <= i < |p.extents| :: p.extents[i].len > 0 && p.extents[i].len % sector == 0
  {
    hide Sound, Allocator.OnGrid, Allocator.Clear, AllMapped, Housed, Named, Apart;
  }

  /** One more extent moved to the next place: one step of the same run. */
  lemma {:induction false} MidwayNext(p: Plan, sector: Pos, n: nat, d: Disk, w: map<nat, nat>) returns (v: map<nat, nat>)
    requires Planned(p, sector) && n < |p.extents| && MovedUpTo(p, n, d, w)
    ensures Movable(d, p.extents[n], p.start, p.to)
    ensures v == w[p.extents[n].at := p.to + Reach(p.extents, n)]
    ensures MovedUpTo(p, n + 1, MoveOne(d, p.extents[n], p.start, p.to, p.to + Reach(p.extents, n)), v)
  {
    hide Planned, Renamed, Places, Repoint, GroupsAfter, Shift;
    var e, place := p.extents[n], p.to + Reach(p.extents, n);
    v := w[e.at := place];
    NextPlaceFree(p, sector, n, d, w);
    NotYetMoved(p, sector, n, d, w, n);
    ListedOnce(p, sector, n);
    MoveRenames(p.o, d, w, e, p.start, p.to, place);
    PlacesNext(p, n, w);
    GroupsNext(p, n);
  }

  lemma {:induction false} ListedOnce(p: Plan, sector: Pos, n: nat)
    requires Planned(p, sector) && n < |p.extents|
    ensures p.extents[n].items == ItemsOf(p.o.items, p.extents[n].at) && p.start != p.to
    ensures forall i | 0 <= i < n :: p.extents[i].at != p.extents[n].at
  {
    hide Valid, Allocator.Clear;
    LensPositive(p, sector);
    GroupFits(p, sector, n + 1);
  }

  lemma {:induction false} PlacesNext(p: Plan, n: nat, w: map<nat, nat>)
    requires n < |p.extents| && Places(p, n, w) && p.extents[n].at in w
    requires forall i | 0 <= i < n :: p.extents[i].at != p.extents[n].at
    ensures Places(p, n + 1, w[p.extents[n].at := p.to + Reach(p.extents, n)])
  {
    hide Reach, ListedAt;
    var v := w[p.extents[n].at := p.to + Reach(p.extents, n)];
    assert v.Keys == w.Keys;
    forall a ensures ListedAt(p.extents, n + 1, a) <==> ListedAt(p.extents, n, a) || a == p.extents[n].at { ListedNext(p.extents, n, a); }
  }

  lemma {:induction false} ListedNext(extents: seq<DataExtent>, n: nat, a: nat)
    requires n < |extents|
    ensures ListedAt(extents, n + 1, a) <==> ListedAt(extents, n, a) || a == extents[n].at
  {
  }

  lemma {:induction false} GroupsNext(p: Plan, n: nat)
    requires n < |p.extents| && p.start != p.to
    ensures var groups, len := GroupsAfter(p, n), p.extents[n].len;
      groups[p.start].used >= len && GroupsAfter(p, n + 1) == Shift(groups, p.start, p.to, len)
  {
    ReachGrows(p.extents, n, n + 1);
    ReachGrows(p.extents, n + 1, |p.extents|);
  }

  // ----------------------------------------------------------------- the groups between

  /** The places of the first `n` extents, packed from the new group's start. */
  function PackedAts(p: Plan, n: nat): seq<nat>
    requires n <= |p.extents|
  {
    seq(n, i requires 0 <= i < n => p.to + Reach(p.extents, i))
  }

  function Ats(extents: seq<DataExtent>): seq<nat> { seq(|extents|, i requires 0 <= i < |extents| => extents[i].at) }

  /** What the new group lists is the extents moved, and what the old one lists those
      that are not. */
  lemma {:induction false} ListedMidway(p: Plan, sector: Pos, n: nat, d: Disk, w: map<nat, nat>)
    requires Planned(p, sector) && n <= |p.extents| && MovedUpTo(p, n, d, w)
    ensures ListIn(d.extents, p.to, p.to + p.length) == PackedAts(p, n)
    ensures ListIn(d.extents, p.start, p.start + p.length) == Ats(p.extents[n..])
  {
    hide Planned, MovedUpTo, ListIn;
    ListInIs(d.extents, p.to, p.to + p.length);
    ListInIs(d.extents, p.start, p.start + p.length);
    PackedRises(p, sector, n);
    AtsRise(p, sector, n);
    forall b: nat ensures b in ListIn(d.extents, p.to, p.to + p.length) <==> b in PackedAts(p, n) {
      InNew(p, sector, n, d, w, b);
    }
    forall b: nat ensures b in ListIn(d.extents, p.start, p.start + p.length) <==> b in Ats(p.extents[n..]) {
      InOld(p, sector, n, d, w, b);
    }
    RisingSame(ListIn(d.extents, p.to, p.to + p.length), PackedAts(p, n));
    RisingSame(ListIn(d.extents, p.start, p.start + p.length), Ats(p.extents[n..]));
  }

  lemma {:induction false} PackedRises(p: Plan, sector: Pos, n: nat)
    requires Planned(p, sector) && n <= |p.extents|
    ensures Rising(PackedAts(p, n))
  {
    hide Planned;
    LensPositive(p, sector);
    forall i, j | 0 <= i < j < n ensures Reach(p.extents, i) < Reach(p.extents, j) { ReachGrows(p.extents, i, j); }
  }

  lemma {:induction false} AtsRise(p: Plan, sector: Pos, n: nat)
    requires Planned(p, sector) && n <= |p.extents|
    ensures Rising(Ats(p.extents[n..]))
  {
    hide Valid, Allocator.Clear;
    var rest := p.extents[n..];
    assert forall i | 0 <= i < |rest| :: rest[i] == p.extents[n+i];
  }

  lemma {:induction false} InNew(p: Plan, sector: Pos, n: nat, d: Disk, w: map<nat, nat>, b: nat)
    requires Planned(p, sector) && n <= |p.extents| && MovedUpTo(p, n, d, w)
    ensures b in d.extents && p.to <= b < p.to + p.length <==> b in PackedAts(p, n)
  {
    hide Planned, MovedUpTo, Reach, ListedAt;
    if b in d.extents && p.to <= b < p.to + p.length {
      var a, i := WhereFrom(p, sector, n, d, w, b);
      assert PackedAts(p, n)[i] == b;
    }
    if b in PackedAts(p, n) {
      var i :| 0 <= i < n && PackedAts(p, n)[i] == b;
      MovedTo(p, n, d, w, i);
      LensPositive(p, sector);
      ReachGrows(p.extents, i, n);
      GroupFits(p, sector, n);
    }
  }

  lemma {:induction false} MovedTo(p: Plan, n: nat, d: Disk, w: map<nat, nat>, i: nat)
    requires i < n <= |p.extents| && MovedUpTo(p, n, d, w)
    ensures p.to + Reach(p.extents, i) in d.extents && p.extents[i].at in w && w[p.extents[i].at] == p.to + Reach(p.extents, i)
  {
    hide ItemsMoved, GroupsAfter, Reach;
  }

  lemma {:induction false} InOld(p: Plan, sector: Pos, n: nat, d: Disk, w: map<nat, nat>, b: nat)
    requires Planned(p, sector) && n <= |p.extents| && MovedUpTo(p, n, d, w)
    ensures b in d.extents && p.start <= b < p.start + p.length <==> b in Ats(p.extents[n..])
  {
    hide Planned, MovedUpTo, ListedAt;
    var ats := Ats(p.extents[n..]);
    if b in d.extents && p.start <= b < p.start + p.length {
      GroupsDiffer(p, sector);
      var a, i := WhereFrom(p, sector, n, d, w, b);
      StillListed(p, sector, n, b);
      var j :| n <= j < |p.extents| && p.extents[j].at == b;
      assert ats[j-n] == b;
    }
    if b in ats {
      var i :| 0 <= i < |ats| && ats[i] == b;
      assert p.extents[n+i].at == b;
      NotYetMoved(p, sector, n, d, w, n + i);
      InsideGroup(p, sector, n + i);
    }
  }

  lemma {:induction false} GroupsDiffer(p: Plan, sector: Pos)
    requires Planned(p, sector)
    ensures p.start + p.length <= p.to || p.to + p.length <= p.start
  {
    hide Valid, Lists, Allocator.Clear;
  }

  lemma {:induction false} InsideGroup(p: Plan, sector: Pos, i: nat)
    requires Planned(p, sector) && i < |p.extents|
    ensures p.start <= p.extents[i].at < p.start + p.length
  {
    hide Valid, Allocator.Clear;
  }

  /** An extent of the old group that is none of the first `n` is one of the rest. */
  lemma {:induction false} StillListed(p: Plan, sector: Pos, n: nat, a: nat)
    requires Planned(p, sector) && n <= |p.extents|
    requires a in p.o.extents && p.start <= a < p.start + p.length && !ListedAt(p.extents, n, a)
    ensures exists i :: n <= i < |p.extents| && p.extents[i].at == a
  {
    hide Valid, Allocator.Clear;
    assert ListedAt(p.extents, |p.extents|, a);
    var i :| 0 <= i < |p.extents| && p.extents[i].at == a;
    assert i >= n;
  }

  // --------------------------------------------------------------- room for the rest

  function RunsAt(extents: map<nat, Rec>, ats: seq<nat>): seq<FreeExtent>
    requires forall i | 0 <= i < |ats| :: ats[i] in extents
  {
    seq(|ats|, i requires 0 <= i < |ats| => FreeExtent(ats[i], extents[ats[i]].len))
  }

  function PackedRuns(p: Plan, n: nat): seq<FreeExtent>
    requires n <= |p.extents|
  {
    seq(n, i requires 0 <= i < n => FreeExtent(p.to + Reach(p.extents, i), p.extents[i].len))
  }

  lemma {:induction false} PackedRunsAre(p: Plan, sector: Pos, n: nat, d: Disk, w: map<nat, nat>)
    requires Planned(p, sector) && n <= |p.extents| && MovedUpTo(p, n, d, w)
    ensures forall i | 0 <= i < n :: PackedAts(p, n)[i] in d.extents
    ensures RunsAt(d.extents, PackedAts(p, n)) == PackedRuns(p, n)
  {
    hide Planned, MovedUpTo, Reach, ListedAt;
    forall i | 0 <= i < n ensures PackedAts(p, n)[i] in d.extents && d.extents[PackedAts(p, n)[i]].len == p.extents[i].len {
      MovedTo(p, n, d, w, i);
      var a, j := WhereFrom(p, sector, n, d, w, PackedAts(p, n)[i]);
      OnePlace(p, sector, n, i, j);
    }
  }

  lemma {:induction false} OnePlace(p: Plan, sector: Pos, n: nat, i: nat, j: nat)
    requires Planned(p, sector) && n <= |p.extents| && i < n && j <= n
    requires j < n ==> Reach(p.extents, i) == Reach(p.extents, j)
    ensures j < n ==> i == j
    ensures Reach(p.extents, i) < p.length
  {
    hide Planned, Reach;
    LensPositive(p, sector);
    GroupFits(p, sector, i + 1);
    ReachGrows(p.extents, i, i + 1);
    if j < n && i < j { ReachGrows(p.extents, i, j); }
    if j < n && j < i { ReachGrows(p.extents, j, i); }
  }

  lemma {:induction false} PackedBytes(p: Plan, n: nat, b: nat)
    requires n <= |p.extents|
    ensures In(PackedRuns(p, n), b) <==> p.to <= b < p.to + Reach(p.extents, n)
  {
    if n > 0 {
      PackedBytes(p, n - 1, b);
      var last := FreeExtent(p.to + Reach(p.extents, n - 1), p.extents[n-1].len);
      assert PackedRuns(p, n) == PackedRuns(p, n - 1) + [last];
      InAppend(PackedRuns(p, n - 1), last, b);
    }
  }

  /** What is free of the new group is one run, clear throughout, from where the extents
      so far end to the group's end. */
  lemma {:induction false} FreeIsRest(p: Plan, sector: Pos, n: nat, free: seq<FreeExtent>)
    requires Planned(p, sector) && n < |p.extents| && Separated(free) && NoneEmpty(free)
    requires forall b: nat :: In(free, b) <==> p.to <= b < p.to + p.length && !In(PackedRuns(p, n), b)
    ensures Reach(p.extents, n) < p.length && free == [FreeExtent(p.to + Reach(p.extents, n), p.length - Reach(p.extents, n))]
    ensures Allocator.OneClearRun(p.o.chunks, free, sector) && Allocator.RunsInChunks(p.o.chunks, free)
  {
    hide Planned, Allocator.Clear, In;
    GroupFits(p, sector, n + 1);
    LensPositive(p, sector);
    var rest := FreeExtent(p.to + Reach(p.extents, n), p.length - Reach(p.extents, n));
    forall b: nat ensures In(free, b) <==> In([rest], b) {
      PackedBytes(p, n, b);
      InNone();
      InAppend([], rest, b);
      assert [] + [rest] == [rest];
    }
    SeparatedIsCanonical(free, [rest]);
    RestIsClear(p, sector, n, rest);
  }

  lemma {:induction false} RestIsClear(p: Plan, sector: Pos, n: nat, rest: FreeExtent)
    requires Planned(p, sector) && n <= |p.extents| && Reach(p.extents, n) < p.length
    requires rest == FreeExtent(p.to + Reach(p.extents, n), p.length - Reach(p.extents, n))
    ensures rest.start % sector == 0 && Allocator.Clear(p.o.chunks, rest.start, rest.len)
    ensures Allocator.RunInChunk(p.o.chunks, rest)
  {
    hide Tidy, Lists, Sound, Allocator.OnGrid, Allocator.Dangerous, Translatable;
    ReachWhole(p, sector, n);
    assert Mapped(p.o.chunks, p.to, p.length, sector);
    var i :| 0 <= i < |p.o.chunks| && ChunkOf(p.o.chunks, i, p.to, p.length);
    assert p.o.chunks[i].logical <= rest.start && rest.End() <= p.o.chunks[i].End();
    ModSum(p.to, Reach(p.extents, n), sector);
  }

  lemma {:induction false} ReachWhole(p: Plan, sector: Pos, n: nat)
    requires Planned(p, sector) && n <= |p.extents|
    ensures Reach(p.extents, n) % sector == 0
  {
    hide Planned;
    LensPositive(p, sector);
    if n > 0 {
      ReachWhole(p, sector, n - 1);
      ModSum(Reach(p.extents, n - 1), p.extents[n-1].len, sector);
    }
  }

  /** The next batch fits in what is free, and packed it goes where it is planned. */
  lemma {:induction false} BatchFits(p: Plan, sector: Pos, n: nat, m: nat)
    requires Planned(p, sector) && n <= m <= |p.extents|
    ensures var lens := Lens(p.extents[n..m]);
      && Allocator.WholeSectors(lens, sector) && Reach(p.extents, n) + Allocator.Sum(lens) <= p.length
      && forall k | 0 <= k < m - n :: Reach(p.extents, n) + Allocator.Sum(lens[..k]) == Reach(p.extents, n + k)
  {
    hide Planned, Reach, Allocator.Sum;
    var lens := Lens(p.extents[n..m]);
    LensPositive(p, sector);
    GroupFits(p, sector, m);
    forall k | 0 <= k <= m - n ensures Reach(p.extents, n) + Allocator.Sum(lens[..k]) == Reach(p.extents, n + k) {
      ReachIsSum(p.extents, n, m, k);
    }
    assert lens[..m-n] == lens;
  }

  // ------------------------------------------------------------- valid all the while

  /** After every commit the extents are apart, whole and each inside one block group. */
  lemma {:induction false} StaysValid(p: Plan, sector: Pos, n: nat, d: Disk, w: map<nat, nat>)
    requires Planned(p, sector) && n <= |p.extents| && MovedUpTo(p, n, d, w)
    ensures Valid(d, sector)
  {
    hide Renamed, Places, Lists, GroupsAfter, Allocator.Clear, Apart, Housed, Named, Whole, Sound, Allocator.OnGrid, Mapped;
    SameLengths(p, sector, n, d, w);
    StayApart(p, sector, n, d, w);
    StayHoused(p, sector, n, d, w);
    RenamedNamed(p.o, d, w);
  }

  lemma {:induction false} SameLengths(p: Plan, sector: Pos, n: nat, d: Disk, w: map<nat, nat>)
    requires Planned(p, sector) && n <= |p.extents| && MovedUpTo(p, n, d, w)
    ensures d.groups.Keys == p.o.groups.Keys && forall g | g in d.groups :: d.groups[g].length == p.o.groups[g].length
  {
    hide Renamed, Places, Lists, Valid, Allocator.Clear;
  }

  lemma {:induction false} StayApart(p: Plan, sector: Pos, n: nat, d: Disk, w: map<nat, nat>)
    requires Planned(p, sector) && n <= |p.extents| && MovedUpTo(p, n, d, w)
    ensures Apart(d.extents) && Whole(d.extents, sector)
  {
    hide Planned, MovedUpTo;
    forall b, c | b in d.extents && c in d.extents && b < c ensures b + d.extents[b].len <= c {
      TwoApart(p, sector, n, d, w, b, c);
    }
    forall b | b in d.extents ensures d.extents[b].len > 0 && d.extents[b].len % sector == 0 {
      var a, i := WhereFrom(p, sector, n, d, w, b);
      WholeBefore(p, sector, a);
    }
  }

  lemma {:induction false} WholeBefore(p: Plan, sector: Pos, a: nat)
    requires Planned(p, sector) && a in p.o.extents
    ensures p.o.extents[a].len > 0 && p.o.extents[a].len % sector == 0
  {
    hide Lists, Sound, Allocator.OnGrid, Allocator.Clear, AllMapped, Housed, Named, Apart;
  }

  lemma {:induction false} TwoApart(p: Plan, sector: Pos, n: nat, d: Disk, w: map<nat, nat>, b: nat, c: nat)
    requires Planned(p, sector) && n <= |p.extents| && MovedUpTo(p, n, d, w)
    requires b in d.extents && c in d.extents && b < c
    ensures b + d.extents[b].len <= c
  {
    hide Planned, MovedUpTo, ListedAt, Reach;
    var a, i := WhereFrom(p, sector, n, d, w, b);
    var e, j := WhereFrom(p, sector, n, d, w, c);
    GroupFits(p, sector, n);
    if i < n && j < n {
      if j < i { ReachGrows(p.extents, j, i); }
      if i < j { ReachGrows(p.extents, i, j); }
    } else if i == n && j == n {
      ApartBefore(p, sector, b, c);
    }
  }

  lemma {:induction false} ApartBefore(p: Plan, sector: Pos, a: nat, b: nat)
    requires Planned(p, sector) && a in p.o.extents && b in p.o.extents && a < b
    ensures a + p.o.extents[a].len <= b
  {
    hide Lists, Sound, Allocator.OnGrid, Allocator.Clear, AllMapped, Housed, Named, Whole;
  }

  lemma {:induction false} StayHoused(p: Plan, sector: Pos, n: nat, d: Disk, w: map<nat, nat>)
    requires Planned(p, sector) && n <= |p.extents| && MovedUpTo(p, n, d, w)
    ensures Housed(d)
  {
    SameLengths(p, sector, n, d, w);
    hide Planned, MovedUpTo, ListedAt, Reach;
    forall b | b in d.extents ensures InGroups(d.groups, b, d.extents[b].len) {
      var a, i := WhereFrom(p, sector, n, d, w, b);
      GroupFits(p, sector, n);
      var g := HousedBefore(p, sector, a);
      var at := if i < n then p.to else g;
      assert at in d.groups && at <= b && b + d.extents[b].len <= at + d.groups[at].length;
    }
  }

  lemma {:induction false} HousedBefore(p: Plan, sector: Pos, a: nat) returns (g: nat)
    requires Planned(p, sector) && a in p.o.extents
    ensures g in p.o.groups && g <= a && a + p.o.extents[a].len <= g + p.o.groups[g].length
    ensures p.to in p.o.groups && p.o.groups[p.to].length == p.length
  {
    hide Lists, Sound, Allocator.OnGrid, Allocator.Clear, AllMapped, Apart, Named, Whole;
    assert InGroups(p.o.groups, a, p.o.extents[a].len);
    g :| g in p.o.groups && g <= a && a + p.o.extents[a].len <= g + p.o.groups[g].length;
  }
}
