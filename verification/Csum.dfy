/** The checksum tree (src/csum.rs and the checksum edits in src/cow_write.rs): digests
    packed into items, one per run of sectors, against a flat map of sectors. What a
    digest is, and how it is computed, are not part of this model. */
module Csum {
  import opened Base
  import opened Keyed

  type Digest = nat

  /** An `EXTENT_CSUM` item: a digest for each sector from `at` on. */
  datatype Packed = Packed(at: nat, digests: seq<Digest>)

  datatype CsumError = StaleDigests(at: nat)

  function SectorAt(it: Packed, sector: Pos, i: nat): nat { it.at + Times(i, sector) }

  function End(it: Packed, sector: Pos): nat { it.at + Times(|it.digests|, sector) }

  /** The item says sector `s` has digest `d`. */
  ghost predicate Says(it: Packed, sector: Pos, s: nat, d: Digest) {
    exists i :: 0 <= i < |it.digests| && SectorAt(it, sector, i) == s && it.digests[i] == d
  }

  ghost predicate SaidBy(items: seq<Packed>, sector: Pos, s: nat, d: Digest) {
    exists j :: 0 <= j < |items| && Says(items[j], sector, s, d)
  }

  /** Items in key order, none empty, none over another's sectors. */
  ghost predicate Ordered(items: seq<Packed>, sector: Pos) {
    && (forall j | 0 <= j < |items| :: items[j].digests != [])
    && (forall j, k | 0 <= j < k < |items| :: End(items[j], sector) <= items[k].at)
  }

  lemma SaysInside(it: Packed, sector: Pos, s: nat, d: Digest)
    requires Says(it, sector, s, d)
    ensures it.at <= s < End(it, sector)
  {
    var i :| 0 <= i < |it.digests| && SectorAt(it, sector, i) == s && it.digests[i] == d;
    TimesNext(i, sector);
    TimesMonotonic(i + 1, |it.digests|, sector);
  }

  lemma SaysOnce(it: Packed, sector: Pos, i: nat, j: nat)
    requires i < j < |it.digests|
    ensures SectorAt(it, sector, i) < SectorAt(it, sector, j)
  {
    TimesNext(i, sector);
    TimesMonotonic(i + 1, j, sector);
  }

  // ------------------------------------------------------------------- lookup

  /** The leaf a descent to `target` ends in holds the last item at or before it, when
      there is one, and every item after the leaf lies after `target`. */
  ghost predicate LeafFor(items: seq<Packed>, leaf: (nat, nat), target: nat) {
    && leaf.0 <= leaf.1 <= |items|
    && (leaf.0 == 0 || (leaf.0 < leaf.1 && items[leaf.0].at <= target))
    && (forall j | leaf.1 <= j < |items| :: target < items[j].at)
  }

  /** What is known of that leaf on any tree a search can go by: the items before it lie
      before `target`, and those after it after. */
  ghost predicate LeafAround(items: seq<Packed>, leaf: (nat, nat), target: nat) {
    && leaf.0 <= leaf.1 <= |items|
    && (forall j | 0 <= j < leaf.0 :: items[j].at < target)
    && (forall j | leaf.1 <= j < |items| :: target < items[j].at)
  }

  /** The leaf begins after `target`, and is not the first. */
  predicate Past(items: seq<Packed>, leaf: (nat, nat), target: nat)
    requires leaf.0 <= leaf.1 <= |items|
  {
    leaf.0 > 0 && (leaf.0 == leaf.1 || target < items[leaf.0].at)
  }

  lemma LeafForIs(items: seq<Packed>, sector: Pos, leaf: (nat, nat), target: nat)
    requires Ordered(items, sector)
    ensures LeafFor(items, leaf, target) ==> LeafAround(items, leaf, target) && !Past(items, leaf, target)
  {
    KeysAscend(items, sector);
  }

  /** Where the walk begins: at the last item of the leaf at or before `start`, and at
      `start` itself if there is none. */
  method WalkFrom(items: seq<Packed>, sector: Pos, leaf: (nat, nat), start: nat) returns (from: nat)
    requires Ordered(items, sector) && LeafAround(items, leaf, start)
    ensures from <= start
    ensures !Past(items, leaf, start) ==> forall j | 0 <= j < |items| && items[j].at < from :: End(items[j], sector) <= start
    ensures Past(items, leaf, start) ==> forall j | 0 <= j < |items| :: items[j].at < from <==> j < leaf.0
  {
    from := start;
    KeysAscend(items, sector);
    ghost var last := -1;
    for i := leaf.0 to leaf.1
      invariant last == -1 ==> from == start && forall j | leaf.0 <= j < i :: items[j].at > start
      invariant last != -1 ==> leaf.0 <= last < i && items[last].at == from <= start
      invariant last != -1 ==> forall j | last < j < i :: items[j].at > start
    {
      if items[i].at > start { continue; }
      if items[i].at >= from || from == start {
        from := items[i].at;
        last := i;
      }
    }
    hide End;
    if last == -1 {
      assert forall j | leaf.0 <= j < |items| :: items[j].at > start;
    } else {
      assert !Past(items, leaf, start);
      assert forall j | 0 <= j < |items| && items[j].at < from :: j < last;
    }
  }

  lemma KeysAscend(items: seq<Packed>, sector: Pos)
    requires Ordered(items, sector)
    ensures forall j, k | 0 <= j < k < |items| :: items[j].at < items[k].at
  {
    forall j, k | 0 <= j < k < |items| ensures items[j].at < items[k].at {
      TimesMonotonic(1, |items[j].digests|, sector);
    }
  }

  /** As `Says`, of the item's first `n` digests. */
  ghost predicate SaysBefore(it: Packed, sector: Pos, s: nat, d: Digest, n: nat)
    requires n <= |it.digests|
  {
    exists i :: 0 <= i < n && SectorAt(it, sector, i) == s && it.digests[i] == d
  }

  lemma NextSays(it: Packed, sector: Pos, n: nat, s: nat, d: Digest)
    requires n < |it.digests|
    ensures SaysBefore(it, sector, s, d, n + 1) <==>
      (SaysBefore(it, sector, s, d, n) || (s == SectorAt(it, sector, n) && d == it.digests[n]))
    ensures SaysBefore(it, sector, s, d, n) ==> s < SectorAt(it, sector, n)
  {
    forall i | 0 <= i < n ensures SectorAt(it, sector, i) < SectorAt(it, sector, n) { SaysOnce(it, sector, i, n); }
  }

  lemma LaterPast(it: Packed, sector: Pos, n: nat, end: nat, s: nat, d: Digest)
    requires n < |it.digests| && SectorAt(it, sector, n) >= end > s
    ensures Says(it, sector, s, d) <==> SaysBefore(it, sector, s, d, n)
  {
    forall i | n < i < |it.digests| ensures SectorAt(it, sector, i) >= end { SaysOnce(it, sector, n, i); }
  }

  predicate MapHas(m: map<nat, Digest>, s: nat, d: Digest) { s in m && m[s] == d }

  ghost predicate Took(out: map<nat, Digest>, was: map<nat, Digest>, it: Packed, sector: Pos, start: nat, end: nat, n: nat)
    requires n <= |it.digests|
  {
    forall s: nat, d: Digest :: MapHas(out, s, d) <==> MapHas(was, s, d) || (start <= s < end && SaysBefore(it, sector, s, d, n))
  }

  lemma TakeNext(out: map<nat, Digest>, was: map<nat, Digest>, it: Packed, sector: Pos, start: nat, end: nat, n: nat)
    requires n < |it.digests| && Took(out, was, it, sector, start, end, n) && (forall s | s in was :: s < it.at)
    ensures var s := SectorAt(it, sector, n);
      Took(if start <= s < end then out[s := it.digests[n]] else out, was, it, sector, start, end, n + 1)
  {
    hide SaysBefore;
    var at := SectorAt(it, sector, n);
    var now := if start <= at < end then out[at := it.digests[n]] else out;
    if at in out {
      assert MapHas(out, at, out[at]);
      NextSays(it, sector, n, at, out[at]);
    }
    forall s: nat, d: Digest
      ensures MapHas(now, s, d) <==> MapHas(was, s, d) || (start <= s < end && SaysBefore(it, sector, s, d, n + 1))
    {
      NextSays(it, sector, n, s, d);
      assert MapHas(out, s, d) <==> MapHas(was, s, d) || (start <= s < end && SaysBefore(it, sector, s, d, n));
    }
  }

  lemma TakeRest(out: map<nat, Digest>, was: map<nat, Digest>, it: Packed, sector: Pos, start: nat, end: nat, n: nat)
    requires n < |it.digests| && Took(out, was, it, sector, start, end, n) && SectorAt(it, sector, n) >= end
    ensures Took(out, was, it, sector, start, end, |it.digests|)
  {
    hide SaysBefore, Says;
    forall s: nat, d: Digest
      ensures MapHas(out, s, d) <==> MapHas(was, s, d) || (start <= s < end && SaysBefore(it, sector, s, d, |it.digests|))
    {
      if s < end { LaterPast(it, sector, n, end, s, d); AllSaid(it, sector, s, d); }
      assert MapHas(out, s, d) <==> MapHas(was, s, d) || (start <= s < end && SaysBefore(it, sector, s, d, n));
    }
  }

  lemma AllSaid(it: Packed, sector: Pos, s: nat, d: Digest)
    ensures SaysBefore(it, sector, s, d, |it.digests|) <==> Says(it, sector, s, d)
  {
  }

  lemma NoneTaken(was: map<nat, Digest>, it: Packed, sector: Pos, start: nat, end: nat)
    ensures Took(was, was, it, sector, start, end, 0)
  {
  }

  /** One item's digests in the range, put into the map. */
  method TakeDigests(it: Packed, sector: Pos, start: nat, end: nat, was: map<nat, Digest>) returns (out: map<nat, Digest>)
    requires forall s | s in was :: s < it.at
    ensures Took(out, was, it, sector, start, end, |it.digests|)
  {
    out := was;
    NoneTaken(was, it, sector, start, end);
    hide Took;
    for i := 0 to |it.digests|
      invariant Took(out, was, it, sector, start, end, i)
    {
      var s := SectorAt(it, sector, i);
      TakeNext(out, was, it, sector, start, end, i);
      if s >= end {
        TakeRest(out, was, it, sector, start, end, i);
        return;
      }
      if s >= start { out := out[s := it.digests[i]]; }
    }
  }

  /** The flat map of the items' sectors, cut to a range. */
  ghost predicate MapsTo(out: map<nat, Digest>, items: seq<Packed>, sector: Pos, start: nat, end: nat) {
    forall s: nat, d: Digest :: MapHas(out, s, d) <==> start <= s < end && SaidBy(items, sector, s, d)
  }

  lemma MapsNext(out: map<nat, Digest>, now: map<nat, Digest>, items: seq<Packed>, sector: Pos, start: nat, end: nat, i: nat)
    requires i < |items| && MapsTo(out, items[..i], sector, start, end)
    requires Took(now, out, items[i], sector, start, end, |items[i].digests|)
    ensures MapsTo(now, items[..i+1], sector, start, end)
  {
    hide Says, SaysBefore;
    forall s: nat, d: Digest
      ensures MapHas(now, s, d) <==> start <= s < end && SaidBy(items[..i+1], sector, s, d)
    {
      AllSaid(items[i], sector, s, d);
      SaidNext(items, sector, i, s, d);
      assert MapHas(now, s, d) <==> MapHas(out, s, d) || (start <= s < end && SaysBefore(items[i], sector, s, d, |items[i].digests|));
    }
  }

  lemma SaidNext(items: seq<Packed>, sector: Pos, i: nat, s: nat, d: Digest)
    requires i < |items|
    ensures SaidBy(items[..i+1], sector, s, d) <==> SaidBy(items[..i], sector, s, d) || Says(items[i], sector, s, d)
  {
    hide Says;
    assert items[..i+1][i] == items[i];
    assert forall j | 0 <= j < i :: items[..i+1][j] == items[..i][j];
  }

  /** Items that end at or before `start`, or begin at or after `end`, say nothing of
      the range. */
  lemma SaysNothing(it: Packed, sector: Pos, start: nat, end: nat, s: nat, d: Digest)
    requires (End(it, sector) <= start || end <= it.at) && start <= s < end
    ensures !Says(it, sector, s, d)
  {
    if Says(it, sector, s, d) { SaysInside(it, sector, s, d); }
  }

  lemma MapsWhole(out: map<nat, Digest>, items: seq<Packed>, sector: Pos, start: nat, end: nat, i: nat)
    requires i <= |items| && MapsTo(out, items[..i], sector, start, end)
    requires forall j | i <= j < |items| :: end <= items[j].at
    ensures MapsTo(out, items, sector, start, end)
  {
    hide Says;
    forall s: nat, d: Digest ensures MapHas(out, s, d) <==> start <= s < end && SaidBy(items, sector, s, d) {
      assert MapHas(out, s, d) <==> start <= s < end && SaidBy(items[..i], sector, s, d);
      forall j | i <= j < |items| && start <= s < end ensures !Says(items[j], sector, s, d) {
        SaysNothing(items[j], sector, start, end, s, d);
      }
      assert forall j | 0 <= j < i :: items[..i][j] == items[j];
    }
  }

  lemma MapsNone(items: seq<Packed>, sector: Pos, start: nat, end: nat, i: nat)
    requires i <= |items| && forall j | 0 <= j < i :: End(items[j], sector) <= start
    ensures MapsTo(map[], items[..i], sector, start, end)
  {
    hide Says, End;
    forall s: nat, d: Digest ensures !(start <= s < end && SaidBy(items[..i], sector, s, d)) {
      forall j | 0 <= j < i && start <= s < end ensures !Says(items[j], sector, s, d) {
        SaysNothing(items[j], sector, start, end, s, d);
      }
    }
  }

  lemma MappedBefore(out: map<nat, Digest>, items: seq<Packed>, sector: Pos, start: nat, end: nat, i: nat)
    requires Ordered(items, sector) && i < |items| && MapsTo(out, items[..i], sector, start, end)
    ensures forall s | s in out :: s < items[i].at
  {
    hide Says, End;
    forall s | s in out ensures s < items[i].at {
      assert MapHas(out, s, out[s]);
      var j :| 0 <= j < |items[..i]| && Says(items[..i][j], sector, s, out[s]);
      SaysInside(items[j], sector, s, out[s]);
    }
  }

  /** A sector of the range is said by one of the items. */
  ghost predicate SaysIn(items: seq<Packed>, sector: Pos, start: nat, end: nat) {
    exists s: nat, d: Digest :: start <= s < end && SaidBy(items, sector, s, d)
  }

  lemma OrderedParts(items: seq<Packed>, sector: Pos, i: nat)
    requires Ordered(items, sector) && i <= |items|
    ensures Ordered(items[..i], sector) && Ordered(items[i..], sector)
  {
    hide End;
  }

  /** No sector is said by an item before another and by one from it on. */
  lemma SaidOnOneSide(items: seq<Packed>, sector: Pos, i: nat, s: nat, d: Digest, e: Digest)
    requires Ordered(items, sector) && i <= |items| && SaidBy(items[..i], sector, s, d)
    ensures !SaidBy(items[i..], sector, s, e)
  {
    var j :| 0 <= j < i && Says(items[..i][j], sector, s, d);
    SaysInside(items[j], sector, s, d);
    hide Says, End;
    forall k | 0 <= k < |items[i..]| ensures !Says(items[i..][k], sector, s, e) {
      assert items[i..][k] == items[i+k] && End(items[j], sector) <= items[i+k].at;
      if Says(items[i+k], sector, s, e) { SaysInside(items[i+k], sector, s, e); }
    }
  }

  /** The items from one on give the whole map exactly when none before says a sector of
      the range. */
  lemma RestIsWhole(out: map<nat, Digest>, items: seq<Packed>, sector: Pos, start: nat, end: nat, i: nat)
    requires Ordered(items, sector) && i <= |items| && MapsTo(out, items[i..], sector, start, end)
    ensures MapsTo(out, items, sector, start, end) <==> !SaysIn(items[..i], sector, start, end)
  {
    hide SaidBy, Ordered;
    assert items == items[..i] + items[i..];
    forall s: nat, d: Digest ensures SaidBy(items, sector, s, d) <==> SaidBy(items[..i], sector, s, d) || SaidBy(items[i..], sector, s, d) {
      SaidJoin(items[..i], items[i..], sector, s, d);
    }
    forall s: nat, d: Digest | SaidBy(items[..i], sector, s, d) ensures !SaidBy(items[i..], sector, s, d) {
      SaidOnOneSide(items, sector, i, s, d, d);
    }
    if SaysIn(items[..i], sector, start, end) {
      var s: nat, d: Digest :| start <= s < end && SaidBy(items[..i], sector, s, d);
      assert MapHas(out, s, d) <==> start <= s < end && SaidBy(items[i..], sector, s, d);
    }
    if MapsTo(out, items, sector, start, end) {
      forall s: nat, d: Digest ensures !(start <= s < end && SaidBy(items[..i], sector, s, d)) {
        assert MapHas(out, s, d) <==> start <= s < end && SaidBy(items[i..], sector, s, d);
        assert MapHas(out, s, d) <==> start <= s < end && SaidBy(items, sector, s, d);
      }
    }
  }

  /** The item before the leaf, the one item that may be missed. */
  function BeforeLeaf(items: seq<Packed>, leaf: (nat, nat), target: nat): seq<Packed>
    requires leaf.0 <= leaf.1 <= |items|
  {
    if Past(items, leaf, target) then [items[leaf.0 - 1]] else []
  }

  lemma OnlyLastReaches(items: seq<Packed>, sector: Pos, start: nat, end: nat, i: nat)
    requires Ordered(items, sector) && 0 < i <= |items| && items[i-1].at < start
    ensures SaysIn(items[..i], sector, start, end) <==> SaysIn([items[i-1]], sector, start, end)
  {
    hide SaidBy, End;
    forall s: nat, d: Digest | start <= s < end ensures SaidBy(items[..i], sector, s, d) <==> SaidBy([items[i-1]], sector, s, d) {
      LastSays(items, sector, start, end, i, s, d);
    }
    if SaysIn(items[..i], sector, start, end) {
      var s: nat, d: Digest :| start <= s < end && SaidBy(items[..i], sector, s, d);
      assert SaidBy([items[i-1]], sector, s, d);
    }
    if SaysIn([items[i-1]], sector, start, end) {
      var s: nat, d: Digest :| start <= s < end && SaidBy([items[i-1]], sector, s, d);
      assert SaidBy(items[..i], sector, s, d);
    }
  }

  lemma LastSays(items: seq<Packed>, sector: Pos, start: nat, end: nat, i: nat, s: nat, d: Digest)
    requires Ordered(items, sector) && 0 < i <= |items| && items[i-1].at < start <= s < end
    ensures SaidBy(items[..i], sector, s, d) <==> SaidBy([items[i-1]], sector, s, d)
  {
    hide Says, End;
    SaidAlone(items[i-1], sector, s, d);
    forall j | 0 <= j < i - 1 ensures !Says(items[..i][j], sector, s, d) {
      SaysNothing(items[j], sector, start, end, s, d);
    }
    assert items[..i][i-1] == items[i-1];
  }

  /** Which items the walk passes over, and what they say of the range. */
  lemma PassedOver(items: seq<Packed>, sector: Pos, leaf: (nat, nat), start: nat, end: nat, from: nat, i: nat)
    requires Ordered(items, sector) && LeafAround(items, leaf, start) && i <= |items|
    requires (forall j | 0 <= j < i :: items[j].at < from) && (forall j | i <= j < |items| :: from <= items[j].at)
    requires !Past(items, leaf, start) ==> forall j | 0 <= j < |items| && items[j].at < from :: End(items[j], sector) <= start
    requires Past(items, leaf, start) ==> forall j | 0 <= j < |items| :: items[j].at < from <==> j < leaf.0
    ensures SaysIn(items[..i], sector, start, end) <==> SaysIn(BeforeLeaf(items, leaf, start), sector, start, end)
  {
    hide Says, End;
    if Past(items, leaf, start) {
      assert i < |items| ==> from <= items[i].at;
      assert leaf.0 < |items| ==> from <= items[leaf.0].at;
      assert i == leaf.0;
      hide Past;
      OnlyLastReaches(items, sector, start, end, i);
    } else {
      forall s: nat, d: Digest | start <= s < end ensures !SaidBy(items[..i], sector, s, d) {
        forall j | 0 <= j < i ensures !Says(items[..i][j], sector, s, d) { SaysNothing(items[j], sector, start, end, s, d); }
      }
    }
  }

  lemma NothingBefore(items: seq<Packed>, sector: Pos, leaf: (nat, nat), start: nat, end: nat)
    requires LeafAround(items, leaf, start)
    ensures !Past(items, leaf, start) ==> !SaysIn(BeforeLeaf(items, leaf, start), sector, start, end)
  {
  }

  lemma NothingMapped(items: seq<Packed>, sector: Pos, leaf: (nat, nat), start: nat)
    requires LeafAround(items, leaf, start)
    ensures MapsTo(map[], items, sector, start, start) && !SaysIn(BeforeLeaf(items, leaf, start), sector, start, start)
  {
  }

  /** Every digest the tree holds for the sectors of `[start, start + len)`, exactly unless
      the leaf searched begins after `start` and the item before it reaches into them. */
  method DigestsForRange(items: seq<Packed>, sector: Pos, leaf: (nat, nat), start: nat, len: nat) returns (out: map<nat, Digest>)
    requires Ordered(items, sector) && LeafAround(items, leaf, start)
    ensures MapsTo(out, items, sector, start, start + len) <==> !SaysIn(BeforeLeaf(items, leaf, start), sector, start, start + len)
    ensures LeafFor(items, leaf, start) ==> MapsTo(out, items, sector, start, start + len)
  {
    hide MapsTo, Took, End, Ordered, SaysIn, BeforeLeaf, LeafAround, Past, LeafFor;
    LeafForIs(items, sector, leaf, start);
    out := map[];
    if len == 0 {
      NothingMapped(items, sector, leaf, start);
      return;
    }
    var end := start + len;
    var from := WalkFrom(items, sector, leaf, start);
    KeysAscend(items, sector);
    var first := Seek(items, from);
    PassedOver(items, sector, leaf, start, end, from, first);
    OrderedParts(items, sector, first);
    ghost var rest := items[first..];
    MapsNone(rest, sector, start, end, 0);
    var i := first;
    while i < |items| && items[i].at < end
      invariant first <= i <= |items| && MapsTo(out, rest[..i-first], sector, start, end)
    {
      MappedBefore(out, rest, sector, start, end, i - first);
      var now := TakeDigests(items[i], sector, start, end, out);
      MapsNext(out, now, rest, sector, start, end, i - first);
      out := now;
      i := i + 1;
    }
    MapsWhole(out, rest, sector, start, end, i - first);
    RestIsWhole(out, items, sector, start, end, first);
    NothingBefore(items, sector, leaf, start, end);
  }

  // --------------------------------------------------------------- released sectors

  /** A range of disk bytes, `[from, to)`. */
  datatype Bytes = Bytes(from: nat, to: nat)

  predicate IsReleased(released: seq<Bytes>, s: nat) {
    exists r :: r in released && r.from <= s < r.to
  }

  /** A digest more of a run list: the last run goes on where it ends at the sector. */
  function Extended(runs: seq<Packed>, sector: Pos, cap: nat, s: nat, d: Digest): seq<Packed> {
    if runs != [] && |runs[|runs|-1].digests| < cap && End(runs[|runs|-1], sector) == s
    then runs[|runs|-1 := Packed(runs[|runs|-1].at, runs[|runs|-1].digests + [d])]
    else runs + [Packed(s, [d])]
  }

  lemma SaysMore(it: Packed, sector: Pos, d: Digest, s: nat, e: Digest)
    ensures Says(Packed(it.at, it.digests + [d]), sector, s, e) <==> Says(it, sector, s, e) || (s == End(it, sector) && e == d)
  {
    var more := Packed(it.at, it.digests + [d]);
    assert forall i | 0 <= i < |it.digests| :: more.digests[i] == it.digests[i] && SectorAt(more, sector, i) == SectorAt(it, sector, i);
    assert more.digests[|it.digests|] == d && SectorAt(more, sector, |it.digests|) == End(it, sector);
  }

  lemma SaysOne(at: nat, d: Digest, sector: Pos, s: nat, e: Digest)
    ensures Says(Packed(at, [d]), sector, s, e) <==> s == at && e == d
  {
    assert SectorAt(Packed(at, [d]), sector, 0) == at && Packed(at, [d]).digests[0] == d;
  }

  /** What the runs say grows by that sector. */
  lemma ExtendedSays(runs: seq<Packed>, sector: Pos, cap: nat, s: nat, d: Digest, t: nat, e: Digest)
    ensures SaidBy(Extended(runs, sector, cap, s, d), sector, t, e) <==> SaidBy(runs, sector, t, e) || (t == s && e == d)
  {
    hide Says, End;
    var now := Extended(runs, sector, cap, s, d);
    if |now| == |runs| {
      var n := |runs| - 1;
      SaysMore(runs[n], sector, d, t, e);
      assert forall j | 0 <= j < n :: now[j] == runs[j];
      assert Says(now[n], sector, t, e) <==> Says(runs[n], sector, t, e) || (t == s && e == d);
    } else {
      SaysOne(s, d, sector, t, e);
      assert forall j | 0 <= j < |runs| :: now[j] == runs[j];
      assert Says(now[|runs|], sector, t, e) <==> t == s && e == d;
    }
  }

  ghost predicate Inside(runs: seq<Packed>, sector: Pos, lo: int, hi: int) {
    forall j | 0 <= j < |runs| :: lo <= runs[j].at && End(runs[j], sector) <= hi
  }

  lemma ExtendedOrdered(runs: seq<Packed>, sector: Pos, cap: nat, s: nat, d: Digest, lo: int)
    requires Ordered(runs, sector) && Inside(runs, sector, lo, s) && lo <= s
    ensures Ordered(Extended(runs, sector, cap, s, d), sector)
    ensures Inside(Extended(runs, sector, cap, s, d), sector, lo, s + sector)
  {
    var n := |runs| - 1;
    TimesOne(sector);
    TimesCommutes(1, sector);
    if runs != [] && |runs[n].digests| < cap && End(runs[n], sector) == s { TimesNext(|runs[n].digests|, sector); }
  }

  /** The runs of an item's sectors that no released range holds. */
  function KeptRuns(it: Packed, sector: Pos, released: seq<Bytes>): seq<Packed>
    decreases |it.digests|
  {
    if it.digests == [] then [] else
      var n := |it.digests| - 1;
      var before := KeptRuns(Packed(it.at, it.digests[..n]), sector, released);
      if IsReleased(released, SectorAt(it, sector, n)) then before
      else Extended(before, sector, n + 1, SectorAt(it, sector, n), it.digests[n])
  }

  lemma {:induction false} KeptSays(it: Packed, sector: Pos, released: seq<Bytes>, s: nat, d: Digest)
    ensures SaidBy(KeptRuns(it, sector, released), sector, s, d) <==> Says(it, sector, s, d) && !IsReleased(released, s)
    decreases |it.digests|
  {
    hide IsReleased, Extended, SaidBy, Says;
    if it.digests != [] {
      var n := |it.digests| - 1;
      var init := Packed(it.at, it.digests[..n]);
      KeptSays(init, sector, released, s, d);
      assert it == Packed(init.at, init.digests + [it.digests[n]]);
      SaysMore(init, sector, it.digests[n], s, d);
      ExtendedSays(KeptRuns(init, sector, released), sector, n + 1, SectorAt(it, sector, n), it.digests[n], s, d);
    } else {
      NothingSaid(it, sector, s, d);
    }
  }

  lemma NothingSaid(it: Packed, sector: Pos, s: nat, d: Digest)
    ensures !SaidBy([], sector, s, d)
    ensures it.digests == [] ==> !Says(it, sector, s, d)
  {
  }

  lemma {:induction false} KeptOrdered(it: Packed, sector: Pos, released: seq<Bytes>)
    ensures Ordered(KeptRuns(it, sector, released), sector)
    ensures Inside(KeptRuns(it, sector, released), sector, it.at, End(it, sector))
    decreases |it.digests|
  {
    hide IsReleased, Extended, Ordered;
    if it.digests != [] {
      var n := |it.digests| - 1;
      var init := Packed(it.at, it.digests[..n]);
      KeptOrdered(init, sector, released);
      TimesNext(n, sector);
      ExtendedOrdered(KeptRuns(init, sector, released), sector, n + 1, SectorAt(it, sector, n), it.digests[n], it.at);
    } else {
      NoneOrdered(sector);
    }
  }

  lemma NoneOrdered(sector: Pos) ensures Ordered([], sector) {}

  /** The loop over an item's digests. */
  method KeepRuns(it: Packed, sector: Pos, released: seq<Bytes>) returns (runs: seq<Packed>)
    ensures runs == KeptRuns(it, sector, released)
  {
    runs := [];
    hide Extended, IsReleased;
    for i := 0 to |it.digests|
      invariant runs == KeptRuns(Packed(it.at, it.digests[..i]), sector, released)
    {
      assert it.digests[..i+1][..i] == it.digests[..i];
      var s := SectorAt(it, sector, i);
      if !IsReleased(released, s) { runs := Extended(runs, sector, i + 1, s, it.digests[i]); }
    }
    assert it.digests[..|it.digests|] == it.digests;
  }

  // ------------------------------------------------------------ the tree's edits

  type CsumTree = map<nat, seq<Digest>>

  type CsumEdits = map<nat, Edit<seq<Digest>>>

  function TreeOf(items: seq<Packed>): CsumTree {
    if items == [] then map[] else
      var last := items[|items|-1];
      TreeOf(items[..|items|-1])[last.at := last.digests]
  }

  function PutAll(items: seq<Packed>): CsumEdits {
    if items == [] then map[] else
      var last := items[|items|-1];
      PutAll(items[..|items|-1])[last.at := Put(last.digests)]
  }

  /** The tree says sector `s` has digest `d`. */
  ghost predicate TreeSays(m: CsumTree, sector: Pos, s: nat, d: Digest) {
    exists k :: k in m && Says(Packed(k, m[k]), sector, s, d)
  }

  lemma {:induction false} TreeJoin(a: seq<Packed>, b: seq<Packed>)
    ensures TreeOf(a + b) == TreeOf(a) + TreeOf(b)
  {
    if b == [] {
      assert a + b == a;
    } else {
      assert (a + b)[..|a + b|-1] == a + b[..|b|-1];
      TreeJoin(a, b[..|b|-1]);
    }
  }

  lemma {:induction false} PutJoin(a: seq<Packed>, b: seq<Packed>)
    ensures PutAll(a + b) == PutAll(a) + PutAll(b)
  {
    if b == [] {
      assert a + b == a;
    } else {
      assert (a + b)[..|a + b|-1] == a + b[..|b|-1];
      PutJoin(a, b[..|b|-1]);
    }
  }

  lemma {:induction false} PutAllAdds(m: CsumTree, items: seq<Packed>)
    ensures Edited(m, PutAll(items)) == m + TreeOf(items)
  {
    hide Edited;
    if items != [] {
      var init, last := items[..|items|-1], items[|items|-1];
      PutAllAdds(m, init);
      assert PutAll(items) == PutAll(init) + map[last.at := Put(last.digests)];
      EditedTwice(m, PutAll(init), map[last.at := Put(last.digests)]);
      PutOne(m + TreeOf(init), last.at, last.digests);
      assert (m + TreeOf(init))[last.at := last.digests] == m + TreeOf(items);
    } else {
      EditedByNone(m);
      assert m + TreeOf(items) == m;
    }
  }

  lemma TreeOne(it: Packed)
    ensures TreeOf([it]) == map[it.at := it.digests]
  {
    assert [it][..0] == [];
  }

  /** Keys of a list's items. */
  lemma {:induction false} TreeKeys(items: seq<Packed>, sector: Pos, lo: nat, hi: int)
    requires Inside(items, sector, lo, hi) && (forall j | 0 <= j < |items| :: items[j].digests != [])
    ensures KeysIn(TreeOf(items).Keys, lo, hi) && KeysIn(PutAll(items).Keys, lo, hi)
  {
    if items != [] {
      var last := items[|items|-1];
      TimesMonotonic(1, |last.digests|, sector);
      TreeKeys(items[..|items|-1], sector, lo, hi);
    }
  }

  /** Distinct items all stand in the tree. */
  lemma {:induction false} TreeHas(items: seq<Packed>)
    requires forall j, k | 0 <= j < k < |items| :: items[j].at != items[k].at
    ensures forall j | 0 <= j < |items| :: items[j].at in TreeOf(items) && TreeOf(items)[items[j].at] == items[j].digests
    ensures forall k | k in TreeOf(items) :: exists j :: 0 <= j < |items| && items[j] == Packed(k, TreeOf(items)[k])
  {
    if items != [] {
      var init := items[..|items|-1];
      TreeHas(init);
      forall k | k in TreeOf(items) ensures exists j :: 0 <= j < |items| && items[j] == Packed(k, TreeOf(items)[k]) {
        if k == items[|items|-1].at {
          assert items[|items|-1] == Packed(k, TreeOf(items)[k]);
        } else {
          assert k in TreeOf(init) && TreeOf(init)[k] == TreeOf(items)[k];
          var j :| 0 <= j < |init| && init[j] == Packed(k, TreeOf(init)[k]);
          assert items[j] == Packed(k, TreeOf(items)[k]);
        }
      }
    }
  }

  lemma TreeSaysAll(items: seq<Packed>, sector: Pos, s: nat, d: Digest)
    requires forall j, k | 0 <= j < k < |items| :: items[j].at != items[k].at
    ensures TreeSays(TreeOf(items), sector, s, d) <==> SaidBy(items, sector, s, d)
  {
    hide Says;
    TreeHas(items);
    var m := TreeOf(items);
    hide TreeOf;
    if TreeSays(m, sector, s, d) {
      var k :| k in m && Says(Packed(k, m[k]), sector, s, d);
      var j :| 0 <= j < |items| && items[j] == Packed(k, m[k]);
      assert Says(items[j], sector, s, d);
    }
    if SaidBy(items, sector, s, d) {
      var j :| 0 <= j < |items| && Says(items[j], sector, s, d);
      assert items[j] == Packed(items[j].at, m[items[j].at]);
    }
  }

  lemma TreeSaysEither(m: CsumTree, n: CsumTree, sector: Pos, s: nat, d: Digest)
    requires m.Keys !! n.Keys
    ensures TreeSays(m + n, sector, s, d) <==> TreeSays(m, sector, s, d) || TreeSays(n, sector, s, d)
  {
    hide Says;
    if TreeSays(m, sector, s, d) {
      var k :| k in m && Says(Packed(k, m[k]), sector, s, d);
      assert k in m + n && (m + n)[k] == m[k];
    }
    if TreeSays(n, sector, s, d) {
      var k :| k in n && Says(Packed(k, n[k]), sector, s, d);
      assert k in m + n && (m + n)[k] == n[k];
    }
    if TreeSays(m + n, sector, s, d) {
      var k :| k in m + n && Says(Packed(k, (m + n)[k]), sector, s, d);
      assert if k in n then Says(Packed(k, n[k]), sector, s, d) else k in m && Says(Packed(k, m[k]), sector, s, d);
    }
  }

  /** What an item that a release touches becomes, and the edits that say so: a delete
      unless a run keeps the item's key, and each run put. */
  predicate StartsAt(runs: seq<Packed>, at: nat) { exists j :: 0 <= j < |runs| && runs[j].at == at }

  function DropOf(it: Packed, runs: seq<Packed>): CsumEdits {
    if StartsAt(runs, it.at) then map[] else map[it.at := Delete]
  }

  function Left(items: seq<Packed>, touched: set<nat>, sector: Pos, released: seq<Bytes>, n: nat): seq<Packed>
    requires n <= |items|
  {
    if n == 0 then [] else
      Left(items, touched, sector, released, n - 1)
      + if n - 1 in touched then KeptRuns(items[n-1], sector, released) else [items[n-1]]
  }

  lemma {:induction false} PutAllHas(items: seq<Packed>, at: nat)
    ensures at in PutAll(items) <==> StartsAt(items, at)
  {
    if items != [] {
      var init := items[..|items|-1];
      PutAllHas(init, at);
      if StartsAt(init, at) {
        var j :| 0 <= j < |init| && init[j].at == at;
        assert items[j].at == at;
      }
      if items[|items|-1].at == at { assert StartsAt(items, at); }
    }
  }

  lemma OneItemEdited(it: Packed, runs: seq<Packed>)
    ensures Edited(TreeOf([it]), DropOf(it, runs) + PutAll(runs)) == TreeOf(runs)
  {
    TreeOne(it);
    PutAllHas(runs, it.at);
    var one := map[it.at := it.digests];
    PutAllAdds(one, runs);
    PutAllAdds(map[], runs);
    NothingPlus(TreeOf(runs));
    EditedTwice(one, DropOf(it, runs), PutAll(runs));
    if StartsAt(runs, it.at) {
      EditedByNone(one);
      UnderPut(it.at, it.digests, runs);
    } else {
      DeleteOne(one, it.at);
      assert one - {it.at} == map[];
    }
  }

  lemma {:induction false} UnderPut(at: nat, digests: seq<Digest>, runs: seq<Packed>)
    requires StartsAt(runs, at)
    ensures map[at := digests] + TreeOf(runs) == TreeOf(runs)
  {
    var init := runs[..|runs|-1];
    if runs[|runs|-1].at != at {
      var j :| 0 <= j < |runs| && runs[j].at == at;
      assert init[j].at == at;
      UnderPut(at, digests, init);
    }
  }

  /** The deletes, and the puts, of the first `n` items. */
  function DropsTo(items: seq<Packed>, touched: set<nat>, sector: Pos, released: seq<Bytes>, n: nat): CsumEdits
    requires n <= |items|
  {
    if n == 0 then map[] else
      DropsTo(items, touched, sector, released, n - 1)
      + if n - 1 in touched then DropOf(items[n-1], KeptRuns(items[n-1], sector, released)) else map[]
  }

  function PutsTo(items: seq<Packed>, touched: set<nat>, sector: Pos, released: seq<Bytes>, n: nat): CsumEdits
    requires n <= |items|
  {
    if n == 0 then map[] else
      PutsTo(items, touched, sector, released, n - 1)
      + if n - 1 in touched then PutAll(KeptRuns(items[n-1], sector, released)) else map[]
  }

  function Reach(items: seq<Packed>, sector: Pos, n: nat): nat
    requires n <= |items|
  {
    if n == 0 then 0 else End(items[n-1], sector)
  }

  lemma OneItemKeys(it: Packed, sector: Pos, released: seq<Bytes>)
    requires it.digests != []
    ensures var runs := KeptRuns(it, sector, released);
      KeysIn(DropOf(it, runs).Keys, it.at, End(it, sector)) && KeysIn(PutAll(runs).Keys, it.at, End(it, sector))
    ensures it.at < End(it, sector)
  {
    KeptOrdered(it, sector, released);
    TimesMonotonic(1, |it.digests|, sector);
    TimesOne(sector);
    TimesCommutes(1, sector);
    TreeKeys(KeptRuns(it, sector, released), sector, it.at, End(it, sector));
  }

  lemma ReachGrows(items: seq<Packed>, sector: Pos, n: nat)
    requires 0 < n <= |items| && Ordered(items, sector)
    ensures Reach(items, sector, n - 1) <= items[n-1].at < Reach(items, sector, n) && items[n-1].digests != []
  {
    TimesMonotonic(1, |items[n-1].digests|, sector);
    TimesOne(sector);
    TimesCommutes(1, sector);
  }

  lemma {:induction false} EditKeys(items: seq<Packed>, touched: set<nat>, sector: Pos, released: seq<Bytes>, n: nat)
    requires n <= |items| && Ordered(items, sector)
    ensures KeysIn(DropsTo(items, touched, sector, released, n).Keys, 0, Reach(items, sector, n))
    ensures KeysIn(PutsTo(items, touched, sector, released, n).Keys, 0, Reach(items, sector, n))
    ensures KeysIn(TreeOf(items[..n]).Keys, 0, Reach(items, sector, n))
  {
    hide Ordered, KeptRuns, DropOf, PutAll, End;
    if n > 0 {
      EditKeys(items, touched, sector, released, n - 1);
      ReachGrows(items, sector, n);
      OneItemKeys(items[n-1], sector, released);
      assert items[..n][..n-1] == items[..n-1];
    }
  }

  /** Item by item: what each leaves, side by side. */
  lemma {:induction false} LeftByEdits(items: seq<Packed>, touched: set<nat>, sector: Pos, released: seq<Bytes>, n: nat)
    requires n <= |items| && Ordered(items, sector)
    ensures Edited(TreeOf(items[..n]), DropsTo(items, touched, sector, released, n) + PutsTo(items, touched, sector, released, n))
         == TreeOf(Left(items, touched, sector, released, n))
  {
    hide Ordered, KeptRuns, DropOf, PutAll, End, Edited, TreeOf, Reach;
    NoTree();
    if n > 0 {
      var it := items[n-1];
      var runs := KeptRuns(it, sector, released);
      LeftByEdits(items, touched, sector, released, n - 1);
      EditKeys(items, touched, sector, released, n - 1);
      ReachGrows(items, sector, n);
      OneItemKeys(it, sector, released);
      assert items[..n] == items[..n-1] + [it];
      TreeJoin(items[..n-1], [it]);
      TreeOne(it);
      var dels, puts := DropsTo(items, touched, sector, released, n - 1), PutsTo(items, touched, sector, released, n - 1);
      var del, put := if n - 1 in touched then DropOf(it, runs) else map[], if n - 1 in touched then PutAll(runs) else map[];
      Swap(dels, del, puts, put);
      EditedApart(TreeOf(items[..n-1]), dels + puts, TreeOf([it]), del + put);
      if n - 1 in touched {
        OneItemEdited(it, runs);
        TreeJoin(Left(items, touched, sector, released, n - 1), runs);
      } else {
        NothingPlus<Edit<seq<Digest>>>(map[]);
        EditedByNone(TreeOf([it]));
        TreeJoin(Left(items, touched, sector, released, n - 1), [it]);
      }
    } else {
      EditedByNone<seq<Digest>>(map[]);
      NothingPlus<Edit<seq<Digest>>>(map[]);
      assert items[..0] == [];
    }
  }

  lemma NoTree() ensures TreeOf([]) == map[] {}

  /** Every item with a released sector is among those touched. */
  ghost predicate Touches(items: seq<Packed>, touched: set<nat>, sector: Pos, released: seq<Bytes>) {
    forall j, s: nat, d: Digest | 0 <= j < |items| && j !in touched && Says(items[j], sector, s, d) :: !IsReleased(released, s)
  }

  lemma {:induction false} LeftSays(items: seq<Packed>, touched: set<nat>, sector: Pos, released: seq<Bytes>, n: nat, s: nat, d: Digest)
    requires n <= |items| && Touches(items, touched, sector, released)
    ensures SaidBy(Left(items, touched, sector, released, n), sector, s, d) <==>
      SaidBy(items[..n], sector, s, d) && !IsReleased(released, s)
  {
    hide Says, KeptRuns, IsReleased;
    if n > 0 {
      var it := items[n-1];
      LeftSays(items, touched, sector, released, n - 1, s, d);
      var more := if n - 1 in touched then KeptRuns(it, sector, released) else [it];
      KeptSays(it, sector, released, s, d);
      SaidJoin(Left(items, touched, sector, released, n - 1), more, sector, s, d);
      SaidNext(items, sector, n - 1, s, d);
      SaidAlone(it, sector, s, d);
    }
  }

  lemma SaidAlone(it: Packed, sector: Pos, s: nat, d: Digest)
    ensures SaidBy([it], sector, s, d) <==> Says(it, sector, s, d)
  {
    assert [it][0] == it;
  }

  lemma SaidJoin(a: seq<Packed>, b: seq<Packed>, sector: Pos, s: nat, d: Digest)
    ensures SaidBy(a + b, sector, s, d) <==> SaidBy(a, sector, s, d) || SaidBy(b, sector, s, d)
  {
    hide Says;
    assert forall j | 0 <= j < |a| :: (a + b)[j] == a[j];
    assert forall j | 0 <= j < |b| :: (a + b)[|a| + j] == b[j];
    if SaidBy(b, sector, s, d) {
      var j :| 0 <= j < |b| && Says(b[j], sector, s, d);
      assert Says((a + b)[|a| + j], sector, s, d);
    }
    if SaidBy(a, sector, s, d) {
      var j :| 0 <= j < |a| && Says(a[j], sector, s, d);
      assert Says((a + b)[j], sector, s, d);
    }
    if SaidBy(a + b, sector, s, d) {
      var j :| 0 <= j < |a + b| && Says((a + b)[j], sector, s, d);
      assert if j < |a| then Says(a[j], sector, s, d) else Says(b[j - |a|], sector, s, d);
    }
  }

  lemma {:induction false} LeftOrdered(items: seq<Packed>, touched: set<nat>, sector: Pos, released: seq<Bytes>, n: nat)
    requires n <= |items| && Ordered(items, sector)
    ensures Ordered(Left(items, touched, sector, released, n), sector)
    ensures Inside(Left(items, touched, sector, released, n), sector, 0, Reach(items, sector, n))
  {
    hide KeptRuns, End, Reach;
    if n > 0 {
      var it := items[n-1];
      LeftOrdered(items, touched, sector, released, n - 1);
      ReachGrows(items, sector, n);
      KeptOrdered(it, sector, released);
      ReachIs(items, sector, n);
      var more := if n - 1 in touched then KeptRuns(it, sector, released) else [it];
      OrderedJoin(Left(items, touched, sector, released, n - 1), more, sector, Reach(items, sector, n - 1), it.at, Reach(items, sector, n));
    }
  }

  lemma ReachIs(items: seq<Packed>, sector: Pos, n: nat)
    requires 0 < n <= |items|
    ensures Reach(items, sector, n) == End(items[n-1], sector)
  {
  }

  lemma OrderedJoin(a: seq<Packed>, b: seq<Packed>, sector: Pos, end: int, at: int, hi: int)
    requires Ordered(a, sector) && Ordered(b, sector) && Inside(a, sector, 0, end) && Inside(b, sector, at, hi) && end <= at <= hi
    ensures Ordered(a + b, sector) && Inside(a + b, sector, 0, hi)
  {
    hide End;
    assert forall j | 0 <= j < |a + b| :: (a + b)[j] == if j < |a| then a[j] else b[j - |a|];
  }

  /** Descents: each ends in the leaf for its target. */
  ghost predicate Descends(items: seq<Packed>, leafOf: nat -> (nat, nat)) {
    forall t: nat :: LeafFor(items, leafOf(t), t)
  }

  /** The item a second descent, to the first digest found, starts the walk at. */
  function LastAtOrBefore(items: seq<Packed>, leaf: (nat, nat), first: nat): nat
    requires leaf.0 <= leaf.1 <= |items|
    decreases leaf.1
  {
    if leaf.0 == leaf.1 then first
    else if items[leaf.1 - 1].at <= first then items[leaf.1 - 1].at
    else LastAtOrBefore(items, (leaf.0, leaf.1 - 1), first)
  }

  lemma {:induction false} LastIsNear(items: seq<Packed>, sector: Pos, leaf: (nat, nat), first: nat)
    requires Ordered(items, sector) && leaf.0 <= leaf.1 <= |items|
    requires leaf.0 == 0 || (leaf.0 < leaf.1 && items[leaf.0].at <= first)
    requires forall j | leaf.1 <= j < |items| :: first < items[j].at
    ensures LastAtOrBefore(items, leaf, first) <= first
    ensures forall j | 0 <= j < |items| && items[j].at < LastAtOrBefore(items, leaf, first) :: End(items[j], sector) <= first
    decreases leaf.1
  {
    KeysAscend(items, sector);
    if leaf.0 < leaf.1 && items[leaf.1 - 1].at > first { LastIsNear(items, sector, (leaf.0, leaf.1 - 1), first); }
  }

  ghost predicate TouchesRange(items: seq<Packed>, touched: set<nat>, sector: Pos, r: Bytes) {
    forall j, s: nat, d: Digest | 0 <= j < |items| && Says(items[j], sector, s, d) && r.from <= s < r.to :: j in touched
  }

  lemma Found(items: seq<Packed>, sector: Pos, r: Bytes, digests: map<nat, Digest>, j: nat, s: nat, d: Digest)
    requires MapsTo(digests, items, sector, r.from, r.to) && j < |items| && r.from <= s < r.to
    ensures Says(items[j], sector, s, d) ==> s in digests
  {
    hide Says;
    if Says(items[j], sector, s, d) {
      assert SaidBy(items, sector, s, d);
      assert MapHas(digests, s, d);
    }
  }

  /** The walk from near the first digest found meets every item that holds one. */
  lemma WalkMeets(items: seq<Packed>, touched: set<nat>, sector: Pos, r: Bytes, digests: map<nat, Digest>, first: nat, begin: nat, stop: nat)
    requires MapsTo(digests, items, sector, r.from, r.to) && forall s | s in digests :: first <= s
    requires begin <= stop <= |items|
    requires forall j | 0 <= j < begin :: End(items[j], sector) <= first
    requires forall j | stop <= j < |items| :: r.to <= items[j].at
    requires forall j | begin <= j < stop && End(items[j], sector) > r.from :: j in touched
    ensures TouchesRange(items, touched, sector, r)
  {
    hide End, Says, MapsTo;
    forall j, s: nat, d: Digest | 0 <= j < |items| && Says(items[j], sector, s, d) && r.from <= s < r.to ensures j in touched {
      SaysInside(items[j], sector, s, d);
      Found(items, sector, r, digests, j, s, d);
    }
  }

  lemma NothingToTouch(items: seq<Packed>, sector: Pos, r: Bytes)
    requires MapsTo(map[], items, sector, r.from, r.to)
    ensures TouchesRange(items, {}, sector, r)
  {
    hide Says;
    forall j, s: nat, d: Digest | 0 <= j < |items| && r.from <= s < r.to ensures !Says(items[j], sector, s, d) {
      Found(items, sector, r, map[], j, s, d);
    }
  }

  /** Where a walk from a key starts: at the first item at or after it. */
  method Seek(items: seq<Packed>, from: nat) returns (i: nat)
    requires forall j, k | 0 <= j < k < |items| :: items[j].at < items[k].at
    ensures i <= |items| && (forall j | 0 <= j < i :: items[j].at < from) && (forall j | i <= j < |items| :: from <= items[j].at)
  {
    i := 0;
    while i < |items| && items[i].at < from
      invariant i <= |items| && forall j | 0 <= j < i :: items[j].at < from
    {
      i := i + 1;
    }
  }

  /** The items one released range reaches. */
  method TouchRange(items: seq<Packed>, sector: Pos, leafOf: nat -> (nat, nat), r: Bytes) returns (touched: set<nat>)
    requires Ordered(items, sector) && Descends(items, leafOf) && r.from <= r.to
    ensures TouchesRange(items, touched, sector, r)
  {
    touched := {};
    LeafForIs(items, sector, leafOf(r.from), r.from);
    var digests := DigestsForRange(items, sector, leafOf(r.from), r.from, r.to - r.from);
    if digests == map[] {
      NothingToTouch(items, sector, r);
      return;
    }
    var first := Least(digests.Keys);
    LastIsNear(items, sector, leafOf(first), first);
    KeysAscend(items, sector);
    hide End, MapsTo, Ordered, TouchesRange;
    var i := Seek(items, LastAtOrBefore(items, leafOf(first), first));
    hide LastAtOrBefore;
    ghost var begin := i;
    while i < |items| && items[i].at < r.to
      invariant begin <= i <= |items|
      invariant forall j | begin <= j < i && End(items[j], sector) > r.from :: j in touched
    {
      if End(items[i], sector) > r.from { touched := touched + {i}; }
      i := i + 1;
    }
    WalkMeets(items, touched, sector, r, digests, first, begin, i);
  }

  lemma TouchesAll(items: seq<Packed>, touched: set<nat>, sector: Pos, released: seq<Bytes>)
    requires forall r | r in released :: TouchesRange(items, touched, sector, r)
    ensures Touches(items, touched, sector, released)
  {
    forall j, s: nat, d: Digest | 0 <= j < |items| && j !in touched && Says(items[j], sector, s, d)
      ensures !IsReleased(released, s)
    {
      forall r | r in released ensures !(r.from <= s < r.to) {
        assert TouchesRange(items, touched, sector, r);
      }
    }
  }

  /** The edits that take the released sectors' digests out of the tree, and `after`,
      the items they leave. */
  method ReleaseEdits(items: seq<Packed>, sector: Pos, leafOf: nat -> (nat, nat), released: seq<Bytes>)
    returns (edits: CsumEdits, ghost after: seq<Packed>)
    requires Ordered(items, sector) && Descends(items, leafOf) && (forall r | r in released :: r.from <= r.to)
    ensures Edited(TreeOf(items), edits) == TreeOf(after) && Ordered(after, sector)
    ensures forall s: nat, d: Digest :: SaidBy(after, sector, s, d) <==> SaidBy(items, sector, s, d) && !IsReleased(released, s)
  {
    var touched: set<nat> := {};
    hide TouchesRange, Descends, Ordered, SaidBy, IsReleased;
    for i := 0 to |released|
      invariant forall r | r in released[..i] :: TouchesRange(items, touched, sector, r)
    {
      var more := TouchRange(items, sector, leafOf, released[i]);
      forall r | r in released[..i+1] ensures TouchesRange(items, touched + more, sector, r) {
        if r in released[..i] { TouchesWider(items, touched, touched + more, sector, r); }
        else { TouchesWider(items, more, touched + more, sector, r); }
      }
      touched := touched + more;
    }
    assert released[..|released|] == released;
    TouchesAll(items, touched, sector, released);
    var deletes: CsumEdits, puts: CsumEdits := map[], map[];
    hide Touches, DropOf, PutAll, KeptRuns;
    for i := 0 to |items|
      invariant deletes == DropsTo(items, touched, sector, released, i)
      invariant puts == PutsTo(items, touched, sector, released, i)
    {
      NothingAdded(deletes);
      NothingAdded(puts);
      if i !in touched { continue; }
      var runs := KeepRuns(items[i], sector, released);
      deletes := deletes + DropOf(items[i], runs);
      puts := puts + PutAll(runs);
    }
    edits := deletes + puts;
    after := Left(items, touched, sector, released, |items|);
    LeftByEdits(items, touched, sector, released, |items|);
    LeftOrdered(items, touched, sector, released, |items|);
    assert items[..|items|] == items;
    forall s: nat, d: Digest
      ensures SaidBy(after, sector, s, d) <==> SaidBy(items, sector, s, d) && !IsReleased(released, s)
    {
      LeftSays(items, touched, sector, released, |items|, s, d);
    }
  }

  lemma NothingAdded(m: CsumEdits)
    ensures m + map[] == m
  {
  }

  lemma TouchesWider(items: seq<Packed>, touched: set<nat>, more: set<nat>, sector: Pos, r: Bytes)
    requires TouchesRange(items, touched, sector, r) && touched <= more
    ensures TouchesRange(items, more, sector, r)
  {
  }

  // ------------------------------------------------------- the order of the tree

  /** A sector's address. */
  predicate OnGrid(at: nat, sector: Pos) { at % sector == 0 }

  ghost predicate OnGridAll(items: seq<Packed>, sector: Pos) {
    forall j | 0 <= j < |items| :: OnGrid(items[j].at, sector)
  }

  /** The tree's items in key order, none empty, none over another's sectors. */
  ghost predicate TreeOrdered(m: CsumTree, sector: Pos) {
    && (forall k | k in m :: m[k] != [])
    && (forall j, k | j in m && k in m && j < k :: End(Packed(j, m[j]), sector) <= k)
  }

  /** Lists whose items keep off one another, and off the other list's. */
  ghost predicate Clear(a: seq<Packed>, b: seq<Packed>, sector: Pos) {
    forall j, k | 0 <= j < |a| && 0 <= k < |b| :: End(a[j], sector) <= b[k].at || End(b[k], sector) <= a[j].at
  }

  ghost predicate NoneEmpty(items: seq<Packed>) {
    forall j | 0 <= j < |items| :: items[j].digests != []
  }

  lemma SectorOnGrid(it: Packed, sector: Pos, i: nat)
    requires OnGrid(it.at, sector)
    ensures OnGrid(SectorAt(it, sector, i), sector)
  {
    ModOfMultiple(i, sector);
    ModSum(it.at, i * sector, sector);
  }

  /** An item says every sector its range holds. */
  lemma GridSays(it: Packed, sector: Pos, s: nat)
    requires OnGrid(it.at, sector) && OnGrid(s, sector) && it.at <= s < End(it, sector)
    ensures exists d :: Says(it, sector, s, d)
  {
    ModSum(s, it.at, sector);
    var i := (s - it.at) / sector;
    Euclid(s - it.at, sector);
    if i >= |it.digests| { TimesMonotonic(|it.digests|, i, sector); }
    assert SectorAt(it, sector, i) == s;
    assert Says(it, sector, s, it.digests[i]);
  }

  lemma SaidOnGrid(items: seq<Packed>, sector: Pos, s: nat, d: Digest)
    requires OnGridAll(items, sector) && SaidBy(items, sector, s, d)
    ensures OnGrid(s, sector)
  {
    var j :| 0 <= j < |items| && Says(items[j], sector, s, d);
    var i :| 0 <= i < |items[j].digests| && SectorAt(items[j], sector, i) == s && items[j].digests[i] == d;
    hide OnGrid;
    SectorOnGrid(items[j], sector, i);
  }

  /** Items of lists that say no sector in common keep off one another. */
  lemma SaysClear(a: seq<Packed>, b: seq<Packed>, sector: Pos)
    requires OnGridAll(a, sector) && OnGridAll(b, sector) && NoneEmpty(a) && NoneEmpty(b)
    requires forall s: nat, d: Digest, e: Digest :: !(SaidBy(a, sector, s, d) && SaidBy(b, sector, s, e))
    ensures Clear(a, b, sector)
  {
    hide OnGrid, End, SaidBy;
    forall j, k | 0 <= j < |a| && 0 <= k < |b| ensures End(a[j], sector) <= b[k].at || End(b[k], sector) <= a[j].at {
      SaidTwice(a, b, sector, j, k);
      SaidTwice(b, a, sector, k, j);
    }
  }

  lemma SaidTwice(a: seq<Packed>, b: seq<Packed>, sector: Pos, j: nat, k: nat)
    requires j < |a| && k < |b| && OnGrid(a[j].at, sector) && OnGrid(b[k].at, sector) && b[k].digests != []
    ensures a[j].at <= b[k].at < End(a[j], sector) ==>
      exists d, e :: SaidBy(a, sector, b[k].at, d) && SaidBy(b, sector, b[k].at, e)
  {
    hide OnGrid, End, Says;
    if a[j].at <= b[k].at < End(a[j], sector) {
      FirstSaid(b, sector, k);
      GridSays(a[j], sector, b[k].at);
      var d :| Says(a[j], sector, b[k].at, d);
      assert SaidBy(a, sector, b[k].at, d);
    }
  }

  /** Two clear lists make an ordered tree. */
  lemma ClearOrdered(a: seq<Packed>, b: seq<Packed>, sector: Pos)
    requires NoneEmpty(a) && NoneEmpty(b) && KeysDiffer(a) && KeysDiffer(b) && Apart(a, sector) && Apart(b, sector) && Clear(a, b, sector)
    ensures TreeOrdered(TreeOf(a) + TreeOf(b), sector)
  {
    var m := TreeOf(a) + TreeOf(b);
    forall k | k in m ensures m[k] != [] && (Among(Packed(k, m[k]), a) || Among(Packed(k, m[k]), b)) {
      InEither(a, b, k);
    }
    hide TreeOf, KeysDiffer, Among, Apart, Clear, NoneEmpty, End;
    forall j, k | j in m && k in m && j < k ensures End(Packed(j, m[j]), sector) <= k {
      assert Among(Packed(j, m[j]), a) || Among(Packed(j, m[j]), b);
      assert Among(Packed(k, m[k]), a) || Among(Packed(k, m[k]), b);
      ClearPair(a, b, sector, Packed(j, m[j]), Packed(k, m[k]));
    }
  }

  lemma InEither(a: seq<Packed>, b: seq<Packed>, k: nat)
    requires NoneEmpty(a) && NoneEmpty(b) && KeysDiffer(a) && KeysDiffer(b) && k in TreeOf(a) + TreeOf(b)
    ensures var it := Packed(k, (TreeOf(a) + TreeOf(b))[k]);
      it.digests != [] && (Among(it, a) || Among(it, b))
  {
    TreeHas(a);
    TreeHas(b);
    hide TreeOf, KeysDiffer;
    if k in TreeOf(b) {
      var j :| 0 <= j < |b| && b[j] == Packed(k, TreeOf(b)[k]);
      assert Among(b[j], b);
    } else {
      var j :| 0 <= j < |a| && a[j] == Packed(k, TreeOf(a)[k]);
      assert Among(a[j], a);
    }
  }

  ghost predicate Among(it: Packed, items: seq<Packed>) { exists j :: 0 <= j < |items| && items[j] == it }

  lemma ClearPair(a: seq<Packed>, b: seq<Packed>, sector: Pos, x: Packed, y: Packed)
    requires Apart(a, sector) && Apart(b, sector) && Clear(a, b, sector) && x.at < y.at && y.digests != []
    requires (Among(x, a) || Among(x, b)) && (Among(y, a) || Among(y, b))
    ensures End(x, sector) <= y.at
  {
    TimesMonotonic(1, |y.digests|, sector);
    assert y.at < End(y, sector);
    hide End;
  }

  /** The tree a batch of puts leaves is ordered, if they meet no digest it keeps. */
  lemma PutsOrdered(items: seq<Packed>, after: seq<Packed>, more: seq<Packed>, edits: CsumEdits, sector: Pos)
    requires Ordered(after, sector) && NoneEmpty(more) && KeysDiffer(more) && Apart(more, sector)
    requires OnGridAll(after, sector) && OnGridAll(more, sector)
    requires forall s: nat, d: Digest, e: Digest :: !(SaidBy(after, sector, s, d) && SaidBy(more, sector, s, e))
    requires Edited(TreeOf(items), edits) == TreeOf(after)
    ensures TreeOrdered(Edited(TreeOf(items), edits + PutAll(more)), sector)
  {
    KeysAscend(after, sector);
    SaysClear(after, more, sector);
    ClearOrdered(after, more, sector);
    hide TreeOrdered, Edited, TreeOf, PutAll;
    EditedTwice(TreeOf(items), edits, PutAll(more));
    PutAllAdds(TreeOf(after), more);
  }

  /** What is left of items on the grid is on it. */
  lemma LeftOnGrid(items: seq<Packed>, after: seq<Packed>, sector: Pos)
    requires OnGridAll(items, sector) && Ordered(after, sector)
    requires forall s: nat, d: Digest :: SaidBy(after, sector, s, d) ==> SaidBy(items, sector, s, d)
    ensures OnGridAll(after, sector)
  {
    hide OnGrid, SaidBy, End;
    forall j | 0 <= j < |after| ensures OnGrid(after[j].at, sector) {
      FirstSaid(after, sector, j);
      SaidOnGrid(items, sector, after[j].at, after[j].digests[0]);
    }
  }

  // ------------------------------------------------------------- new digests

  /** A copy's digests, in items of at most `per` each. */
  function Grouped(it: Packed, sector: Pos, per: Pos): seq<Packed>
    decreases |it.digests|
  {
    if it.digests == [] then []
    else if |it.digests| <= per then [it]
    else [Packed(it.at, it.digests[..per])] + Grouped(Packed(SectorAt(it, sector, per), it.digests[per..]), sector, per)
  }

  lemma SaysParts(it: Packed, sector: Pos, n: nat, s: nat, d: Digest)
    requires n <= |it.digests|
    ensures Says(it, sector, s, d) <==>
      Says(Packed(it.at, it.digests[..n]), sector, s, d) || Says(Packed(SectorAt(it, sector, n), it.digests[n..]), sector, s, d)
  {
    var a, b := Packed(it.at, it.digests[..n]), Packed(SectorAt(it, sector, n), it.digests[n..]);
    forall i | 0 <= i < |b.digests| ensures b.digests[i] == it.digests[n+i] && SectorAt(b, sector, i) == SectorAt(it, sector, n + i) {
      TimesSum(n, i, sector);
    }
    forall i | 0 <= i < n ensures a.digests[i] == it.digests[i] && SectorAt(a, sector, i) == SectorAt(it, sector, i) {
    }
    if Says(it, sector, s, d) {
      var i :| 0 <= i < |it.digests| && SectorAt(it, sector, i) == s && it.digests[i] == d;
      if i >= n { assert SectorAt(b, sector, i - n) == s && b.digests[i - n] == d; }
      else { assert SectorAt(a, sector, i) == s && a.digests[i] == d; }
    }
    if Says(b, sector, s, d) {
      var i :| 0 <= i < |b.digests| && SectorAt(b, sector, i) == s && b.digests[i] == d;
      assert SectorAt(it, sector, n + i) == s && it.digests[n+i] == d;
    }
    if Says(a, sector, s, d) {
      var i :| 0 <= i < |a.digests| && SectorAt(a, sector, i) == s && a.digests[i] == d;
      assert SectorAt(it, sector, i) == s && it.digests[i] == d;
    }
  }

  lemma {:induction false} GroupedSays(it: Packed, sector: Pos, per: Pos, s: nat, d: Digest)
    ensures SaidBy(Grouped(it, sector, per), sector, s, d) <==> Says(it, sector, s, d)
    decreases |it.digests|
  {
    hide Says, SaidBy;
    if it.digests == [] {
      NothingSaid(it, sector, s, d);
    } else if |it.digests| <= per {
      SaidAlone(it, sector, s, d);
    } else {
      var a, b := Packed(it.at, it.digests[..per]), Packed(SectorAt(it, sector, per), it.digests[per..]);
      SaysParts(it, sector, per, s, d);
      GroupedSays(b, sector, per, s, d);
      SaidJoin([a], Grouped(b, sector, per), sector, s, d);
      SaidAlone(a, sector, s, d);
    }
  }

  lemma {:induction false} GroupedOrdered(it: Packed, sector: Pos, per: Pos)
    ensures Ordered(Grouped(it, sector, per), sector) && Inside(Grouped(it, sector, per), sector, it.at, End(it, sector))
    decreases |it.digests|
  {
    if it.digests != [] && |it.digests| > per {
      var a, b := Packed(it.at, it.digests[..per]), Packed(SectorAt(it, sector, per), it.digests[per..]);
      TimesSum(per, |it.digests| - per, sector);
      GroupedOrdered(b, sector, per);
      hide Times;
      assert End(b, sector) == End(it, sector) && End(a, sector) == b.at;
      assert forall j | 0 < j < |[a] + Grouped(b, sector, per)| :: ([a] + Grouped(b, sector, per))[j] == Grouped(b, sector, per)[j-1];
    }
  }

  function AllGroups(contents: seq<Packed>, sector: Pos, per: Pos): seq<Packed> {
    if contents == [] then [] else
      AllGroups(contents[..|contents|-1], sector, per) + Grouped(contents[|contents|-1], sector, per)
  }

  ghost predicate Apart(contents: seq<Packed>, sector: Pos) {
    forall j, k | 0 <= j < |contents| && 0 <= k < |contents| && j != k ::
      End(contents[j], sector) <= contents[k].at || End(contents[k], sector) <= contents[j].at
  }

  ghost predicate KeysDiffer(items: seq<Packed>) {
    forall j, k | 0 <= j < k < |items| :: items[j].at != items[k].at
  }

  /** Every key of a list lies at a sector one of the ranges holds. */
  ghost predicate KeyedIn(items: seq<Packed>, contents: seq<Packed>, sector: Pos) {
    forall j | 0 <= j < |items| :: exists k :: 0 <= k < |contents| && contents[k].at <= items[j].at < End(contents[k], sector)
  }

  lemma {:induction false} GroupsSay(contents: seq<Packed>, sector: Pos, per: Pos, s: nat, d: Digest)
    ensures SaidBy(AllGroups(contents, sector, per), sector, s, d) <==> SaidBy(contents, sector, s, d)
  {
    hide Says, SaidBy;
    if contents != [] {
      var n := |contents| - 1;
      GroupsSay(contents[..n], sector, per, s, d);
      GroupedSays(contents[n], sector, per, s, d);
      SaidJoin(AllGroups(contents[..n], sector, per), Grouped(contents[n], sector, per), sector, s, d);
      SaidNext(contents, sector, n, s, d);
      assert contents[..n+1] == contents;
    }
  }

  lemma {:induction false} GroupsApart(contents: seq<Packed>, sector: Pos, per: Pos)
    requires Apart(contents, sector)
    ensures KeysDiffer(AllGroups(contents, sector, per)) && KeyedIn(AllGroups(contents, sector, per), contents, sector)
  {
    if contents != [] {
      var n := |contents| - 1;
      var init, last := contents[..n], contents[n];
      assert forall j | 0 <= j < n :: init[j] == contents[j];
      GroupsApart(init, sector, per);
      GroupedOrdered(last, sector, per);
      GroupKeys(Grouped(last, sector, per), sector, last.at, End(last, sector));
      var was, more := AllGroups(init, sector, per), Grouped(last, sector, per);
      hide Grouped, AllGroups, End;
      forall j | 0 <= j < |was| ensures exists k :: 0 <= k < n && contents[k].at <= was[j].at < End(contents[k], sector) {
        var k :| 0 <= k < |init| && init[k].at <= was[j].at < End(init[k], sector);
        assert contents[k] == init[k];
      }
      KeysJoin(was, more, contents, sector, n);
    }
  }

  lemma GroupKeys(items: seq<Packed>, sector: Pos, lo: nat, hi: nat)
    requires Ordered(items, sector) && Inside(items, sector, lo, hi)
    ensures KeysDiffer(items) && forall j | 0 <= j < |items| :: lo <= items[j].at < hi
  {
    KeysAscend(items, sector);
    forall j | 0 <= j < |items| ensures items[j].at < End(items[j], sector) { TimesMonotonic(1, |items[j].digests|, sector); }
  }

  lemma KeysJoin(was: seq<Packed>, more: seq<Packed>, contents: seq<Packed>, sector: Pos, n: nat)
    requires n < |contents| && Apart(contents, sector) && KeysDiffer(was) && KeysDiffer(more)
    requires forall j | 0 <= j < |was| :: exists k :: 0 <= k < n && contents[k].at <= was[j].at < End(contents[k], sector)
    requires forall j | 0 <= j < |more| :: contents[n].at <= more[j].at < End(contents[n], sector)
    ensures KeysDiffer(was + more) && KeyedIn(was + more, contents, sector)
  {
    hide End;
    forall i, j | 0 <= i < |was| && 0 <= j < |more| ensures was[i].at != more[j].at {
      var k :| 0 <= k < n && contents[k].at <= was[i].at < End(contents[k], sector);
    }
    var all := was + more;
    forall j | 0 <= j < |all| ensures exists k :: 0 <= k < |contents| && contents[k].at <= all[j].at < End(contents[k], sector) {
      if j < |was| {
        assert all[j] == was[j];
        var k :| 0 <= k < n && contents[k].at <= was[j].at < End(contents[k], sector);
      } else {
        assert all[j] == more[j - |was|];
      }
    }
  }

  /** The space a copy is given has no digests yet. */
  ghost predicate Fresh(items: seq<Packed>, sector: Pos, c: Packed) {
    forall s: nat, d: Digest | c.at <= s < End(c, sector) :: !SaidBy(items, sector, s, d)
  }

  lemma FreshWhen(items: seq<Packed>, sector: Pos, c: Packed, stale: map<nat, Digest>)
    requires MapsTo(stale, items, sector, c.at, End(c, sector))
    ensures stale == map[] <==> Fresh(items, sector, c)
  {
    hide SaidBy, End;
    if stale != map[] {
      var s :| s in stale;
      assert MapHas(stale, s, stale[s]);
    }
    forall s: nat, d: Digest | c.at <= s < End(c, sector) && stale == map[] ensures !SaidBy(items, sector, s, d) {
      assert !MapHas(stale, s, d);
    }
  }

  method CheckFresh(items: seq<Packed>, sector: Pos, leafOf: nat -> (nat, nat), contents: seq<Packed>) returns (stale: Option<nat>)
    requires Ordered(items, sector) && Descends(items, leafOf)
    ensures stale.None? <==> forall j | 0 <= j < |contents| :: Fresh(items, sector, contents[j])
  {
    hide MapsTo, Fresh, Ordered;
    for i := 0 to |contents|
      invariant forall j | 0 <= j < i :: Fresh(items, sector, contents[j])
    {
      var c := contents[i];
      LeafForIs(items, sector, leafOf(c.at), c.at);
      var found := DigestsForRange(items, sector, leafOf(c.at), c.at, Times(|c.digests|, sector));
      FreshWhen(items, sector, c, found);
      if found != map[] { return Some(c.at); }
    }
    return None;
  }

  /** New items in fresh space meet no key the tree keeps. */
  lemma FreshKeys(items: seq<Packed>, after: seq<Packed>, more: seq<Packed>, contents: seq<Packed>, sector: Pos)
    requires forall j | 0 <= j < |contents| :: Fresh(items, sector, contents[j])
    requires Ordered(after, sector) && KeyedIn(more, contents, sector)
    requires forall s: nat, d: Digest :: SaidBy(after, sector, s, d) ==> SaidBy(items, sector, s, d)
    ensures forall j, k | 0 <= j < |after| && 0 <= k < |more| :: after[j].at != more[k].at
  {
    hide End, SaidBy;
    forall j, k | 0 <= j < |after| && 0 <= k < |more| ensures after[j].at != more[k].at {
      var c :| 0 <= c < |contents| && contents[c].at <= more[k].at < End(contents[c], sector);
      FirstSaid(after, sector, j);
      assert Fresh(items, sector, contents[c]);
    }
  }

  lemma FirstSaid(items: seq<Packed>, sector: Pos, j: nat)
    requires j < |items| && items[j].digests != []
    ensures SaidBy(items, sector, items[j].at, items[j].digests[0])
  {
    assert SectorAt(items[j], sector, 0) == items[j].at;
    assert Says(items[j], sector, items[j].at, items[j].digests[0]);
  }

  /** Puts beside the items a release left: the tree says both. */
  lemma BothSaid(items: seq<Packed>, after: seq<Packed>, more: seq<Packed>, edits: CsumEdits, sector: Pos, s: nat, d: Digest)
    requires Ordered(after, sector) && KeysDiffer(more)
    requires forall j, k | 0 <= j < |after| && 0 <= k < |more| :: after[j].at != more[k].at
    requires Edited(TreeOf(items), edits) == TreeOf(after)
    ensures TreeSays(Edited(TreeOf(items), edits + PutAll(more)), sector, s, d) <==> SaidBy(after, sector, s, d) || SaidBy(more, sector, s, d)
  {
    KeysAscend(after, sector);
    EditedTwice(TreeOf(items), edits, PutAll(more));
    PutAllAdds(TreeOf(after), more);
    TreeHas(after);
    TreeHas(more);
    hide Edited, TreeOf, PutAll, SaidBy, TreeSays;
    TreeSaysEither(TreeOf(after), TreeOf(more), sector, s, d);
    TreeSaysAll(after, sector, s, d);
    TreeSaysAll(more, sector, s, d);
  }

  /** The checksum edits of a write: the released sectors' digests go, every other
      stays, and each copy's come. */
  method WriteCsums(items: seq<Packed>, sector: Pos, leafOf: nat -> (nat, nat), released: seq<Bytes>, contents: seq<Packed>, summed: bool, per: Pos)
    returns (r: Result<CsumEdits, CsumError>)
    requires Ordered(items, sector) && Descends(items, leafOf) && (forall x | x in released :: x.from <= x.to) && Apart(contents, sector)
    ensures r.Ok? <==> (summed ==> forall j | 0 <= j < |contents| :: Fresh(items, sector, contents[j]))
    ensures r.Ok? ==> forall s: nat, d: Digest :: TreeSays(Edited(TreeOf(items), r.value), sector, s, d) <==>
      ((SaidBy(items, sector, s, d) && !IsReleased(released, s)) || (summed && SaidBy(contents, sector, s, d)))
    ensures r.Ok? && OnGridAll(items, sector) && OnGridAll(contents, sector) ==> TreeOrdered(Edited(TreeOf(items), r.value), sector)
  {
    var edits, after := ReleaseEdits(items, sector, leafOf, released);
    hide Edited, TreeOf, TreeSays, SaidBy, IsReleased, Ordered, Fresh, AllGroups, PutAll, KeysDiffer, KeyedIn, Apart, TreeOrdered, OnGridAll;
    if !summed {
      if OnGridAll(items, sector) { ReleasedOrdered(items, after, edits, sector); }
      AscendOf(after, sector);
      forall s: nat, d: Digest
        ensures TreeSays(Edited(TreeOf(items), edits), sector, s, d) <==> SaidBy(items, sector, s, d) && !IsReleased(released, s)
      {
        TreeSaysAll(after, sector, s, d);
      }
      return Ok(edits);
    }
    var stale := CheckFresh(items, sector, leafOf, contents);
    if stale.Some? { return Err(StaleDigests(stale.value)); }
    var more := AllGroups(contents, sector, per);
    GroupsApart(contents, sector, per);
    FreshKeys(items, after, more, contents, sector);
    forall s: nat, d: Digest
      ensures TreeSays(Edited(TreeOf(items), edits + PutAll(more)), sector, s, d) <==>
        ((SaidBy(items, sector, s, d) && !IsReleased(released, s)) || SaidBy(contents, sector, s, d))
    {
      BothSaid(items, after, more, edits, sector, s, d);
      GroupsSay(contents, sector, per, s, d);
    }
    if OnGridAll(items, sector) && OnGridAll(contents, sector) {
      WrittenOrdered(items, sector, contents, per, after, edits);
    }
    return Ok(edits + PutAll(more));
  }

  /** With no puts, the order of what was left. */
  lemma ReleasedOrdered(items: seq<Packed>, after: seq<Packed>, edits: CsumEdits, sector: Pos)
    requires Ordered(after, sector) && Edited(TreeOf(items), edits) == TreeOf(after)
    ensures TreeOrdered(Edited(TreeOf(items), edits), sector)
  {
    KeysAscend(after, sector);
    ClearOrdered(after, [], sector);
    assert TreeOf(after) + TreeOf([]) == TreeOf(after);
  }

  /** Each item lies inside one of the ranges. */
  ghost predicate Housed(items: seq<Packed>, contents: seq<Packed>, sector: Pos) {
    forall j | 0 <= j < |items| :: exists k :: 0 <= k < |contents| && contents[k].at <= items[j].at && End(items[j], sector) <= End(contents[k], sector)
  }

  /** The groups of ranges that keep off one another do so too. */
  lemma {:induction false} GroupsKeepOff(contents: seq<Packed>, sector: Pos, per: Pos)
    requires Apart(contents, sector)
    ensures Apart(AllGroups(contents, sector, per), sector) && NoneEmpty(AllGroups(contents, sector, per))
    ensures Housed(AllGroups(contents, sector, per), contents, sector)
  {
    if contents != [] {
      var n := |contents| - 1;
      var init, last := contents[..n], contents[n];
      assert forall j | 0 <= j < n :: init[j] == contents[j];
      GroupsKeepOff(init, sector, per);
      GroupedOrdered(last, sector, per);
      OrderedApart(Grouped(last, sector, per), sector);
      var was, more := AllGroups(init, sector, per), Grouped(last, sector, per);
      hide Grouped, AllGroups, End, Ordered;
      HousedJoin(was, more, contents, sector, n);
    }
  }

  lemma HousedJoin(was: seq<Packed>, more: seq<Packed>, contents: seq<Packed>, sector: Pos, n: nat)
    requires n < |contents| && Apart(contents, sector) && Apart(was, sector) && Apart(more, sector)
    requires Housed(was, contents[..n], sector) && Inside(more, sector, contents[n].at, End(contents[n], sector))
    ensures Apart(was + more, sector) && Housed(was + more, contents, sector)
  {
    hide End;
    var all := was + more;
    forall j | 0 <= j < |was|
      ensures exists k :: 0 <= k < n && contents[k].at <= was[j].at && End(was[j], sector) <= End(contents[k], sector)
    {
      var k :| 0 <= k < n && contents[..n][k].at <= was[j].at && End(was[j], sector) <= End(contents[..n][k], sector);
      assert contents[..n][k] == contents[k];
    }
    forall j | 0 <= j < |all|
      ensures exists k :: 0 <= k < |contents| && contents[k].at <= all[j].at && End(all[j], sector) <= End(contents[k], sector)
    {
      assert if j < |was| then all[j] == was[j] else all[j] == more[j - |was|];
    }
    forall i, j | 0 <= i < |was| && 0 <= j < |more|
      ensures End(was[i], sector) <= more[j].at || End(more[j], sector) <= was[i].at
    {
      var k :| 0 <= k < n && contents[k].at <= was[i].at && End(was[i], sector) <= End(contents[k], sector);
    }
    assert forall j | 0 <= j < |all| :: all[j] == if j < |was| then was[j] else more[j - |was|];
  }

  lemma WrittenOrdered(items: seq<Packed>, sector: Pos, contents: seq<Packed>, per: Pos, after: seq<Packed>, edits: CsumEdits)
    requires OnGridAll(items, sector) && OnGridAll(contents, sector) && Apart(contents, sector)
    requires Ordered(after, sector) && Edited(TreeOf(items), edits) == TreeOf(after)
    requires forall s: nat, d: Digest :: SaidBy(after, sector, s, d) ==> SaidBy(items, sector, s, d)
    requires KeysDiffer(AllGroups(contents, sector, per)) && forall j | 0 <= j < |contents| :: Fresh(items, sector, contents[j])
    ensures TreeOrdered(Edited(TreeOf(items), edits + PutAll(AllGroups(contents, sector, per))), sector)
  {
    var more := AllGroups(contents, sector, per);
    hide OnGrid, SaidBy, Fresh, TreeOrdered, Edited, TreeOf, PutAll, End, KeysDiffer, AllGroups, Ordered, Apart, OnGridAll;
    LeftOnGrid(items, after, sector);
    GroupsKeepOff(contents, sector, per);
    GroupsOnGrid(contents, sector, per);
    forall s: nat, d: Digest, e: Digest | SaidBy(more, sector, s, e) ensures !SaidBy(after, sector, s, d) {
      GroupsSay(contents, sector, per, s, e);
      KeptApartFromWritten(items, sector, contents, s, d, e);
    }
    PutsOrdered(items, after, more, edits, sector);
  }

  lemma GroupsOnGrid(contents: seq<Packed>, sector: Pos, per: Pos)
    requires OnGridAll(contents, sector) && NoneEmpty(AllGroups(contents, sector, per))
    ensures OnGridAll(AllGroups(contents, sector, per), sector)
  {
    var more := AllGroups(contents, sector, per);
    hide OnGrid, SaidBy, AllGroups;
    forall j | 0 <= j < |more| ensures OnGrid(more[j].at, sector) {
      FirstSaid(more, sector, j);
      GroupsSay(contents, sector, per, more[j].at, more[j].digests[0]);
      SaidOnGrid(contents, sector, more[j].at, more[j].digests[0]);
    }
  }

  /** No kept sector is one a copy is written to. */
  lemma KeptApartFromWritten(items: seq<Packed>, sector: Pos, contents: seq<Packed>, s: nat, d: Digest, e: Digest)
    requires forall j | 0 <= j < |contents| :: Fresh(items, sector, contents[j])
    requires SaidBy(contents, sector, s, e)
    ensures !SaidBy(items, sector, s, d)
  {
    var j :| 0 <= j < |contents| && Says(contents[j], sector, s, e);
    hide SaidBy, Says;
    SaysInside(contents[j], sector, s, e);
    assert Fresh(items, sector, contents[j]);
  }

  lemma AscendOf(items: seq<Packed>, sector: Pos)
    requires Ordered(items, sector)
    ensures forall j, k | 0 <= j < k < |items| :: items[j].at != items[k].at
  {
    KeysAscend(items, sector);
  }

  // --------------------------------------------------------------- moved digests

  /** An extent moved: `len` bytes from `old` to `new`. */
  datatype Move = Move(from: nat, to: nat, len: nat) {
    function Released(): Bytes { Bytes(from, from + len) }
  }

  /** The digest a moved sector had where it was. */
  ghost predicate MovedHere(items: seq<Packed>, sector: Pos, m: Move, s: nat, d: Digest) {
    m.to <= s < m.to + m.len && SaidBy(items, sector, s - m.to + m.from, d)
  }

  ghost predicate MovedBy(items: seq<Packed>, sector: Pos, moves: seq<Move>, s: nat, d: Digest) {
    exists j :: 0 <= j < |moves| && MovedHere(items, sector, moves[j], s, d)
  }

  ghost predicate MovesApart(moves: seq<Move>) {
    forall j, k | 0 <= j < k < |moves| :: moves[j].to + moves[j].len <= moves[k].to || moves[k].to + moves[k].len <= moves[j].to
  }

  ghost predicate Carries(digests: map<nat, Digest>, items: seq<Packed>, sector: Pos, moves: seq<Move>) {
    forall s: nat, d: Digest :: MapHas(digests, s, d) <==> MovedBy(items, sector, moves, s, d)
  }

  function Places(digests: map<nat, Digest>, m: Move): set<nat>
    requires forall s | s in digests :: m.from <= s
  {
    set s | s in digests :: s - m.from + m.to
  }

  function Shifted(digests: map<nat, Digest>, m: Move): map<nat, Digest>
    requires forall s | s in digests :: m.from <= s
  {
    map t | t in Places(digests, m) :: digests[t - m.to + m.from]
  }

  lemma ShiftedHas(digests: map<nat, Digest>, m: Move, s: nat, d: Digest)
    requires forall t | t in digests :: m.from <= t
    ensures MapHas(Shifted(digests, m), s, d) <==> s >= m.to && MapHas(digests, s - m.to + m.from, d)
    ensures s in Shifted(digests, m) ==> s >= m.to && s - m.to + m.from in digests
  {
    if s >= m.to && s - m.to + m.from in digests {
      var t: nat := s - m.to + m.from;
      assert t in digests && t - m.from + m.to == s;
    }
  }

  lemma InRange(out: map<nat, Digest>, items: seq<Packed>, sector: Pos, start: nat, end: nat)
    requires MapsTo(out, items, sector, start, end)
    ensures forall s | s in out :: start <= s < end
  {
    hide SaidBy;
    forall s | s in out ensures start <= s < end { assert MapHas(out, s, out[s]); }
  }

  lemma CarriesNext(digests: map<nat, Digest>, found: map<nat, Digest>, items: seq<Packed>, sector: Pos, moves: seq<Move>, i: nat)
    requires i < |moves| && MovesApart(moves) && Carries(digests, items, sector, moves[..i])
    requires MapsTo(found, items, sector, moves[i].from, moves[i].from + moves[i].len)
    requires forall s | s in found :: moves[i].from <= s < moves[i].from + moves[i].len
    ensures Carries(digests + Shifted(found, moves[i]), items, sector, moves[..i+1])
  {
    hide SaidBy, Shifted;
    var m := moves[i];
    var now := digests + Shifted(found, m);
    forall s: nat, d: Digest ensures MapHas(now, s, d) <==> MovedBy(items, sector, moves[..i+1], s, d) {
      ShiftedHas(found, m, s, d);
      assert MapHas(digests, s, d) <==> MovedBy(items, sector, moves[..i], s, d);
      if s >= m.to { assert MapHas(found, s - m.to + m.from, d) <==> m.from <= s - m.to + m.from < m.from + m.len && SaidBy(items, sector, s - m.to + m.from, d); }
      MovedNext(items, sector, moves, i, s, d);
      CarriedApart(digests, found, items, sector, moves, i, s);
    }
  }

  lemma MovedNext(items: seq<Packed>, sector: Pos, moves: seq<Move>, i: nat, s: nat, d: Digest)
    requires i < |moves|
    ensures MovedBy(items, sector, moves[..i+1], s, d) <==> MovedBy(items, sector, moves[..i], s, d) || MovedHere(items, sector, moves[i], s, d)
  {
    hide MovedHere;
    assert moves[..i+1][i] == moves[i];
    assert forall j | 0 <= j < i :: moves[..i+1][j] == moves[..i][j];
  }

  /** No earlier move carries a digest to where this one does. */
  lemma CarriedApart(digests: map<nat, Digest>, found: map<nat, Digest>, items: seq<Packed>, sector: Pos, moves: seq<Move>, i: nat, s: nat)
    requires i < |moves| && MovesApart(moves) && Carries(digests, items, sector, moves[..i])
    requires forall t | t in found :: moves[i].from <= t < moves[i].from + moves[i].len
    ensures s in digests ==> s !in Shifted(found, moves[i])
  {
    hide SaidBy, Shifted;
    ShiftedHas(found, moves[i], s, 0);
    if s in digests {
      assert MapHas(digests, s, digests[s]);
      var j :| 0 <= j < |moves[..i]| && MovedHere(items, sector, moves[..i][j], s, digests[s]);
      assert moves[..i][j] == moves[j];
    }
  }

  /** Runs of adjacent sectors, each cut at the cap on one item. */
  ghost predicate RunsOf(runs: seq<Packed>, sector: Pos, digests: map<nat, Digest>, todo: set<nat>) {
    && (forall s: nat, d: Digest :: SaidBy(runs, sector, s, d) <==> MapHas(digests, s, d) && s !in todo)
    && (forall j, k | 0 <= j < k < |runs| :: runs[j].at < runs[k].at)
    && (forall j | 0 <= j < |runs| :: runs[j].at in digests && runs[j].at !in todo && runs[j].digests != [])
  }

  lemma RunNext(runs: seq<Packed>, sector: Pos, digests: map<nat, Digest>, todo: set<nat>, cap: nat, s: nat)
    requires RunsOf(runs, sector, digests, todo) && s in digests && s in todo && (forall t | t in digests && t !in todo :: t < s)
    ensures RunsOf(Extended(runs, sector, cap, s, digests[s]), sector, digests, todo - {s})
  {
    hide SaidBy;
    var now := Extended(runs, sector, cap, s, digests[s]);
    forall t: nat, e: Digest ensures SaidBy(now, sector, t, e) <==> MapHas(digests, t, e) && t !in todo - {s} {
      ExtendedSays(runs, sector, cap, s, digests[s], t, e);
      assert SaidBy(runs, sector, t, e) <==> MapHas(digests, t, e) && t !in todo;
    }
  }

  lemma NoRuns(sector: Pos, digests: map<nat, Digest>)
    ensures RunsOf([], sector, digests, digests.Keys)
  {
  }

  lemma NoneInside(sector: Pos) ensures forall hi :: Inside([], sector, 0, hi) {}

  /** On the grid, a run taken on ends before the sectors still to come. */
  lemma RunsClear(runs: seq<Packed>, sector: Pos, digests: map<nat, Digest>, todo: set<nat>, cap: nat, s: nat)
    requires s in todo && todo <= digests.Keys && forall t | t in todo :: s <= t
    requires (forall t | t in digests :: OnGrid(t, sector)) ==> Ordered(runs, sector) && Inside(runs, sector, 0, s)
    ensures (forall t | t in digests :: OnGrid(t, sector)) ==>
      var now := Extended(runs, sector, cap, s, digests[s]);
      Ordered(now, sector) && forall t | t in todo - {s} :: Inside(now, sector, 0, t)
  {
    hide Extended, Ordered, Inside;
    if forall t | t in digests :: OnGrid(t, sector) {
      ExtendedOrdered(runs, sector, cap, s, digests[s], 0);
      forall t | t in todo - {s} ensures Inside(Extended(runs, sector, cap, s, digests[s]), sector, 0, t) {
        MultiplesApart(s, t, sector);
        InsideWider(Extended(runs, sector, cap, s, digests[s]), sector, s + sector, t);
      }
    }
  }

  lemma InsideWider(runs: seq<Packed>, sector: Pos, hi: int, more: int)
    requires Inside(runs, sector, 0, hi) && hi <= more
    ensures Inside(runs, sector, 0, more)
  {
  }

  method PackRuns(digests: map<nat, Digest>, sector: Pos, per: Pos) returns (runs: seq<Packed>)
    ensures RunsOf(runs, sector, digests, {})
    ensures (forall s | s in digests :: OnGrid(s, sector)) ==> Ordered(runs, sector)
  {
    runs := [];
    var todo := digests.Keys;
    NoRuns(sector, digests);
    hide RunsOf, Extended, OnGrid, Ordered, Inside;
    NoneOrdered(sector);
    NoneInside(sector);
    while todo != {}
      invariant todo <= digests.Keys && RunsOf(runs, sector, digests, todo)
      invariant (forall s | s in digests :: OnGrid(s, sector)) ==>
          Ordered(runs, sector) && forall s | s in todo :: Inside(runs, sector, 0, s)
      invariant forall s, t | s in todo && t in digests && t !in todo :: t < s
      decreases todo
    {
      var s := Least(todo);
      RunNext(runs, sector, digests, todo, per, s);
      RunsClear(runs, sector, digests, todo, per, s);
      runs := Extended(runs, sector, per, s, digests[s]);
      todo := todo - {s};
    }
  }

  ghost predicate FreshFor(items: seq<Packed>, sector: Pos, m: Move) {
    forall s: nat, d: Digest | m.to <= s < m.to + m.len :: !SaidBy(items, sector, s, d)
  }

  /** Runs put where nothing was meet no key the tree keeps. */
  lemma RunKeys(items: seq<Packed>, after: seq<Packed>, runs: seq<Packed>, digests: map<nat, Digest>, moves: seq<Move>, sector: Pos)
    requires forall j | 0 <= j < |moves| :: FreshFor(items, sector, moves[j])
    requires Ordered(after, sector) && RunsOf(runs, sector, digests, {}) && Carries(digests, items, sector, moves)
    requires forall s: nat, d: Digest :: SaidBy(after, sector, s, d) ==> SaidBy(items, sector, s, d)
    ensures KeysDiffer(runs)
    ensures forall j, k | 0 <= j < |after| && 0 <= k < |runs| :: after[j].at != runs[k].at
  {
    hide End, SaidBy;
    forall j, k | 0 <= j < |after| && 0 <= k < |runs| ensures after[j].at != runs[k].at {
      var s := runs[k].at;
      assert MapHas(digests, s, digests[s]);
      var c :| 0 <= c < |moves| && MovedHere(items, sector, moves[c], s, digests[s]);
      FirstSaid(after, sector, j);
      assert FreshFor(items, sector, moves[c]);
    }
  }

  method MoveFresh(items: seq<Packed>, sector: Pos, leafOf: nat -> (nat, nat), moves: seq<Move>) returns (stale: Option<nat>)
    requires Ordered(items, sector) && Descends(items, leafOf)
    ensures stale.None? <==> forall j | 0 <= j < |moves| :: FreshFor(items, sector, moves[j])
  {
    hide MapsTo, FreshFor, Ordered;
    for i := 0 to |moves|
      invariant forall j | 0 <= j < i :: FreshFor(items, sector, moves[j])
    {
      var m := moves[i];
      LeafForIs(items, sector, leafOf(m.to), m.to);
      var found := DigestsForRange(items, sector, leafOf(m.to), m.to, m.len);
      MoveFreshWhen(items, sector, m, found);
      if found != map[] { return Some(m.to); }
    }
    return None;
  }

  lemma MoveFreshWhen(items: seq<Packed>, sector: Pos, m: Move, stale: map<nat, Digest>)
    requires MapsTo(stale, items, sector, m.to, m.to + m.len)
    ensures stale == map[] <==> FreshFor(items, sector, m)
  {
    hide SaidBy;
    if stale != map[] {
      var s :| s in stale;
      assert MapHas(stale, s, stale[s]);
    }
    forall s: nat, d: Digest | m.to <= s < m.to + m.len && stale == map[] ensures !SaidBy(items, sector, s, d) {
      assert !MapHas(stale, s, d);
    }
  }

  /** The moved extents' digests, by the sector each describes once moved. */
  method CarryDigests(items: seq<Packed>, sector: Pos, leafOf: nat -> (nat, nat), moves: seq<Move>) returns (digests: map<nat, Digest>)
    requires Ordered(items, sector) && Descends(items, leafOf) && MovesApart(moves)
    ensures Carries(digests, items, sector, moves)
  {
    digests := map[];
    assert moves[..0] == [] && Carries(digests, items, sector, []);
    assert moves[..|moves|] == moves;
    hide MapsTo, Carries, Shifted, Ordered;
    for i := 0 to |moves|
      invariant Carries(digests, items, sector, moves[..i])
    {
      var m := moves[i];
      LeafForIs(items, sector, leafOf(m.from), m.from);
      var found := DigestsForRange(items, sector, leafOf(m.from), m.from, m.len);
      InRange(found, items, sector, m.from, m.from + m.len);
      CarriesNext(digests, found, items, sector, moves, i);
      digests := digests + Shifted(found, m);
    }
  }

  /** The checksum edits of a relocation: each moved sector's digest is filed under its
      new address, and every other digest stays as it is. */
  method MoveCsums(items: seq<Packed>, sector: Pos, leafOf: nat -> (nat, nat), moves: seq<Move>, per: Pos)
    returns (r: Result<CsumEdits, CsumError>)
    requires Ordered(items, sector) && Descends(items, leafOf) && MovesApart(moves)
    ensures r.Ok? <==> forall j | 0 <= j < |moves| :: FreshFor(items, sector, moves[j])
    ensures r.Ok? ==> forall s: nat, d: Digest :: TreeSays(Edited(TreeOf(items), r.value), sector, s, d) <==>
      ((SaidBy(items, sector, s, d) && !IsReleased(Vacated(moves), s)) || MovedBy(items, sector, moves, s, d))
    ensures r.Ok? && OnGridAll(items, sector) && MovesOnGrid(moves, sector) ==> TreeOrdered(Edited(TreeOf(items), r.value), sector)
  {
    hide MovesOnGrid, TreeOrdered, OnGridAll, Inside;
    hide Edited, TreeOf, TreeSays, SaidBy, IsReleased, Ordered, FreshFor, PutAll, KeysDiffer, Carries, RunsOf, MovesApart, MovedBy;
    VacatedRanges(moves);
    var edits, after := ReleaseEdits(items, sector, leafOf, Vacated(moves));
    var stale := MoveFresh(items, sector, leafOf, moves);
    if stale.Some? { return Err(StaleDigests(stale.value)); }
    var digests := CarryDigests(items, sector, leafOf, moves);
    var runs := PackRuns(digests, sector, per);
    RunKeys(items, after, runs, digests, moves, sector);
    forall s: nat, d: Digest
      ensures TreeSays(Edited(TreeOf(items), edits + PutAll(runs)), sector, s, d) <==>
        ((SaidBy(items, sector, s, d) && !IsReleased(Vacated(moves), s)) || MovedBy(items, sector, moves, s, d))
    {
      BothSaid(items, after, runs, edits, sector, s, d);
      RunsCarry(items, sector, moves, digests, runs, s, d);
    }
    if OnGridAll(items, sector) && MovesOnGrid(moves, sector) {
      MovedOrdered(items, sector, moves, after, digests, runs, edits);
    }
    return Ok(edits + PutAll(runs));
  }

  /** Extents begin at sectors, and are moved to sectors. */
  ghost predicate MovesOnGrid(moves: seq<Move>, sector: Pos) {
    forall j | 0 <= j < |moves| :: OnGrid(moves[j].from, sector) && OnGrid(moves[j].to, sector)
  }

  lemma CarriedOnGrid(items: seq<Packed>, sector: Pos, moves: seq<Move>, digests: map<nat, Digest>)
    requires OnGridAll(items, sector) && MovesOnGrid(moves, sector) && Carries(digests, items, sector, moves)
    ensures forall s | s in digests :: OnGrid(s, sector)
  {
    hide OnGridAll, SaidBy;
    forall s | s in digests ensures OnGrid(s, sector) {
      assert MapHas(digests, s, digests[s]);
      var j :| 0 <= j < |moves| && MovedHere(items, sector, moves[j], s, digests[s]);
      var m := moves[j];
      SaidOnGrid(items, sector, s - m.to + m.from, digests[s]);
      ModSum(s - m.to + m.from, m.from, sector);
      ModSum(s - m.to, m.to, sector);
    }
  }

  /** No kept sector is one a digest was moved to. */
  lemma KeptApartFromMoved(items: seq<Packed>, sector: Pos, moves: seq<Move>, s: nat, d: Digest, e: Digest)
    requires forall j | 0 <= j < |moves| :: FreshFor(items, sector, moves[j])
    requires MovedBy(items, sector, moves, s, e)
    ensures !SaidBy(items, sector, s, d)
  {
    hide SaidBy;
    var j :| 0 <= j < |moves| && MovedHere(items, sector, moves[j], s, e);
    assert FreshFor(items, sector, moves[j]);
  }

  lemma MovedOrdered(items: seq<Packed>, sector: Pos, moves: seq<Move>, after: seq<Packed>, digests: map<nat, Digest>, runs: seq<Packed>,
    edits: CsumEdits)
    requires OnGridAll(items, sector) && MovesOnGrid(moves, sector) && Carries(digests, items, sector, moves)
    requires Ordered(after, sector) && Edited(TreeOf(items), edits) == TreeOf(after)
    requires forall s: nat, d: Digest :: SaidBy(after, sector, s, d) ==> SaidBy(items, sector, s, d)
    requires (forall s | s in digests :: OnGrid(s, sector)) ==> Ordered(runs, sector)
    requires RunsOf(runs, sector, digests, {}) && KeysDiffer(runs) && forall j | 0 <= j < |moves| :: FreshFor(items, sector, moves[j])
    ensures TreeOrdered(Edited(TreeOf(items), edits + PutAll(runs)), sector)
  {
    hide OnGrid, SaidBy, MovedBy, FreshFor, MovesOnGrid, TreeOrdered, Edited, TreeOf, PutAll, End, KeysDiffer;
    CarriedOnGrid(items, sector, moves, digests);
    LeftOnGrid(items, after, sector);
    OrderedApart(runs, sector);
    forall s: nat, d: Digest, e: Digest | SaidBy(runs, sector, s, e) ensures !SaidBy(after, sector, s, d) {
      assert MapHas(digests, s, e);
      KeptApartFromMoved(items, sector, moves, s, d, e);
    }
    assert OnGridAll(runs, sector);
    PutsOrdered(items, after, runs, edits, sector);
  }

  lemma OrderedApart(items: seq<Packed>, sector: Pos)
    requires Ordered(items, sector)
    ensures Apart(items, sector) && NoneEmpty(items)
  {
  }

  lemma RunsCarry(items: seq<Packed>, sector: Pos, moves: seq<Move>, digests: map<nat, Digest>, runs: seq<Packed>, s: nat, d: Digest)
    requires RunsOf(runs, sector, digests, {}) && Carries(digests, items, sector, moves)
    ensures SaidBy(runs, sector, s, d) <==> MovedBy(items, sector, moves, s, d)
  {
    hide SaidBy, MovedBy;
    assert MapHas(digests, s, d) <==> MovedBy(items, sector, moves, s, d);
  }

  /** Where the moved extents lay. */
  function Vacated(moves: seq<Move>): seq<Bytes> { seq(|moves|, i requires 0 <= i < |moves| => moves[i].Released()) }

  lemma VacatedRanges(moves: seq<Move>)
    ensures forall r | r in Vacated(moves) :: r.from <= r.to
  {
  }
}
