/** Where a new chunk's stripes go on a device (`place_stripes`, src/balance.rs): the
    first MiB-aligned holes that fit, clear of the superblock copies. */
module Placement {
  import opened Base
  import opened FreeSpace

  const MIB: nat := 0x10_0000

  /** A stripe of `len` bytes at `p` and a busy range are in each other's way. */
  predicate Overlaps(p: nat, len: nat, busy: FreeExtent) {
    busy.start < p + len && p < busy.End()
  }

  /** The MiBs the superblock copy at `at` takes. */
  function CopyMibs(at: nat): FreeExtent {
    var stop := AlignUp(at + SUPERBLOCK_SIZE, MIB);
    FreeExtent(at - at % MIB, stop - (at - at % MIB))
  }

  /** What a stripe must be clear of: the extents there are, the first MiB, and
      the MiBs of every superblock copy. */
  function Obstacles(taken: seq<FreeExtent>): seq<FreeExtent> {
    taken + [FreeExtent(0, MIB)]
    + seq(|SUPER_OFFSETS|, i requires 0 <= i < |SUPER_OFFSETS| => CopyMibs(SUPER_OFFSETS[i]))
  }

  ghost predicate Allowed(p: nat, len: nat, device: nat, obstacles: seq<FreeExtent>) {
    p % MIB == 0 && p + len <= device && forall o | o in obstacles :: !Overlaps(p, len, o)
  }

  /** A set of places for stripes: each allowed, no two in each other's way. */
  ghost predicate Places(s: set<nat>, len: nat, device: nat, obstacles: seq<FreeExtent>) {
    && (forall p | p in s :: Allowed(p, len, device, obstacles))
    && (forall p, q | p in s && q in s && p < q :: p + len <= q)
  }

  function Below(s: set<nat>, at: nat): set<nat> {
    set p | p in s && p < at
  }

  lemma NothingBetween(s: set<nat>, at: nat, next: nat)
    requires at <= next && forall p | at <= p < next :: p !in s
    ensures Below(s, next) == Below(s, at)
  {
  }

  /** Of places `len` apart, at most one starts in any `len` bytes. */
  lemma OneBetween(s: set<nat>, at: nat, len: nat)
    requires forall p, q | p in s && q in s && p < q :: p + len <= q
    ensures |Below(s, at + len)| <= |Below(s, at)| + 1
  {
    var more := Below(s, at + len) - Below(s, at);
    assert Below(s, at + len) == Below(s, at) + more;
    if more != {} {
      var p :| p in more;
      forall q | q in more ensures q == p {
        assert p < q ==> p + len <= q;
        assert q < p ==> q + len <= p;
      }
      assert more == {p};
    }
  }

  function Own(out: seq<nat>, len: nat): seq<FreeExtent> {
    seq(|out|, i requires 0 <= i < |out| => FreeExtent(out[i], len))
  }

  /** The busy list is the obstacles and the stripes placed, in order, and those
      before `i` end at `at` or before it. */
  ghost predicate Scanned(busy: seq<FreeExtent>, i: nat, at: nat, obstacles: seq<FreeExtent>, out: seq<nat>, len: nat) {
    && i <= |busy| && InOrder(busy)
    && multiset(busy) == multiset(obstacles) + multiset(Own(out, len))
    && forall j | 0 <= j < i :: busy[j].End() <= at
  }

  /** Stripes placed so far: ascending, allowed, none in another's way; the scan
      stands at the last of them or past its end. */
  ghost predicate Good(out: seq<nat>, at: nat, len: nat, device: nat, obstacles: seq<FreeExtent>) {
    && (forall j | 0 <= j < |out| :: Allowed(out[j], len, device, obstacles) && out[j] <= at)
    && (forall j, k | 0 <= j < k < |out| :: out[j] + len <= out[k])
    && (out != [] ==> at == out[|out|-1] || out[|out|-1] + len <= at)
  }

  /** How many stripes placed start before `at`. */
  function Passed(out: seq<nat>, at: nat): nat {
    if out != [] && out[|out|-1] == at then |out| - 1 else |out|
  }

  /** No set of places has more stripes before `at` than were placed before it. */
  ghost predicate Ahead(out: seq<nat>, at: nat, len: nat, device: nat, obstacles: seq<FreeExtent>) {
    forall s: set<nat> | Places(s, len, device, obstacles) :: |Below(s, at)| <= Passed(out, at)
  }

  /** `count` stripes, MiB-aligned, inside the device, apart from each other and
      clear of every obstacle; none only when no set of so many exists. */
  method PlaceStripes(taken: seq<FreeExtent>, device: nat, len: nat, count: nat) returns (r: Option<seq<nat>>)
    ensures len == 0 ==> r.None?
    ensures r.Some? ==> |r.value| == count
    ensures r.Some? ==> forall j | 0 <= j < count :: Allowed(r.value[j], len, device, Obstacles(taken))
    ensures r.Some? ==> forall j, k | 0 <= j < k < count :: r.value[j] + len <= r.value[k]
    ensures r.None? && len > 0 ==> forall s: set<nat> | Places(s, len, device, Obstacles(taken)) :: |s| < count
  {
    hide Sorted, Obstacles, Scanned, Good, Ahead, InOrder, Own, Allowed, Places, AlignUp, FreeExtent.End;
    if len == 0 { return None; }
    ghost var obstacles := Obstacles(taken);
    var busy := Sorted(Obstacles(taken));
    var out: seq<nat> := [];
    var at: nat, i: nat := 0, 0;
    ScanStart(len, device, obstacles);
    while |out| < count
      invariant |out| <= count && i <= |busy|
      invariant Scanned(busy, i, at, obstacles, out, len)
      invariant Good(out, at, len, device, obstacles)
      invariant Ahead(out, at, len, device, obstacles)
      decreases count - |out|, if at <= device then device - at + 1 else 0
    {
      ghost var was := at;
      at := AlignUp(at, MIB);
      Realign(busy, i, was, at, obstacles, out, len, device);
      var end := at + len;
      if end > device {
        NoMoreThan(out, at, len, device, obstacles);
        return None;
      }
      while i < |busy| && busy[i].End() <= at
        invariant i <= |busy| && Scanned(busy, i, at, obstacles, out, len)
        decreases |busy| - i
      {
        ScannedPast(busy, i, at, obstacles, out, len);
        i := i + 1;
      }
      if i < |busy| && busy[i].start < end {
        Blocked(busy, i, at, obstacles, out, len, device);
        at := busy[i].End();
      } else {
        Unblocked(busy, i, at, obstacles, out, len, device);
        busy := busy[..i] + [FreeExtent(at, end - at)] + busy[i..];
        out := out + [at];
      }
    }
    GoodMeans(out, at, len, device, obstacles);
    return Some(out);
  }

  lemma StartAhead(len: nat, device: nat, obstacles: seq<FreeExtent>)
    ensures Ahead([], 0, len, device, obstacles)
  {
    forall s: set<nat> ensures Below(s, 0) == {} {}
  }

  lemma ScanStart(len: nat, device: nat, obstacles: seq<FreeExtent>)
    ensures Scanned(Sorted(obstacles), 0, 0, obstacles, [], len)
    ensures Good([], 0, len, device, obstacles) && Ahead([], 0, len, device, obstacles)
  {
    SortedInOrder(obstacles);
    StartAhead(len, device, obstacles);
    assert Own([], len) == [];
  }

  lemma GoodMeans(out: seq<nat>, at: nat, len: nat, device: nat, obstacles: seq<FreeExtent>)
    requires Good(out, at, len, device, obstacles)
    ensures forall j | 0 <= j < |out| :: Allowed(out[j], len, device, obstacles)
    ensures forall j, k | 0 <= j < k < |out| :: out[j] + len <= out[k]
  {
  }

  lemma ScannedPast(busy: seq<FreeExtent>, i: nat, at: nat, obstacles: seq<FreeExtent>, out: seq<nat>, len: nat)
    requires Scanned(busy, i, at, obstacles, out, len) && i < |busy| && busy[i].End() <= at
    ensures Scanned(busy, i + 1, at, obstacles, out, len)
  {
  }

  /** Nothing aligned is stepped over by aligning. */
  lemma Realign(busy: seq<FreeExtent>, i: nat, was: nat, at: nat, obstacles: seq<FreeExtent>, out: seq<nat>, len: nat, device: nat)
    requires Scanned(busy, i, was, obstacles, out, len) && Good(out, was, len, device, obstacles)
    requires Ahead(out, was, len, device, obstacles) && at == AlignUp(was, MIB)
    ensures Scanned(busy, i, at, obstacles, out, len) && Good(out, at, len, device, obstacles)
    ensures Ahead(out, at, len, device, obstacles)
  {
    if out != [] && out[|out|-1] == was { assert at == was; }
    forall s: set<nat> | Places(s, len, device, obstacles) ensures |Below(s, at)| <= Passed(out, at) {
      forall p | was <= p < at ensures p !in s {
        if p in s { AlignUpLeast(was, MIB, p); }
      }
      NothingBetween(s, was, at);
    }
  }

  lemma NoMoreThan(out: seq<nat>, at: nat, len: nat, device: nat, obstacles: seq<FreeExtent>)
    requires Ahead(out, at, len, device, obstacles) && at + len > device
    ensures forall s: set<nat> | Places(s, len, device, obstacles) :: |s| <= |out|
  {
    forall s: set<nat> | Places(s, len, device, obstacles) ensures |s| <= |out| {
      assert Below(s, at) == s;
    }
  }

  /** A busy range that ends past `at` and starts before a stripe there would end:
      no place is lost by going to its end. */
  lemma Blocked(busy: seq<FreeExtent>, i: nat, at: nat, obstacles: seq<FreeExtent>, out: seq<nat>, len: nat, device: nat)
    requires Scanned(busy, i, at, obstacles, out, len) && Good(out, at, len, device, obstacles)
    requires Ahead(out, at, len, device, obstacles)
    requires len > 0 && i < |busy| && at < busy[i].End() && busy[i].start < at + len
    ensures var next := busy[i].End();
      && Scanned(busy, i, next, obstacles, out, len) && Good(out, next, len, device, obstacles)
      && Ahead(out, next, len, device, obstacles)
  {
    hide Good, Ahead, InOrder;
    ScannedOn(busy, i, at, busy[i].End(), obstacles, out, len);
    assert busy[i] in multiset(busy);
    assert busy[i] in obstacles || busy[i] in Own(out, len);
    hide Scanned;
    if busy[i] in obstacles {
      ObstacleBlocks(busy[i], at, obstacles, out, len, device);
    } else {
      var j :| 0 <= j < |out| && Own(out, len)[j] == busy[i];
      OnlyLastEndsLater(out, j, at, len, device, obstacles);
      OwnBlocks(out, at, len, device, obstacles);
    }
  }

  lemma ScannedOn(busy: seq<FreeExtent>, i: nat, at: nat, next: nat, obstacles: seq<FreeExtent>, out: seq<nat>, len: nat)
    requires Scanned(busy, i, at, obstacles, out, len) && at <= next
    ensures Scanned(busy, i, next, obstacles, out, len)
  {
    hide InOrder, Own;
  }

  lemma OnlyLastEndsLater(out: seq<nat>, j: nat, at: nat, len: nat, device: nat, obstacles: seq<FreeExtent>)
    requires Good(out, at, len, device, obstacles) && j < |out| && out[j] + len > at
    ensures j == |out| - 1
  {
    hide Allowed;
  }

  lemma ObstacleBlocks(o: FreeExtent, at: nat, obstacles: seq<FreeExtent>, out: seq<nat>, len: nat, device: nat)
    requires o in obstacles && at < o.End() && o.start < at + len
    requires Good(out, at, len, device, obstacles) && Ahead(out, at, len, device, obstacles)
    ensures Ahead(out, o.End(), len, device, obstacles) && Good(out, o.End(), len, device, obstacles)
  {
    assert Overlaps(at, len, o);
    assert out != [] ==> Allowed(out[|out|-1], len, device, obstacles);
    forall s: set<nat> | Places(s, len, device, obstacles) ensures |Below(s, o.End())| <= Passed(out, o.End()) {
      forall p | at <= p < o.End() ensures p !in s {
        if p in s { assert Allowed(p, len, device, obstacles) && Overlaps(p, len, o); }
      }
      NothingBetween(s, at, o.End());
    }
  }

  /** Only the stripe just placed can be in the way of the next one. */
  lemma OwnBlocks(out: seq<nat>, at: nat, len: nat, device: nat, obstacles: seq<FreeExtent>)
    requires out != [] && len > 0 && at < out[|out|-1] + len
    requires Good(out, at, len, device, obstacles) && Ahead(out, at, len, device, obstacles)
    ensures var next := out[|out|-1] + len;
      Ahead(out, next, len, device, obstacles) && Good(out, next, len, device, obstacles)
  {
    var next := out[|out|-1] + len;
    forall s: set<nat> | Places(s, len, device, obstacles) ensures |Below(s, next)| <= Passed(out, next) {
      OneBetween(s, at, len);
    }
  }

  /** Nothing in the way: everything busy ends before the stripe or starts after it. */
  lemma Unblocked(busy: seq<FreeExtent>, i: nat, at: nat, obstacles: seq<FreeExtent>, out: seq<nat>, len: nat, device: nat)
    requires Scanned(busy, i, at, obstacles, out, len) && Good(out, at, len, device, obstacles)
    requires Ahead(out, at, len, device, obstacles)
    requires len > 0 && at % MIB == 0 && at + len <= device && (i < |busy| ==> at + len <= busy[i].start)
    ensures var put := FreeExtent(at, len);
      && Scanned(busy[..i] + [put] + busy[i..], i, at, obstacles, out + [at], len)
      && Good(out + [at], at, len, device, obstacles) && Ahead(out + [at], at, len, device, obstacles)
  {
    var put := FreeExtent(at, len);
    NothingOverlaps(busy, i, at, obstacles, out, len);
    PutInOrder(busy, i, put);
    PutIsOne(busy, i, put, obstacles, out, len);
    hide InOrder;
    assert Allowed(at, len, device, obstacles);
    if out != [] { assert !Overlaps(at, len, FreeExtent(out[|out|-1], len)); }
    forall s: set<nat> | Places(s, len, device, obstacles) ensures |Below(s, at)| <= Passed(out + [at], at) {
      assert |Below(s, at)| <= Passed(out, at) <= |out|;
    }
  }

  lemma NothingOverlaps(busy: seq<FreeExtent>, i: nat, at: nat, obstacles: seq<FreeExtent>, out: seq<nat>, len: nat)
    requires Scanned(busy, i, at, obstacles, out, len) && (i < |busy| ==> at + len <= busy[i].start)
    ensures forall o | o in obstacles :: !Overlaps(at, len, o)
    ensures forall j | 0 <= j < |out| :: !Overlaps(at, len, FreeExtent(out[j], len))
  {
    forall o | o in busy ensures !Overlaps(at, len, o) {
      var j :| 0 <= j < |busy| && busy[j] == o;
      if j >= i { assert j > i ==> Before(busy[i], busy[j]); }
    }
    forall o | o in obstacles ensures !Overlaps(at, len, o) {
      assert o in multiset(busy);
    }
    forall j | 0 <= j < |out| ensures !Overlaps(at, len, FreeExtent(out[j], len)) {
      assert Own(out, len)[j] in multiset(busy);
    }
  }

  lemma PutIsOne(busy: seq<FreeExtent>, i: nat, put: FreeExtent, obstacles: seq<FreeExtent>, out: seq<nat>, len: nat)
    requires i <= |busy| && put.len == len
    requires multiset(busy) == multiset(obstacles) + multiset(Own(out, len))
    ensures multiset(busy[..i] + [put] + busy[i..]) == multiset(obstacles) + multiset(Own(out + [put.start], len))
  {
    assert busy == busy[..i] + busy[i..];
    assert multiset(busy) == multiset(busy[..i]) + multiset(busy[i..]);
    assert Own(out + [put.start], len) == Own(out, len) + [put];
    assert multiset(Own(out + [put.start], len)) == multiset(Own(out, len)) + multiset{put};
    assert multiset(busy[..i] + [put] + busy[i..]) == multiset(busy) + multiset{put};
  }

  lemma PutInOrder(busy: seq<FreeExtent>, i: nat, put: FreeExtent)
    requires InOrder(busy) && i <= |busy| && put.len > 0
    requires forall j | 0 <= j < i :: busy[j].End() <= put.start
    requires i < |busy| ==> put.End() <= busy[i].start
    ensures InOrder(busy[..i] + [put] + busy[i..])
  {
    var more := busy[..i] + [put] + busy[i..];
    forall j | 0 <= j < i ensures Before(busy[j], put) {}
    forall j | i <= j < |busy| ensures Before(put, busy[j]) {
      assert j > i ==> Before(busy[i], busy[j]);
    }
    forall j, k | 0 <= j < k < |more| ensures Before(more[j], more[k]) {
      if j < i < k { assert Before(busy[j], busy[k-1]); }
      else if j > i { assert Before(busy[j-1], busy[k-1]); }
    }
  }

  /** A placed stripe holds no byte of a superblock copy, so the one free run that
      is recorded for a new group is true. */
  lemma StripeClearOfCopies(taken: seq<FreeExtent>, device: nat, len: nat, p: nat, k: nat)
    requires Allowed(p, len, device, Obstacles(taken)) && k < |SUPER_OFFSETS| && len > 0
    ensures p + len <= SUPER_OFFSETS[k] || SUPER_OFFSETS[k] + SUPERBLOCK_SIZE <= p
    ensures p >= MIB
  {
    var o := CopyMibs(SUPER_OFFSETS[k]);
    assert Obstacles(taken)[|taken| + 1 + k] == o;
    assert Obstacles(taken)[|taken|] == FreeExtent(0, MIB);
    assert !Overlaps(p, len, o) && !Overlaps(p, len, FreeExtent(0, MIB));
  }
}
