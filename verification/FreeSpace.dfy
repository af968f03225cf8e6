/** What is free in a block group (src/block_group.rs), told from two opposite
    records -- the extent tree's allocated runs and the free-space tree's runs and
    bitmaps -- and the checker's comparison of the two (src/check.rs). */
module FreeSpace {
  import opened Base

  datatype FreeExtent = FreeExtent(start: nat, len: nat) {
    function End(): nat { start + len }
  }

  datatype BlockGroup = BlockGroup(start: nat, length: nat) {
    function End(): nat { start + length }
  }

  datatype FreeSpaceError =
    | Overlapping(at: nat)
    | BitmapTooShort(at: nat)
    | NoInfoItem(group: nat)

  ghost predicate In(runs: seq<FreeExtent>, b: nat) {
    exists i | 0 <= i < |runs| :: runs[i].start <= b < runs[i].End()
  }

  ghost predicate SameBytes(a: seq<FreeExtent>, b: seq<FreeExtent>) {
    forall x: nat :: In(a, x) <==> In(b, x)
  }

  /** Ascending and disjoint; runs may touch. */
  ghost predicate Ascending(runs: seq<FreeExtent>) {
    forall i, j | 0 <= i < j < |runs| :: runs[i].End() <= runs[j].start
  }

  ghost predicate NoneEmpty(runs: seq<FreeExtent>) {
    forall i | 0 <= i < |runs| :: runs[i].len > 0
  }

  /** Ascending, with at least one byte between any two runs. */
  ghost predicate Separated(runs: seq<FreeExtent>) {
    forall i, j | 0 <= i < j < |runs| :: runs[i].End() < runs[j].start
  }

  lemma InAppend(runs: seq<FreeExtent>, run: FreeExtent, b: nat)
    ensures In(runs + [run], b) <==> In(runs, b) || run.start <= b < run.End()
  {
    var more := runs + [run];
    if In(runs, b) {
      var i :| 0 <= i < |runs| && runs[i].start <= b < runs[i].End();
      assert more[i] == runs[i];
    }
    if run.start <= b < run.End() { assert more[|runs|] == run; }
  }

  lemma InAppendAll(runs: seq<FreeExtent>, run: FreeExtent)
    ensures forall b: nat :: In(runs + [run], b) <==> In(runs, b) || run.start <= b < run.End()
  {
    forall b: nat { InAppend(runs, run, b); }
  }

  lemma InNone()
    ensures forall b: nat :: !In([], b)
  {
  }

  // ------------------------------------------------------------------- gaps

  /** Where the scan for gaps stands after the first `i` taken runs. */
  function Cursor(group: BlockGroup, taken: seq<FreeExtent>, i: nat): nat
    requires i <= |taken|
  {
    if i == 0 then group.start else taken[i-1].End()
  }

  /** The runs of `group` no taken run covers. Refused exactly when a taken run
      starts before the one in front of it ends; otherwise the gaps and the taken
      runs split the group's bytes between them. */
  method Gaps(group: BlockGroup, taken: seq<FreeExtent>) returns (r: Result<seq<FreeExtent>, FreeSpaceError>)
    requires forall i | 0 <= i < |taken| :: taken[i].start < group.End()
    ensures r.Err? <==> exists i | 0 <= i < |taken| :: taken[i].start < Cursor(group, taken, i)
    ensures r.Ok? ==> Ascending(r.value) && NoneEmpty(r.value)
    ensures r.Ok? && NoneEmpty(taken) ==> Separated(r.value)
    ensures r.Ok? ==> forall b: nat :: In(r.value, b) <==> group.start <= b < group.End() && !In(taken, b)
  {
    hide GapsSoFar;
    var free: seq<FreeExtent> := [];
    var pos := group.start;
    GapsNone(group, taken);
    for i := 0 to |taken|
      invariant pos == Cursor(group, taken, i)
      invariant forall j | 0 <= j < i :: Cursor(group, taken, j) <= taken[j].start
      invariant GapsSoFar(group, taken[..i], pos, free)
    {
      var e := taken[i];
      if e.start < pos {
        return Err(Overlapping(e.start));
      }
      GapsStep(group, taken, i, pos, free);
      if e.start > pos {
        free := free + [FreeExtent(pos, e.start - pos)];
      }
      pos := e.End();
    }
    assert taken[..|taken|] == taken;
    GapsEnd(group, taken, pos, free);
    if pos < group.End() {
      free := free + [FreeExtent(pos, group.End() - pos)];
    }
    return Ok(free);
  }

  /** The gaps found before `pos`, once the scan is past the runs `passed`. */
  ghost predicate GapsSoFar(group: BlockGroup, passed: seq<FreeExtent>, pos: nat, free: seq<FreeExtent>) {
    group.start <= pos && GapsShape(passed, pos, free) && GapsBytes(group, passed, pos, free)
  }

  ghost predicate GapsShape(passed: seq<FreeExtent>, pos: nat, free: seq<FreeExtent>) {
    && Ascending(free) && NoneEmpty(free)
    && (forall j | 0 <= j < |free| :: free[j].End() <= pos)
    && (NoneEmpty(passed) ==> Separated(free) && forall j | 0 <= j < |free| :: free[j].End() < pos)
  }

  ghost predicate GapsBytes(group: BlockGroup, passed: seq<FreeExtent>, pos: nat, free: seq<FreeExtent>) {
    && (forall b: nat :: In(passed, b) ==> b < pos)
    && (forall b: nat :: In(free, b) <==> group.start <= b < Min(pos, group.End()) && !In(passed, b))
  }

  lemma GapsNone(group: BlockGroup, taken: seq<FreeExtent>)
    ensures GapsSoFar(group, taken[..0], group.start, [])
  {
  }

  lemma AppendGap(free: seq<FreeExtent>, gap: FreeExtent)
    requires Ascending(free) && NoneEmpty(free) && gap.len > 0
    requires forall j | 0 <= j < |free| :: free[j].End() <= gap.start
    ensures Ascending(free + [gap]) && NoneEmpty(free + [gap])
    ensures Separated(free) && (forall j | 0 <= j < |free| :: free[j].End() < gap.start) ==> Separated(free + [gap])
    ensures forall j | 0 <= j < |free + [gap]| :: (free + [gap])[j].End() <= gap.End()
  {
  }

  lemma NoneEmptyPast(taken: seq<FreeExtent>, i: nat)
    requires i < |taken|
    ensures taken[..i+1] == taken[..i] + [taken[i]]
    ensures NoneEmpty(taken[..i+1]) ==> taken[i].len > 0 && NoneEmpty(taken[..i])
  {
    assert forall j | 0 <= j < i :: taken[..i+1][j] == taken[..i][j];
    assert taken[..i+1][i] == taken[i];
  }

  lemma GapsStep(group: BlockGroup, taken: seq<FreeExtent>, i: nat, pos: nat, free: seq<FreeExtent>)
    requires i < |taken| && pos <= taken[i].start < group.End()
    requires GapsSoFar(group, taken[..i], pos, free)
    ensures var e := taken[i];
      GapsSoFar(group, taken[..i+1], e.End(),
                if e.start > pos then free + [FreeExtent(pos, e.start - pos)] else free)
  {
    NoneEmptyPast(taken, i);
    ShapeStep(taken, i, pos, free);
    BytesStep(group, taken, i, pos, free);
    hide GapsShape, GapsBytes;
  }

  lemma ShapeStep(taken: seq<FreeExtent>, i: nat, pos: nat, free: seq<FreeExtent>)
    requires i < |taken| && pos <= taken[i].start && GapsShape(taken[..i], pos, free)
    ensures var e := taken[i];
      GapsShape(taken[..i+1], e.End(), if e.start > pos then free + [FreeExtent(pos, e.start - pos)] else free)
  {
    var e := taken[i];
    NoneEmptyPast(taken, i);
    hide Ascending, NoneEmpty, Separated;
    if e.start > pos { AppendGap(free, FreeExtent(pos, e.start - pos)); }
  }

  lemma BytesStep(group: BlockGroup, taken: seq<FreeExtent>, i: nat, pos: nat, free: seq<FreeExtent>)
    requires i < |taken| && group.start <= pos <= taken[i].start < group.End() && GapsBytes(group, taken[..i], pos, free)
    ensures var e := taken[i];
      GapsBytes(group, taken[..i+1], e.End(), if e.start > pos then free + [FreeExtent(pos, e.start - pos)] else free)
  {
    var e := taken[i];
    NoneEmptyPast(taken, i);
    hide In, NoneEmpty;
    InAppendAll(taken[..i], e);
    if e.start > pos { InAppendAll(free, FreeExtent(pos, e.start - pos)); }
  }

  lemma GapsEnd(group: BlockGroup, taken: seq<FreeExtent>, pos: nat, free: seq<FreeExtent>)
    requires GapsSoFar(group, taken, pos, free)
    ensures var gaps := if pos < group.End() then free + [FreeExtent(pos, group.End() - pos)] else free;
      && Ascending(gaps) && NoneEmpty(gaps) && (NoneEmpty(taken) ==> Separated(gaps))
      && forall b: nat :: In(gaps, b) <==> group.start <= b < group.End() && !In(taken, b)
  {
    hide In, Ascending, NoneEmpty, Separated;
    if pos < group.End() {
      InAppendAll(free, FreeExtent(pos, group.End() - pos));
      AppendGap(free, FreeExtent(pos, group.End() - pos));
    }
  }

  // ------------------------------------------------------------------ bitmaps

  /** Bit `i`, least significant first within each byte. */
  function Bit(data: seq<bv8>, i: nat): bool
    requires i < |data| * 8
  {
    data[i / 8] & ((1 as bv8) << (i % 8)) != 0
  }

  /** Whether the bitmap says the sector holding byte `b` is free. */
  predicate BitSays(start: nat, data: seq<bv8>, sectors: nat, sector: nat, b: nat)
    requires sector > 0 && sectors <= |data| * 8
  {
    b >= start && (b - start) / sector < sectors && Bit(data, (b - start) / sector)
  }

  lemma SectorSays(start: nat, data: seq<bv8>, sectors: nat, sector: nat, i: nat)
    requires sector > 0 && i < sectors <= |data| * 8
    ensures forall b: nat | start + Times(i, sector) <= b < start + Times(i, sector) + sector ::
      BitSays(start, data, sectors, sector, b) <==> Bit(data, i)
  {
    forall b: nat | start + Times(i, sector) <= b < start + Times(i, sector) + sector
      ensures BitSays(start, data, sectors, sector, b) <==> Bit(data, i)
    {
      RowAndRest(i, sector, b - start - Times(i, sector));
    }
  }

  lemma NothingBefore(start: nat, data: seq<bv8>, sectors: nat, sector: nat)
    requires sector > 0 && sectors <= |data| * 8
    ensures forall b: nat | b < start + Times(0, sector) :: !BitSays(start, data, sectors, sector, b)
  {
  }

  lemma NothingAfter(start: nat, data: seq<bv8>, sectors: nat, sector: nat)
    requires sector > 0 && sectors <= |data| * 8
    ensures forall b: nat | b >= start + Times(sectors, sector) :: !BitSays(start, data, sectors, sector, b)
  {
    forall b: nat | BitSays(start, data, sectors, sector, b) ensures b < start + Times(sectors, sector) {
      Euclid(b - start, sector);
      TimesMonotonic((b - start) / sector + 1, sectors, sector);
      TimesNext((b - start) / sector, sector);
    }
  }

  /** The runs one bitmap item records. Its last run is taken to the end of the
      range the item covers, partial sector included. */
  method DecodeBitmap(start: nat, length: nat, data: seq<bv8>, sector: nat)
    returns (r: Result<seq<FreeExtent>, FreeSpaceError>)
    requires sector > 0
    ensures r.Err? <==> |data| * 8 < length / sector
    ensures r.Ok? ==> Separated(r.value) && NoneEmpty(r.value)
    ensures r.Ok? ==> forall j | 0 <= j < |r.value| :: start <= r.value[j].start && r.value[j].End() <= start + length
    ensures r.Ok? ==> var n := length / sector;
      forall b: nat :: In(r.value, b) <==>
        || BitSays(start, data, n, sector, b)
        || (n > 0 && Bit(data, n - 1) && start + Times(n, sector) <= b < start + length)
  {
    var sectors := length / sector;
    Euclid(length, sector);
    if |data| * 8 < sectors {
      return Err(BitmapTooShort(start));
    }
    hide In, BitSays, Times, Bit;
    InNone();
    NothingBefore(start, data, sectors, sector);
    var out: seq<FreeExtent> := [];
    var run: Option<nat> := None;
    for i := 0 to sectors
      invariant Separated(out) && NoneEmpty(out)
      invariant run.Some? <==> i > 0 && Bit(data, i - 1)
      invariant forall j | 0 <= j < |out| :: start <= out[j].start && out[j].End() <= start + Times(i, sector)
      invariant run.Some? ==> start <= run.value < start + Times(i, sector)
      invariant run.Some? ==> forall j | 0 <= j < |out| :: out[j].End() < run.value
      invariant run.None? ==> forall j | 0 <= j < |out| :: i > 0 && out[j].End() + sector <= start + Times(i, sector)
      invariant forall b: nat | b < start + Times(i, sector) ::
        (In(out, b) || (run.Some? && run.value <= b)) <==> BitSays(start, data, sectors, sector, b)
    {
      var at := start + Times(i, sector);
      var free := Bit(data, i);
      TimesNext(i, sector);
      SectorSays(start, data, sectors, sector, i);
      if free && run.None? {
        run := Some(at);
      } else if !free && run.Some? {
        InAppendAll(out, FreeExtent(run.value, at - run.value));
        out := out + [FreeExtent(run.value, at - run.value)];
        run := None;
      }
    }
    if run.Some? {
      var end := start + length;
      InAppendAll(out, FreeExtent(run.value, end - run.value));
      out := out + [FreeExtent(run.value, end - run.value)];
    }
    NothingAfter(start, data, sectors, sector);
    return Ok(out);
  }

  /** The decoded bytes are exactly the set bits' sectors, unless the item covers
      a partial last sector and its last bit is set. */
  lemma BitmapExactIff(start: nat, length: nat, data: seq<bv8>, sector: nat, runs: seq<FreeExtent>)
    requires sector > 0 && length / sector <= |data| * 8
    requires var n := length / sector;
      forall b: nat :: In(runs, b) <==>
        || BitSays(start, data, n, sector, b)
        || (n > 0 && Bit(data, n - 1) && start + Times(n, sector) <= b < start + length)
    ensures (forall b: nat :: In(runs, b) <==> BitSays(start, data, length / sector, sector, b))
        <==> length % sector == 0 || length / sector == 0 || !Bit(data, length / sector - 1)
  {
    var n := length / sector;
    Euclid(length, sector);
    var b := start + Times(n, sector);
    RowAndRest(n, sector, 0);
    if n > 0 && Bit(data, n - 1) && length % sector > 0 {
      assert In(runs, b) && !BitSays(start, data, n, sector, b);
    }
  }

  /** A bitmap of 6000 bytes in 4096-byte sectors whose one bit is set: the run decoded
      goes on over bytes no bit speaks for. */
  lemma LastSectorOverruns(start: nat, runs: seq<FreeExtent>)
    requires forall b: nat :: In(runs, b) <==>
      || BitSays(start, [1], 1, 4096, b)
      || (Bit([1], 0) && start + Times(1, 4096) <= b < start + 6000)
    ensures In(runs, start + 5000) && !BitSays(start, [1], 1, 4096, start + 5000)
  {
    assert Bit([1], 0);
    RowAndRest(1, 4096, 904);
  }

  // -------------------------------------------------------------------- merging

  /** `run` joined to the last of `out` when they touch, and after it otherwise. */
  function Joined(out: seq<FreeExtent>, run: FreeExtent): seq<FreeExtent> {
    if out != [] && out[|out|-1].End() == run.start
    then out[..|out|-1] + [FreeExtent(out[|out|-1].start, out[|out|-1].len + run.len)]
    else out + [run]
  }

  /** Join runs that touch. */
  function Merged(runs: seq<FreeExtent>): seq<FreeExtent> {
    if runs == [] then [] else Joined(Merged(runs[..|runs|-1]), runs[|runs|-1])
  }

  method MergeAdjacent(runs: seq<FreeExtent>) returns (out: seq<FreeExtent>)
    ensures out == Merged(runs)
  {
    out := [];
    for i := 0 to |runs|
      invariant out == Merged(runs[..i])
    {
      var run := runs[i];
      assert runs[..i+1][..i] == runs[..i];
      if out != [] && out[|out|-1].End() == run.start {
        out := out[|out|-1 := FreeExtent(out[|out|-1].start, out[|out|-1].len + run.len)];
      } else {
        out := out + [run];
      }
    }
    assert runs[..|runs|] == runs;
  }

  lemma JoiningKeepsBytes(out: seq<FreeExtent>, run: FreeExtent)
    ensures forall b: nat :: In(Joined(out, run), b) <==> In(out, b) || run.start <= b < run.End()
  {
    hide In;
    InAppendAll(out, run);
    if out != [] {
      var last := out[|out|-1];
      assert out == out[..|out|-1] + [last];
      InAppendAll(out[..|out|-1], last);
      InAppendAll(out[..|out|-1], FreeExtent(last.start, last.len + run.len));
    }
  }

  lemma {:induction false} MergingKeepsBytes(runs: seq<FreeExtent>)
    ensures SameBytes(Merged(runs), runs)
  {
    if runs != [] {
      hide In, Joined;
      var front, run := runs[..|runs|-1], runs[|runs|-1];
      MergingKeepsBytes(front);
      assert runs == front + [run];
      InAppendAll(front, run);
      JoiningKeepsBytes(Merged(front), run);
    }
  }

  lemma {:induction false} MergingKeepsEnd(runs: seq<FreeExtent>)
    ensures runs == [] <==> Merged(runs) == []
    ensures runs != [] ==> Merged(runs)[|Merged(runs)|-1].End() == runs[|runs|-1].End()
    ensures NoneEmpty(runs) ==> NoneEmpty(Merged(runs))
  {
    if runs != [] {
      hide Joined, NoneEmpty;
      var front := runs[..|runs|-1];
      MergingKeepsEnd(front);
      if front == [] { assert Merged(front) == []; }
      JoiningKeepsEnd(Merged(front), runs[|runs|-1]);
      if NoneEmpty(runs) { NoneEmptyFront(runs); }
    }
  }

  lemma NoneEmptyFront(runs: seq<FreeExtent>)
    requires runs != [] && NoneEmpty(runs)
    ensures NoneEmpty(runs[..|runs|-1]) && runs[|runs|-1].len > 0
  {
  }

  lemma JoiningKeepsEnd(out: seq<FreeExtent>, run: FreeExtent)
    ensures Joined(out, run) != [] && Joined(out, run)[|Joined(out, run)|-1].End() == run.End()
    ensures NoneEmpty(out) && run.len > 0 ==> NoneEmpty(Joined(out, run))
  {
  }

  /** Merged runs that started ascending have a byte between any two. */
  lemma {:induction false} MergingSeparates(runs: seq<FreeExtent>)
    requires Ascending(runs)
    ensures Separated(Merged(runs))
  {
    if runs != [] {
      hide Ascending, Separated, Joined;
      AscendingFront(runs);
      var front := runs[..|runs|-1];
      MergingSeparates(front);
      MergingKeepsEnd(front);
      JoiningSeparates(Merged(front), runs[|runs|-1]);
    }
  }

  lemma AscendingFront(runs: seq<FreeExtent>)
    requires runs != [] && Ascending(runs)
    ensures Ascending(runs[..|runs|-1])
    ensures |runs| > 1 ==> runs[|runs|-2].End() <= runs[|runs|-1].start
  {
  }

  lemma JoiningSeparates(out: seq<FreeExtent>, run: FreeExtent)
    requires Separated(out) && (out != [] ==> out[|out|-1].End() <= run.start)
    ensures Separated(Joined(out, run))
  {
  }

  /** A list of runs apart from one another is determined by its bytes. */
  lemma {:induction false} SeparatedIsCanonical(a: seq<FreeExtent>, b: seq<FreeExtent>)
    requires Separated(a) && Separated(b) && NoneEmpty(a) && NoneEmpty(b) && SameBytes(a, b)
    ensures a == b
    decreases |a|
  {
    if a == [] {
      if b != [] { assert In(b, b[0].start); }
    } else {
      assert In(a, a[0].start);
      assert In(b, a[0].start);
      assert b != [];
      FirstRunsAgree(a, b);
      FirstRunsAgree(b, a);
      var x, y := a[1..], b[1..];
      forall c: nat ensures In(x, c) <==> In(y, c) {
        DropFirst(a, c);
        DropFirst(b, c);
      }
      SeparatedIsCanonical(x, y);
    }
  }

  lemma DropFirst(a: seq<FreeExtent>, c: nat)
    requires a != [] && Separated(a) && NoneEmpty(a)
    ensures In(a[1..], c) <==> In(a, c) && c > a[0].End()
  {
    if In(a[1..], c) {
      var i :| 0 <= i < |a[1..]| && a[1..][i].start <= c < a[1..][i].End();
      assert a[i+1].start <= c < a[i+1].End();
    }
    if In(a, c) && c > a[0].End() {
      var i :| 0 <= i < |a| && a[i].start <= c < a[i].End();
      assert a[1..][i-1] == a[i];
    }
  }

  lemma FirstRunsAgree(a: seq<FreeExtent>, b: seq<FreeExtent>)
    requires a != [] && b != []
    requires Separated(a) && Separated(b) && NoneEmpty(a) && NoneEmpty(b) && SameBytes(a, b)
    ensures a[0].start == b[0].start && a[0].len >= b[0].len
  {
    assert In(a, a[0].start) && In(b, b[0].start);
    assert In(b, a[0].start) && In(a, b[0].start);
    assert a[0].start == b[0].start;
    NotPastFirst(a);
    if a[0].End() < b[0].End() { assert In(b, a[0].End()); }
  }

  lemma NotPastFirst(a: seq<FreeExtent>)
    requires a != [] && Separated(a)
    ensures !In(a, a[0].End())
  {
  }

  /** The checker's comparison of two merged lists succeeds exactly when they
      record the same bytes. */
  lemma ComparisonIsByteEquality(a: seq<FreeExtent>, b: seq<FreeExtent>)
    requires Ascending(a) && NoneEmpty(a) && Ascending(b)
    ensures Merged(a) == Merged(b) <==> SameBytes(a, b) && NoneEmpty(Merged(b))
  {
    hide Merged, In, Separated;
    MergingKeepsBytes(a);
    MergingKeepsBytes(b);
    MergingSeparates(a);
    MergingSeparates(b);
    MergingKeepsEnd(a);
    if SameBytes(a, b) && NoneEmpty(Merged(b)) {
      SeparatedIsCanonical(Merged(a), Merged(b));
    }
  }

  /** An empty run apart from the rest records no byte and still tells two equal
      byte sets apart. */
  lemma EmptyRunBreaksComparison(run: FreeExtent)
    requires run.len > 0
    ensures var stray := [run, FreeExtent(run.End() + 1, 0)];
      Ascending(stray) && SameBytes([run], stray) && Merged([run]) != Merged(stray)
  {
    var stray := [run, FreeExtent(run.End() + 1, 0)];
    assert stray == [run] + [stray[1]];
    InAppendAll([run], stray[1]);
    assert stray[..1] == [run];
    assert [run][..0] == [];
  }

  // -------------------------------------------------------------------- sorting

  predicate Before(a: FreeExtent, b: FreeExtent) {
    a.start < b.start || (a.start == b.start && a.len <= b.len)
  }

  function InsertRun(run: FreeExtent, runs: seq<FreeExtent>): seq<FreeExtent> {
    if runs == [] then [run]
    else if Before(run, runs[0]) then [run] + runs
    else [runs[0]] + InsertRun(run, runs[1..])
  }

  /** The runs in the order `sort` leaves them: by start, then by length. */
  function Sorted(runs: seq<FreeExtent>): seq<FreeExtent> {
    if runs == [] then [] else InsertRun(runs[0], Sorted(runs[1..]))
  }

  ghost predicate InOrder(runs: seq<FreeExtent>) {
    forall i, j | 0 <= i < j < |runs| :: Before(runs[i], runs[j])
  }

  lemma {:induction false} InsertRunInOrder(run: FreeExtent, runs: seq<FreeExtent>)
    requires InOrder(runs)
    ensures InOrder(InsertRun(run, runs))
    ensures multiset(InsertRun(run, runs)) == multiset(runs) + multiset{run}
  {
    if runs != [] && !Before(run, runs[0]) {
      InsertRunInOrder(run, runs[1..]);
      var rest := InsertRun(run, runs[1..]);
      assert runs == [runs[0]] + runs[1..];
      hide InOrder;
      forall x | x in rest ensures Before(runs[0], x) {
        assert x in multiset(rest);
        assert x == run || x in runs[1..];
        if x in runs[1..] { FirstIsLeast(runs, x); }
      }
      InFront(runs[0], rest);
    }
  }

  lemma FirstIsLeast(runs: seq<FreeExtent>, x: FreeExtent)
    requires runs != [] && InOrder(runs) && x in runs[1..]
    ensures Before(runs[0], x)
  {
    var j :| 0 <= j < |runs[1..]| && runs[1..][j] == x;
    assert runs[j+1] == x;
  }

  lemma InFront(first: FreeExtent, rest: seq<FreeExtent>)
    requires InOrder(rest) && forall x | x in rest :: Before(first, x)
    ensures InOrder([first] + rest)
  {
  }

  lemma {:induction false} SortedInOrder(runs: seq<FreeExtent>)
    ensures InOrder(Sorted(runs)) && multiset(Sorted(runs)) == multiset(runs)
  {
    if runs != [] {
      SortedInOrder(runs[1..]);
      InsertRunInOrder(runs[0], Sorted(runs[1..]));
      assert runs == [runs[0]] + runs[1..];
    }
  }

  lemma SortingKeepsBytes(runs: seq<FreeExtent>)
    ensures SameBytes(Sorted(runs), runs)
  {
    SortedInOrder(runs);
    SameMembersSameBytes(Sorted(runs), runs);
    SameMembersSameBytes(runs, Sorted(runs));
  }

  lemma SameMembersSameBytes(a: seq<FreeExtent>, b: seq<FreeExtent>)
    requires multiset(a) == multiset(b)
    ensures forall x: nat :: In(a, x) ==> In(b, x)
  {
    forall x: nat | In(a, x) ensures In(b, x) {
      var i :| 0 <= i < |a| && a[i].start <= x < a[i].End();
      assert a[i] in multiset(b);
      var j :| 0 <= j < |b| && b[j] == a[i];
    }
  }

  lemma {:induction false} SortedAlready(runs: seq<FreeExtent>)
    requires InOrder(runs)
    ensures Sorted(runs) == runs
  {
    if runs != [] {
      SortedAlready(runs[1..]);
      assert runs == [runs[0]] + runs[1..];
    }
  }

  // ------------------------------------------------------- the free-space tree

  /** One item of the free-space tree: the group's info item, a free run, or a
      bitmap over a range. */
  datatype TreeItem =
    | Info(start: nat)
    | Run(start: nat, length: nat)
    | Bitmap(start: nat, length: nat, data: seq<bv8>)
  {
    function End(): nat { if Info? then start else start + length }
  }

  predicate InGroup(group: BlockGroup, item: TreeItem) {
    group.start <= item.start < group.End()
  }

  predicate TooShort(item: TreeItem, sector: nat)
    requires sector > 0
  {
    item.Bitmap? && |item.data| * 8 < item.length / sector
  }

  ghost predicate Records(item: TreeItem, sector: nat, b: nat)
    requires sector > 0 && !TooShort(item, sector)
  {
    match item
    case Info(_) => false
    case Run(start, length) => start <= b < start + length
    case Bitmap(start, length, data) =>
      var n := length / sector;
      || BitSays(start, data, n, sector, b)
      || (n > 0 && Bit(data, n - 1) && start + Times(n, sector) <= b < start + length)
  }

  /** The tree cannot be read for the group: a bitmap is short, or nothing says
      how the group's free space is recorded. */
  ghost predicate Unreadable(group: BlockGroup, items: seq<TreeItem>, sector: nat)
    requires sector > 0
  {
    || (exists i | 0 <= i < |items| :: InGroup(group, items[i]) && TooShort(items[i], sector))
    || (forall i | 0 <= i < |items| :: !(InGroup(group, items[i]) && items[i].Info?))
  }

  ghost predicate RecordedBy(group: BlockGroup, items: seq<TreeItem>, sector: nat, b: nat)
    requires sector > 0
  {
    exists i | 0 <= i < |items| ::
      InGroup(group, items[i]) && !TooShort(items[i], sector) && Records(items[i], sector, b)
  }

  /** Ranges of the tree's items ascend and do not overlap. */
  ghost predicate ItemsApart(items: seq<TreeItem>) {
    forall i, j | 0 <= i < j < |items| && !items[i].Info? && !items[j].Info? ::
      items[i].End() <= items[j].start
  }

  /** The runs one item contributes. */
  method RunsOf(item: TreeItem, sector: nat) returns (r: Result<seq<FreeExtent>, FreeSpaceError>)
    requires sector > 0
    ensures r.Err? <==> TooShort(item, sector)
    ensures r.Ok? ==> Ascending(r.value) && ((item.Run? && item.length == 0) || NoneEmpty(r.value))
    ensures r.Ok? ==> forall b: nat :: In(r.value, b) <==> Records(item, sector, b)
    ensures r.Ok? ==> forall j | 0 <= j < |r.value| ::
      !item.Info? && item.start <= r.value[j].start && r.value[j].End() <= item.End()
  {
    match item
    case Info(_) => r := Ok([]);
    case Run(start, length) =>
      InNone();
      InAppendAll([], FreeExtent(start, length));
      assert [] + [FreeExtent(start, length)] == [FreeExtent(start, length)];
      r := Ok([FreeExtent(start, length)]);
    case Bitmap(start, length, data) => r := DecodeBitmap(start, length, data, sector);
  }

  lemma InConcat(a: seq<FreeExtent>, c: seq<FreeExtent>)
    ensures forall b: nat :: In(a + c, b) <==> In(a, b) || In(c, b)
  {
    var both := a + c;
    forall b: nat ensures In(both, b) <==> In(a, b) || In(c, b) {
      if In(a, b) {
        var i :| 0 <= i < |a| && a[i].start <= b < a[i].End();
        assert both[i] == a[i];
      }
      if In(c, b) {
        var i :| 0 <= i < |c| && c[i].start <= b < c[i].End();
        assert both[|a| + i] == c[i];
      }
    }
  }

  /** What the free-space tree says is free in `group`. */
  method CachedFreeExtents(group: BlockGroup, items: seq<TreeItem>, sector: nat)
    returns (r: Result<seq<FreeExtent>, FreeSpaceError>)
    requires sector > 0
    ensures r.Err? <==> Unreadable(group, items, sector)
    ensures r.Ok? ==> forall b: nat :: In(r.value, b) <==> RecordedBy(group, items, sector, b)
    ensures r.Ok? && ItemsApart(items) ==> Separated(r.value)
    ensures r.Ok? && ItemsApart(items) && NoEmptyItem(items) ==> NoneEmpty(r.value)
  {
    hide In, Records, TooShort;
    InNone();
    var out: seq<FreeExtent> := [];
    var info := false;
    for i := 0 to |items|
      invariant info <==> exists j | 0 <= j < i :: InGroup(group, items[j]) && items[j].Info?
      invariant forall j | 0 <= j < i :: !(InGroup(group, items[j]) && TooShort(items[j], sector))
      invariant forall b: nat :: In(out, b) <==> RecordedBy(group, items[..i], sector, b)
      invariant NoEmptyItem(items) ==> NoneEmpty(out)
      invariant ItemsApart(items) ==> Ascending(out) && forall j, k |
        0 <= j < |out| && i <= k < |items| && !items[k].Info? :: out[j].End() <= items[k].start
    {
      RecordedOneMore(group, items, sector, i);
      if InGroup(group, items[i]) {
        if items[i].Info? { info := true; }
        var one := RunsOf(items[i], sector);
        if one.Err? {
          return Err(one.error);
        }
        InConcat(out, one.value);
        out := out + one.value;
      }
    }
    assert items[..|items|] == items;
    if !info {
      return Err(NoInfoItem(group.start));
    }
    SortingKeepsBytes(out);
    MergingKeepsBytes(Sorted(out));
    if ItemsApart(items) {
      SortedAlready(out);
      MergingSeparates(out);
      MergingKeepsEnd(out);
    }
    var merged := MergeAdjacent(Sorted(out));
    return Ok(merged);
  }

  lemma RecordedOneMore(group: BlockGroup, items: seq<TreeItem>, sector: nat, i: nat)
    requires sector > 0 && i < |items|
    ensures forall b: nat :: RecordedBy(group, items[..i+1], sector, b) <==>
      || RecordedBy(group, items[..i], sector, b)
      || (InGroup(group, items[i]) && !TooShort(items[i], sector) && Records(items[i], sector, b))
  {
    hide Records, TooShort, InGroup;
    forall b: nat ensures RecordedBy(group, items[..i+1], sector, b) <==>
      || RecordedBy(group, items[..i], sector, b)
      || (InGroup(group, items[i]) && !TooShort(items[i], sector) && Records(items[i], sector, b))
    {
      var now, more := items[..i], items[..i+1];
      assert more[i] == items[i];
      if RecordedBy(group, now, sector, b) {
        var j :| 0 <= j < |now| && InGroup(group, now[j]) && !TooShort(now[j], sector) && Records(now[j], sector, b);
        assert more[j] == now[j];
      }
      if RecordedBy(group, more, sector, b) {
        var j :| 0 <= j < |more| && InGroup(group, more[j]) && !TooShort(more[j], sector) && Records(more[j], sector, b);
        if j < i { assert now[j] == more[j]; }
      }
    }
  }

  // ---------------------------------------------------------------- the checker

  datatype Finding =
    | TreeUnreadable(group: nat)
    | ExtentsUnreadable(group: nat)
    | FreeSpaceDisagrees(group: nat)
    | ChecksumsUncovered(start: nat, len: nat)

  /** A group with both of its records: the tree's items, if the volume has the
      tree, and the extent tree's runs. */
  datatype GroupRecord = GroupRecord(group: BlockGroup, tree: Option<seq<TreeItem>>, taken: seq<FreeExtent>)

  ghost predicate RunsOverlap(group: BlockGroup, taken: seq<FreeExtent>) {
    exists i | 0 <= i < |taken| :: taken[i].start < Cursor(group, taken, i)
  }

  /** The free-space tree's bytes are exactly the group's bytes no extent takes. */
  ghost predicate RecordsAgree(rec: GroupRecord, sector: nat)
    requires sector > 0 && rec.tree.Some?
  {
    forall b: nat :: RecordedBy(rec.group, rec.tree.value, sector, b)
      <==> rec.group.start <= b < rec.group.End() && !In(rec.taken, b)
  }

  ghost predicate NoEmptyItem(items: seq<TreeItem>) {
    forall i | 0 <= i < |items| && items[i].Run? :: items[i].length > 0
  }

  /** What the two records of a group always satisfy: the extent tree's runs start
      in the group, and the free-space tree's items are apart and none is empty. */
  ghost predicate Readable(rec: GroupRecord) {
    && (forall i | 0 <= i < |rec.taken| :: rec.taken[i].start < rec.group.End())
    && (rec.tree.Some? ==> ItemsApart(rec.tree.value) && NoEmptyItem(rec.tree.value))
  }

  ghost function FindingFor(rec: GroupRecord, sector: nat): seq<Finding>
    requires sector > 0
  {
    if rec.tree.None? then []
    else if Unreadable(rec.group, rec.tree.value, sector) then [TreeUnreadable(rec.group.start)]
    else if RunsOverlap(rec.group, Sorted(rec.taken)) then [ExtentsUnreadable(rec.group.start)]
    else if !RecordsAgree(rec, sector) then [FreeSpaceDisagrees(rec.group.start)]
    else []
  }

  ghost function FindingsFor(recs: seq<GroupRecord>, sector: nat): seq<Finding>
    requires sector > 0
  {
    if recs == [] then [] else
      FindingsFor(recs[..|recs|-1], sector) + FindingFor(recs[|recs|-1], sector)
  }

  class Checker {
    var findings: seq<Finding>

    constructor ()
      ensures findings == []
    {
      findings := [];
    }

    /** A finding for each group whose two records cannot both be read, or are of
        different bytes, and for no other. */
    method FreeSpace(recs: seq<GroupRecord>, sector: nat)
      requires sector > 0
      requires forall i | 0 <= i < |recs| :: Readable(recs[i])
      modifies this
      ensures findings == old(findings) + FindingsFor(recs, sector)
    {
      for i := 0 to |recs|
        invariant findings == old(findings) + FindingsFor(recs[..i], sector)
      {
        assert recs[..i+1][..i] == recs[..i];
        var finding := CompareOne(recs[i], sector);
        if finding.Some? { findings := findings + [finding.value]; }
      }
      assert recs[..|recs|] == recs;
    }

    /** A finding exactly when some byte the checksums cover is in no data extent. */
    method Checksums(start: nat, len: nat, extents: seq<FreeExtent>)
      requires Ascending(extents)
      modifies this
      ensures findings == old(findings) +
        if exists b: nat | start <= b < start + len :: !In(extents, b) then [ChecksumsUncovered(start, len)] else []
    {
      var covered := start;
      ghost var stopped := false;
      while covered < start + len
        invariant start <= covered
        invariant forall b: nat | start <= b < covered && b < start + len :: In(extents, b)
        decreases start + len - covered
      {
        var at := LastAtOrBefore(extents, covered, |extents|);
        if at.Some? && covered < extents[at.value].End() {
          forall b: nat | covered <= b < extents[at.value].End() ensures In(extents, b) {
            assert extents[at.value].start <= b < extents[at.value].End();
          }
          covered := extents[at.value].End();
        } else {
          UncoveredAt(extents, covered);
          stopped := true;
          break;
        }
      }
      if covered < start + len {
        assert !In(extents, covered);
        findings := findings + [ChecksumsUncovered(start, len)];
      }
    }
  }

  /** The last of the first `n` extents that starts at `at` or before it. */
  function LastAtOrBefore(extents: seq<FreeExtent>, at: nat, n: nat): (r: Option<nat>)
    requires n <= |extents|
    ensures r.Some? ==> r.value < n && extents[r.value].start <= at
    ensures r.Some? ==> forall j | r.value < j < n :: extents[j].start > at
    ensures r.None? ==> forall j | 0 <= j < n :: extents[j].start > at
  {
    if n == 0 then None
    else if extents[n-1].start <= at then Some(n - 1)
    else LastAtOrBefore(extents, at, n - 1)
  }

  /** With extents ascending, only the last one at or before a byte can hold it. */
  lemma UncoveredAt(extents: seq<FreeExtent>, at: nat)
    requires Ascending(extents)
    requires var last := LastAtOrBefore(extents, at, |extents|);
      last.None? || extents[last.value].End() <= at
    ensures !In(extents, at)
  {
  }

  lemma CachedComparesAsBytes(computed: seq<FreeExtent>, cached: seq<FreeExtent>)
    requires Ascending(computed) && NoneEmpty(computed) && Separated(cached) && NoneEmpty(cached)
    ensures Merged(cached) == Merged(computed) <==> SameBytes(computed, cached)
  {
    MergingKeepsEnd(cached);
    ComparisonIsByteEquality(computed, cached);
  }

  /** The checker's question about one group. */
  method CompareOne(rec: GroupRecord, sector: nat) returns (finding: Option<Finding>)
    requires sector > 0 && Readable(rec)
    ensures FindingFor(rec, sector) == if finding.Some? then [finding.value] else []
  {
    hide In, RecordedBy, Unreadable, Cursor, ItemsApart, NoEmptyItem, Ascending, Separated, Sorted, Merged;
    if rec.tree.None? { return None; }
    var cached := CachedFreeExtents(rec.group, rec.tree.value, sector);
    if cached.Err? { return Some(TreeUnreadable(rec.group.start)); }
    SortedInOrder(rec.taken);
    forall i | 0 <= i < |Sorted(rec.taken)| ensures Sorted(rec.taken)[i].start < rec.group.End() {
      assert Sorted(rec.taken)[i] in multiset(rec.taken);
    }
    var computed := Gaps(rec.group, Sorted(rec.taken));
    if computed.Err? { return Some(ExtentsUnreadable(rec.group.start)); }
    SortingKeepsBytes(rec.taken);
    var a := MergeAdjacent(cached.value);
    var b := MergeAdjacent(computed.value);
    CachedComparesAsBytes(computed.value, cached.value);
    if a != b { return Some(FreeSpaceDisagrees(rec.group.start)); }
    return None;
  }
}
