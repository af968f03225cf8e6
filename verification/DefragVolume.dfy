/** A defragment from runs to commit (`defragment_to` in src/defrag.rs): each run's bytes
    copied into one extent, its items' references given up, and the report of it. */
module DefragVolume {
  import opened Base
  import opened FileItems
  import opened Keyed
  import opened Clones
  import opened Extents
  import opened Clone
  import opened Replace
  import opened Defrag
  import CowPlan
  import CowWrite
  import opened CowVolume

  // --------------------------------------------------------------- a run at a time

  ghost predicate RunsOf(own: seq<Item>, found: seq<Run>) { forall r | r in found :: r.begin < r.end <= |own| }

  function MovedOf(own: seq<Item>, found: seq<Run>): seq<Item>
    requires RunsOf(own, found)
  {
    if found == [] then [] else own[found[0].begin..found[0].end] + MovedOf(own, found[1..])
  }

  function CopiesOfRuns(own: seq<Item>, found: seq<Run>, news: nat -> nat): seq<Item>
    requires RunsOf(own, found)
  {
    if found == [] then [] else [Merged(own, found[0].begin, found[0].end, news)] + CopiesOfRuns(own, found[1..], news)
  }

  function EditsOfRuns(own: seq<Item>, found: seq<Run>, news: nat -> nat): map<nat, Edit<Item>>
    requires RunsOf(own, found)
  {
    if found == [] then map[] else RunEdits(own, found[0].begin, found[0].end, news) + EditsOfRuns(own, found[1..], news)
  }

  /** The runs found are the rewrite's stretches of two items or more. */
  lemma {:induction false} ByRuns(own: seq<Item>, target: nat, i: nat, news: nat -> nat)
    requires i <= |own|
    ensures var found := RunsFrom(Seen(own), target, i);
      && RunsOf(own, found) && MovedOf(own, found) == MovedIn(own, target, i) && CopiesOfRuns(own, found, news) == CopiesIn(own, target, i, news)
      && EditsOfRuns(own, found, news) == AllRunEdits(own, target, i, news)
    decreases |own| - i
  {
    hide Merged, RunEdits, NextFrom;
    RunsOrdered(Seen(own), target, i);
    if i < |own| {
      var n := Next(own, target, i);
      ByRuns(own, target, n, news);
      var rest := RunsFrom(Seen(own), target, n);
      if n - i >= 2 {
        var found := RunsFrom(Seen(own), target, i);
        assert found[0] == Run(i, n) && found[1..] == rest;
      } else {
        assert [] + rest == rest && [] + MovedIn(own, target, n) == MovedIn(own, target, n);
        assert [] + CopiesIn(own, target, n, news) == CopiesIn(own, target, n, news);
        NoEdits(own, i, n, news, AllRunEdits(own, target, n, news));
      }
    }
  }

  lemma NoEdits(own: seq<Item>, i: nat, n: nat, news: nat -> nat, edits: map<nat, Edit<Item>>)
    requires i < n <= |own| && n - i < 2
    ensures RunEdits(own, i, n, news) + edits == edits
  {
  }

  // --------------------------------------------------------------------- the copies

  /** A write of nothing: a buffer filled for it holds what the file reads. */
  function NoWrite(size: nat): CowWrite.Write { CowWrite.Write(size, 0, 0, 1, false) }

  /** Each run's bytes as the file reads them now, and zeros past its end. */
  method FillRuns(value: Cell -> int, own: seq<Item>, size: nat, found: seq<Run>, ghost news: nat -> nat) returns (pieces: seq<Piece>)
    requires value(Zero) == 0 && RunsOf(own, found)
    ensures PiecesHold(value, own, NoWrite(size), DataAt([]), pieces, CopiesOfRuns(own, found, news))
  {
    pieces := [];
    NoPieces(value, own, NoWrite(size), DataAt([]));
    assert found[..0] == [] && found[..|found|] == found && CopiesOfRuns(own, [], news) == [];
    hide PiecesHold, CowWrite.Written;
    for k := 0 to |found|
      invariant PiecesHold(value, own, NoWrite(size), DataAt([]), pieces, CopiesOfRuns(own, found[..k], news))
    {
      var r := found[k];
      assert r in found && found[..k+1] == found[..k] + [r];
      var len := Total(Seen(own), r.begin, r.end);
      var t := CowPlan.Target(own[r.begin].start, len, 0, 0, 0, false, true);
      var buf := FillCopy(value, own, NoWrite(size), [], t);
      var c := Merged(own, r.begin, r.end, news);
      SliceHolds(value, own, NoWrite(size), DataAt([]), t, buf[..], 0, c);
      assert buf[..][0..0 + c.num] == buf[..];
      OnePieceHolds(value, own, NoWrite(size), DataAt([]), Piece(t.start, buf[..]), c);
      PiecesJoin(value, own, NoWrite(size), DataAt([]), pieces, CopiesOfRuns(own, found[..k], news), [Piece(t.start, buf[..])], [c]);
      CopiesNext(own, found[..k], r, news);
      pieces := pieces + [Piece(t.start, buf[..])];
    }
  }

  lemma {:induction false} RunsParts(own: seq<Item>, found: seq<Run>, r: Run)
    requires RunsOf(own, found + [r])
    ensures RunsOf(own, found) && r.begin < r.end <= |own|
    ensures found != [] ==> (found + [r])[1..] == found[1..] + [r] && RunsOf(own, found[1..] + [r])
    ensures found == [] ==> found + [r] == [r]
  {
    assert r in found + [r] && forall x | x in found :: x in found + [r];
    if found != [] { assert (found + [r])[1..] == found[1..] + [r]; }
  }

  lemma {:induction false} CopiesNext(own: seq<Item>, found: seq<Run>, r: Run, news: nat -> nat)
    requires RunsOf(own, found + [r])
    ensures RunsOf(own, found) && r in found + [r] && CopiesOfRuns(own, found + [r], news) == CopiesOfRuns(own, found, news) + [Merged(own, r.begin, r.end, news)]
  {
    RunsParts(own, found, r);
    assert r in found + [r];
    hide Merged, RunsOf;
    if found != [] {
      CopiesNext(own, found[1..], r, news);
    } else {
      assert [r][1..] == [];
    }
  }

  // ----------------------------------------------------------------- the whole change

  /** What a defragment says it did. */
  datatype Report = Report(runs: nat, bytes: nat, itemsBefore: nat, itemsAfter: nat)

  lemma {:induction false} MovedNext(own: seq<Item>, found: seq<Run>, r: Run)
    requires RunsOf(own, found + [r])
    ensures RunsOf(own, found) && r.begin < r.end <= |own|
    ensures MovedOf(own, found + [r]) == MovedOf(own, found) + own[r.begin..r.end]
  {
    RunsParts(own, found, r);
    hide RunsOf;
    if found != [] {
      MovedNext(own, found[1..], r);
    } else {
      assert [r][1..] == [] && own[r.begin..r.end] + [] == own[r.begin..r.end];
    }
  }

  lemma {:induction false} EditsNext(own: seq<Item>, found: seq<Run>, r: Run, news: nat -> nat)
    requires RunsOf(own, found + [r])
    ensures RunsOf(own, found) && r.begin < r.end <= |own|
    ensures EditsOfRuns(own, found + [r], news) == EditsOfRuns(own, found, news) + RunEdits(own, r.begin, r.end, news)
  {
    RunsParts(own, found, r);
    hide RunsOf, RunEdits, EditsOfRuns;
    EditsOfFirst(own, found + [r], news);
    if found != [] {
      EditsNext(own, found[1..], r, news);
      EditsOfFirst(own, found, news);
      MapsAssociate(RunEdits(own, found[0].begin, found[0].end, news), EditsOfRuns(own, found[1..], news), RunEdits(own, r.begin, r.end, news));
    } else {
      NoRunNoEdits(own, news);
      assert [r][1..] == [];
    }
  }

  lemma {:induction false} EditsOfFirst(own: seq<Item>, found: seq<Run>, news: nat -> nat)
    requires RunsOf(own, found) && found != []
    ensures EditsOfRuns(own, found, news) == RunEdits(own, found[0].begin, found[0].end, news) + EditsOfRuns(own, found[1..], news)
  {
  }

  lemma NoRunNoEdits(own: seq<Item>, news: nat -> nat) ensures EditsOfRuns(own, [], news) == map[] {}

  lemma {:induction false} SavedNext(own: seq<Item>, found: seq<Run>, r: Run)
    requires RunsOf(own, found + [r])
    ensures RunsOf(own, found) && r.begin < r.end <= |own|
    ensures Saved(found + [r]) == Saved(found) + (r.end - r.begin - 1)
  {
    RunsParts(own, found, r);
    if found != [] {
      SavedNext(own, found[1..], r);
    } else {
      assert [r][1..] == [];
    }
  }

  /** The runs' items and edits, and what they come to. */
  method GatherRuns(own: seq<Item>, found: seq<Run>, news: nat -> nat)
    returns (moved: seq<Item>, edits: map<nat, Edit<Item>>, report: Report)
    requires RunsOf(own, found) && Saved(found) <= |own| && forall p :: news(p) > 0
    ensures moved == MovedOf(own, found) && edits == EditsOfRuns(own, found, news)
    ensures report == Report(|found|, Counted(CopiesOfRuns(own, found, news)), |own|, |own| - Saved(found))
  {
    moved, edits := [], map[];
    var bytes, after: int := 0, |own|;
    assert found[..0] == [] && found[..|found|] == found;
    assert MovedOf(own, []) == [] && EditsOfRuns(own, [], news) == map[] && Saved([]) == 0 && CopiesOfRuns(own, [], news) == [];
    hide MovedOf, EditsOfRuns, Saved, RunEdits, CopiesOfRuns;
    for k := 0 to |found|
      invariant moved == MovedOf(own, found[..k]) && edits == EditsOfRuns(own, found[..k], news)
      invariant after == |own| - Saved(found[..k]) && bytes == Counted(CopiesOfRuns(own, found[..k], news))
    {
      var r := found[k];
      assert r in found && found[..k+1] == found[..k] + [r];
      MovedNext(own, found[..k], r);
      EditsNext(own, found[..k], r, news);
      SavedNext(own, found[..k], r);
      CopiesNext(own, found[..k], r, news);
      CountedJoin(CopiesOfRuns(own, found[..k], news), [Merged(own, r.begin, r.end, news)]);
      OneCounted(Merged(own, r.begin, r.end, news));
      moved, edits := moved + own[r.begin..r.end], edits + RunEdits(own, r.begin, r.end, news);
      bytes, after := bytes + Total(Seen(own), r.begin, r.end), after - (r.end - r.begin - 1);
    }
    report := Report(|found|, bytes, |own|, after);
  }

  lemma OneCounted(c: Item)
    requires c.kind == Regular && c.bytenr > 0
    ensures Counted([c]) == c.num
  {
    assert [c][..0] == [];
  }

  lemma {:induction false} MovedNamed(ino: nat, own: seq<Item>, target: nat, extents: ExtentTree)
    requires ReadsRecorded(own, extents)
    ensures forall x | x in MovedIn(own, target, 0) :: x.kind == Regular && x.bytenr != 0 && x.bytenr in extents
    ensures forall b: nat :: |Naming(ino, MovedIn(own, target, 0), b)| <= 1
  {
    MovedAreOwn(own, target, 0);
    forall b: nat ensures |Naming(ino, MovedIn(own, target, 0), b)| <= 1 { MovedOnce(ino, own, target, b); }
    hide Naming;
  }

  lemma {:induction false} CopiesInFresh(own: seq<Item>, target: nat, i: nat, news: nat -> nat, extents: ExtentTree)
    requires i <= |own| && NewPlaces(news, extents) && Sorted(own)
    ensures FreshCopies(CopiesIn(own, target, i, news), extents)
    ensures forall x | x in CopiesIn(own, target, i, news) :: x.bytenr == news(x.start) && exists k :: i <= k < |own| && own[k].start == x.start
    decreases |own| - i
  {
    if i < |own| {
      var n := Next(own, target, i);
      CopiesInFresh(own, target, n, news, extents);
      if n - i >= 2 {
        var first, rest := Merged(own, i, n, news), CopiesIn(own, target, n, news);
        FirstApart(own, i, n, rest, news);
        assert CopiesIn(own, target, i, news) == [first] + rest;
        OneMoreFresh(first, rest, extents);
      } else {
        assert CopiesIn(own, target, i, news) == CopiesIn(own, target, n, news);
      }
    }
  }

  lemma {:induction false} FirstApart(own: seq<Item>, i: nat, n: nat, rest: seq<Item>, news: nat -> nat)
    requires i < n <= |own| && Sorted(own) && forall p: nat, q: nat :: news(p) == news(q) ==> p == q
    requires forall x | x in rest :: x.bytenr == news(x.start) && exists k :: n <= k < |own| && own[k].start == x.start
    ensures forall x | x in rest :: x.bytenr != news(own[i].start)
  {
    forall x | x in rest ensures x.bytenr != news(own[i].start) {
      var k :| n <= k < |own| && own[k].start == x.start;
      assert own[i].End() <= own[k].start && own[i].num > 0;
    }
  }

  lemma {:induction false} OneMoreFresh(first: Item, rest: seq<Item>, extents: ExtentTree)
    requires FreshCopies(rest, extents) && first.kind == Regular && first.bytenr != 0 && first.bytenr !in extents
    requires forall x | x in rest :: x.bytenr != first.bytenr
    ensures FreshCopies([first] + rest, extents)
  {
    var all := [first] + rest;
    forall i | 0 <= i < |all| ensures all[i] == if i == 0 then first else rest[i-1] {}
    assert forall i | 0 <= i < |rest| :: rest[i] in rest;
  }

  lemma {:induction false} CopiesHoldToo(value: Cell -> int, own: seq<Item>, copies: seq<Item>, size: nat)
    requires CowWrite.CopiesHold(value, copies, own, NoWrite(size), DataAt([]))
    ensures Defrag.CopiesHold(value, own, copies, size)
  {
    forall c, p: nat | c in copies && c.start <= p < c.End()
      ensures value(CellOf(c, p)) == if p < size then value(Read(own, p)) else value(Zero)
    {
      assert CowPlan.Holds(c, p);
    }
  }

  // ----------------------------------------------------------------- the refusals

  const MAX_EXTENT: nat := 0x800_0000

  /** No run grows past the longest extent. */
  function Capped(target: nat): nat { if target <= MAX_EXTENT then target else MAX_EXTENT }

  datatype DefragError = TooShort(target: nat) | PastExtent(at: nat) | InSnapshot(bytenr: nat) | BeforeFile(at: nat)

  /** What keeps a run's item from being rewritten, its extent `len` long and from
      `generation`: a snapshot taken since may be reading it. */
  function Refusal(x: Item, len: nat, generation: nat, lastSnapshot: nat): Option<DefragError> {
    if !WindowInside(x, len) then Some(PastExtent(x.start))
    else if generation <= lastSnapshot then Some(InSnapshot(x.bytenr))
    else if x.start < x.offset then Some(BeforeFile(x.start))
    else None
  }

  function RefusalOf(x: Item, extents: ExtentTree, generations: nat -> nat, lastSnapshot: nat): Option<DefragError> {
    if x.bytenr in extents then Refusal(x, extents[x.bytenr].len, generations(x.bytenr), lastSnapshot) else None
  }

  ghost predicate NoneRefused(moved: seq<Item>, extents: ExtentTree, generations: nat -> nat, lastSnapshot: nat) {
    forall i | 0 <= i < |moved| :: RefusalOf(moved[i], extents, generations, lastSnapshot) == None
  }

  /** The first of the items that is refused, before anything is allocated. */
  ghost predicate FirstRefused(moved: seq<Item>, extents: ExtentTree, generations: nat -> nat, lastSnapshot: nat, e: DefragError) {
    exists i :: 0 <= i < |moved| && RefusalOf(moved[i], extents, generations, lastSnapshot) == Some(e)
      && NoneRefused(moved[..i], extents, generations, lastSnapshot)
  }

  method CheckMembers(moved: seq<Item>, extents: ExtentTree, generations: nat -> nat, lastSnapshot: nat) returns (refused: Option<DefragError>)
    ensures refused.None? <==> NoneRefused(moved, extents, generations, lastSnapshot)
    ensures refused.Some? ==> FirstRefused(moved, extents, generations, lastSnapshot, refused.value)
  {
    hide RefusalOf;
    for i := 0 to |moved|
      invariant NoneRefused(moved[..i], extents, generations, lastSnapshot)
    {
      refused := RefusalOf(moved[i], extents, generations, lastSnapshot);
      if refused.Some? { return; }
    }
    assert moved[..|moved|] == moved;
    return None;
  }

  // ------------------------------------------------------------------ the whole change

  /** What a defragment leaves: its runs are one item each, the file reads what it did, its
      byte count has not moved, its references are accounted for, and the report is exact. */
  ghost predicate Defragmented(ino: nat, files: Files, size: nat, target: nat, value: Cell -> int, news: nat -> nat, report: Report, left: Left)
    requires ino in files
  {
    var now := InOrder(left.tree);
    && Sorted(now) && now == Rewritten(files[ino], target, 0, news) && Accounted(left.extents, files[ino := now])
    && Counted(now) == Counted(files[ino]) && report.itemsBefore == |files[ino]| && report.itemsAfter == |now|
    && (forall p: nat | p < size :: left.value(Read(now, p)) == value(Read(files[ino], p)))
    && report.runs == |RunsFrom(Seen(files[ino]), target, 0)|
  }

  /** A file defragmented, exactly unless the target is less than a sector or an item of a
      run is refused. */
  method Defragment(ino: nat, files: Files, extents: ExtentTree, size: nat, sector: Pos, wanted: nat, value: Cell -> int, news: nat -> nat,
                    generations: nat -> nat, lastSnapshot: nat)
    returns (r: Result<(Report, Left), DefragError>)
    requires Accounted(extents, files) && ino in files && value(Zero) == 0 && NewPlaces(news, extents)
    requires Sorted(files[ino]) && InlineNameless(files[ino]) && Within(files[ino], 0, U64_SPAN)
    ensures r == Err(TooShort(wanted)) <==> wanted < sector
    ensures wanted >= sector ==>
      (r.Ok? <==> NoneRefused(MovedIn(files[ino], Capped(wanted), 0), extents, generations, lastSnapshot))
    ensures wanted >= sector && r.Err? ==>
      FirstRefused(MovedIn(files[ino], Capped(wanted), 0), extents, generations, lastSnapshot, r.error)
    ensures r.Ok? ==> Defragmented(ino, files, size, Capped(wanted), value, news, r.value.0, r.value.1)
    ensures r.Ok? && r.value.0.runs == 0 ==> r.value.1 == Left(AsMap(files[ino]), extents, value)
  {
    hide *;
    if wanted < sector { return Err(TooShort(wanted)); }
    var own, target := files[ino], Capped(wanted);
    var found := Runs(Seen(own), target);
    ByRuns(own, target, 0, news);
    NamesRecorded(ino, files, extents);
    MovedNamed(ino, own, target, extents);
    var refused := CheckMembers(MovedOf(own, found), extents, generations, lastSnapshot);
    if refused.Some? { NeverTooShort(MovedOf(own, found), extents, generations, lastSnapshot, refused.value); return Err(refused.value); }
    var report, left := Rewrite(ino, files, extents, size, target, value, news, found);
    return Ok((report, left));
  }

  lemma NeverTooShort(moved: seq<Item>, extents: ExtentTree, generations: nat -> nat, lastSnapshot: nat, e: DefragError)
    requires FirstRefused(moved, extents, generations, lastSnapshot, e)
    ensures !e.TooShort?
  {
  }

  lemma DefragmentedIs(ino: nat, files: Files, size: nat, target: nat, value: Cell -> int, news: nat -> nat, report: Report, left: Left)
    requires ino in files && InOrder(left.tree) == Rewritten(files[ino], target, 0, news)
    requires Sorted(InOrder(left.tree)) && Accounted(left.extents, files[ino := InOrder(left.tree)])
    requires Counted(InOrder(left.tree)) == Counted(files[ino]) && report.itemsBefore == |files[ino]|
    requires report.itemsAfter == |InOrder(left.tree)| && report.runs == |RunsFrom(Seen(files[ino]), target, 0)|
    requires forall p: nat | p < size :: left.value(Read(InOrder(left.tree), p)) == value(Read(files[ino], p))
    ensures Defragmented(ino, files, size, target, value, news, report, left)
  {
    hide Sorted, Accounted, Counted, Read, InOrder, Rewritten, RunsFrom, Seen;
  }

  /** The runs of a file rewritten. */
  method Rewrite(ino: nat, files: Files, extents: ExtentTree, size: nat, target: nat, value: Cell -> int, news: nat -> nat, found: seq<Run>)
    returns (report: Report, left: Left)
    requires Accounted(extents, files) && ino in files && value(Zero) == 0 && NewPlaces(news, extents)
    requires Sorted(files[ino]) && InlineNameless(files[ino]) && Within(files[ino], 0, U64_SPAN)
    requires found == RunsFrom(Seen(files[ino]), target, 0)
    ensures Defragmented(ino, files, size, target, value, news, report, left)
    ensures report.runs == 0 ==> left == Left(AsMap(files[ino]), extents, value)
  {
    hide *;
    var own := files[ino];
    ByRuns(own, target, 0, news);
    ReportExact(own, target, 0, news);
    PlacesPositive(news, extents);
    Whole(own);
    RewriteSorted(own, target, 0, news, 0, U64_SPAN);
    RewriteCounts(own, target, 0, news);
    OrderRestored(Rewritten(own, target, 0, news), U64_SPAN);
    if found == [] {
      NothingRewritten(ino, own, target, news, files);
      report, left := Report(0, 0, |own|, |own|), Left(AsMap(own), extents, value);
      DefragmentedIs(ino, files, size, target, value, news, report, left);
      return;
    }
    NamesRecorded(ino, files, extents);
    MovedNamed(ino, own, target, extents);
    CopiesInFresh(own, target, 0, news, extents);
    var copies := CopiesOfRuns(own, found, news);
    var pieces := FillRuns(value, own, size, found, news);
    PiecesAre(value, own, NoWrite(size), DataAt([]), pieces, copies, extents);
    var after := StorePieces(value, copies, pieces);
    StoredHold(value, after, own, NoWrite(size), DataAt([]), copies, pieces, extents);
    CopiesHoldToo(after, own, copies, size);
    var moved, edits;
    moved, edits, report := GatherRuns(own, found, news);
    var releases, unrefs := GiveUp(ino, moved, extents);
    DefragAccounted(ino, own, target, news, files, extents, releases, unrefs);
    DefragFits(ino, own, target, files, extents, releases, unrefs);
    var settled := SettleRefs(ino, extents, releases, unrefs, []);
    if settled.Err? {
      left := Left(AsMap(own), extents, value);
      return;
    }
    AfterCopiesIs(ino, extents, releases, unrefs, copies);
    EditsLeaveRewrite(own, target, 0, news);
    Rereads(value, after, own, target, news, copies, size, extents);
    left := Left(Edited(AsMap(own), edits), settled.value + NewRecords(ino, copies), after);
    DefragmentedIs(ino, files, size, target, value, news, report, left);
  }

  lemma Whole(own: seq<Item>) ensures own[0..] == own {}

  lemma {:induction false} NothingRewritten(ino: nat, own: seq<Item>, target: nat, news: nat -> nat, files: Files)
    requires RunsFrom(Seen(own), target, 0) == [] && ino in files && files[ino] == own
    ensures Rewritten(own, target, 0, news) == own && files[ino := own] == files
  {
    NoRunNoRewrite(own, target, 0, news);
    assert own[0..] == own;
  }

  lemma {:induction false} NoRunNoRewrite(own: seq<Item>, target: nat, i: nat, news: nat -> nat)
    requires i <= |own| && RunsFrom(Seen(own), target, i) == []
    ensures Rewritten(own, target, i, news) == own[i..]
    decreases |own| - i
  {
    if i < |own| {
      var n := Next(own, target, i);
      assert n - i < 2;
      AloneIsOne(Seen(own), target, i);
      assert [] + RunsFrom(Seen(own), target, n) == RunsFrom(Seen(own), target, n);
      NoRunNoRewrite(own, target, n, news);
      Rest(own, i, n);
    }
  }

  lemma {:induction false} Rereads(value: Cell -> int, after: Cell -> int, own: seq<Item>, target: nat, news: nat -> nat, copies: seq<Item>,
                                   size: nat, extents: ExtentTree)
    requires Sorted(own) && Within(own, 0, U64_SPAN) && copies == CopiesIn(own, target, 0, news)
    requires Defrag.CopiesHold(after, own, copies, size) && SameElsewhere(value, after, copies) && FreshCopies(copies, extents)
    requires InlineNameless(own) && ReadsRecorded(own, extents)
    ensures forall p: nat | p < size :: after(Read(Rewritten(own, target, 0, news), p)) == value(Read(own, p))
  {
    assert own[0..] == own;
    forall p: nat | p < size ensures after(Read(Rewritten(own, target, 0, news), p)) == value(Read(own, p)) {
      RewriteReads(after, own, target, 0, news, copies, size, 0, U64_SPAN, p);
      OldReads(own, extents, p);
      hide Read, Rewritten;
    }
  }
}
