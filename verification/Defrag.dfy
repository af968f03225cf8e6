/** Defragmenting a file (src/defrag.rs): which runs of its items are rewritten as one,
    and what the rewrite keeps. */
module Defrag {
  import opened Base
  import opened FileItems
  import opened Keyed
  import opened Cut
  import opened Extents
  import opened Replace
  import opened Clone

  /** An item as the run finder sees it. */
  datatype RunItem = RunItem(start: nat, len: nat, movable: bool) {
    function End(): nat { start + len }
  }

  /** A run: the items from `begin` up to, not including, `end`. */
  datatype Run = Run(begin: nat, end: nat)

  predicate Starts(it: RunItem, target: nat) { it.movable && it.len < target }

  /** Whether the next item joins a run of `total` bytes that ends with `prev`. */
  predicate Joins(prev: RunItem, next: RunItem, total: nat, target: nat) {
    next.movable && prev.End() < U64_SPAN && prev.End() == next.start && total + next.len <= target
  }

  function Total(items: seq<RunItem>, begin: nat, end: nat): nat
    requires begin <= end <= |items|
    decreases end
  {
    if begin == end then 0 else Total(items, begin, end - 1) + items[end-1].len
  }

  /** How far a run from `begin` goes, once it has reached `j`. */
  function Reach(items: seq<RunItem>, target: nat, begin: nat, j: nat): (end: nat)
    requires begin < j <= |items|
    ensures j <= end <= |items|
    decreases |items| - j
  {
    if j == |items| || !Joins(items[j-1], items[j], Total(items, begin, j), target) then j
    else Reach(items, target, begin, j + 1)
  }

  /** Where the finder looks next, from item `i`. */
  function NextFrom(items: seq<RunItem>, target: nat, i: nat): (n: nat)
    requires i < |items|
    ensures i < n <= |items|
  {
    if Starts(items[i], target) then Reach(items, target, i, i + 1) else i + 1
  }

  function RunsFrom(items: seq<RunItem>, target: nat, i: nat): seq<Run>
    requires i <= |items|
    decreases |items| - i
  {
    if i == |items| then [] else
      var n := NextFrom(items, target, i);
      (if n - i >= 2 then [Run(i, n)] else []) + RunsFrom(items, target, n)
  }

  function RunAt(i: nat, n: nat): seq<Run> { if n - i >= 2 then [Run(i, n)] else [] }

  lemma RunsStep(items: seq<RunItem>, target: nat, out: seq<Run>, i: nat)
    requires i < |items|
    ensures var n := NextFrom(items, target, i);
      out + RunsFrom(items, target, i) == out + RunAt(i, n) + RunsFrom(items, target, n)
  {
    assert RunsFrom(items, target, i) == RunAt(i, NextFrom(items, target, i)) + RunsFrom(items, target, NextFrom(items, target, i));
  }

  lemma ReachStep(items: seq<RunItem>, target: nat, begin: nat, j: nat)
    requires begin < j <= |items|
    ensures j < |items| && Joins(items[j-1], items[j], Total(items, begin, j), target) ==>
      Reach(items, target, begin, j) == Reach(items, target, begin, j + 1) && Total(items, begin, j + 1) == Total(items, begin, j) + items[j].len
    ensures !(j < |items| && Joins(items[j-1], items[j], Total(items, begin, j), target)) ==> Reach(items, target, begin, j) == j
  {
  }

  lemma RunsDone(items: seq<RunItem>, target: nat, out: seq<Run>)
    ensures out + RunsFrom(items, target, |items|) == out
    ensures [] + RunsFrom(items, target, 0) == RunsFrom(items, target, 0)
  {
  }

  method Runs(items: seq<RunItem>, target: nat) returns (out: seq<Run>)
    ensures out == RunsFrom(items, target, 0)
  {
    out := [];
    var i := 0;
    RunsDone(items, target, []);
    while i < |items|
      invariant i <= |items|
      invariant RunsFrom(items, target, 0) == out + RunsFrom(items, target, i)
    {
      RunsStep(items, target, out, i);
      hide RunsFrom, Joins, Reach;
      assert out + [] == out;
      if !items[i].movable || items[i].len >= target {
        i := i + 1;
        continue;
      }
      var begin, total := i, items[i].len;
      var j := i + 1;
      assert Total(items, begin, j) == total;
      while j < |items| && Joins(items[j-1], items[j], total, target)
        invariant begin < j <= |items| && total == Total(items, begin, j)
        invariant Reach(items, target, begin, begin + 1) == Reach(items, target, begin, j)
      {
        ReachStep(items, target, begin, j);
        total := total + items[j].len;
        j := j + 1;
      }
      ReachStep(items, target, begin, j);
      if j - begin >= 2 { out := out + [Run(begin, j)]; }
      i := j;
    }
    RunsDone(items, target, out);
  }

  /** A run: two or more movable items, each beginning where the last ends, together
      no longer than the target, and each shorter than it. */
  ghost predicate GoodRun(items: seq<RunItem>, target: nat, r: Run) {
    && r.begin + 2 <= r.end <= |items|
    && (forall k | r.begin <= k < r.end :: items[k].movable && items[k].len < target)
    && (forall k | r.begin < k < r.end :: items[k-1].End() == items[k].start)
    && Total(items, r.begin, r.end) <= target
  }

  /** Nothing more would join the run. */
  ghost predicate Maximal(items: seq<RunItem>, target: nat, r: Run) {
    r.begin < r.end <= |items| &&
    (r.end == |items| || !Joins(items[r.end-1], items[r.end], Total(items, r.begin, r.end), target))
  }

  /** Items that can move have something in them. */
  ghost predicate NoneHollow(items: seq<RunItem>) { forall i | 0 <= i < |items| && items[i].movable :: items[i].len > 0 }

  lemma {:induction false} TotalAtLeast(items: seq<RunItem>, begin: nat, k: nat, end: nat)
    requires begin <= k < end <= |items|
    ensures Total(items, begin, end) >= items[k].len
    ensures begin < k ==> Total(items, begin, end) >= items[begin].len + items[k].len
    decreases end
  {
    if k < end - 1 {
      TotalAtLeast(items, begin, k, end - 1);
    } else if begin < k {
      TotalAtLeast(items, begin, begin, k);
    }
  }

  lemma {:induction false} ReachGood(items: seq<RunItem>, target: nat, begin: nat, j: nat)
    requires begin < j <= |items| && Starts(items[begin], target)
    requires (forall k | begin <= k < j :: items[k].movable) && (forall k | begin < k < j :: items[k-1].End() == items[k].start)
    requires Total(items, begin, j) <= target
    ensures var end := Reach(items, target, begin, j);
      && (forall k | begin <= k < end :: items[k].movable) && (forall k | begin < k < end :: items[k-1].End() == items[k].start)
      && Total(items, begin, end) <= target && Maximal(items, target, Run(begin, end))
    decreases |items| - j
  {
    if j < |items| && Joins(items[j-1], items[j], Total(items, begin, j), target) {
      ReachGood(items, target, begin, j + 1);
    }
  }

  lemma StretchGood(items: seq<RunItem>, target: nat, i: nat)
    requires i < |items| && Starts(items[i], target) && NoneHollow(items)
    ensures var end := NextFrom(items, target, i);
      Maximal(items, target, Run(i, end)) && (end - i >= 2 ==> GoodRun(items, target, Run(i, end)))
  {
    assert Total(items, i, i + 1) == items[i].len;
    ReachGood(items, target, i, i + 1);
    var end := NextFrom(items, target, i);
    forall k | i < k < end ensures items[k].len < target { TotalAtLeast(items, i, k, end); }
  }

  /** Every run found is good and goes as far as it can, and they lie in order. */
  lemma {:induction false} RunsGood(items: seq<RunItem>, target: nat, i: nat)
    requires i <= |items| && NoneHollow(items)
    ensures var out := RunsFrom(items, target, i);
      && (forall r | r in out :: GoodRun(items, target, r) && Maximal(items, target, r) && i <= r.begin)
      && (forall a, b | 0 <= a < b < |out| :: out[a].end <= out[b].begin)
    decreases |items| - i
  {
    if i < |items| {
      var n := NextFrom(items, target, i);
      RunsGood(items, target, n);
      if Starts(items[i], target) { StretchGood(items, target, i); }
      hide GoodRun, Maximal;
    }
  }

  /** Two neighbours that could be one are never both left alone: the first is in a run. */
  lemma {:induction false} NoPairLeft(items: seq<RunItem>, target: nat, i: nat, k: nat)
    requires i <= k && k + 1 < |items| && NoneHollow(items)
    requires items[k].movable && Joins(items[k], items[k+1], items[k].len, target)
    ensures exists r :: r in RunsFrom(items, target, i) && r.begin <= k < r.end
    decreases |items| - i
  {
    var n := NextFrom(items, target, i);
    if k < n {
      assert Total(items, k, k + 1) == items[k].len;
      if n - i >= 2 { assert Run(i, n) in RunsFrom(items, target, i); }
    } else {
      NoPairLeft(items, target, n, k);
      var r :| r in RunsFrom(items, target, n) && r.begin <= k < r.end;
      assert r in RunsFrom(items, target, i);
    }
  }

  // ------------------------------------------------------------- the rewrite

  /** Whether an item may join a run: stored as it is, and the file's only reference to
      its extent. */
  predicate Movable(own: seq<Item>, it: Item) {
    && it.kind == Regular && !it.attrs.packed && !it.attrs.encoded && it.bytenr != 0 && it.num != 0
    && |Naming(0, own, it.bytenr)| == 1
  }

  function Seen(own: seq<Item>): (items: seq<RunItem>)
    ensures |items| == |own|
    ensures forall i | 0 <= i < |own| :: items[i] == RunItem(own[i].start, own[i].num, Movable(own, own[i]))
  {
    seq(|own|, i requires 0 <= i < |own| => RunItem(own[i].start, own[i].num, Movable(own, own[i])))
  }

  const PLAIN: Attributes := Attributes(false, false, 0)

  /** A run's one item: its first's key, over all of it, naming the copy. */
  function Merged(own: seq<Item>, i: nat, n: nat, news: nat -> nat): Item
    requires i < n <= |own|
  {
    Item(own[i].start, Total(Seen(own), i, n), news(own[i].start), 0, Regular, PLAIN)
  }

  function Next(own: seq<Item>, target: nat, i: nat): (n: nat)
    requires i < |own|
    ensures i < n <= |own|
  {
    NextFrom(Seen(own), target, i)
  }

  /** What one stretch becomes. */
  function Piece(own: seq<Item>, i: nat, n: nat, news: nat -> nat): seq<Item>
    requires i < n <= |own|
  {
    if n - i >= 2 then [Merged(own, i, n, news)] else own[i..n]
  }

  /** The file's items once each run is one. */
  function Rewritten(own: seq<Item>, target: nat, i: nat, news: nat -> nat): seq<Item>
    requires i <= |own|
    decreases |own| - i
  {
    if i == |own| then [] else
      var n := Next(own, target, i);
      Piece(own, i, n, news) + Rewritten(own, target, n, news)
  }

  /** The runs' items, and the copies that take their place. */
  function MovedIn(own: seq<Item>, target: nat, i: nat): seq<Item>
    requires i <= |own|
    decreases |own| - i
  {
    if i == |own| then [] else
      var n := Next(own, target, i);
      (if n - i >= 2 then own[i..n] else []) + MovedIn(own, target, n)
  }

  function CopiesIn(own: seq<Item>, target: nat, i: nat, news: nat -> nat): seq<Item>
    requires i <= |own|
    decreases |own| - i
  {
    if i == |own| then [] else
      var n := Next(own, target, i);
      (if n - i >= 2 then [Merged(own, i, n, news)] else []) + CopiesIn(own, target, n, news)
  }

  lemma SeenFull(own: seq<Item>)
    ensures NoneHollow(Seen(own))
  {
  }

  /** A run's items lie end to end, so its length is what they span. */
  lemma {:induction false} RunSpans(own: seq<Item>, i: nat, n: nat)
    requires i < n <= |own| && forall k | i < k < n :: own[k-1].End() == own[k].start
    ensures own[i].start + Total(Seen(own), i, n) == own[n-1].End()
    decreases n
  {
    if n > i + 1 {
      RunSpans(own, i, n - 1);
    } else {
      assert Total(Seen(own), i, i) == 0;
    }
  }

  /** The items of a run, each movable and each where the last ends. */
  ghost predicate IsRun(own: seq<Item>, i: nat, n: nat)
    requires i < n <= |own|
  {
    && (forall k | i <= k < n :: Movable(own, own[k])) && (forall k | i < k < n :: own[k-1].End() == own[k].start)
    && own[i].start + Total(Seen(own), i, n) == own[n-1].End()
  }

  lemma GoodIsRun(own: seq<Item>, target: nat, i: nat, n: nat)
    requires i < n <= |own| && GoodRun(Seen(own), target, Run(i, n))
    ensures IsRun(own, i, n)
  {
    hide Movable, Total;
    var items := Seen(own);
    forall k | i < k < n ensures own[k-1].End() == own[k].start { assert items[k-1].End() == items[k].start; }
    RunSpans(own, i, n);
  }

  lemma StretchIsRun(own: seq<Item>, target: nat, i: nat)
    requires i < |own|
    ensures Next(own, target, i) - i >= 2 ==> IsRun(own, i, Next(own, target, i))
  {
    hide IsRun, GoodRun, Seen, Maximal, NoneHollow;
    SeenFull(own);
    SeenLength(own);
    if Next(own, target, i) - i >= 2 {
      StretchGood(Seen(own), target, i);
      GoodIsRun(own, target, i, Next(own, target, i));
    }
  }

  lemma SeenLength(own: seq<Item>) ensures |Seen(own)| == |own| {}

  lemma {:induction false} CountedRun(own: seq<Item>, i: nat, n: nat)
    requires i <= n <= |own| && forall k | i <= k < n :: own[k].bytenr != 0
    ensures Counted(own[i..n]) == Total(Seen(own), i, n)
    decreases n
  {
    if i < n {
      CountedRun(own, i, n - 1);
      assert own[i..n][..n-1-i] == own[i..n-1] && own[i..n][n-1-i] == own[n-1];
    }
  }

  lemma PieceCounts(own: seq<Item>, i: nat, n: nat, news: nat -> nat)
    requires i < n <= |own| && (n - i >= 2 ==> IsRun(own, i, n)) && forall p :: news(p) > 0
    ensures Counted(Piece(own, i, n, news)) == Counted(own[i..n])
  {
    if n - i >= 2 {
      CountedRun(own, i, n);
      assert [Merged(own, i, n, news)][..0] == [];
    }
  }

  lemma Rest(own: seq<Item>, i: nat, n: nat)
    requires i <= n <= |own|
    ensures own[i..] == own[i..n] + own[n..]
  {
  }

  /** The inode's byte count does not move. */
  lemma {:induction false} RewriteCounts(own: seq<Item>, target: nat, i: nat, news: nat -> nat)
    requires i <= |own| && forall p :: news(p) > 0
    ensures Counted(Rewritten(own, target, i, news)) == Counted(own[i..])
    decreases |own| - i
  {
    hide Piece, Counted, IsRun, NextFrom;
    if i < |own| {
      var n := Next(own, target, i);
      RewriteCounts(own, target, n, news);
      StretchIsRun(own, target, i);
      PieceCounts(own, i, n, news);
      CountedJoin(Piece(own, i, n, news), Rewritten(own, target, n, news));
      CountedJoin(own[i..n], own[n..]);
      Rest(own, i, n);
    } else {
      assert own[i..] == [];
    }
  }

  /** The items stay in order, none over another. */
  lemma {:induction false} RewriteSorted(own: seq<Item>, target: nat, i: nat, news: nat -> nat, lo: nat, hi: int)
    requires i <= |own| && Sorted(own[i..]) && Within(own[i..], lo, hi) && lo <= hi
    ensures Sorted(Rewritten(own, target, i, news)) && Within(Rewritten(own, target, i, news), lo, hi)
    decreases |own| - i
  {
    hide Piece, IsRun, NextFrom, Sorted, Within;
    if i < |own| {
      var n := Next(own, target, i);
      StretchIsRun(own, target, i);
      Rest(own, i, n);
      SortedParts(own[i..n], own[n..]);
      SplitWithin(own, i, n, lo, hi);
      RewriteSorted(own, target, n, news, own[n-1].End(), hi);
      PieceSorted(own, i, n, news, lo);
      SortedJoin(Piece(own, i, n, news), Rewritten(own, target, n, news), lo, own[n-1].End(), hi);
    } else {
      NothingSorted(lo, hi);
    }
  }

  lemma NothingSorted(lo: nat, hi: int) ensures Sorted([]) && Within([], lo, hi) {}

  lemma SplitWithin(own: seq<Item>, i: nat, n: nat, lo: nat, hi: int)
    requires i < n <= |own| && Sorted(own[i..]) && Within(own[i..], lo, hi)
    ensures Within(own[i..n], lo, own[n-1].End()) && Within(own[n..], own[n-1].End(), hi) && lo <= own[n-1].End() <= hi
  {
    var all, head, tail := own[i..], own[i..n], own[n..];
    assert all[n-1-i] == own[n-1];
    forall k | 0 <= k < |tail| ensures own[n-1].End() <= tail[k].start && tail[k].End() <= hi { assert tail[k] == all[n-i+k]; }
    forall k | 0 <= k < |head| ensures lo <= head[k].start && head[k].End() <= own[n-1].End() { assert head[k] == all[k]; }
  }

  lemma PieceSorted(own: seq<Item>, i: nat, n: nat, news: nat -> nat, lo: nat)
    requires i < n <= |own| && Sorted(own[i..n]) && Within(own[i..n], lo, own[n-1].End())
    requires n - i >= 2 ==> IsRun(own, i, n)
    ensures Sorted(Piece(own, i, n, news)) && Within(Piece(own, i, n, news), lo, own[n-1].End())
  {
    assert own[i..n][0] == own[i] && own[i..n][n-1-i] == own[n-1];
    assert own[i].num > 0 && own[i].start < own[n-1].End();
  }

  // -------------------------------------------------------------- what it reads

  /** The copies hold what the file read, and zeros past its end. */
  ghost predicate CopiesHold(value: Cell -> int, own: seq<Item>, copies: seq<Item>, size: nat) {
    forall c, p: nat | c in copies && c.start <= p < c.End() :: value(CellOf(c, p)) == if p < size then value(Read(own, p)) else value(Zero)
  }

  lemma {:induction false} EitherSide(own: seq<Item>, i: nat, n: nat)
    requires i < n <= |own| && Sorted(own)
    ensures forall k | 0 <= k < i :: own[..i][k].End() <= own[i].start
    ensures forall k | 0 <= k < |own| - n :: own[n-1].End() <= own[n..][k].start
  {
  }

  lemma {:induction false} ReadPart(own: seq<Item>, i: nat, n: nat, p: int)
    requires i <= n <= |own| && Sorted(own)
    requires i < n ==> own[i].start <= p < own[n-1].End()
    ensures i < n ==> Read(own, p) == Read(own[i..n], p)
  {
    if i < n {
      EitherSide(own, i, n);
      hide Sorted, Read;
      assert own == own[..i] + own[i..n] + own[n..];
      ReadJoin(own[..i] + own[i..n], own[n..], p);
      ReadJoin(own[..i], own[i..n], p);
      ReadsNothing(own[..i], p);
      ReadsNothing(own[n..], p);
    }
  }

  lemma {:induction false} ReadsNothing(items: seq<Item>, p: int)
    requires forall k | 0 <= k < |items| :: items[k].End() <= p || p < items[k].start
    ensures Read(items, p) == Zero
  {
    if items != [] { ReadsNothing(items[..|items|-1], p); }
  }

  lemma OneReads(it: Item, p: int)
    ensures Read([it], p) == CellOf(it, p)
  {
    assert [it][..0] == [];
  }

  lemma RunWithin(own: seq<Item>, i: nat, n: nat)
    requires i < n <= |own| && Sorted(own)
    ensures Within(own[i..n], own[i].start, own[n-1].End())
  {
  }

  lemma OutsideReads(items: seq<Item>, lo: int, hi: int, p: int)
    requires Within(items, lo, hi) && (p < lo || hi <= p)
    ensures Read(items, p) == Zero
  {
    ReadsNothing(items, p);
  }

  lemma CopyReads(value: Cell -> int, own: seq<Item>, copies: seq<Item>, size: nat, c: Item, p: nat)
    requires CopiesHold(value, own, copies, size) && c in copies && p < size
    ensures c.start <= p < c.End() ==> value(CellOf(c, p)) == value(Read(own, p))
  {
  }

  /** One stretch reads as it did. */
  lemma PieceReads(value: Cell -> int, own: seq<Item>, i: nat, n: nat, news: nat -> nat, copies: seq<Item>, size: nat, p: nat)
    requires i < n <= |own| && Sorted(own) && (n - i >= 2 ==> IsRun(own, i, n) && Merged(own, i, n, news) in copies)
    requires CopiesHold(value, own, copies, size) && p < size
    ensures value(Read(Piece(own, i, n, news), p)) == value(Read(own[i..n], p))
  {
    if n - i >= 2 {
      var m := Merged(own, i, n, news);
      assert m.start == own[i].start && m.End() == own[n-1].End();
      hide CopiesHold, IsRun, Sorted, Read, Within, Merged;
      OneReads(m, p);
      CopyReads(value, own, copies, size, m, p);
      RunWithin(own, i, n);
      if own[i].start <= p < own[n-1].End() {
        ReadPart(own, i, n, p);
      } else {
        OutsideReads(own[i..n], own[i].start, own[n-1].End(), p);
      }
    }
  }

  /** Only one of two neighbouring stretches reads anything at a byte. */
  lemma SidesRead(value: Cell -> int, a: seq<Item>, b: seq<Item>, c: seq<Item>, d: seq<Item>, at: nat, p: nat, hi: nat)
    requires Within(a, 0, at) && Within(c, 0, at) && Within(b, at, hi) && Within(d, at, hi)
    requires value(Read(a, p)) == value(Read(c, p)) && value(Read(b, p)) == value(Read(d, p))
    ensures value(Read(a + b, p)) == value(Read(c + d, p))
  {
    ReadJoin(a, b, p);
    ReadJoin(c, d, p);
    if p < at {
      ReadsNothing(b, p);
      ReadsNothing(d, p);
    } else {
      ReadsNothing(a, p);
      ReadsNothing(c, p);
    }
  }

  /** The file reads every byte it has as it did. */
  lemma {:induction false} RewriteReads(value: Cell -> int, own: seq<Item>, target: nat, i: nat, news: nat -> nat, copies: seq<Item>,
                                        size: nat, lo: nat, hi: nat, p: nat)
    requires i <= |own| && Sorted(own) && Within(own[i..], lo, hi) && lo <= hi && p < size
    requires CopiesHold(value, own, copies, size) && forall c | c in CopiesIn(own, target, i, news) :: c in copies
    ensures value(Read(Rewritten(own, target, i, news), p)) == value(Read(own[i..], p))
    decreases |own| - i
  {
    hide Piece, IsRun, NextFrom, Within, CopiesHold, Read, Merged;
    if i < |own| {
      var n := Next(own, target, i);
      StretchIsRun(own, target, i);
      SuffixSorted(own, i);
      SplitWithin(own, i, n, lo, hi);
      Rest(own, i, n);
      if n - i >= 2 { assert Merged(own, i, n, news) in CopiesIn(own, target, i, news); }
      RewriteReads(value, own, target, n, news, copies, size, own[n-1].End(), hi, p);
      PieceReads(value, own, i, n, news, copies, size, p);
      var at := own[n-1].End();
      SuffixSorted(own, n);
      SortedParts(own[i..n], own[n..]);
      hide Sorted;
      PieceSorted(own, i, n, news, lo);
      RewriteSorted(own, target, n, news, at, hi);
      WithinLower(Piece(own, i, n, news), lo, at);
      WithinLower(own[i..n], lo, at);
      SidesRead(value, Piece(own, i, n, news), Rewritten(own, target, n, news), own[i..n], own[n..], at, p, hi);
    } else {
      assert own[i..] == [];
    }
  }

  lemma SuffixSorted(own: seq<Item>, i: nat)
    requires Sorted(own) && i <= |own|
    ensures Sorted(own[i..])
  {
  }

  lemma WithinLower(items: seq<Item>, lo: nat, hi: nat)
    requires Within(items, lo, hi)
    ensures Within(items, 0, hi)
  {
  }

  // ------------------------------------------------------ references and items

  lemma Regroups(m: multiset<Owner>, s: multiset<Owner>, r: multiset<Owner>, v: multiset<Owner>, o: multiset<Owner>, c: multiset<Owner>)
    requires r + v == o + c
    ensures (m + r) + (s + v) == (s + o) + (m + c)
    ensures (s + r) + (multiset{} + v) == (s + o) + (multiset{} + c)
  {
    assert (m + r) + (s + v) == (m + s) + (r + v);
    assert (s + o) + (m + c) == (m + s) + (o + c);
    assert (s + r) + (multiset{} + v) == s + (r + v);
    assert (s + o) + (multiset{} + c) == s + (o + c);
  }

  /** What the items name is what they named, less the moved items' references and
      with one for each copy. */
  lemma {:induction false} RewriteNames(ino: nat, own: seq<Item>, target: nat, i: nat, news: nat -> nat, b: nat)
    requires i <= |own|
    ensures Naming(ino, Rewritten(own, target, i, news), b) + Naming(ino, MovedIn(own, target, i), b)
         == Naming(ino, own[i..], b) + Naming(ino, CopiesIn(own, target, i, news), b)
    decreases |own| - i
  {
    hide Naming, NextFrom, Merged;
    NoneNamed(ino, b);
    if i < |own| {
      var n := Next(own, target, i);
      RewriteNames(ino, own, target, n, news, b);
      Rest(own, i, n);
      NamingJoin(ino, own[i..n], own[n..], b);
      NamingJoin(ino, Piece(own, i, n, news), Rewritten(own, target, n, news), b);
      NamingJoin(ino, if n - i >= 2 then own[i..n] else [], MovedIn(own, target, n), b);
      NamingJoin(ino, if n - i >= 2 then [Merged(own, i, n, news)] else [], CopiesIn(own, target, n, news), b);
      Regroups(Naming(ino, [Merged(own, i, n, news)], b), Naming(ino, own[i..n], b), Naming(ino, Rewritten(own, target, n, news), b),
               Naming(ino, MovedIn(own, target, n), b), Naming(ino, own[n..], b), Naming(ino, CopiesIn(own, target, n, news), b));
    } else {
      assert own[i..] == [];
    }
  }

  /** How many items the rewrite takes away: all but one of each run. */
  function Saved(found: seq<Run>): nat
    requires forall r | r in found :: r.begin < r.end
  {
    if found == [] then 0 else found[0].end - found[0].begin - 1 + Saved(found[1..])
  }

  lemma {:induction false} RunsOrdered(items: seq<RunItem>, target: nat, i: nat)
    requires i <= |items|
    ensures forall r | r in RunsFrom(items, target, i) :: r.begin < r.end <= |items|
    decreases |items| - i
  {
    if i < |items| { RunsOrdered(items, target, NextFrom(items, target, i)); }
  }

  /** The reported item count is the count there is. */
  lemma {:induction false} ReportExact(own: seq<Item>, target: nat, i: nat, news: nat -> nat)
    requires i <= |own|
    ensures (forall r | r in RunsFrom(Seen(own), target, i) :: r.begin < r.end)
      && |Rewritten(own, target, i, news)| == |own| - i - Saved(RunsFrom(Seen(own), target, i))
    decreases |own| - i
  {
    RunsOrdered(Seen(own), target, i);
    if i < |own| {
      var n := Next(own, target, i);
      ReportExact(own, target, n, news);
      if n - i >= 2 {
        var found := RunsFrom(Seen(own), target, i);
        assert found[0] == Run(i, n) && found[1..] == RunsFrom(Seen(own), target, n);
      } else {
        assert n == i + 1 by { AloneIsOne(Seen(own), target, i); }
        assert [] + RunsFrom(Seen(own), target, n) == RunsFrom(Seen(own), target, n);
      }
    }
  }

  lemma AloneIsOne(items: seq<RunItem>, target: nat, i: nat)
    requires i < |items| && NextFrom(items, target, i) - i < 2
    ensures NextFrom(items, target, i) == i + 1
  {
  }

  lemma {:induction false} MovedAreOwn(own: seq<Item>, target: nat, i: nat)
    requires i <= |own|
    ensures forall x | x in MovedIn(own, target, i) :: x in own && Movable(own, x)
    decreases |own| - i
  {
    hide Movable;
    if i < |own| {
      var n := Next(own, target, i);
      MovedAreOwn(own, target, n);
      StretchIsRun(own, target, i);
    }
  }

  /** No extent is named by two of the moved items. */
  lemma {:induction false} MovedOnce(ino: nat, own: seq<Item>, target: nat, b: nat)
    ensures |Naming(ino, MovedIn(own, target, 0), b)| <= 1
  {
    var moved := MovedIn(own, target, 0);
    MovedAmong(ino, own, target, 0, b);
    assert own[0..] == own;
    MovedAreOwn(own, target, 0);
    NamingSize(ino, 0, own, b);
    if Naming(ino, moved, b) != multiset{} {
      SomeNames(ino, moved, b);
      var x :| x in moved && x.Names(b);
      assert Movable(own, x);
    }
  }

  lemma {:induction false} SomeNames(ino: nat, items: seq<Item>, b: nat)
    requires Naming(ino, items, b) != multiset{}
    ensures exists x :: x in items && x.Names(b)
  {
    var last := items[|items|-1];
    if last.Names(b) {
      assert last in items;
    } else {
      SomeNames(ino, items[..|items|-1], b);
    }
  }

  lemma {:induction false} MovedAmong(ino: nat, own: seq<Item>, target: nat, i: nat, b: nat)
    requires i <= |own|
    ensures Naming(ino, MovedIn(own, target, i), b) <= Naming(ino, own[i..], b)
    ensures |Naming(ino, MovedIn(own, target, i), b)| <= |Naming(ino, own[i..], b)|
    decreases |own| - i
  {
    hide Naming, NextFrom;
    NoneNamed(ino, b);
    if i < |own| {
      var n := Next(own, target, i);
      MovedAmong(ino, own, target, n, b);
      Rest(own, i, n);
      NamingJoin(ino, own[i..n], own[n..], b);
      NamingJoin(ino, if n - i >= 2 then own[i..n] else [], MovedIn(own, target, n), b);
    }
    SizeOfPart(Naming(ino, MovedIn(own, target, i), b), Naming(ino, own[i..], b));
  }

  // ---------------------------------------------------------- the change itself

  /** Of the items so far, each reference to `b` listed where its extent's count says. */
  ghost predicate DroppedAt(ino: nat, items: seq<Item>, extents: ExtentTree, releases: seq<DataRef>, unrefs: seq<DataRef>, b: nat) {
    var alone := |Held(extents, b)| == 1;
    && RefsTo(ino, releases, b) == (if alone then Naming(ino, items, b) else multiset{})
    && RefsTo(ino, unrefs, b) == (if alone then multiset{} else Naming(ino, items, b))
  }

  ghost predicate DroppedSoFar(ino: nat, items: seq<Item>, extents: ExtentTree, releases: seq<DataRef>, unrefs: seq<DataRef>) {
    forall b: nat | b != 0 :: DroppedAt(ino, items, extents, releases, unrefs, b)
  }

  lemma DropNextAt(ino: nat, items: seq<Item>, it: Item, extents: ExtentTree, releases: seq<DataRef>, unrefs: seq<DataRef>, x: DataRef, b: nat)
    requires it.kind == Regular && it.bytenr != 0 && it.bytenr in extents && b != 0
    requires x.at == it.bytenr && x.offset == it.RefOffset() && DroppedAt(ino, items, extents, releases, unrefs, b)
    ensures var alone := |extents[x.at].held| == 1;
      DroppedAt(ino, items + [it], extents, if alone then releases + [x] else releases, if alone then unrefs else unrefs + [x], b)
  {
    NamingJoin(ino, items, [it], b);
    OneNaming(ino, it, b);
    RefsJoin(ino, releases, [x], b);
    RefsJoin(ino, unrefs, [x], b);
    RefsOne(ino, x, b);
    hide Naming, RefsTo;
  }

  lemma DropNext(ino: nat, items: seq<Item>, it: Item, extents: ExtentTree, releases: seq<DataRef>, unrefs: seq<DataRef>, x: DataRef)
    requires it.kind == Regular && it.bytenr != 0 && it.bytenr in extents
    requires x.at == it.bytenr && x.offset == it.RefOffset() && DroppedSoFar(ino, items, extents, releases, unrefs)
    ensures |extents[x.at].held| == 1 ==> DroppedSoFar(ino, items + [it], extents, releases + [x], unrefs)
    ensures |extents[x.at].held| != 1 ==> DroppedSoFar(ino, items + [it], extents, releases, unrefs + [x])
  {
    var alone := |extents[x.at].held| == 1;
    var r, u := if alone then releases + [x] else releases, if alone then unrefs else unrefs + [x];
    forall b: nat | b != 0 ensures DroppedAt(ino, items + [it], extents, r, u, b) {
      DropNextAt(ino, items, it, extents, releases, unrefs, x, b);
    }
  }

  lemma NothingDropped(ino: nat, extents: ExtentTree)
    ensures DroppedSoFar(ino, [], extents, [], [])
  {
  }

  lemma AllDroppedOnce(ino: nat, moved: seq<Item>, extents: ExtentTree, releases: seq<DataRef>, unrefs: seq<DataRef>)
    requires DroppedSoFar(ino, moved, extents, releases, unrefs) && forall b: nat :: |Naming(ino, moved, b)| <= 1
    ensures forall b: nat | b != 0 :: SettledAt(ino, moved, extents, releases, unrefs, b)
  {
    hide Naming, RefsTo;
    forall b: nat | b != 0 ensures SettledAt(ino, moved, extents, releases, unrefs, b) {
      assert DroppedAt(ino, moved, extents, releases, unrefs, b);
    }
  }

  /** What giving up the runs' items does: each one's reference is dropped, and its
      extent released when that was the only one. */
  method GiveUp(ino: nat, moved: seq<Item>, extents: ExtentTree) returns (releases: seq<DataRef>, unrefs: seq<DataRef>)
    requires forall x | x in moved :: x.kind == Regular && x.bytenr != 0 && x.bytenr in extents
    requires forall b: nat :: |Naming(ino, moved, b)| <= 1
    ensures Settled(ino, moved, extents, releases, unrefs)
  {
    releases, unrefs := [], [];
    assert moved[..0] == [] && moved[..|moved|] == moved;
    NothingDropped(ino, extents);
    hide Naming, DroppedSoFar;
    for i := 0 to |moved|
      invariant DroppedSoFar(ino, moved[..i], extents, releases, unrefs)
      invariant Recorded(releases, extents) && Recorded(unrefs, extents)
    {
      var it := moved[i];
      assert it in moved && moved[..i+1] == moved[..i] + [it];
      var x := DataRef(it.bytenr, extents[it.bytenr].len, it.RefOffset());
      DropNext(ino, moved[..i], it, extents, releases, unrefs, x);
      if |extents[it.bytenr].held| == 1 { releases := releases + [x]; } else { unrefs := unrefs + [x]; }
    }
    AllDroppedOnce(ino, moved, extents, releases, unrefs);
  }

  lemma DefragExchanges(ino: nat, own: seq<Item>, target: nat, news: nat -> nat)
    ensures Exchanged(ino, own, MovedIn(own, target, 0), Rewritten(own, target, 0, news), CopiesIn(own, target, 0, news))
  {
    assert own[0..] == own;
    hide Naming, MovedIn, Rewritten, CopiesIn;
    forall b: nat | b != 0
      ensures ExchangedAt(ino, own, MovedIn(own, target, 0), Rewritten(own, target, 0, news), CopiesIn(own, target, 0, news), b)
    {
      RewriteNames(ino, own, target, 0, news, b);
      MovedAmong(ino, own, target, 0, b);
    }
  }

  /** After a defragment the extent tree agrees with every file's items again. */
  lemma DefragAccounted(ino: nat, own: seq<Item>, target: nat, news: nat -> nat, files: Files, extents: ExtentTree,
                        releases: seq<DataRef>, unrefs: seq<DataRef>)
    requires Accounted(extents, files) && ino in files && files[ino] == own
    requires Settled(ino, MovedIn(own, target, 0), extents, releases, unrefs)
    requires FreshCopies(CopiesIn(own, target, 0, news), extents)
    ensures Accounted(AfterCopies(ino, extents, releases, unrefs, CopiesIn(own, target, 0, news)),
                      files[ino := Rewritten(own, target, 0, news)])
  {
    DefragExchanges(ino, own, target, news);
    hide Accounted, Settled, Exchanged, FreshCopies;
    ReplacedAccounted(ino, own, MovedIn(own, target, 0), Rewritten(own, target, 0, news), CopiesIn(own, target, 0, news), files, extents, releases, unrefs);
  }

  /** The commit refuses none of it: what is released is held alone, and what is
      dropped is one of several. */
  lemma DefragFits(ino: nat, own: seq<Item>, target: nat, files: Files, extents: ExtentTree, releases: seq<DataRef>, unrefs: seq<DataRef>)
    requires Accounted(extents, files) && ino in files && files[ino] == own
    requires Settled(ino, MovedIn(own, target, 0), extents, releases, unrefs)
    ensures RefsFit(ino, extents, releases, unrefs, [])
  {
    assert own[0..] == own;
    hide Accounted, Settled, RefsFit, Naming, MovedIn;
    forall b: nat | b != 0 ensures Naming(ino, MovedIn(own, target, 0), b) <= Naming(ino, own, b) { MovedAmong(ino, own, target, 0, b); }
    ReplacedFits(ino, own, MovedIn(own, target, 0), files, extents, releases, unrefs);
  }

  // -------------------------------------------------- the edits come to the rewrite

  /** A run's edits: its first item's key takes the copy, the others go. */
  function RunEdits(own: seq<Item>, i: nat, n: nat, news: nat -> nat): map<nat, Edit<Item>>
    requires i < n <= |own|
  {
    if n - i >= 2 then Deletes(own[i+1..n])[own[i].start := Put(Merged(own, i, n, news))] else map[]
  }

  function AllRunEdits(own: seq<Item>, target: nat, i: nat, news: nat -> nat): map<nat, Edit<Item>>
    requires i <= |own|
    decreases |own| - i
  {
    if i == |own| then map[] else
      var n := Next(own, target, i);
      RunEdits(own, i, n, news) + AllRunEdits(own, target, n, news)
  }

  lemma {:induction false} DeletesKeys(items: seq<Item>, k: nat)
    ensures k in Deletes(items) <==> exists i :: 0 <= i < |items| && items[i].start == k
    ensures k in Deletes(items) ==> Deletes(items)[k] == Delete
  {
    if items != [] {
      var init := items[..|items|-1];
      DeletesKeys(init, k);
      if j: nat :| j < |init| && init[j].start == k { assert items[j].start == k; }
      if items[|items|-1].start == k { assert exists i :: 0 <= i < |items| && items[i].start == k; }
    }
  }

  lemma {:induction false} AsMapFrom(items: seq<Item>, k: nat)
    ensures k in AsMap(items) ==> exists i :: 0 <= i < |items| && items[i].start == k
  {
    if items != [] {
      var init := items[..|items|-1];
      AsMapFrom(init, k);
      if j: nat :| j < |init| && init[j].start == k { assert items[j].start == k; }
      if items[|items|-1].start == k { assert exists i :: 0 <= i < |items| && items[i].start == k; }
    }
  }

  /** One stretch, edited, is what it becomes. */
  lemma PieceByEdits(own: seq<Item>, i: nat, n: nat, news: nat -> nat)
    requires i < n <= |own|
    ensures Edited(AsMap(own[i..n]), RunEdits(own, i, n, news)) == AsMap(Piece(own, i, n, news))
    ensures forall k | k in RunEdits(own, i, n, news) :: exists j :: i <= j < n && own[j].start == k
  {
    if n - i >= 2 {
      var m := Merged(own, i, n, news);
      OneAsMap(m);
      var run, rest := own[i..n], own[i+1..n];
      forall k: nat ensures k in AsMap(run) ==> k == own[i].start || k in Deletes(rest) {
        AsMapFrom(run, k);
        DeletesKeys(rest, k);
        if j: nat :| j < |run| && run[j].start == k { assert j > 0 ==> rest[j-1].start == k; }
      }
      forall k: nat ensures k in Deletes(rest) ==> Deletes(rest)[k] == Delete && exists j :: i <= j < n && own[j].start == k {
        DeletesKeys(rest, k);
        if j: nat :| j < |rest| && rest[j].start == k { assert own[i+1+j].start == k; }
      }
    } else {
      EditedByNone(AsMap(own[i..n]));
    }
  }

  /** Applied by key, the edits leave the rewritten items. */
  lemma {:induction false} EditsLeaveRewrite(own: seq<Item>, target: nat, i: nat, news: nat -> nat)
    requires i <= |own| && Sorted(own)
    ensures Edited(AsMap(own[i..]), AllRunEdits(own, target, i, news)) == AsMap(Rewritten(own, target, i, news))
    ensures forall k | k in AllRunEdits(own, target, i, news) :: exists j :: i <= j < |own| && own[j].start == k
    decreases |own| - i
  {
    hide Edited, AsMap, RunEdits, Piece, Sorted, NextFrom;
    if i < |own| {
      var n := Next(own, target, i);
      EditsLeaveRewrite(own, target, n, news);
      PieceByEdits(own, i, n, news);
      Rest(own, i, n);
      AsMapJoin(own[i..n], own[n..]);
      AsMapJoin(Piece(own, i, n, news), Rewritten(own, target, n, news));
      KeysApart(own, i, n, RunEdits(own, i, n, news), AllRunEdits(own, target, n, news));
      EditedApart(AsMap(own[i..n]), RunEdits(own, i, n, news), AsMap(own[n..]), AllRunEdits(own, target, n, news));
    } else {
      assert own[i..] == [];
      NoneAsMap();
      EditedByNone<Item>(map[]);
    }
  }

  lemma KeysApart(own: seq<Item>, i: nat, n: nat, e: map<nat, Edit<Item>>, f: map<nat, Edit<Item>>)
    requires i < n <= |own| && Sorted(own)
    requires forall k | k in e :: exists j :: i <= j < n && own[j].start == k
    requires forall k | k in f :: exists j :: n <= j < |own| && own[j].start == k
    ensures (AsMap(own[i..n]).Keys + e.Keys) !! (AsMap(own[n..]).Keys + f.Keys)
  {
    forall k | k in AsMap(own[i..n]).Keys + e.Keys ensures k < own[n-1].End() {
      AsMapFrom(own[i..n], k);
      if k in AsMap(own[i..n]) {
        var j :| 0 <= j < |own[i..n]| && own[i..n][j].start == k;
        assert own[i+j].start == k;
      }
      var j :| i <= j < n && own[j].start == k;
    }
    forall k | k in AsMap(own[n..]).Keys + f.Keys ensures own[n-1].End() <= k {
      AsMapFrom(own[n..], k);
      if k in AsMap(own[n..]) {
        var j :| 0 <= j < |own[n..]| && own[n..][j].start == k;
        assert own[n+j].start == k;
      }
      var j :| n <= j < |own| && own[j].start == k;
    }
  }
}
