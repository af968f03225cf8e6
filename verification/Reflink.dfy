/** The file system's clone and dedupe calls (src/clone.rs): the range rules, the
    planning loops, and the one change they commit. */
module Reflink {
  import opened Base
  import opened FileItems
  import opened Keyed
  import opened Cut
  import opened Clones
  import opened Extents
  import opened Clone

  /** `len` bytes of file, and `span` bytes of items: `len` up to whole sectors. */
  datatype Span = Span(len: Pos, span: Pos)

  predicate RangesMeet(src: nat, from: nat, dst: nat, to: nat, span: nat) {
    src == dst && from < to + span && to < from + span
  }

  /** The kernel's rules for a clone's range; `Ok(None)` when it is empty. */
  function CloneSpan(sector: Pos, src: nat, size: nat, from: nat, dst: nat, targetSize: nat, to: nat, wanted: nat)
    : Result<Option<Span>, CloneError>
  {
    if from > size then Err(BadRange) else
      var len := if wanted == 0 then size - from else wanted;
      if from + len > size then Err(BadRange)
      else if from % sector != 0 || to % sector != 0 then Err(BadRange)
      else if len % sector != 0 && from + len != size then Err(BadRange)
      else if len == 0 then Ok(None)
      else
        var span := AlignUp(from + len, sector) - from;
        if to + span >= U64_SPAN then Err(BadRange)
        else if len % sector != 0 && to + len < targetSize then Err(BadRange)
        else if RangesMeet(src, from, dst, to, span) then Err(Overlaps)
        else Ok(Some(Span(len, span)))
  }

  /** The kernel's rules for a dedupe: inside both files, and whole sectors unless
      both ranges run to their files' ends. */
  function DedupeSpan(sector: Pos, src: nat, size: nat, from: nat, dst: nat, targetSize: nat, to: nat, len: nat)
    : Result<Option<Span>, CloneError>
  {
    if len == 0 then Ok(None)
    else if from >= size || from + len > size || to >= targetSize || to + len > targetSize then Err(BadRange)
    else if from % sector != 0 || to % sector != 0 then Err(BadRange)
    else
      var toEnds := from + len == size && to + len == targetSize;
      var cut := if toEnds then len else len - len % sector;
      var span := if toEnds then AlignUp(size, sector) - from else cut;
      if cut == 0 then Ok(None)
      else if RangesMeet(src, from, dst, to, span) then Err(Overlaps)
      else Ok(Some(Span(cut, span)))
  }

  /** What both sets of rules come to. */
  ghost predicate SpanFits(sector: Pos, src: nat, size: nat, from: nat, dst: nat, targetSize: nat, to: nat, s: Span) {
    && from % sector == 0 && to % sector == 0
    && from + s.len <= size
    && s.span == AlignUp(s.len, sector)
    && (s.len == s.span || to + s.len >= targetSize)
    && (s.len == s.span || from + s.len == size)
    && !RangesMeet(src, from, dst, to, s.span)
  }

  lemma AlignUpFrom(from: nat, len: nat, sector: Pos)
    requires from % sector == 0
    ensures AlignUp(from + len, sector) == from + AlignUp(len, sector)
  {
    ModSum(from, AlignUp(len, sector), sector);
    AlignUpLeast(from + len, sector, from + AlignUp(len, sector));
    ModSum(AlignUp(from + len, sector), from, sector);
    AlignUpLeast(len, sector, AlignUp(from + len, sector) - from);
  }

  lemma WholeIsAligned(len: nat, sector: Pos)
    ensures len % sector == 0 <==> AlignUp(len, sector) == len
  {
  }

  lemma CloneSpanFits(sector: Pos, src: nat, size: nat, from: nat, dst: nat, targetSize: nat, to: nat, wanted: nat)
    ensures var r := CloneSpan(sector, src, size, from, dst, targetSize, to, wanted);
      && (r.Ok? && r.value.Some? ==>
           && SpanFits(sector, src, size, from, dst, targetSize, to, r.value.value)
           && to + r.value.value.span < U64_SPAN
           && r.value.value.len == if wanted == 0 then size - from else wanted)
  {
    hide AlignUp;
    var len := if wanted == 0 then size - from else wanted;
    if 0 < len && from % sector == 0 {
      AlignUpFrom(from, len, sector);
      WholeIsAligned(len, sector);
    }
  }

  lemma DedupeSpanFits(sector: Pos, src: nat, size: nat, from: nat, dst: nat, targetSize: nat, to: nat, len: nat)
    ensures var r := DedupeSpan(sector, src, size, from, dst, targetSize, to, len);
      && (r.Ok? && r.value.Some? ==>
           && SpanFits(sector, src, size, from, dst, targetSize, to, r.value.value)
           && to + r.value.value.len <= targetSize
           && r.value.value.len <= len < r.value.value.len + sector)
  {
    hide AlignUp;
    if from % sector == 0 {
      AlignUpFrom(from, len, sector);
      WholeIsAligned(len - len % sector, sector);
      WholePart(len, sector);
      WholeIsAligned(len, sector);
    }
  }

  lemma WholePart(len: nat, sector: Pos)
    ensures len % sector <= len && (len - len % sector) % sector == 0
  {
    ModOfMultiple(len / sector, sector);
    assert len - len % sector == len / sector * sector;
  }

  // ----------------------------------------------------------- counting bytes

  lemma CountFirst(m: map<nat, Item>, k: nat)
    requires k in m && forall j | j in m :: k <= j
    ensures Counted(InOrder(m)) == BytesOf(m[k]) + Counted(InOrder(m - {k}))
    ensures |m - {k}| < |m|
  {
    LeastFirst(m, k);
    CountedJoin([m[k]], InOrder(m - {k}));
    assert [m[k]][..0] == [];
    assert (m - {k}).Keys == m.Keys - {k};
  }

  lemma CountsNone() ensures Counted(InOrder(map[])) == 0 {}

  /** The inode's `nbytes` once the edits apply: each in key order, then every item
      left, with the sum checked as it grows. */
  method CountedBytes(items: seq<Item>, edits: map<nat, Edit<Item>>) returns (r: Result<nat, CloneError>)
    ensures var total := Counted(InOrder(Edited(AsMap(items), edits)));
      r == if total < U64_SPAN then Ok(total) else Err(CountOverflows)
  {
    hide Edited, InOrder, AsMap, Counted;
    var after, todo := AsMap(items), edits;
    while todo != map[]
      invariant Edited(after, todo) == Edited(AsMap(items), edits)
      decreases |todo|
    {
      var k := Least(todo.Keys);
      EditOne(after, todo, k);
      after := if todo[k].Put? then after[k := todo[k].item] else after - {k};
      todo := todo - {k};
    }
    EditedByNone(after);
    CountsNone();
    ghost var all := after;
    var total := 0;
    while after != map[]
      invariant total < U64_SPAN
      invariant total + Counted(InOrder(after)) == Counted(InOrder(all))
      decreases |after|
    {
      var k := Least(after.Keys);
      CountFirst(after, k);
      total := total + BytesOf(after[k]);
      if total >= U64_SPAN { return Err(CountOverflows); }
      after := after - {k};
    }
    return Ok(total);
  }

  // ------------------------------------------------------------- the file system

  datatype File = File(size: nat, nbytes: nat, items: map<nat, Item>) {
    function Items(): seq<Item> { InOrder(items) }

    /** The file's contents: nothing past its size. */
    function Contents(p: nat): Option<Cell> { if p < size then Some(Read(Items(), p)) else None }
  }

  function ItemsOf(files: map<nat, File>): Files { map ino | ino in files :: files[ino].Items() }

  ghost predicate EndsHere(items: seq<Item>, end: nat) { forall p: int | end <= p :: Read(items, p) == Zero }

  /** Items in key order, over bytes a file can have; windows inside their extents;
      inline data in the first sector only; nothing readable past the last sector. */
  ghost predicate ItemsFit(items: seq<Item>, size: nat, sector: Pos, extents: ExtentTree) {
    && Sorted(items) && Within(items, 0, U64_SPAN - 1)
    && AllHoused(items, extents)
    && InlineBelow(items, sector)
    && EndsHere(items, AlignUp(size, sector))
  }

  ghost predicate FileFits(f: File, sector: Pos, extents: ExtentTree) {
    && f.items == AsMap(f.Items())
    && f.nbytes == Counted(f.Items())
    && ItemsFit(f.Items(), f.size, sector, extents)
  }

  ghost predicate AllFit(files: map<nat, File>, sector: Pos, extents: ExtentTree) {
    && (forall ino | ino in files :: FileFits(files[ino], sector, extents))
    && Accounted(extents, ItemsOf(files))
  }

  /** What a clone refuses, beyond its range: inline data on either side, growing a
      file that ends inside a sector, encoded items, and references kept as items. */
  ghost predicate RemapTakes(own: seq<Item>, source: seq<Item>, size: nat, newSize: nat, sector: Pos, r: Range, extents: ExtentTree) {
    && NoInline(own)
    && (newSize > size && size % sector != 0 ==> own == [])
    && (forall s | s in CutOf(own, r.to, r.ToEnd()).splits :: s.0 in extents && !extents[s.0].keyed)
    && (forall i | 0 <= i < |source| :: Takes(source[i], r, extents))
  }

  /** The edits of a remap's own items, as its loops put them in. */
  function RemapEdits(own: seq<Item>, source: seq<Item>, r: Range): map<nat, Edit<Item>> {
    AllEdits(CutOf(own, r.to, r.ToEnd())) + Puts(ClonesOf(source, r))
  }

  function SplitShares(splits: seq<(nat, nat)>, extents: ExtentTree): seq<DataRef>
    requires forall s | s in splits :: s.0 in extents
  {
    if splits == [] then [] else
      var s := splits[|splits|-1];
      assert s in splits;
      SplitShares(splits[..|splits|-1], extents) + [DataRef(s.0, extents[s.0].len, s.1)]
  }

  method EditsByKey(cut: CutItems) returns (edits: map<nat, Edit<Item>>)
    ensures edits == AllEdits(cut)
  {
    edits := map[];
    for i := 0 to |cut.edits|
      invariant edits == ByKey(cut.edits[..i])
    {
      assert cut.edits[..i+1][..i] == cut.edits[..i];
      edits := edits[cut.edits[i].key := cut.edits[i].edit];
    }
    assert cut.edits[..|cut.edits|] == cut.edits;
    for i := 0 to |cut.covered|
      invariant edits == ByKey(cut.edits) + Deletes(cut.covered[..i])
    {
      assert cut.covered[..i+1][..i] == cut.covered[..i];
      edits := edits[cut.covered[i].start := Delete];
    }
    assert cut.covered[..|cut.covered|] == cut.covered;
  }

  ghost predicate SplitsOpen(splits: seq<(nat, nat)>, extents: ExtentTree) {
    forall s | s in splits :: s.0 in extents && !extents[s.0].keyed
  }

  /** A share for each split item, whose halves both name its extent. */
  method ShareSplits(ino: nat, splits: seq<(nat, nat)>, extents: ExtentTree) returns (r: Result<seq<DataRef>, CloneError>)
    ensures r.Ok? <==> SplitsOpen(splits, extents)
    ensures r.Ok? ==> forall b: nat :: RefsTo(ino, r.value, b) == SplitsNaming(ino, splits, b)
    ensures r.Ok? ==> forall x | x in r.value :: x.at in extents && x.len == extents[x.at].len && !extents[x.at].keyed
  {
    var shares: seq<DataRef> := [];
    for i := 0 to |splits|
      invariant SplitsOpen(splits[..i], extents)
      invariant forall b: nat :: RefsTo(ino, shares, b) == SplitsNaming(ino, splits[..i], b)
      invariant forall x | x in shares :: x.at in extents && x.len == extents[x.at].len && !extents[x.at].keyed
    {
      var s := splits[i];
      assert s in splits;
      assert splits[..i+1][..i] == splits[..i] && splits[..i+1] == splits[..i] + [s];
      if s.0 !in extents { return Err(NoRecord(s.0)); }
      if extents[s.0].keyed { return Err(KeyedReferences(s.0)); }
      var x := DataRef(s.0, extents[s.0].len, s.1);
      assert (shares + [x])[..|shares|] == shares;
      shares := shares + [x];
    }
    assert splits[..|splits|] == splits;
    return Ok(shares);
  }

  ghost predicate ClonesShared(ino: nat, clones: seq<Item>, shares: seq<DataRef>, extents: ExtentTree) {
    && (forall b: nat | b != 0 :: RefsTo(ino, shares, b) == Naming(ino, clones, b))
    && (forall x | x in shares :: x.at != 0 && x.at in extents && x.len == extents[x.at].len && !extents[x.at].keyed)
  }

  lemma ClonesNext(source: seq<Item>, i: nat, r: Range)
    requires i < |source|
    ensures ClonesOf(source[..i+1], r) == ClonesOf(source[..i], r) + CloneOf(source[i], r)
  {
    assert source[..i+1][..i] == source[..i];
  }

  lemma NothingCloned(ino: nat, r: Range, extents: ExtentTree)
    ensures ClonesShared(ino, ClonesOf([], r), [], extents) && Puts(ClonesOf([], r)) == map[]
  {
  }

  /** Each source item the range takes, put and shared; the first it cannot is refused. */
  method PutClones(ino: nat, source: seq<Item>, r: Range, extents: ExtentTree)
    returns (res: Result<(seq<DataRef>, map<nat, Edit<Item>>), CloneError>)
    ensures res.Ok? <==> forall i | 0 <= i < |source| :: Takes(source[i], r, extents)
    ensures res.Ok? ==> res.value.1 == Puts(ClonesOf(source, r)) && ClonesShared(ino, ClonesOf(source, r), res.value.0, extents)
  {
    var shares: seq<DataRef>, puts: map<nat, Edit<Item>> := [], map[];
    hide CloneOf, ClonesOf, Puts, ClonesShared, Takes;
    NothingCloned(ino, r, extents);
    assert source[..0] == [];
    for i := 0 to |source|
      invariant forall j | 0 <= j < i :: Takes(source[j], r, extents)
      invariant puts == Puts(ClonesOf(source[..i], r))
      invariant ClonesShared(ino, ClonesOf(source[..i], r), shares, extents)
    {
      var it := source[i];
      ClonesNext(source, i, r);
      var clone := CloneItem(it, r, extents);
      if clone.Err? { return Err(clone.error); }
      if clone.value.None? {
        assert ClonesOf(source[..i], r) + [] == ClonesOf(source[..i], r);
        continue;
      }
      var c := clone.value.value;
      CloneShares(ino, ClonesOf(source[..i], r), it, r, shares, extents);
      shares := shares + [DataRef(c.bytenr, extents[c.bytenr].len, c.RefOffset())];
      puts := puts[c.start := Put(c)];
    }
    assert source[..|source|] == source;
    return Ok((shares, puts));
  }

  lemma CloneShares(ino: nat, clones: seq<Item>, it: Item, r: Range, shares: seq<DataRef>, extents: ExtentTree)
    requires ClonesShared(ino, clones, shares, extents) && Takes(it, r, extents) && CloneOf(it, r) != []
    ensures var c := CloneOf(it, r)[0];
      && CloneOf(it, r) == [c] && c.bytenr in extents
      && ClonesShared(ino, clones + [c], shares + [DataRef(c.bytenr, extents[c.bytenr].len, c.RefOffset())], extents)
      && Puts(clones + [c]) == Puts(clones)[c.start := Put(c)]
  {
    var c := CloneOf(it, r)[0];
    var x := DataRef(c.bytenr, extents[c.bytenr].len, c.RefOffset());
    forall b: nat | b != 0 ensures RefsTo(ino, shares + [x], b) == Naming(ino, clones + [c], b) {
      RefsJoin(ino, shares, [x], b);
      RefsOne(ino, x, b);
      NamingJoin(ino, clones, [c], b);
      OneNaming(ino, c, b);
    }
    assert (clones + [c])[..|clones|] == clones;
  }

  // ------------------------------------------------------------ what is kept

  lemma {:induction false} CoveredAmong(items: seq<Item>, lo: nat, hi: nat)
    requires lo < hi
    ensures forall x | x in CutOf(items, lo, hi).covered :: x in items
  {
    if items != [] { CoveredAmong(items[..|items|-1], lo, hi); }
  }

  lemma CoveredHoused(own: seq<Item>, lo: nat, hi: nat, extents: ExtentTree)
    requires lo < hi && NoInline(own) && AllHoused(own, extents)
    ensures NoInline(CutOf(own, lo, hi).covered) && AllHoused(CutOf(own, lo, hi).covered, extents)
  {
    CoveredAmong(own, lo, hi);
    var covered := CutOf(own, lo, hi).covered;
    assert forall i | 0 <= i < |covered| :: covered[i] in own;
  }

  /** A part cut from an item stays in the item's window. */
  lemma PartHoused(it: Item, at: nat, extents: ExtentTree)
    requires Housed(it, extents)
    ensures AllHoused(FrontOf(it, at), extents) && AllHoused(BackOf(it, at), extents)
    ensures it.kind != Inline ==> NoInline(FrontOf(it, at)) && NoInline(BackOf(it, at))
  {
  }

  lemma {:induction false} SidesHoused(own: seq<Item>, at: nat, extents: ExtentTree)
    requires NoInline(own) && AllHoused(own, extents)
    ensures AllHoused(Before(own, at), extents) && AllHoused(After(own, at), extents)
    ensures NoInline(Before(own, at)) && NoInline(After(own, at))
  {
    hide FrontOf, BackOf, Housed;
    if own != [] {
      SidesHoused(own[..|own|-1], at, extents);
      PartHoused(own[|own|-1], at, extents);
    }
  }

  lemma CloneHoused(it: Item, r: Range, extents: ExtentTree)
    requires Takes(it, r, extents)
    ensures AllHoused(CloneOf(it, r), extents) && NoInline(CloneOf(it, r))
  {
  }

  lemma {:induction false} ClonesHoused(source: seq<Item>, r: Range, extents: ExtentTree)
    requires forall i | 0 <= i < |source| :: Takes(source[i], r, extents)
    ensures AllHoused(ClonesOf(source, r), extents) && NoInline(ClonesOf(source, r))
  {
    hide CloneOf, Takes, Housed;
    if source != [] {
      ClonesHoused(source[..|source|-1], r, extents);
      CloneHoused(source[|source|-1], r, extents);
    }
  }

  lemma {:induction false} NamerNamed(ino: nat, items: seq<Item>, x: Item, b: nat)
    requires x in items && x.Names(b)
    ensures Naming(ino, items, b) != multiset{}
  {
    if x in items[..|items|-1] {
      NamerNamed(ino, items[..|items|-1], x, b);
      assert Naming(ino, items[..|items|-1], b) <= Naming(ino, items, b);
    }
  }

  /** What an item names keeps its record, and the record its length. */
  lemma StillHoused(ino: nat, items: seq<Item>, extents: ExtentTree, after: ExtentTree, files: Files)
    requires AllHoused(items, extents) && ino in files && files[ino] == items
    requires Accounted(after, files)
    requires forall b | b in after :: b in extents && after[b].len == extents[b].len
    ensures AllHoused(items, after)
  {
    hide InExtent, Naming;
    forall x | x in items ensures Housed(x, after) {
      if x.kind != Inline && x.bytenr != 0 {
        var b := x.bytenr;
        assert AccountedAt(after, files, b);
        NamerNamed(ino, items, x, b);
        NamedIsHeld(after, files, ino, b);
        assert Held(after, b) != multiset{};
      }
    }
  }

  lemma LengthsKept(ino: nat, extents: ExtentTree, releases: seq<DataRef>, unrefs: seq<DataRef>, shares: seq<DataRef>)
    ensures var after := AfterRefs(ino, extents, releases, unrefs, shares);
      forall b | b in after :: b in extents && after[b].len == extents[b].len
  {
    forall b | b in AfterRefs(ino, extents, releases, unrefs, shares)
      ensures b in extents && AfterRefs(ino, extents, releases, unrefs, shares)[b].len == extents[b].len
    {
      HeldAfter(ino, extents, releases, unrefs, shares, b);
    }
  }

  lemma {:induction false} RemappedHoused(own: seq<Item>, source: seq<Item>, r: Range, at: nat, extents: ExtentTree)
    requires NoInline(own) && AllHoused(own, extents) && forall i | 0 <= i < |source| :: Takes(source[i], r, extents)
    ensures AllHoused(Remapped(own, source, r), extents) && InlineBelow(Remapped(own, source, r), at)
  {
    hide Takes, Housed;
    SidesHoused(own, r.to, extents);
    SidesHoused(own, r.ToEnd(), extents);
    ClonesHoused(source, r, extents);
    hide Before, After, ClonesOf;
  }

  /** The destination's new items are as well formed as its old ones. */
  lemma RemappedFits(own: seq<Item>, source: seq<Item>, size: nat, newSize: nat, sector: Pos, r: Range, len: nat, extents: ExtentTree)
    requires ItemsFit(own, size, sector, extents) && Sorted(source) && Within(source, 0, U64_SPAN - 1)
    requires RemapTakes(own, source, size, newSize, sector, r, extents) && r.ToEnd() < U64_SPAN
    requires InlineBelow(source, r.from)
    requires newSize >= size && AlignUp(newSize, sector) >= AlignUp(size, sector) && AlignUp(newSize, sector) >= r.ToEnd()
    ensures ItemsFit(Remapped(own, source, r), newSize, sector, extents)
  {
    hide Sorted, Within, Takes, Housed, AlignUp, InlineBelow, Read;
    RemappedSorted(own, source, r, U64_SPAN - 1);
    RemappedHoused(own, source, r, sector, extents);
    hide AllHoused, NoInline, Remapped;
    forall p: int | AlignUp(newSize, sector) <= p ensures Read(Remapped(own, source, r), p) == Zero {
      RemappedReads(own, source, r, p);
    }
  }

  ghost predicate AllListed(src: nat, dst: nat, r: Range, files: Files, extents: ExtentTree,
                            releases: seq<DataRef>, unrefs: seq<DataRef>, shares: seq<DataRef>)
    requires src in files && dst in files
  {
    && (forall b: nat | b != 0 :: Listed(src, dst, r, files, extents, releases, unrefs, shares, b))
    && Recorded(releases, extents) && Recorded(unrefs, extents) && Recorded(shares, extents)
    && (forall x | x in shares :: !extents[x.at].keyed)
  }

  lemma ListsTogether(src: nat, dst: nat, r: Range, files: Files, extents: ExtentTree, releases: seq<DataRef>,
                      unrefs: seq<DataRef>, splits: seq<DataRef>, clones: seq<DataRef>)
    requires Joinable(src, dst, r, files) && 0 !in extents
    requires Settled(dst, CutOf(files[dst], r.to, r.ToEnd()).covered, extents, releases, unrefs)
    requires forall b: nat :: RefsTo(dst, splits, b) == SplitsNaming(dst, CutOf(files[dst], r.to, r.ToEnd()).splits, b)
    requires forall x | x in splits :: x.at in extents && x.len == extents[x.at].len && !extents[x.at].keyed
    requires ClonesShared(dst, ClonesOf(files[src], r), clones, extents)
    ensures AllListed(src, dst, r, files, extents, releases, unrefs, splits + clones)
  {
    hide Naming, RefsTo, CutOf, ClonesOf, SplitsNaming, SettledAt;
    forall b: nat | b != 0 ensures Listed(src, dst, r, files, extents, releases, unrefs, splits + clones, b) {
      RefsJoin(dst, splits, clones, b);
    }
  }

  /** The lists fit the extent tree: the commit refuses none of them. */
  lemma ListsFit(src: nat, dst: nat, r: Range, files: Files, extents: ExtentTree,
                 releases: seq<DataRef>, unrefs: seq<DataRef>, shares: seq<DataRef>)
    requires Joinable(src, dst, r, files) && Accounted(extents, files)
    requires AllListed(src, dst, r, files, extents, releases, unrefs, shares)
    ensures RefsFit(dst, extents, releases, unrefs, shares)
  {
    hide Naming, RefsTo, CutOf, ClonesOf, SplitsNaming, SettledAt, AccountedAt, Listed, Joinable;
    forall b: nat | b != 0
      ensures RefsTo(dst, releases, b) != multiset{} ==>
        RefsTo(dst, releases, b) == Held(extents, b) && RefsTo(dst, unrefs, b) == RefsTo(dst, shares, b) == multiset{}
      ensures RefsTo(dst, releases, b) == multiset{} ==> UnrefsFitAt(Held(extents, b), RefsTo(dst, unrefs, b))
    {
      ClonesFitAt(src, dst, r, files, extents, releases, unrefs, shares, b);
    }
    var left := Released(dst, extents, releases);
    StillRecorded(dst, extents, releases, unrefs);
    StillRecorded(dst, extents, releases, shares);
  }

  lemma StillRecorded(ino: nat, extents: ExtentTree, releases: seq<DataRef>, refs: seq<DataRef>)
    requires Recorded(refs, extents)
    requires forall b: nat | b != 0 && RefsTo(ino, releases, b) != multiset{} :: RefsTo(ino, refs, b) == multiset{}
    ensures Recorded(refs, Released(ino, extents, releases))
  {
    forall i | 0 <= i < |refs| ensures refs[i].at in Released(ino, extents, releases) {
      assert refs[i] in refs;
      RefsNamed(ino, refs, i);
    }
  }

  lemma ListsAccounted(src: nat, dst: nat, r: Range, files: Files, extents: ExtentTree,
                       releases: seq<DataRef>, unrefs: seq<DataRef>, shares: seq<DataRef>)
    requires Joinable(src, dst, r, files) && Accounted(extents, files)
    requires AllListed(src, dst, r, files, extents, releases, unrefs, shares)
    ensures Accounted(AfterRefs(dst, extents, releases, unrefs, shares), files[dst := Remapped(files[dst], files[src], r)])
  {
    var after := AfterRefs(dst, extents, releases, unrefs, shares);
    var now := files[dst := Remapped(files[dst], files[src], r)];
    hide Listed, Joinable, AccountedAt, Remapped;
    forall b: nat | b != 0 ensures AccountedAt(after, now, b) {
      ClonesAccountedAt(src, dst, r, files, extents, releases, unrefs, shares, b);
    }
    LengthsKept(dst, extents, releases, unrefs, shares);
  }

  lemma ItemsStillFit(ino: nat, items: seq<Item>, size: nat, sector: Pos, extents: ExtentTree, after: ExtentTree, files: Files)
    requires ItemsFit(items, size, sector, extents) && ino in files && files[ino] == items && Accounted(after, files)
    requires forall b | b in after :: b in extents && after[b].len == extents[b].len
    ensures ItemsFit(items, size, sector, after)
  {
    hide Sorted, Within, AllHoused, InlineBelow, EndsHere, Accounted;
    StillHoused(ino, items, extents, after, files);
  }

  lemma FileStillFits(ino: nat, f: File, sector: Pos, extents: ExtentTree, after: ExtentTree, files: Files)
    requires FileFits(f, sector, extents) && ino in files && files[ino] == f.Items() && Accounted(after, files)
    requires forall b | b in after :: b in extents && after[b].len == extents[b].len
    ensures FileFits(f, sector, after)
  {
    hide ItemsFit, Accounted, InOrder;
    ItemsStillFit(ino, f.Items(), f.size, sector, extents, after, files);
  }

  lemma NewFileFits(now: seq<Item>, size: nat, sector: Pos, extents: ExtentTree)
    requires ItemsFit(now, size, sector, extents)
    ensures File(size, Counted(now), AsMap(now)).Items() == now
    ensures FileFits(File(size, Counted(now), AsMap(now)), sector, extents)
  {
    OrderRestored(now, U64_SPAN - 1);
    hide InOrder;
  }

  lemma ItemsOfPut(files: map<nat, File>, ino: nat, f: File)
    ensures ItemsOf(files[ino := f]) == ItemsOf(files)[ino := f.Items()]
  {
  }

  /** Every file after the change: the destination with its new items, the others as
      they were, and the extent tree still agreeing with all of them. */
  lemma AllStillFit(src: nat, dst: nat, r: Range, files: map<nat, File>, newSize: nat, sector: Pos, extents: ExtentTree,
                    releases: seq<DataRef>, unrefs: seq<DataRef>, shares: seq<DataRef>)
    requires AllFit(files, sector, extents) && Joinable(src, dst, r, ItemsOf(files))
    requires AllListed(src, dst, r, ItemsOf(files), extents, releases, unrefs, shares)
    requires ItemsFit(Remapped(files[dst].Items(), files[src].Items(), r), newSize, sector, extents)
    ensures var now := Remapped(files[dst].Items(), files[src].Items(), r);
      AllFit(files[dst := File(newSize, Counted(now), AsMap(now))], sector, AfterRefs(dst, extents, releases, unrefs, shares))
  {
    var now := Remapped(files[dst].Items(), files[src].Items(), r);
    var after := AfterRefs(dst, extents, releases, unrefs, shares);
    var file := File(newSize, Counted(now), AsMap(now));
    var files' := files[dst := file];
    ItemsOfPut(files, dst, file);
    hide AllListed, Remapped, ItemsFit, File.Items, AsMap, Counted, AfterRefs, FileFits, Accounted;
    ListsAccounted(src, dst, r, ItemsOf(files), extents, releases, unrefs, shares);
    LengthsKept(dst, extents, releases, unrefs, shares);
    NewFileFits(now, newSize, sector, extents);
    FileStillFits(dst, file, sector, extents, after, ItemsOf(files'));
    forall ino | ino in files' && ino != dst ensures FileFits(files'[ino], sector, after) {
      FileStillFits(ino, files[ino], sector, extents, after, ItemsOf(files'));
    }
  }

  /** The new contents: the source's bytes in the range, the destination's own outside
      it, and zeros where the file has grown past them. */
  ghost predicate Overlaid(was: File, source: File, now: File, from: nat, to: nat, len: nat) {
    && now.size == Max(was.size, to + len)
    && (forall p: nat | p < now.size :: OverlaidAt(was, source, now, from, to, len, p))
  }

  predicate OverlaidAt(was: File, source: File, now: File, from: nat, to: nat, len: nat, p: nat) {
    now.Contents(p) ==
      if to <= p < to + len then source.Contents(p - to + from)
      else if p < was.size then was.Contents(p) else Some(Zero)
  }

  lemma ZerosPastEnd(f: File, newSize: nat, sector: Pos, extents: ExtentTree, p: nat)
    requires FileFits(f, sector, extents) && f.size <= p < newSize
    requires f.size % sector != 0 ==> f.Items() == []
    ensures Read(f.Items(), p) == Zero
  {
    hide InOrder, Read;
    assert f.Items() == [] ==> Read([], p) == Zero by { NothingRead(p); }
  }

  lemma NothingRead(p: nat) ensures Read([], p) == Zero {}

  lemma SpanEdge(sector: Pos, src: nat, size: nat, from: nat, dst: nat, targetSize: nat, to: nat, s: Span)
    requires SpanFits(sector, src, size, from, dst, targetSize, to, s)
    ensures from + s.len <= size && s.len <= s.span && (s.len == s.span || to + s.len >= targetSize)
  {
  }

  /** One byte of the new contents. */
  lemma RemapByte(was: File, source: File, now: File, r: Range, len: nat, p: nat, sector: Pos, extents: ExtentTree)
    requires InlineBelow(source.Items(), r.from) && FileFits(was, sector, extents)
    requires now.Items() == Remapped(was.Items(), source.Items(), r)
    requires now.size == Max(was.size, r.to + len) && p < now.size
    requires r.from + len <= source.size && len <= r.span && (len == r.span || r.to + len >= was.size)
    requires now.size > was.size && was.size % sector != 0 ==> was.Items() == []
    ensures OverlaidAt(was, source, now, r.from, r.to, len, p)
  {
    hide FileFits, InlineBelow, File.Items, Remapped, Read;
    RemappedReads(was.Items(), source.Items(), r, p);
    if p >= was.size && !(r.to <= p < r.to + len) { ZerosPastEnd(was, now.size, sector, extents, p); }
  }

  lemma RemapOverlays(was: File, source: File, sector: Pos, from: nat, to: nat, s: Span, src: nat, dst: nat, extents: ExtentTree)
    requires SpanFits(sector, src, source.size, from, dst, was.size, to, s)
    requires FileFits(was, sector, extents) && FileFits(source, sector, extents)
    requires Max(was.size, to + s.len) > was.size && was.size % sector != 0 ==> was.Items() == []
    requires InlineBelow(source.Items(), from)
    requires ItemsFit(Remapped(was.Items(), source.Items(), Range(from, s.span, to)), Max(was.size, to + s.len), sector, extents)
    ensures Overlaid(was, source, RemappedFile(was, source, from, to, s), from, to, s.len)
  {
    var r := Range(from, s.span, to);
    var now := RemappedFile(was, source, from, to, s);
    NewFileFits(Remapped(was.Items(), source.Items(), r), now.size, sector, extents);
    SpanEdge(sector, src, source.size, from, dst, was.size, to, s);
    hide RemappedFile, FileFits, ItemsFit, InlineBelow, File.Items, OverlaidAt, Remapped, Counted, AsMap, SpanFits;
    forall p: nat | p < now.size ensures OverlaidAt(was, source, now, from, to, s.len, p) {
      RemapByte(was, source, now, r, s.len, p, sector, extents);
    }
  }

  lemma SourceInlineBelow(source: seq<Item>, r: Range, sector: Pos, extents: ExtentTree)
    requires InlineBelow(source, sector) && r.from % sector == 0
    requires forall i | 0 <= i < |source| :: Takes(source[i], r, extents)
    ensures InlineBelow(source, r.from)
  {
    assert r.from != 0 ==> r.from >= sector;
  }

  /** A cut of the destination's items and the drop of what it covers are never
      refused: the file's items fit. */
  lemma OwnCuts(f: File, lo: nat, hi: nat, sector: Pos, extents: ExtentTree)
    requires FileFits(f, sector, extents) && NoInline(f.Items()) && lo < hi
    ensures EndsFit(f.Items())
    ensures NoInline(CutOf(f.Items(), lo, hi).covered) && AllHoused(CutOf(f.Items(), lo, hi).covered, extents)
  {
    CoveredHoused(f.Items(), lo, hi, extents);
  }

  ghost predicate SpanOf(src: nat, dst: nat, from: nat, to: nat, s: Span, sector: Pos, files: map<nat, File>) {
    && src in files && dst in files
    && SpanFits(sector, src, files[src].size, from, dst, files[dst].size, to, s)
    && to + s.span < U64_SPAN
  }

  ghost predicate RemapOk(src: nat, dst: nat, from: nat, to: nat, s: Span, sector: Pos, files: map<nat, File>, extents: ExtentTree)
    requires src in files && dst in files
  {
    var was := files[dst];
    RemapTakes(was.Items(), files[src].Items(), was.size, Max(was.size, to + s.len), sector, Range(from, s.span, to), extents)
  }

  /** The destination as the change leaves it. */
  function RemappedFile(was: File, source: File, from: nat, to: nat, s: Span): File {
    var now := Remapped(was.Items(), source.Items(), Range(from, s.span, to));
    File(Max(was.size, to + s.len), Counted(now), AsMap(now))
  }

  lemma RemapJoinable(src: nat, dst: nat, from: nat, to: nat, s: Span, sector: Pos, files: map<nat, File>, extents: ExtentTree)
    requires AllFit(files, sector, extents) && SpanOf(src, dst, from, to, s, sector, files)
    requires RemapOk(src, dst, from, to, s, sector, files, extents)
    ensures Joinable(src, dst, Range(from, s.span, to), ItemsOf(files))
    ensures InlineBelow(files[src].Items(), from)
    ensures ItemsFit(Remapped(files[dst].Items(), files[src].Items(), Range(from, s.span, to)), Max(files[dst].size, to + s.len), sector, extents)
  {
    var was, source, r := files[dst], files[src], Range(from, s.span, to);
    var newSize := Max(was.size, to + s.len);
    hide Takes, AllHoused, Accounted, EndsHere, InOrder, AlignUp;
    SourceInlineBelow(source.Items(), r, sector, extents);
    AlignUpFrom(to, s.len, sector);
    AlignUpGrows(was.size, newSize, sector);
    AlignUpGrows(to + s.len, newSize, sector);
    RemappedFits(was.Items(), source.Items(), was.size, newSize, sector, r, s.len, extents);
  }

  /** The edits leave the remapped file, and its bytes can be counted. */
  lemma RemapCounts(was: File, source: File, from: nat, to: nat, s: Span, sector: Pos, extents: ExtentTree)
    requires FileFits(was, sector, extents) && FileFits(source, sector, extents) && to + s.span < U64_SPAN
    ensures var now := RemappedFile(was, source, from, to, s);
      && Edited(AsMap(was.Items()), RemapEdits(was.Items(), source.Items(), Range(from, s.span, to))) == now.items
      && Counted(InOrder(now.items)) == now.nbytes < U64_SPAN
  {
    hide Sorted, Within, Remapped, Edited, Puts, ClonesOf, AllEdits, CutOf, InOrder, AsMap, Counted, AllHoused, EndsHere;
    var r := Range(from, s.span, to);
    var now := Remapped(was.Items(), source.Items(), r);
    RemappedSorted(was.Items(), source.Items(), r, U64_SPAN - 1);
    RemappedByEdits(was.Items(), source.Items(), r, U64_SPAN - 1);
    OrderRestored(now, U64_SPAN - 1);
    CountedFits(now, 0, U64_SPAN - 1);
  }

  lemma FilesFit(files: map<nat, File>, sector: Pos, extents: ExtentTree)
    requires AllFit(files, sector, extents)
    ensures forall ino | ino in files :: FileFits(files[ino], sector, extents)
    ensures Accounted(extents, ItemsOf(files)) && 0 !in extents
    ensures forall ino | ino in files :: ino in ItemsOf(files) && ItemsOf(files)[ino] == files[ino].Items()
  {
  }

  function Failure<T>(r: Result<T, CloneError>): Option<CloneError> {
    match r case Err(e) => Some(e) case Ok(_) => None
  }

  /** With the planning done the commit cannot refuse, and it leaves the remapped file
      beside the others, the extent tree agreeing with all of them. */
  lemma RemapCommits(src: nat, dst: nat, from: nat, to: nat, s: Span, sector: Pos, files: map<nat, File>, extents: ExtentTree,
                     releases: seq<DataRef>, unrefs: seq<DataRef>, shares: seq<DataRef>)
    requires AllFit(files, sector, extents) && SpanOf(src, dst, from, to, s, sector, files)
    requires RemapOk(src, dst, from, to, s, sector, files, extents)
    requires src in ItemsOf(files) && dst in ItemsOf(files)
    requires AllListed(src, dst, Range(from, s.span, to), ItemsOf(files), extents, releases, unrefs, shares)
    ensures RefsFit(dst, extents, releases, unrefs, shares)
    ensures AllFit(files[dst := RemappedFile(files[dst], files[src], from, to, s)], sector,
                   AfterRefs(dst, extents, releases, unrefs, shares))
  {
    var r := Range(from, s.span, to);
    RemapJoinable(src, dst, from, to, s, sector, files, extents);
    FilesFit(files, sector, extents);
    hide *;
    ListsFit(src, dst, r, ItemsOf(files), extents, releases, unrefs, shares);
    AllStillFit(src, dst, r, files, Max(files[dst].size, to + s.len), sector, extents, releases, unrefs, shares);
    assert RemappedFile(files[dst], files[src], from, to, s)
        == File(Max(files[dst].size, to + s.len), Counted(Remapped(files[dst].Items(), files[src].Items(), r)),
                AsMap(Remapped(files[dst].Items(), files[src].Items(), r))) by { UnfoldRemapped(files[dst], files[src], from, to, s); }
  }

  lemma UnfoldRemapped(was: File, source: File, from: nat, to: nat, s: Span)
    ensures var now := Remapped(was.Items(), source.Items(), Range(from, s.span, to));
      RemappedFile(was, source, from, to, s) == File(Max(was.size, to + s.len), Counted(now), AsMap(now))
  {
  }

  lemma RemapReads(src: nat, dst: nat, from: nat, to: nat, s: Span, sector: Pos, files: map<nat, File>, extents: ExtentTree)
    requires AllFit(files, sector, extents) && SpanOf(src, dst, from, to, s, sector, files)
    requires RemapOk(src, dst, from, to, s, sector, files, extents)
    ensures Overlaid(files[dst], files[src], RemappedFile(files[dst], files[src], from, to, s), from, to, s.len)
  {
    FilesFit(files, sector, extents);
    RemapJoinable(src, dst, from, to, s, sector, files, extents);
    TakesWhen(files[dst].Items(), files[src].Items(), files[dst].size, Max(files[dst].size, to + s.len), sector,
              Range(from, s.span, to), extents);
    hide AllFit, ItemsOf, Accounted, Overlaid, ItemsFit, Joinable, SpanFits, RemapTakes, Remapped, File.Items, FileFits,
      CutOf, SplitsOpen, Takes, NoInline, InlineBelow, RemappedFile;
    RemapOverlays(files[dst], files[src], sector, from, to, s, src, dst, extents);
  }

  /** A remap plans before it writes: what stops the planning is exactly what the
      change refuses. */
  lemma TakesWhen(own: seq<Item>, source: seq<Item>, size: nat, newSize: nat, sector: Pos, r: Range, extents: ExtentTree)
    ensures RemapTakes(own, source, size, newSize, sector, r, extents) <==>
      && NoInline(own)
      && (newSize > size && size % sector != 0 ==> own == [])
      && SplitsOpen(CutOf(own, r.to, r.ToEnd()).splits, extents)
      && (forall i | 0 <= i < |source| :: Takes(source[i], r, extents))
  {
  }

  /** What a clone leaves: refused by its range's rules or by what it meets, and then
      nothing changed; else the destination overlaid and every other file as it was. */
  ghost predicate CloneOutcome(src: nat, from: nat, dst: nat, to: nat, wanted: nat, sector: Pos, was: map<nat, File>,
                               extents: ExtentTree, now: map<nat, File>, after: ExtentTree, failed: bool)
    requires src in was && dst in was
  {
    var span := CloneSpan(sector, src, was[src].size, from, dst, was[dst].size, to, wanted);
    if span.Err? then failed && now == was && after == extents
    else if span.value.None? then !failed && now == was && after == extents
    else RemapOutcome(src, from, dst, to, span.value.value, sector, was, extents, now, after, failed)
  }

  ghost predicate RemapOutcome(src: nat, from: nat, dst: nat, to: nat, s: Span, sector: Pos, was: map<nat, File>,
                               extents: ExtentTree, now: map<nat, File>, after: ExtentTree, failed: bool)
    requires src in was && dst in was
  {
    && (failed <==> !RemapOk(src, dst, from, to, s, sector, was, extents))
    && (failed ==> now == was && after == extents)
    && (!failed ==> dst in now && now == was[dst := now[dst]] && Overlaid(was[dst], was[src], now[dst], from, to, s.len))
  }

  /** What a dedupe leaves: no byte of any file changed, and the destination's range
      shared when the two held the same. */
  ghost predicate DedupeOutcome(value: Cell -> int, src: nat, from: nat, dst: nat, to: nat, len: nat, sector: Pos, was: map<nat, File>,
                                extents: ExtentTree, now: map<nat, File>, after: ExtentTree, r: Result<Option<nat>, CloneError>)
    requires src in was && dst in was
  {
    var span := DedupeSpan(sector, src, was[src].size, from, dst, was[dst].size, to, len);
    if span.Err? then r.Err? && now == was && after == extents
    else if span.value.None? then r == Ok(Some(len)) && now == was && after == extents
    else if !SameBytes(value, was[src], from, was[dst], to, span.value.value.len)
    then r == Ok(None) && now == was && after == extents
    else
      && (r.Ok? ==> r.value == Some(len))
      && RemapOutcome(src, from, dst, to, span.value.value, sector, was, extents, now, after, r.Err?)
      && (r.Ok? ==> now[dst].size == was[dst].size && SameBytes(value, was[dst], 0, now[dst], 0, now[dst].size))
  }

  class FileSystem {
    const sector: Pos
    var files: map<nat, File>
    var extents: ExtentTree

    ghost predicate Valid() reads this { AllFit(files, sector, extents) }

    method Remap(src: nat, dst: nat, from: nat, to: nat, s: Span) returns (failed: Option<CloneError>)
      requires Valid() && SpanOf(src, dst, from, to, s, sector, files)
      modifies this`files, this`extents
      ensures failed.None? <==> old(RemapOk(src, dst, from, to, s, sector, files, extents))
      ensures failed.Some? ==> unchanged(this)
      ensures failed.None? ==> Valid() && dst in files && files == old(files)[dst := files[dst]]
      ensures failed.None? ==> Overlaid(old(files[dst]), old(files[src]), files[dst], from, to, s.len)
    {
      hide AllFit, Accounted, FileFits, AllListed, Overlaid, RefsFit, Settled, ClonesShared, SplitsOpen, Takes,
        AfterRefs, Edited, AllEdits, CutOf, InOrder, AsMap, AllHoused, NoInline, RemapTakes, ClonesOf, Puts, Joinable,
        SpanFits, RefsTo, SplitsNaming, Counted, Remapped, EndsFit;
      FilesFit(files, sector, extents);
      var target := files[dst];
      var own, source := target.Items(), files[src].Items();
      var r := Range(from, s.span, to);
      var newSize := Max(target.size, to + s.len);
      TakesWhen(own, source, target.size, newSize, sector, r, extents);
      if !NoInline(own) { return Some(InlineDestination); }
      if newSize > target.size && target.size % sector != 0 && own != [] { return Some(PartialGrowth); }
      OwnCuts(target, to, to + s.span, sector, extents);
      var cut := CutRange(own, to, to + s.span);
      if cut.Err? { return Some(PastLargest); }
      var edits := EditsByKey(cut.value);
      var dropped := DropCovered(dst, cut.value.covered, extents);
      if dropped.Err? { return Failure(dropped); }
      var splits := ShareSplits(dst, cut.value.splits, extents);
      if splits.Err? { return Failure(splits); }
      var clones := PutClones(dst, source, r, extents);
      if clones.Err? { return Failure(clones); }
      edits := edits + clones.value.1;
      var nbytes := CountedBytes(own, edits);
      RemapCounts(target, files[src], from, to, s, sector, extents);
      if nbytes.Err? { return Failure(nbytes); }
      RemapJoinable(src, dst, from, to, s, sector, files, extents);
      var releases, unrefs, shares := dropped.value.0, dropped.value.1, splits.value + clones.value.0;
      ListsTogether(src, dst, r, ItemsOf(files), extents, releases, unrefs, splits.value, clones.value.0);
      RemapCommits(src, dst, from, to, s, sector, files, extents, releases, unrefs, shares);
      RemapReads(src, dst, from, to, s, sector, files, extents);
      var settled := SettleRefs(dst, extents, releases, unrefs, shares);
      if settled.Err? { return Failure(settled); }
      files := files[dst := File(newSize, nbytes.value, Edited(AsMap(own), edits))];
      extents := settled.value;
      return None;
    }

    /** `FICLONERANGE`: a length of zero clones to the source's end. */
    method CloneRange(src: nat, from: nat, dst: nat, to: nat, len: nat) returns (failed: Option<CloneError>)
      requires Valid() && src in files && dst in files
      modifies this`files, this`extents
      ensures Valid()
      ensures CloneOutcome(src, from, dst, to, len, sector, old(files), old(extents), files, extents, failed.Some?)
    {
      var span := CloneSpan(sector, src, files[src].size, from, dst, files[dst].size, to, len);
      CloneSpanFits(sector, src, files[src].size, from, dst, files[dst].size, to, len);
      hide CloneSpan, SpanFits, AllFit, RemapOk, Overlaid;
      if span.Err? { return Failure(span); }
      if span.value.None? { return None; }
      failed := Remap(src, dst, from, to, span.value.value);
    }

    /** `FIDEDUPERANGE`: the ranges are compared first, and the destination's bytes
        are afterwards what they were, only shared. */
    method DedupeRange(value: Cell -> int, src: nat, from: nat, dst: nat, to: nat, len: nat)
      returns (r: Result<Option<nat>, CloneError>)
      requires Valid() && src in files && dst in files && files[dst].size < U64_SPAN - sector
      modifies this`files, this`extents
      ensures Valid()
      ensures DedupeOutcome(value, src, from, dst, to, len, sector, old(files), old(extents), files, extents, r)
    {
      var span := DedupeSpan(sector, src, files[src].size, from, dst, files[dst].size, to, len);
      DedupeSpanFits(sector, src, files[src].size, from, dst, files[dst].size, to, len);
      hide DedupeSpan, AllFit, RemapOk, Overlaid, SameBytes, AlignUp, SpanFits;
      if span.Err? { return Err(span.error); }
      if span.value.None? { return Ok(Some(len)); }
      var s := span.value.value;
      var same := Compare(value, files[src], from, files[dst], to, s.len);
      if !same { return Ok(None); }
      var failed := Remap(src, dst, from, to, s);
      if failed.Some? { return Err(failed.value); }
      DedupeKeeps(value, old(files[dst]), old(files[src]), files[dst], from, to, s.len);
      return Ok(Some(len));
    }
  }

  ghost predicate SameAt(value: Cell -> int, a: File, from: nat, b: File, to: nat, k: nat) {
    value(Read(a.Items(), from + k)) == value(Read(b.Items(), to + k))
  }

  ghost predicate SameBytes(value: Cell -> int, a: File, from: nat, b: File, to: nat, len: nat) {
    forall k: nat | k < len :: SameAt(value, a, from, b, to, k)
  }

  const PIECE: nat := 0x10_0000

  function Bytes(value: Cell -> int, f: File, at: nat, n: nat): (bytes: seq<int>)
    ensures |bytes| == n && forall k | 0 <= k < n :: bytes[k] == value(Read(f.Items(), at + k))
  {
    seq(n, k requires 0 <= k < n => value(Read(f.Items(), at + k)))
  }

  lemma SamePiece(value: Cell -> int, a: File, from: nat, b: File, to: nat, done: nat, n: nat)
    requires SameBytes(value, a, from, b, to, done)
    ensures Bytes(value, a, from + done, n) == Bytes(value, b, to + done, n) <==> SameBytes(value, a, from, b, to, done + n)
  {
    hide File.Items, Read;
    var left, right := Bytes(value, a, from + done, n), Bytes(value, b, to + done, n);
    forall k: nat | k < n ensures left[k] == right[k] <==> SameAt(value, a, from, b, to, done + k) {
      assert from + done + k == from + (done + k) && to + done + k == to + (done + k);
    }
    forall k: nat | k < done + n && left == right ensures SameAt(value, a, from, b, to, k) {
      if k >= done { assert left[k - done] == right[k - done]; }
    }
    if SameBytes(value, a, from, b, to, done + n) {
      forall k: nat | k < n ensures left[k] == right[k] { assert SameAt(value, a, from, b, to, done + k); }
    }
  }

  /** The two ranges, a piece at a time. */
  method Compare(value: Cell -> int, a: File, from: nat, b: File, to: nat, len: nat) returns (same: bool)
    ensures same <==> SameBytes(value, a, from, b, to, len)
  {
    hide File.Items, Read, Bytes, SameAt;
    var done := 0;
    while done < len
      invariant done <= len && SameBytes(value, a, from, b, to, done)
      decreases len - done
    {
      var n := Min(PIECE, len - done);
      SamePiece(value, a, from, b, to, done, n);
      if Bytes(value, a, from + done, n) != Bytes(value, b, to + done, n) { return false; }
      done := done + n;
    }
    return true;
  }

  /** Where the ranges hold the same bytes, overlaying one on the other changes none. */
  lemma DedupeKeeps(value: Cell -> int, was: File, source: File, now: File, from: nat, to: nat, len: nat)
    requires Overlaid(was, source, now, from, to, len) && to + len <= was.size && from + len <= source.size
    requires SameBytes(value, source, from, was, to, len)
    ensures now.size == was.size && SameBytes(value, was, 0, now, 0, now.size)
  {
    hide File.Items, Read;
    forall k: nat | k < now.size ensures SameAt(value, was, 0, now, 0, k) {
      assert OverlaidAt(was, source, now, from, to, len, k);
      if to <= k < to + len { assert SameAt(value, source, from, was, to, k - to); }
    }
  }
}
