/** The items a clone puts in its destination (`clone_item` in src/clone.rs), and what
    the destination's items are once the cut's edits and the clone's puts apply. */
module Clones {
  import opened Base
  import opened FileItems
  import opened Keyed
  import opened Cut

  /** What the extent tree records of a data extent: its length, whether some of its
      references are kept as items of their own, and every reference to it. */
  datatype Record = Record(len: nat, keyed: bool, held: multiset<Owner>)

  datatype CloneError =
    | InlineSource | InlineDestination | Encoded(start: nat) | NoRecord(bytenr: nat)
    | OutsideExtent(start: nat) | KeyedReferences(bytenr: nat) | PastLargest | PartialGrowth | CountOverflows
    | NotHeldAlone(bytenr: nat) | NotHeld(bytenr: nat) | Overlaps | BadRange

  /** A clone's range: `[from, from + span)` of the source, put at `to`. */
  datatype Range = Range(from: nat, span: Pos, to: nat) {
    function FromEnd(): nat { from + span }
    function ToEnd(): nat { to + span }
  }

  predicate WindowInside(it: Item, len: nat) {
    it.bytenr + it.offset + it.num < U64_SPAN && it.bytenr + len < U64_SPAN && it.offset + it.num <= len
  }

  /** A compressed extent's window is in its decoded bytes, which its length on disk
      does not bound. */
  predicate InExtent(it: Item, len: nat) { it.attrs.packed || WindowInside(it, len) }

  function Moved(it: Item, r: Range): Item
    requires r.from <= it.start
  {
    it.(start := it.start - r.from + r.to)
  }

  /** The part of a source item in the range, put where the destination wants it;
      inline items and holes put nothing. */
  function CloneOf(it: Item, r: Range): seq<Item> {
    if it.kind == Inline || it.bytenr == 0 || Outside(it, r.from, r.FromEnd()) then []
    else [Moved(Back(Front(it, r.FromEnd()), r.from), r)]
  }

  function ClonesOf(items: seq<Item>, r: Range): seq<Item> {
    if items == [] then [] else ClonesOf(items[..|items|-1], r) + CloneOf(items[|items|-1], r)
  }

  /** A source item a clone of the range cannot take. */
  predicate Takes(it: Item, r: Range, extents: map<nat, Record>) {
    if it.kind == Inline then r.from != 0 else
      && it.End() < U64_SPAN
      && (!Outside(it, r.from, r.FromEnd()) ==>
           && !it.attrs.encoded
           && (it.bytenr != 0 ==>
                && it.bytenr in extents && !extents[it.bytenr].keyed
                && InExtent(Back(Front(it, r.FromEnd()), r.from), extents[it.bytenr].len)))
  }

  /** One source item, as the source decides it: the item it becomes, or none. */
  function CloneItem(it: Item, r: Range, extents: map<nat, Record>): (c: Result<Option<Item>, CloneError>)
    ensures c.Ok? <==> Takes(it, r, extents)
    ensures c.Ok? ==> (if c.value.Some? then [c.value.value] else []) == CloneOf(it, r)
  {
    if it.kind == Inline then
      if r.from == 0 then Err(InlineSource) else Ok(None)
    else if it.End() >= U64_SPAN then Err(PastLargest)
    else if it.End() <= r.from || it.start >= r.FromEnd() then Ok(None)
    else if it.attrs.encoded then Err(Encoded(it.start))
    else if it.bytenr == 0 then Ok(None)
    else
      var from, to := Max(it.start, r.from), Min(it.End(), r.FromEnd());
      var clone := it.(start := r.to + (from - r.from), num := to - from, offset := it.offset + (from - it.start));
      if it.bytenr !in extents then Err(NoRecord(it.bytenr))
      else if !it.attrs.packed && !WindowInside(clone, extents[it.bytenr].len) then Err(OutsideExtent(it.start))
      else if extents[it.bytenr].keyed then Err(KeyedReferences(it.bytenr))
      else Ok(Some(clone))
  }

  // ------------------------------------------------------------- what they read

  /** An inline item holds the file's first sector and nothing past it. */
  predicate InlineBelow(items: seq<Item>, at: nat) {
    forall i | 0 <= i < |items| :: items[i].kind == Inline ==> items[i].End() <= at
  }

  lemma CloneReads(it: Item, r: Range, p: int)
    requires it.kind == Inline ==> it.End() <= r.from
    ensures Read(CloneOf(it, r), p) == if r.to <= p < r.ToEnd() then CellOf(it, p - r.to + r.from) else Zero
  {
    assert CloneOf(it, r) != [] ==> CloneOf(it, r)[..0] == [];
  }

  lemma {:induction false} ClonesRead(items: seq<Item>, r: Range, p: int)
    requires InlineBelow(items, r.from)
    ensures Read(ClonesOf(items, r), p) == if r.to <= p < r.ToEnd() then Read(items, p - r.to + r.from) else Zero
  {
    hide CloneOf, CellOf;
    if items != [] {
      var init, last := items[..|items|-1], items[|items|-1];
      ClonesRead(init, r, p);
      ReadJoin(ClonesOf(init, r), CloneOf(last, r), p);
      CloneReads(last, r, p);
    }
  }

  lemma {:induction false} ClonesSorted(items: seq<Item>, r: Range, lo: nat, hi: int)
    requires Sorted(items) && Within(items, lo, hi) && lo <= hi
    ensures Sorted(ClonesOf(items, r)) && Within(ClonesOf(items, r), r.to, r.ToEnd())
    ensures Within(ClonesOf(items, r), lo - r.from + r.to, hi - r.from + r.to)
  {
    hide Sorted, CloneOf;
    if items != [] {
      var init, last := items[..|items|-1], items[|items|-1];
      LastSorted(items, lo, hi);
      hide Within;
      ClonesSorted(init, r, lo, last.start);
      CloneSorted(last, r, hi);
      SortedJoin(ClonesOf(init, r), CloneOf(last, r), lo - r.from + r.to, last.start - r.from + r.to, hi - r.from + r.to);
      WithinJoin(ClonesOf(init, r), CloneOf(last, r), r.to, r.ToEnd());
    } else {
      NoneSorted();
    }
  }

  lemma CloneSorted(it: Item, r: Range, hi: int)
    requires it.start < it.End() <= hi
    ensures Sorted(CloneOf(it, r)) && Within(CloneOf(it, r), r.to, r.ToEnd())
    ensures Within(CloneOf(it, r), it.start - r.from + r.to, hi - r.from + r.to)
  {
  }

  /** The destination once its edits are made: what it held before the range, the
      clones, and what it held after. */
  function Remapped(own: seq<Item>, source: seq<Item>, r: Range): seq<Item> {
    Before(own, r.to) + ClonesOf(source, r) + After(own, r.ToEnd())
  }

  /** A clone's puts replace a delete of the key they fall on; nothing else meets. */
  lemma RemappedByEdits(own: seq<Item>, source: seq<Item>, r: Range, hi: nat)
    requires Sorted(own) && Within(own, 0, hi) && Sorted(source) && Within(source, 0, hi)
    ensures Edited(AsMap(own), AllEdits(CutOf(own, r.to, r.ToEnd())) + Puts(ClonesOf(source, r)))
         == AsMap(Remapped(own, source, r))
  {
    hide Sorted, Within, Edited, AllEdits, CutOf;
    var before, clones, after := Before(own, r.to), ClonesOf(source, r), After(own, r.ToEnd());
    var cut := AllEdits(CutOf(own, r.to, r.ToEnd()));
    CutLeavesBothSides(own, r.to, r.ToEnd(), 0, hi);
    EditedTwice(AsMap(own), cut, Puts(clones));
    PutsAdd(AsMap(before + after), clones);
    AsMapJoin(before, after);
    AsMapJoin(before + clones, after);
    AsMapJoin(before, clones);
    ClonesSorted(source, r, 0, hi);
    AfterSorted(own, r.ToEnd(), 0, hi);
    AsMapKeys(clones, r.to, r.ToEnd());
    AsMapKeys(after, r.ToEnd(), hi);
    hide AsMap;
    assert AsMap(after).Keys !! AsMap(clones).Keys;
    MiddleLast(AsMap(before), AsMap(clones), AsMap(after));
  }

  lemma MiddleLast<V>(a: map<nat, V>, b: map<nat, V>, c: map<nat, V>)
    requires b.Keys !! c.Keys
    ensures (a + c) + b == (a + b) + c
  {
  }

  lemma RemappedSorted(own: seq<Item>, source: seq<Item>, r: Range, hi: nat)
    requires Sorted(own) && Within(own, 0, hi) && Sorted(source) && Within(source, 0, hi) && r.ToEnd() <= hi
    ensures Sorted(Remapped(own, source, r)) && Within(Remapped(own, source, r), 0, hi)
  {
    hide Sorted, Within;
    var before, clones, after := Before(own, r.to), ClonesOf(source, r), After(own, r.ToEnd());
    BeforeSorted(own, r.to, 0, hi);
    ClonesSorted(source, r, 0, hi);
    AfterSorted(own, r.ToEnd(), 0, hi);
    SortedJoin(before, clones, 0, r.to, r.ToEnd());
    SortedJoin(before + clones, after, 0, r.ToEnd(), hi);
  }

  /** The clone reads the source's bytes in the range and its own everywhere else;
      `own` and `source` may be one file. */
  lemma RemappedReads(own: seq<Item>, source: seq<Item>, r: Range, p: int)
    requires InlineBelow(source, r.from)
    ensures Read(Remapped(own, source, r), p) ==
      if r.to <= p < r.ToEnd() then Read(source, p - r.to + r.from) else Read(own, p)
  {
    var before, clones, after := Before(own, r.to), ClonesOf(source, r), After(own, r.ToEnd());
    BeforeReads(own, r.to, p);
    ClonesRead(source, r, p);
    AfterReads(own, r.ToEnd(), p);
    ReadJoin(before, clones, p);
    ReadJoin(before + clones, after, p);
  }

  // ------------------------------------------------------------- references

  lemma CloneNaming(ino: nat, it: Item, r: Range, b: nat)
    ensures |Naming(ino, CloneOf(it, r), b)| == if CloneOf(it, r) != [] && it.Names(b) then 1 else 0
  {
    if CloneOf(it, r) != [] {
      OneNaming(ino, CloneOf(it, r)[0], b);
    }
  }

  lemma OneCoveredOrCloned(ino: nat, it: Item, r: Range, b: nat)
    requires r.FromEnd() <= r.to || r.ToEnd() <= r.from
    ensures |Naming(ino, CutOne(it, r.to, r.ToEnd()).covered, b)| + |Naming(ino, CloneOf(it, r), b)| <= |NamesOf(ino, it, b)|
  {
    CloneNaming(ino, it, r, b);
    OneNaming(ino, it, b);
  }

  /** A clone within one file takes no item its destination covers, so the covered
      items and the cloned ones are counted among the file's items separately. */
  lemma {:induction false} CoveredOrCloned(ino: nat, items: seq<Item>, r: Range, b: nat)
    requires r.FromEnd() <= r.to || r.ToEnd() <= r.from
    ensures |Naming(ino, CutOf(items, r.to, r.ToEnd()).covered, b)| + |Naming(ino, ClonesOf(items, r), b)|
         <= |Naming(ino, items, b)|
  {
    hide CloneOf, CutOne, NamesOf;
    if items != [] {
      var init, last := items[..|items|-1], items[|items|-1];
      CoveredOrCloned(ino, init, r, b);
      OneCoveredOrCloned(ino, last, r, b);
      NamingJoin(ino, ClonesOf(init, r), CloneOf(last, r), b);
      NamingJoin(ino, CutOf(init, r.to, r.ToEnd()).covered, CutOne(last, r.to, r.ToEnd()).covered, b);
    }
  }

  lemma {:induction false} ClonedAmongSource(ino: nat, source: nat, items: seq<Item>, r: Range, b: nat)
    ensures |Naming(ino, ClonesOf(items, r), b)| <= |Naming(source, items, b)|
  {
    if items != [] {
      var init, last := items[..|items|-1], items[|items|-1];
      ClonedAmongSource(ino, source, init, r, b);
      CloneNaming(ino, last, r, b);
      NamingJoin(ino, ClonesOf(init, r), CloneOf(last, r), b);
    }
  }
}
