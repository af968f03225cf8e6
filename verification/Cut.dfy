/** What replacing a range of a file does to the items it held there (`cut_range` in
    src/clone.rs), and the items a clone puts in their place. */
module Cut {
  import opened Base
  import opened FileItems
  import opened Keyed

  /** An edit of one `EXTENT_DATA` key of the file. */
  datatype KeyEdit = KeyEdit(key: nat, edit: Edit<Item>)

  /** `splits` holds, for each item left as two, the extent both name and the
      reference offset they share. */
  datatype CutItems = CutItems(edits: seq<KeyEdit>, covered: seq<Item>, splits: seq<(nat, nat)>) {
    function Then(c: CutItems): CutItems {
      CutItems(edits + c.edits, covered + c.covered, splits + c.splits)
    }
  }

  datatype CutError = PastLargestOffset(start: nat)

  predicate EndsFit(items: seq<Item>) {
    forall i | 0 <= i < |items| :: items[i].End() < U64_SPAN
  }

  predicate Outside(it: Item, lo: nat, hi: nat) { it.End() <= lo || hi <= it.start }

  predicate Inside(it: Item, lo: nat, hi: nat) { lo <= it.start && it.End() <= hi }

  function CutOne(it: Item, lo: nat, hi: nat): CutItems
    requires lo < hi
  {
    if Outside(it, lo, hi) then CutItems([], [], [])
    else if Inside(it, lo, hi) then CutItems([], [it], [])
    else CutItems(
        [KeyEdit(it.start, if it.start < lo then Put(Front(it, lo)) else Delete)]
        + (if hi < it.End() then [KeyEdit(hi, Put(Back(it, hi)))] else []),
        [],
        if it.start < lo && hi < it.End() && it.bytenr != 0 then [(it.bytenr, it.RefOffset())] else [])
  }

  function CutOf(items: seq<Item>, lo: nat, hi: nat): CutItems
    requires lo < hi
  {
    if items == [] then CutItems([], [], []) else
      CutOf(items[..|items|-1], lo, hi).Then(CutOne(items[|items|-1], lo, hi))
  }

  lemma CutNext(items: seq<Item>, i: nat, lo: nat, hi: nat)
    requires lo < hi && i < |items|
    ensures CutOf(items[..i+1], lo, hi) == CutOf(items[..i], lo, hi).Then(CutOne(items[i], lo, hi))
    ensures EndsFit(items[..i]) && items[i].End() < U64_SPAN ==> EndsFit(items[..i+1])
    ensures items[i].End() >= U64_SPAN ==> !EndsFit(items)
  {
    assert items[..i+1][..i] == items[..i];
  }

  /** What one item adds to a cut, case by case. */
  lemma ThenOne(cut: CutItems, it: Item, lo: nat, hi: nat)
    requires lo < hi
    ensures Outside(it, lo, hi) ==> cut.Then(CutOne(it, lo, hi)) == cut
    ensures !Outside(it, lo, hi) && Inside(it, lo, hi) ==> cut.Then(CutOne(it, lo, hi)) == cut.(covered := cut.covered + [it])
    ensures !Outside(it, lo, hi) && !Inside(it, lo, hi) ==>
      var first := cut.edits + [KeyEdit(it.start, if it.start < lo then Put(Front(it, lo)) else Delete)];
      cut.Then(CutOne(it, lo, hi)) == CutItems(
        if hi < it.End() then first + [KeyEdit(hi, Put(Back(it, hi)))] else first,
        cut.covered,
        if it.start < lo && hi < it.End() && it.bytenr != 0 then cut.splits + [(it.bytenr, it.RefOffset())] else cut.splits)
  {
  }

  method CutRange(items: seq<Item>, lo: nat, hi: nat) returns (r: Result<CutItems, CutError>)
    requires lo < hi
    ensures r.Ok? <==> EndsFit(items)
    ensures r.Ok? ==> r.value == CutOf(items, lo, hi)
  {
    var cut := CutItems([], [], []);
    assert cut == CutOf(items[..0], lo, hi) && EndsFit(items[..0]);
    hide CutOf, EndsFit, CutOne, CutItems.Then;
    for i := 0 to |items|
      invariant EndsFit(items[..i])
      invariant cut == CutOf(items[..i], lo, hi)
    {
      var it := items[i];
      CutNext(items, i, lo, hi);
      ThenOne(cut, it, lo, hi);
      if it.End() >= U64_SPAN { return Err(PastLargestOffset(it.start)); }
      if it.End() <= lo || it.start >= hi { continue; }
      if lo <= it.start && it.End() <= hi {
        cut := cut.(covered := cut.covered + [it]);
        continue;
      }
      if it.start < lo {
        cut := cut.(edits := cut.edits + [KeyEdit(it.start, Put(it.(num := lo - it.start)))]);
      } else {
        cut := cut.(edits := cut.edits + [KeyEdit(it.start, Delete)]);
      }
      if it.End() > hi {
        var back := it.(start := hi, offset := it.offset + (hi - it.start), num := it.End() - hi);
        cut := cut.(edits := cut.edits + [KeyEdit(hi, Put(back))]);
        if it.start < lo && it.bytenr != 0 {
          cut := cut.(splits := cut.splits + [(it.bytenr, (it.start - it.offset) % U64_SPAN)]);
        }
      }
    }
    assert items[..|items|] == items;
    return Ok(cut);
  }

  // ----------------------------------------------------- what the edits leave

  /** Edits put in one after another, the later of one key standing. */
  function ByKey(edits: seq<KeyEdit>): map<nat, Edit<Item>> {
    if edits == [] then map[] else
      var last := edits[|edits|-1];
      ByKey(edits[..|edits|-1])[last.key := last.edit]
  }

  function Deletes(items: seq<Item>): map<nat, Edit<Item>> {
    if items == [] then map[] else Deletes(items[..|items|-1])[items[|items|-1].start := Delete]
  }

  lemma {:induction false} ByKeyJoin(a: seq<KeyEdit>, b: seq<KeyEdit>)
    ensures ByKey(a + b) == ByKey(a) + ByKey(b)
  {
    if b == [] {
      assert a + b == a;
    } else {
      assert (a + b)[..|a + b|-1] == a + b[..|b|-1];
      ByKeyJoin(a, b[..|b|-1]);
    }
  }

  lemma {:induction false} DeletesJoin(a: seq<Item>, b: seq<Item>)
    ensures Deletes(a + b) == Deletes(a) + Deletes(b)
  {
    if b == [] {
      assert a + b == a;
    } else {
      assert (a + b)[..|a + b|-1] == a + b[..|b|-1];
      DeletesJoin(a, b[..|b|-1]);
    }
  }

  /** Every edit a cut makes: its puts and deletes, and a delete for each item it covers. */
  function AllEdits(c: CutItems): map<nat, Edit<Item>> { ByKey(c.edits) + Deletes(c.covered) }

  lemma OneByKey(e: KeyEdit)
    ensures ByKey([e]) == map[e.key := e.edit]
  {
    assert [e][..0] == [];
  }

  lemma OneDelete(it: Item)
    ensures Deletes([it]) == map[it.start := Delete]
  {
    assert [it][..0] == [];
  }

  lemma OneEdits(it: Item, lo: nat, hi: nat)
    requires lo < hi && it.num > 0
    ensures AllEdits(CutOne(it, lo, hi)) ==
      if Outside(it, lo, hi) then map[]
      else if Inside(it, lo, hi) then map[it.start := Delete]
      else
        var first := map[it.start := if it.start < lo then Put(Front(it, lo)) else Delete];
        if hi < it.End() then first + map[hi := Put(Back(it, hi))] else first
  {
    OneDelete(it);
    if !Outside(it, lo, hi) && !Inside(it, lo, hi) {
      var e := KeyEdit(it.start, if it.start < lo then Put(Front(it, lo)) else Delete);
      OneByKey(e);
      if hi < it.End() {
        var e2 := KeyEdit(hi, Put(Back(it, hi)));
        OneByKey(e2);
        ByKeyJoin([e], [e2]);
      } else {
        assert [e] + [] == [e];
      }
    }
  }

  /** One item, edited, is its part before the range and its part after. */
  lemma OneCut(it: Item, lo: nat, hi: nat)
    requires lo < hi && it.num > 0
    ensures Edited(AsMap([it]), AllEdits(CutOne(it, lo, hi))) == AsMap(FrontOf(it, lo) + BackOf(it, hi))
    ensures KeysIn(AllEdits(CutOne(it, lo, hi)).Keys, it.start, it.End())
  {
    OneEdits(it, lo, hi);
    OneAsMap(it);
    SidesAsMap(it, lo, hi);
    hide AllEdits, CutOne, AsMap, FrontOf, BackOf, Front, Back, Edited;
    EditedOne(it, lo, hi);
  }

  /** The edits of one item, made to it alone. */
  lemma EditedOne(it: Item, lo: nat, hi: nat)
    requires lo < hi && it.num > 0 && (it.start < lo ==> Front(it, lo).start == it.start)
    ensures var m := map[it.start := it];
      var front := if it.start < lo then map[it.start := Front(it, lo)] else map[];
      && Edited(m, map[]) == m && Edited(m, map[it.start := Delete]) == map[]
      && var first := map[it.start := if it.start < lo then Put(Front(it, lo)) else Delete];
        && Edited(m, first) == front
        && (hi < it.End() ==> Edited(m, first + map[hi := Put(Back(it, hi))]) == front + map[hi := Back(it, hi)])
  {
    var m := map[it.start := it];
    var first := map[it.start := if it.start < lo then Put(Front(it, lo)) else Delete];
    hide Front, Back, Edited;
    EditedByNone(m);
    DeleteOne(m, it.start);
    assert m - {it.start} == map[];
    if it.start < lo {
      PutOne(m, it.start, Front(it, lo));
      assert m[it.start := Front(it, lo)] == map[it.start := Front(it, lo)];
    }
    if hi < it.End() {
      EditedTwice(m, first, map[hi := Put(Back(it, hi))]);
      PutOne(Edited(m, first), hi, Back(it, hi));
    }
  }

  /** The parts on either side of the range, each under its own key. */
  lemma SidesAsMap(it: Item, lo: nat, hi: nat)
    requires lo < hi && it.num > 0
    ensures AsMap(FrontOf(it, lo) + BackOf(it, hi)) ==
      (if it.start < lo then map[it.start := Front(it, lo)] else map[])
      + (if hi < it.End() then map[Back(it, hi).start := Back(it, hi)] else map[])
    ensures it.start < lo ==> Front(it, lo).start == it.start && (it.End() <= lo ==> Front(it, lo) == it)
    ensures hi < it.End() ==> Back(it, hi).start == (if hi <= it.start then it.start else hi) && (hi <= it.start ==> Back(it, hi) == it)
  {
    AsMapJoin(FrontOf(it, lo), BackOf(it, hi));
    NoneAsMap();
    if it.start < lo { OneAsMap(Front(it, lo)); }
    if hi < it.End() { OneAsMap(Back(it, hi)); }
  }

  lemma NoneAsMap() ensures AsMap([]) == map[] {}

  /** The edits of items in key order keep to those items' stretch of the file. */
  lemma {:induction false} CutKeys(items: seq<Item>, lo: nat, hi: nat, from: nat, to: int)
    requires lo < hi && Sorted(items) && Within(items, from, to) && from <= to
    ensures KeysIn(AllEdits(CutOf(items, lo, hi)).Keys, from, to)
  {
    hide Sorted, CutOne, AllEdits;
    if items != [] {
      var init, last := items[..|items|-1], items[|items|-1];
      LastSorted(items, from, to);
      CutKeys(init, lo, hi, from, last.start);
      OneCut(last, lo, hi);
      EditsThen(CutOf(init, lo, hi), CutOne(last, lo, hi), last.start);
    } else {
      NoEdits();
    }
  }

  lemma NoEdits() ensures AllEdits(CutItems([], [], [])) == map[] {}

  /** Cuts of two stretches that share no key make their edits side by side. */
  lemma EditsThen(c: CutItems, d: CutItems, at: int)
    requires forall k | k in AllEdits(c) :: k < at
    requires forall k | k in AllEdits(d) :: at <= k
    ensures AllEdits(c.Then(d)) == AllEdits(c) + AllEdits(d)
  {
    ByKeyJoin(c.edits, d.edits);
    DeletesJoin(c.covered, d.covered);
    hide ByKey, Deletes;
    var a, b, x, y := ByKey(c.edits), ByKey(d.edits), Deletes(c.covered), Deletes(d.covered);
    assert forall k | k in x :: k in AllEdits(c);
    assert forall k | k in b :: k in AllEdits(d);
    Swap(a, b, x, y);
  }

  /** Applied by key, the edits leave exactly what lies before the range and what
      lies after it. */
  lemma {:induction false} CutLeavesBothSides(items: seq<Item>, lo: nat, hi: nat, from: nat, to: int)
    requires lo < hi && Sorted(items) && Within(items, from, to) && from <= to
    ensures Edited(AsMap(items), AllEdits(CutOf(items, lo, hi))) == AsMap(Before(items, lo) + After(items, hi))
  {
    hide Sorted, CutOne, AllEdits, Edited, FrontOf, BackOf, Within;
    if items != [] {
      var init, last := items[..|items|-1], items[|items|-1];
      LastSorted(items, from, to);
      CutLeavesBothSides(init, lo, hi, from, last.start);
      OneCut(last, lo, hi);
      CutKeys(init, lo, hi, from, last.start);
      var e, d := AllEdits(CutOf(init, lo, hi)), AllEdits(CutOne(last, lo, hi));
      EditsThen(CutOf(init, lo, hi), CutOne(last, lo, hi), last.start);
      AsMapKeys(init, from, last.start);
      OneAsMap(last);
      EditedApart(AsMap(init), e, AsMap([last]), d);
      AsMapJoin(init, [last]);
      assert init + [last] == items;
      SidesJoin(init, last, lo, hi, from, to);
    } else {
      NoEdits();
      NoneAsMap();
      EditedByNone<Item>(map[]);
    }
  }

  lemma SidesJoin(init: seq<Item>, last: Item, lo: nat, hi: nat, from: nat, to: int)
    requires Sorted(init) && Within(init, from, last.start) && from <= last.start < last.End() <= to
    ensures AsMap(Before(init + [last], lo) + After(init + [last], hi))
         == AsMap(Before(init, lo) + After(init, hi)) + AsMap(FrontOf(last, lo) + BackOf(last, hi))
  {
    hide Sorted, Within, FrontOf, BackOf;
    var items := init + [last];
    assert items[..|items|-1] == init && items[|items|-1] == last;
    AfterSorted(init, hi, from, last.start);
    AsMapKeys(After(init, hi), from, last.start);
    CutSorted(last, lo, to);
    AsMapKeys(FrontOf(last, lo), last.start, to);
    AsMapJoin(Before(init, lo) + FrontOf(last, lo), After(init, hi) + BackOf(last, hi));
    AsMapJoin(Before(init, lo), FrontOf(last, lo));
    AsMapJoin(After(init, hi), BackOf(last, hi));
    AsMapJoin(Before(init, lo), After(init, hi));
    AsMapJoin(FrontOf(last, lo), BackOf(last, hi));
    hide AsMap;
    Swap(AsMap(Before(init, lo)), AsMap(FrontOf(last, lo)), AsMap(After(init, hi)), AsMap(BackOf(last, hi)));
  }

  // ---------------------------------------------------- references kept and lost

  /** The references the second halves of split items add to the extent at `b`. */
  function SplitsNaming(ino: nat, splits: seq<(nat, nat)>, b: nat): multiset<Owner> {
    if splits == [] then multiset{} else
      var s := splits[|splits|-1];
      SplitsNaming(ino, splits[..|splits|-1], b) + if s.0 == b then multiset{Owner(ino, s.1)} else multiset{}
  }

  lemma {:induction false} SplitsJoin(ino: nat, a: seq<(nat, nat)>, c: seq<(nat, nat)>, b: nat)
    ensures SplitsNaming(ino, a + c, b) == SplitsNaming(ino, a, b) + SplitsNaming(ino, c, b)
  {
    if c == [] {
      assert a + c == a;
    } else {
      assert (a + c)[..|a + c|-1] == a + c[..|c|-1];
      SplitsJoin(ino, a, c[..|c|-1], b);
    }
  }

  predicate NoInline(items: seq<Item>) { forall i | 0 <= i < |items| :: items[i].kind != Inline }

  lemma OneNaming(ino: nat, it: Item, b: nat)
    ensures Naming(ino, [it], b) == NamesOf(ino, it, b)
  {
    assert [it][..0] == [];
  }

  lemma TwoNaming(ino: nat, x: Item, y: Item, b: nat)
    ensures Naming(ino, [x, y], b) == NamesOf(ino, x, b) + NamesOf(ino, y, b)
  {
    OneNaming(ino, x, b);
    OneNaming(ino, y, b);
    NamingJoin(ino, [x], [y], b);
    assert [x] + [y] == [x, y];
  }

  /** One item cut: what its parts name, and what is dropped with it, is what it
      named and one reference more for a split. */
  lemma OneConserves(ino: nat, it: Item, lo: nat, hi: nat, b: nat)
    requires lo < hi && it.num > 0 && it.kind != Inline && b != 0
    ensures var c := CutOne(it, lo, hi);
      var parts := FrontOf(it, lo) + BackOf(it, hi);
      && Naming(ino, parts, b) + Naming(ino, c.covered, b) == NamesOf(ino, it, b) + SplitsNaming(ino, c.splits, b)
      && SplitsNaming(ino, c.splits, b) + SplitsNaming(ino, c.splits, b) <= Naming(ino, parts, b)
  {
    CutsKeepReference(it, lo);
    CutsKeepReference(it, hi);
    var c := CutOne(it, lo, hi);
    OneNaming(ino, it, b);
    assert |c.splits| == 1 ==> c.splits[..0] == [];
    if it.start < lo && hi < it.End() {
      TwoNaming(ino, Front(it, lo), Back(it, hi), b);
      assert FrontOf(it, lo) + BackOf(it, hi) == [Front(it, lo), Back(it, hi)];
    } else if it.start < lo {
      OneNaming(ino, Front(it, lo), b);
      assert FrontOf(it, lo) + BackOf(it, hi) == [Front(it, lo)];
    } else if hi < it.End() {
      OneNaming(ino, Back(it, hi), b);
      assert FrontOf(it, lo) + BackOf(it, hi) == [Back(it, hi)];
    } else {
      assert FrontOf(it, lo) + BackOf(it, hi) == [];
    }
  }

  lemma SidesNaming(ino: nat, init: seq<Item>, last: Item, lo: nat, hi: nat, b: nat)
    ensures Naming(ino, Before(init + [last], lo) + After(init + [last], hi), b)
         == Naming(ino, Before(init, lo) + After(init, hi), b) + Naming(ino, FrontOf(last, lo) + BackOf(last, hi), b)
  {
    hide FrontOf, BackOf, NamesOf, Naming;
    var items := init + [last];
    assert items[..|items|-1] == init && items[|items|-1] == last;
    NamingJoin(ino, Before(items, lo), After(items, hi), b);
    NamingJoin(ino, Before(init, lo), FrontOf(last, lo), b);
    NamingJoin(ino, After(init, hi), BackOf(last, hi), b);
    NamingJoin(ino, Before(init, lo), After(init, hi), b);
    NamingJoin(ino, FrontOf(last, lo), BackOf(last, hi), b);
  }

  /** Two balances of kept, dropped, named and added references add up to one. */
  lemma BalancesAdd(k: multiset<Owner>, d: multiset<Owner>, n: multiset<Owner>, s: multiset<Owner>,
                    k2: multiset<Owner>, d2: multiset<Owner>, n2: multiset<Owner>, s2: multiset<Owner>)
    requires k + d == n + s && k2 + d2 == n2 + s2
    requires s + s <= k && s2 + s2 <= k2
    ensures (k + k2) + (d + d2) == (n + n2) + (s + s2)
    ensures (s + s2) + (s + s2) <= k + k2
  {
    forall o: Owner ensures ((k + k2) + (d + d2))[o] == ((n + n2) + (s + s2))[o] {
      assert (k + d)[o] == (n + s)[o] && (k2 + d2)[o] == (n2 + s2)[o];
    }
    forall o: Owner ensures ((s + s2) + (s + s2))[o] <= (k + k2)[o] {
      assert (s + s)[o] <= k[o] && (s2 + s2)[o] <= k2[o];
    }
  }

  /** Over the whole file: every reference is kept or dropped with a covered item,
      and a split adds one that two items hold. */
  lemma {:induction false} CutConserves(ino: nat, items: seq<Item>, lo: nat, hi: nat, b: nat)
    requires lo < hi && NoInline(items) && b != 0 && (forall i | 0 <= i < |items| :: items[i].num > 0)
    ensures var c := CutOf(items, lo, hi);
      var parts := Before(items, lo) + After(items, hi);
      && Naming(ino, parts, b) + Naming(ino, c.covered, b) == Naming(ino, items, b) + SplitsNaming(ino, c.splits, b)
      && SplitsNaming(ino, c.splits, b) + SplitsNaming(ino, c.splits, b) <= Naming(ino, parts, b)
  {
    hide CutOne, FrontOf, BackOf, NamesOf, SplitsNaming;
    if items != [] {
      var init, last := items[..|items|-1], items[|items|-1];
      CutConserves(ino, init, lo, hi, b);
      OneConserves(ino, last, lo, hi, b);
      var c, d := CutOf(init, lo, hi), CutOne(last, lo, hi);
      NamingJoin(ino, c.covered, d.covered, b);
      SplitsJoin(ino, c.splits, d.splits, b);
      assert items == init + [last];
      SidesNaming(ino, init, last, lo, hi, b);
      hide Before, After;
      BalancesAdd(Naming(ino, Before(init, lo) + After(init, hi), b), Naming(ino, c.covered, b),
                  Naming(ino, init, b), SplitsNaming(ino, c.splits, b),
                  Naming(ino, FrontOf(last, lo) + BackOf(last, hi), b), Naming(ino, d.covered, b),
                  NamesOf(ino, last, b), SplitsNaming(ino, d.splits, b));
    } else {
      NoSplits(ino, b);
      assert Before(items, lo) + After(items, hi) == [];
    }
  }

  lemma NoSplits(ino: nat, b: nat) ensures SplitsNaming(ino, [], b) == multiset{} {}
}
