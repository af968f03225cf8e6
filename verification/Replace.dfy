/** Copies put in place of a file's items (src/cow_write.rs, src/defrag.rs): each item
    given up drops its reference, each copy is an extent with one of its own. */
module Replace {
  import opened FileItems
  import opened Extents
  import opened Clone

  lemma {:induction false} NamingSize(ino: nat, other: nat, items: seq<Item>, b: nat)
    ensures |Naming(ino, items, b)| == |Naming(other, items, b)|
  {
    if items != [] { NamingSize(ino, other, items[..|items|-1], b); }
  }

  /** What the items name afterwards: less what is given up, with one for each copy. */
  ghost predicate ExchangedAt(ino: nat, own: seq<Item>, moved: seq<Item>, now: seq<Item>, copies: seq<Item>, b: nat) {
    && Naming(ino, now, b) + Naming(ino, moved, b) == Naming(ino, own, b) + Naming(ino, copies, b)
    && Naming(ino, moved, b) <= Naming(ino, own, b)
  }

  ghost predicate Exchanged(ino: nat, own: seq<Item>, moved: seq<Item>, now: seq<Item>, copies: seq<Item>) {
    forall b: nat | b != 0 :: ExchangedAt(ino, own, moved, now, copies, b)
  }

  /** The copies' records: each with the one reference its item adds. */
  function NewRecords(ino: nat, copies: seq<Item>): ExtentTree {
    if copies == [] then map[] else
      var c := copies[|copies|-1];
      NewRecords(ino, copies[..|copies|-1])[c.bytenr := Clones.Record(c.num, false, multiset{Owner(ino, c.RefOffset())})]
  }

  /** The copies lie where nothing did, each in a place of its own. */
  ghost predicate FreshCopies(copies: seq<Item>, extents: ExtentTree) {
    && (forall i | 0 <= i < |copies| :: copies[i].kind == Regular && copies[i].bytenr != 0 && copies[i].bytenr !in extents)
    && (forall i, j | 0 <= i < j < |copies| :: copies[i].bytenr != copies[j].bytenr)
  }

  lemma {:induction false} CopiesNamed(ino: nat, copies: seq<Item>, extents: ExtentTree, b: nat)
    requires FreshCopies(copies, extents) && b != 0
    ensures b in NewRecords(ino, copies) ==> b !in extents && NewRecords(ino, copies)[b].held == Naming(ino, copies, b) != multiset{}
    ensures b !in NewRecords(ino, copies) ==> Naming(ino, copies, b) == multiset{}
    ensures b in NewRecords(ino, copies) ==> exists i :: 0 <= i < |copies| && copies[i].bytenr == b
  {
    if copies != [] {
      var init, c := copies[..|copies|-1], copies[|copies|-1];
      CopiesNamed(ino, init, extents, b);
      if b in NewRecords(ino, init) {
        var i :| 0 <= i < |init| && init[i].bytenr == b;
        assert copies[i].bytenr == b;
      }
      if c.bytenr == b { assert copies[|copies|-1].bytenr == b; }
    }
  }

  /** The extent tree once a change that puts copies in place of items commits. */
  function AfterCopies(ino: nat, extents: ExtentTree, releases: seq<DataRef>, unrefs: seq<DataRef>, copies: seq<Item>): ExtentTree {
    AfterRefs(ino, extents, releases, unrefs, []) + NewRecords(ino, copies)
  }

  /** Settling the items given up takes just their references from the extent's. */
  lemma SettledAfter(ino: nat, moved: seq<Item>, extents: ExtentTree, releases: seq<DataRef>, unrefs: seq<DataRef>, b: nat)
    requires SettledAt(ino, moved, extents, releases, unrefs, b) && Naming(ino, moved, b) <= Held(extents, b)
    requires b in extents ==> extents[b].held != multiset{}
    ensures var after := AfterRefs(ino, extents, releases, unrefs, []);
      && Held(after, b) == Held(extents, b) - Naming(ino, moved, b)
      && (b in after ==> after[b].held != multiset{})
  {
    var held, names := Held(extents, b), Naming(ino, moved, b);
    HeldAfter(ino, extents, releases, unrefs, [], b);
    NoRefsAt(ino, b);
    SizeOfPart(names, held);
    hide Naming, AfterRefs, RefsTo;
    if |held| == |names| {
      assert held - names == multiset{};
    } else if b in extents {
      NotAll(held, names);
    }
  }

  /** The items still name what they named less what is given up. */
  lemma StillNamed(ino: nat, own: seq<Item>, moved: seq<Item>, now: seq<Item>, files: Files, extents: ExtentTree, b: nat, o: Owner)
    requires AccountedAt(extents, files, b) && ino in files && files[ino] == own
    requires Naming(ino, now, b) + Naming(ino, moved, b) == Naming(ino, own, b)
    ensures (Held(extents, b) - Naming(ino, moved, b))[o] == NamingIn(files[ino := now], o.ino, b)[o]
  {
    HeldByOwner(extents, files, b, o);
    if o.ino != ino { NamingIsOwn(ino, moved, b, o); }
    hide Naming, AccountedAt, Held;
    assert o.ino == ino ==> (Naming(ino, now, b) + Naming(ino, moved, b))[o] == Naming(ino, own, b)[o];
  }

  /** A moved item's extent keeps every other reference, or goes with its last. */
  lemma MovedBalance(ino: nat, own: seq<Item>, moved: seq<Item>, now: seq<Item>, files: Files, extents: ExtentTree,
                     releases: seq<DataRef>, unrefs: seq<DataRef>, b: nat, o: Owner)
    requires AccountedAt(extents, files, b) && ino in files && files[ino] == own && b != 0
    requires SettledAt(ino, moved, extents, releases, unrefs, b) && Naming(ino, now, b) + Naming(ino, moved, b) == Naming(ino, own, b)
    ensures var after := AfterRefs(ino, extents, releases, unrefs, []);
      && Held(after, b)[o] == NamingIn(files[ino := now], o.ino, b)[o]
      && (b in after ==> after[b].held != multiset{})
  {
    NamedIsHeld(extents, files, ino, b);
    StillNamed(ino, own, moved, now, files, extents, b, o);
    hide Naming, AfterRefs, SettledAt, RefsTo, Held, NamingIn;
    assert Naming(ino, moved, b) <= Naming(ino, own, b);
    SettledAfter(ino, moved, extents, releases, unrefs, b);
  }

  lemma NoRefsAt(ino: nat, b: nat) ensures RefsTo(ino, [], b) == multiset{} {}

  lemma {:induction false} NoZero(ino: nat, extents: ExtentTree, releases: seq<DataRef>, unrefs: seq<DataRef>, copies: seq<Item>)
    requires 0 !in extents && FreshCopies(copies, extents)
    ensures 0 !in AfterCopies(ino, extents, releases, unrefs, copies)
    decreases copies
  {
    HeldAfter(ino, extents, releases, unrefs, [], 0);
    if copies != [] { NoZero(ino, extents, releases, unrefs, copies[..|copies|-1]); }
  }

  /** What names a copy is its one item. */
  lemma NewNamed(ino: nat, own: seq<Item>, moved: seq<Item>, now: seq<Item>, copies: seq<Item>, files: Files, extents: ExtentTree, b: nat, o: Owner)
    requires AccountedAt(extents, files, b) && ino in files && files[ino] == own && b != 0 && b !in extents
    requires Naming(ino, now, b) + Naming(ino, moved, b) == Naming(ino, own, b) + Naming(ino, copies, b)
    requires Naming(ino, moved, b) <= Naming(ino, own, b)
    ensures NamingIn(files[ino := now], o.ino, b)[o] == Naming(ino, copies, b)[o]
  {
    HeldByOwner(extents, files, b, o);
    hide Naming;
    if o.ino == ino {
      assert (Naming(ino, now, b) + Naming(ino, moved, b))[o] == (Naming(ino, own, b) + Naming(ino, copies, b))[o];
      assert Naming(ino, moved, b)[o] <= Naming(ino, own, b)[o];
    } else {
      NamingIsOwn(ino, copies, b, o);
    }
  }

  lemma ReplacedAccountedAt(ino: nat, own: seq<Item>, moved: seq<Item>, now: seq<Item>, copies: seq<Item>, files: Files, extents: ExtentTree,
                            releases: seq<DataRef>, unrefs: seq<DataRef>, b: nat)
    requires AccountedAt(extents, files, b) && ino in files && files[ino] == own && b != 0
    requires SettledAt(ino, moved, extents, releases, unrefs, b) && ExchangedAt(ino, own, moved, now, copies, b)
    requires FreshCopies(copies, extents)
    ensures AccountedAt(AfterCopies(ino, extents, releases, unrefs, copies), files[ino := now], b)
  {
    var after := AfterCopies(ino, extents, releases, unrefs, copies);
    var settled := AfterRefs(ino, extents, releases, unrefs, []);
    CopiesNamed(ino, copies, extents, b);
    HeldAfter(ino, extents, releases, unrefs, [], b);
    hide Naming, AfterRefs, NewRecords, FreshCopies;
    forall o: Owner ensures Held(after, b)[o] == NamingIn(files[ino := now], o.ino, b)[o] {
      if b in NewRecords(ino, copies) {
        NewNamed(ino, own, moved, now, copies, files, extents, b, o);
      } else {
        MovedBalance(ino, own, moved, now, files, extents, releases, unrefs, b, o);
      }
    }
    if b !in NewRecords(ino, copies) { MovedBalance(ino, own, moved, now, files, extents, releases, unrefs, b, Owner(0, 0)); }
  }

  /** After the change the extent tree agrees with every file's items again: one
      reference dropped for each item given up, one added for each copy. */
  lemma ReplacedAccounted(ino: nat, own: seq<Item>, moved: seq<Item>, now: seq<Item>, copies: seq<Item>, files: Files, extents: ExtentTree,
                          releases: seq<DataRef>, unrefs: seq<DataRef>)
    requires Accounted(extents, files) && ino in files && files[ino] == own
    requires Settled(ino, moved, extents, releases, unrefs) && Exchanged(ino, own, moved, now, copies) && FreshCopies(copies, extents)
    ensures Accounted(AfterCopies(ino, extents, releases, unrefs, copies), files[ino := now])
  {
    hide AccountedAt, AfterCopies, SettledAt, ExchangedAt, FreshCopies, Naming;
    var after, changed := AfterCopies(ino, extents, releases, unrefs, copies), files[ino := now];
    forall b: nat | b != 0 ensures AccountedAt(after, changed, b) {
      ReplacedAccountedAt(ino, own, moved, now, copies, files, extents, releases, unrefs, b);
    }
    NoZero(ino, extents, releases, unrefs, copies);
  }

  /** The commit refuses none of it: what is released is held by the items given up and
      by nothing else, and what is dropped is not all there is. */
  lemma ReplacedFits(ino: nat, own: seq<Item>, moved: seq<Item>, files: Files, extents: ExtentTree, releases: seq<DataRef>, unrefs: seq<DataRef>)
    requires Accounted(extents, files) && ino in files && files[ino] == own
    requires Settled(ino, moved, extents, releases, unrefs)
    requires forall b: nat | b != 0 :: Naming(ino, moved, b) <= Naming(ino, own, b)
    ensures RefsFit(ino, extents, releases, unrefs, [])
  {
    hide Naming, RefsTo;
    forall b: nat | b != 0
      ensures RefsTo(ino, releases, b) in {multiset{}, Held(extents, b)}
      ensures UnrefsFitAt(Held(extents, b), RefsTo(ino, unrefs, b))
      ensures RefsTo(ino, releases, b) != multiset{} ==> RefsTo(ino, unrefs, b) == multiset{}
    {
      assert AccountedAt(extents, files, b) && SettledAt(ino, moved, extents, releases, unrefs, b);
      NamedIsHeld(extents, files, ino, b);
      SizeOfPart(Naming(ino, moved, b), Held(extents, b));
    }
    StillThere(ino, extents, releases, unrefs);
  }

  lemma StillThere(ino: nat, extents: ExtentTree, releases: seq<DataRef>, refs: seq<DataRef>)
    requires Recorded(refs, extents)
    requires forall b: nat | b != 0 && RefsTo(ino, releases, b) != multiset{} :: RefsTo(ino, refs, b) == multiset{}
    ensures Recorded(refs, Released(ino, extents, releases))
  {
    forall i | 0 <= i < |refs| ensures refs[i].at in Released(ino, extents, releases) {
      assert refs[i] in refs;
      RefsNamed(ino, refs, i);
    }
  }
}
