/** Reflink and dedupe (src/clone.rs): a range of one file put into another by sharing
    its extents, as one committed change of the items, the inode and the extent tree. */
module Clone {
  import opened FileItems
  import opened Cut
  import opened Clones
  import opened Extents

  type Files = map<nat, seq<Item>>

  /** The lists a clone of `r` from `src` into `dst` hands to the transaction. */
  ghost predicate Listed(src: nat, dst: nat, r: Range, files: Files, extents: ExtentTree,
                         releases: seq<DataRef>, unrefs: seq<DataRef>, shares: seq<DataRef>, b: nat)
    requires src in files && dst in files
  {
    var cut := CutOf(files[dst], r.to, r.ToEnd());
    && SettledAt(dst, cut.covered, extents, releases, unrefs, b)
    && RefsTo(dst, shares, b) == SplitsNaming(dst, cut.splits, b) + Naming(dst, ClonesOf(files[src], r), b)
  }

  ghost predicate Joinable(src: nat, dst: nat, r: Range, files: Files) {
    && src in files && dst in files && NoInline(files[dst])
    && (forall i | 0 <= i < |files[dst]| :: files[dst][i].num > 0)
    && (src == dst ==> r.FromEnd() <= r.to || r.ToEnd() <= r.from)
  }

  function NamingIn(files: Files, ino: nat, b: nat): multiset<Owner> {
    Naming(ino, if ino in files then files[ino] else [], b)
  }

  /** An extent whose every reference is dropped is none the clone takes. */
  lemma NoneCloned(src: nat, dst: nat, r: Range, files: Files, extents: ExtentTree, b: nat)
    requires Joinable(src, dst, r, files) && AccountedAt(extents, files, b) && b != 0
    requires Naming(dst, CutOf(files[dst], r.to, r.ToEnd()).covered, b) == Held(extents, b)
    ensures Naming(dst, ClonesOf(files[src], r), b) == multiset{}
  {
    hide Naming, ClonesOf, CutOf, AccountedAt;
    var own := Naming(dst, files[dst], b);
    NamedIsHeld(extents, files, dst, b);
    SizeOfPart(own, Held(extents, b));
    if src == dst {
      CoveredOrCloned(dst, files[dst], r, b);
    } else {
      var other := Naming(src, files[src], b);
      BothHeld(extents, files, dst, src, b);
      SizeOfPart(own + other, Held(extents, b));
      ClonedAmongSource(dst, src, files[src], r, b);
      CutConserves(dst, files[dst], r.to, r.ToEnd(), b);
      AllDropped(Held(extents, b), own, Naming(dst, CutOf(files[dst], r.to, r.ToEnd()).covered, b),
                 SplitsNaming(dst, CutOf(files[dst], r.to, r.ToEnd()).splits, b),
                 Naming(dst, Before(files[dst], r.to) + After(files[dst], r.ToEnd()), b));
    }
  }

  /** A released extent is held by the released items alone and gains nothing; a
      dropped reference is one of several. */
  lemma ClonesFitAt(src: nat, dst: nat, r: Range, files: Files, extents: ExtentTree,
                    releases: seq<DataRef>, unrefs: seq<DataRef>, shares: seq<DataRef>, b: nat)
    requires Joinable(src, dst, r, files) && AccountedAt(extents, files, b) && b != 0
    requires Listed(src, dst, r, files, extents, releases, unrefs, shares, b)
    ensures RefsTo(dst, releases, b) != multiset{} ==>
      RefsTo(dst, releases, b) == Held(extents, b) && RefsTo(dst, unrefs, b) == RefsTo(dst, shares, b) == multiset{}
    ensures RefsTo(dst, releases, b) == multiset{} ==>
      UnrefsFitAt(Held(extents, b), RefsTo(dst, unrefs, b))
  {
    hide Naming, ClonesOf, CutOf, AccountedAt, SplitsNaming, RefsTo;
    var cut := CutOf(files[dst], r.to, r.ToEnd());
    NamedIsHeld(extents, files, dst, b);
    CutConserves(dst, files[dst], r.to, r.ToEnd(), b);
    var covered := Naming(dst, cut.covered, b);
    AllDropped(Held(extents, b), Naming(dst, files[dst], b), covered, SplitsNaming(dst, cut.splits, b),
               Naming(dst, Before(files[dst], r.to) + After(files[dst], r.ToEnd()), b));
    SizeOfPart(covered, Held(extents, b));
    if |Held(extents, b)| == |covered| { NoneCloned(src, dst, r, files, extents, b); }
  }

  lemma RemappedNaming(dst: nat, own: seq<Item>, source: seq<Item>, r: Range, b: nat)
    ensures Naming(dst, Remapped(own, source, r), b)
         == Naming(dst, Before(own, r.to) + After(own, r.ToEnd()), b) + Naming(dst, ClonesOf(source, r), b)
  {
    hide Naming;
    NamingJoin(dst, Before(own, r.to) + ClonesOf(source, r), After(own, r.ToEnd()), b);
    NamingJoin(dst, Before(own, r.to), ClonesOf(source, r), b);
    NamingJoin(dst, Before(own, r.to), After(own, r.ToEnd()), b);
  }

  /** What is held once the write's references are settled. */
  lemma HeldAfter(ino: nat, extents: ExtentTree, releases: seq<DataRef>, unrefs: seq<DataRef>, shares: seq<DataRef>, b: nat)
    ensures var after := AfterRefs(ino, extents, releases, unrefs, shares);
      if b in extents && RefsTo(ino, releases, b) == multiset{}
      then b in after && after[b] == More(Less(extents[b], RefsTo(ino, unrefs, b)), RefsTo(ino, shares, b))
      else b !in after
  {
  }

  /** Kept, split and cloned references, added up owner by owner. */
  lemma Balanced(held: multiset<Owner>, named: multiset<Owner>, covered: multiset<Owner>, splits: multiset<Owner>,
                 parts: multiset<Owner>, clones: multiset<Owner>, o: Owner)
    requires parts + covered == named + splits && splits + splits <= parts && named <= held && named[o] == held[o]
    ensures (held - covered + (splits + clones))[o] == (parts + clones)[o]
  {
    assert (parts + covered)[o] == (named + splits)[o] && (splits + splits)[o] <= parts[o];
  }

  lemma {:induction false} RefsAreOwn(ino: nat, refs: seq<DataRef>, b: nat, o: Owner)
    requires o.ino != ino
    ensures RefsTo(ino, refs, b)[o] == 0
  {
    if refs != [] { RefsAreOwn(ino, refs[..|refs|-1], b, o); }
  }

  lemma HeldByOwner(extents: ExtentTree, files: Files, b: nat, o: Owner)
    requires AccountedAt(extents, files, b)
    ensures Held(extents, b)[o] == NamingIn(files, o.ino, b)[o]
  {
  }

  /** The destination's own references after the change, one owner at a time. */
  lemma ClonesBalanceAt(src: nat, dst: nat, r: Range, files: Files, extents: ExtentTree,
                        releases: seq<DataRef>, unrefs: seq<DataRef>, shares: seq<DataRef>, b: nat, o: Owner)
    requires Joinable(src, dst, r, files) && AccountedAt(extents, files, b) && b != 0
    requires Listed(src, dst, r, files, extents, releases, unrefs, shares, b)
    ensures Held(AfterRefs(dst, extents, releases, unrefs, shares), b)[o]
         == NamingIn(files[dst := Remapped(files[dst], files[src], r)], o.ino, b)[o]
  {
    var own := files[dst];
    var cut := CutOf(own, r.to, r.ToEnd());
    var named, covered, splits := Naming(dst, own, b), Naming(dst, cut.covered, b), SplitsNaming(dst, cut.splits, b);
    var parts, clones := Naming(dst, Before(own, r.to) + After(own, r.ToEnd()), b), Naming(dst, ClonesOf(files[src], r), b);
    HeldAfter(dst, extents, releases, unrefs, shares, b);
    HeldByOwner(extents, files, b, o);
    NamedIsHeld(extents, files, dst, b);
    CutConserves(dst, own, r.to, r.ToEnd(), b);
    RemappedNaming(dst, own, files[src], r, b);
    ClonesFitAt(src, dst, r, files, extents, releases, unrefs, shares, b);
    hide Naming, ClonesOf, CutOf, AccountedAt, SplitsNaming, RefsTo, AfterRefs, Remapped, Before, After;
    AllDropped(Held(extents, b), named, covered, splits, parts);
    if |Held(extents, b)| == |covered| { NoneCloned(src, dst, r, files, extents, b); }
    if o.ino == dst {
      Balanced(Held(extents, b), named, covered, splits, parts, clones, o);
    } else {
      RefsAreOwn(dst, releases, b, o);
      RefsAreOwn(dst, unrefs, b, o);
      RefsAreOwn(dst, shares, b, o);
    }
  }

  lemma ClonesAccountedAt(src: nat, dst: nat, r: Range, files: Files, extents: ExtentTree,
                          releases: seq<DataRef>, unrefs: seq<DataRef>, shares: seq<DataRef>, b: nat)
    requires Joinable(src, dst, r, files) && AccountedAt(extents, files, b) && b != 0
    requires Listed(src, dst, r, files, extents, releases, unrefs, shares, b)
    ensures AccountedAt(AfterRefs(dst, extents, releases, unrefs, shares), files[dst := Remapped(files[dst], files[src], r)], b)
  {
    forall o: Owner
      ensures Held(AfterRefs(dst, extents, releases, unrefs, shares), b)[o]
           == NamingIn(files[dst := Remapped(files[dst], files[src], r)], o.ino, b)[o]
    {
      ClonesBalanceAt(src, dst, r, files, extents, releases, unrefs, shares, b, o);
    }
    HeldAfter(dst, extents, releases, unrefs, shares, b);
    ClonesFitAt(src, dst, r, files, extents, releases, unrefs, shares, b);
    hide Naming, Listed, RefsTo, AfterRefs, Remapped;
    if b in extents && RefsTo(dst, releases, b) == multiset{} {
      var u := RefsTo(dst, unrefs, b);
      assert u != extents[b].held;
      assert extents[b].held - u != multiset{} by { NotAll(extents[b].held, u); }
    }
  }

  lemma NotAll(held: multiset<Owner>, u: multiset<Owner>)
    requires held != multiset{} && (u != multiset{} ==> u <= held && |u| < |held|)
    ensures held - u != multiset{}
  {
    assert u <= held ==> held == (held - u) + u;
  }
}
