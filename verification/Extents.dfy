/** How a write settles its references with the extent tree: what dropping a file's
    items does to their extents (`drop_covered` in src/clone.rs), and the order the
    transaction applies releases, dropped references and shares. */
module Extents {
  import opened Base
  import opened FileItems
  import opened Keyed
  import opened Cut
  import opened Clones

  type ExtentTree = map<nat, Record>

  /** One reference a write drops or adds: the extent's address and length, and the
      file offset of its first byte. */
  datatype DataRef = DataRef(at: nat, len: nat, offset: nat)

  function Held(extents: ExtentTree, b: nat): multiset<Owner> {
    if b in extents then extents[b].held else multiset{}
  }

  function RefTo(ino: nat, x: DataRef, b: nat): multiset<Owner> {
    if x.at == b then multiset{Owner(ino, x.offset)} else multiset{}
  }

  /** Of a list of references of inode `ino`, those to the extent at `b`. */
  function RefsTo(ino: nat, refs: seq<DataRef>, b: nat): multiset<Owner> {
    if refs == [] then multiset{} else RefsTo(ino, refs[..|refs|-1], b) + RefTo(ino, refs[|refs|-1], b)
  }

  lemma {:induction false} RefsJoin(ino: nat, a: seq<DataRef>, c: seq<DataRef>, b: nat)
    ensures RefsTo(ino, a + c, b) == RefsTo(ino, a, b) + RefsTo(ino, c, b)
  {
    if c == [] {
      assert a + c == a;
    } else {
      assert (a + c)[..|a + c|-1] == a + c[..|c|-1];
      RefsJoin(ino, a, c[..|c|-1], b);
    }
  }

  lemma RefsNext(ino: nat, refs: seq<DataRef>, i: nat, b: nat)
    requires i < |refs|
    ensures RefsTo(ino, refs[..i+1], b) == RefsTo(ino, refs[..i], b) + RefTo(ino, refs[i], b)
  {
    assert refs[..i+1][..i] == refs[..i];
  }

  lemma RefsSome(ino: nat, refs: seq<DataRef>, i: nat, b: nat)
    requires i <= |refs|
    ensures RefsTo(ino, refs[..i], b) <= RefsTo(ino, refs, b)
  {
    hide RefsTo;
    RefsJoin(ino, refs[..i], refs[i..], b);
    assert refs[..i] + refs[i..] == refs;
  }

  lemma {:induction false} RefsNamed(ino: nat, refs: seq<DataRef>, i: nat)
    requires i < |refs|
    ensures RefsTo(ino, refs, refs[i].at)[Owner(ino, refs[i].offset)] > 0
  {
    if i < |refs| - 1 { RefsNamed(ino, refs[..|refs|-1], i); }
  }

  // ---------------------------------------------- what dropping items does

  /** Items by the extent they name, in item order. */
  function ByExtent(items: seq<Item>): map<nat, seq<Item>> {
    if items == [] then map[] else
      var it, m := items[|items|-1], ByExtent(items[..|items|-1]);
      if it.bytenr == 0 then m else m[it.bytenr := (if it.bytenr in m then m[it.bytenr] else []) + [it]]
  }

  lemma {:induction false} ByExtentNames(ino: nat, items: seq<Item>, b: nat)
    requires NoInline(items) && b != 0
    ensures b !in ByExtent(items) ==> Naming(ino, items, b) == multiset{}
    ensures b in ByExtent(items) ==> Naming(ino, ByExtent(items)[b], b) == Naming(ino, items, b)
  {
    hide Naming, NamesOf;
    if items != [] {
      var init, it := items[..|items|-1], items[|items|-1];
      ByExtentNames(ino, init, b);
      assert items == init + [it];
      NamingJoin(ino, init, [it], b);
      OneNaming(ino, it, b);
      NamesWhich(ino, it, b);
      if it.bytenr == b {
        var was := if b in ByExtent(init) then ByExtent(init)[b] else [];
        NamingJoin(ino, was, [it], b);
        NoneNamed(ino, b);
      }
    } else {
      NoneNamed(ino, b);
    }
  }

  lemma NoneNamed(ino: nat, b: nat) ensures Naming(ino, [], b) == multiset{} {}

  lemma NamesWhich(ino: nat, it: Item, b: nat)
    requires it.kind != Inline && b != 0
    ensures it.bytenr != b ==> NamesOf(ino, it, b) == multiset{}
    ensures it.bytenr == b ==> NamesOf(ino, it, b) == multiset{Owner(ino, it.RefOffset())}
  {
  }

  lemma {:induction false} ByExtentGroups(items: seq<Item>)
    ensures forall b | b in ByExtent(items) :: b != 0 && ByExtent(items)[b] != []
    ensures forall b | b in ByExtent(items) :: forall x | x in ByExtent(items)[b] :: x in items && x.bytenr == b
    ensures forall x | x in items && x.bytenr != 0 :: x.bytenr in ByExtent(items) && x in ByExtent(items)[x.bytenr]
  {
    if items != [] {
      ByExtentGroups(items[..|items|-1]);
    }
  }

  /** The references a group of items drops. */
  function DropsOf(items: seq<Item>, b: nat, len: nat): seq<DataRef> {
    if items == [] then [] else
      DropsOf(items[..|items|-1], b, len) + [DataRef(b, len, items[|items|-1].RefOffset())]
  }

  lemma {:induction false} DropsMatch(ino: nat, items: seq<Item>, b: nat, len: nat, c: nat)
    requires b != 0 && forall x | x in items :: x.Names(b)
    ensures RefsTo(ino, DropsOf(items, b, len), c) == if c == b then Naming(ino, items, b) else multiset{}
    ensures |DropsOf(items, b, len)| == |items| == |Naming(ino, items, b)|
    ensures forall x | x in DropsOf(items, b, len) :: x.at == b && x.len == len
  {
    if items != [] {
      DropsMatch(ino, items[..|items|-1], b, len, c);
      var d := DropsOf(items, b, len);
      assert d[..|d|-1] == DropsOf(items[..|items|-1], b, len);
    }
  }

  /** Every dropped reference is listed once: as a release where the items dropped
      are all the references there are, and as a dropped reference where not. */
  ghost predicate SettledAt(ino: nat, covered: seq<Item>, extents: ExtentTree, releases: seq<DataRef>, unrefs: seq<DataRef>, b: nat) {
    var names := Naming(ino, covered, b);
    var all := |Held(extents, b)| == |names|;
    && RefsTo(ino, releases, b) == (if all then names else multiset{})
    && RefsTo(ino, unrefs, b) == (if all then multiset{} else names)
  }

  ghost predicate Settled(ino: nat, covered: seq<Item>, extents: ExtentTree, releases: seq<DataRef>, unrefs: seq<DataRef>) {
    && (forall b: nat | b != 0 :: SettledAt(ino, covered, extents, releases, unrefs, b))
    && Recorded(releases, extents) && Recorded(unrefs, extents)
  }

  ghost predicate Recorded(refs: seq<DataRef>, extents: ExtentTree) {
    forall x | x in refs :: x.at != 0 && x.at in extents && x.len == extents[x.at].len
  }

  /** What the extent tree records of the extent an item names. */
  predicate Housed(it: Item, extents: ExtentTree) {
    it.kind != Inline && it.bytenr != 0 ==> it.bytenr in extents && InExtent(it, extents[it.bytenr].len)
  }

  predicate AllHoused(items: seq<Item>, extents: ExtentTree) { forall x | x in items :: Housed(x, extents) }

  ghost predicate SoFar(ino: nat, covered: seq<Item>, extents: ExtentTree, todo: set<nat>, releases: seq<DataRef>, unrefs: seq<DataRef>) {
    forall b: nat | b != 0 ::
      && (b !in todo ==> SettledAt(ino, covered, extents, releases, unrefs, b))
      && (b in todo ==> RefsTo(ino, releases, b) == RefsTo(ino, unrefs, b) == multiset{})
  }

  lemma NothingSettled(ino: nat, covered: seq<Item>, extents: ExtentTree)
    requires NoInline(covered)
    ensures SoFar(ino, covered, extents, ByExtent(covered).Keys, [], [])
  {
    hide Naming, ByExtent;
    forall b: nat | b != 0 && b !in ByExtent(covered).Keys ensures SettledAt(ino, covered, extents, [], [], b) {
      ByExtentNames(ino, covered, b);
    }
  }

  /** Settling one extent's group leaves the others as they were. */
  lemma SettleOne(ino: nat, covered: seq<Item>, extents: ExtentTree, todo: set<nat>,
                  releases: seq<DataRef>, unrefs: seq<DataRef>, b: nat, drops: seq<DataRef>)
    requires NoInline(covered) && b in todo && b in ByExtent(covered) && b in extents
    requires SoFar(ino, covered, extents, todo, releases, unrefs)
    requires drops == DropsOf(ByExtent(covered)[b], b, extents[b].len)
    ensures var all := |extents[b].held| == |drops|;
      SoFar(ino, covered, extents, todo - {b}, if all then releases + drops else releases, if all then unrefs else unrefs + drops)
    ensures Recorded(drops, extents)
  {
    hide Naming, ByExtent, DropsOf, RefsTo;
    var all := |extents[b].held| == |drops|;
    var releases', unrefs' := if all then releases + drops else releases, if all then unrefs else unrefs + drops;
    ByExtentGroups(covered);
    DropsMatch(ino, ByExtent(covered)[b], b, extents[b].len, b);
    ByExtentNames(ino, covered, b);
    forall c: nat | c != 0
      ensures RefsTo(ino, releases', c) == RefsTo(ino, releases, c) + (if all && c == b then Naming(ino, covered, b) else multiset{})
      ensures RefsTo(ino, unrefs', c) == RefsTo(ino, unrefs, c) + (if !all && c == b then Naming(ino, covered, b) else multiset{})
    {
      MoreRefs(ino, covered, releases, unrefs, drops, all, extents[b].len, b, c);
    }
  }

  lemma MoreRefs(ino: nat, covered: seq<Item>, releases: seq<DataRef>, unrefs: seq<DataRef>, drops: seq<DataRef>, all: bool, len: nat,
                 b: nat, c: nat)
    requires NoInline(covered) && b in ByExtent(covered) && b != 0 && drops == DropsOf(ByExtent(covered)[b], b, len)
    ensures RefsTo(ino, if all then releases + drops else releases, c)
         == RefsTo(ino, releases, c) + (if all && c == b then Naming(ino, covered, b) else multiset{})
    ensures RefsTo(ino, if all then unrefs else unrefs + drops, c)
         == RefsTo(ino, unrefs, c) + (if !all && c == b then Naming(ino, covered, b) else multiset{})
  {
    ByExtentGroups(covered);
    hide Naming, ByExtent, DropsOf, RefsTo;
    RefsJoin(ino, releases, drops, c);
    RefsJoin(ino, unrefs, drops, c);
    DropsMatch(ino, ByExtent(covered)[b], b, len, c);
    ByExtentNames(ino, covered, b);
  }

  lemma AllSettled(ino: nat, covered: seq<Item>, extents: ExtentTree, releases: seq<DataRef>, unrefs: seq<DataRef>)
    requires NoInline(covered) && SoFar(ino, covered, extents, {}, releases, unrefs)
    requires Recorded(releases, extents) && Recorded(unrefs, extents)
    requires forall b | b in ByExtent(covered) :: AllHoused(ByExtent(covered)[b], extents)
    ensures Settled(ino, covered, extents, releases, unrefs) && AllHoused(covered, extents)
  {
    hide SettledAt;
    ByExtentGroups(covered);
  }

  method GroupByExtent(covered: seq<Item>) returns (groups: map<nat, seq<Item>>)
    ensures groups == ByExtent(covered)
  {
    groups := map[];
    for i := 0 to |covered|
      invariant groups == ByExtent(covered[..i])
    {
      var it := covered[i];
      assert covered[..i+1][..i] == covered[..i];
      if it.bytenr != 0 {
        groups := groups[it.bytenr := (if it.bytenr in groups then groups[it.bytenr] else []) + [it]];
      }
    }
    assert covered[..|covered|] == covered;
  }

  /** The drops of one extent's items; the first window past the extent is refused. */
  method DropGroup(items: seq<Item>, b: nat, len: nat) returns (r: Result<seq<DataRef>, CloneError>)
    ensures r.Ok? <==> forall x | x in items :: InExtent(x, len)
    ensures r.Ok? ==> r.value == DropsOf(items, b, len)
  {
    var drops: seq<DataRef> := [];
    for j := 0 to |items|
      invariant drops == DropsOf(items[..j], b, len)
      invariant forall x | x in items[..j] :: InExtent(x, len)
    {
      var it := items[j];
      assert it in items;
      if !it.attrs.packed && !WindowInside(it, len) {
        assert !InExtent(it, len);
        return Err(OutsideExtent(it.start));
      }
      assert items[..j+1][..j] == items[..j];
      drops := drops + [DataRef(b, len, it.RefOffset())];
    }
    assert items[..|items|] == items;
    return Ok(drops);
  }

  /** The groups' items, and no others, name an extent. */
  lemma HousedByGroup(covered: seq<Item>, extents: ExtentTree, b: nat)
    requires NoInline(covered) && b in ByExtent(covered)
    ensures b !in extents ==> !AllHoused(covered, extents)
    ensures (b in extents && exists x :: x in ByExtent(covered)[b] && !InExtent(x, extents[b].len)) ==> !AllHoused(covered, extents)
    ensures (b in extents && forall x | x in ByExtent(covered)[b] :: InExtent(x, extents[b].len)) ==> AllHoused(ByExtent(covered)[b], extents)
  {
    hide ByExtent, InExtent;
    ByExtentGroups(covered);
    assert ByExtent(covered)[b][0] in covered;
  }

  method DropCovered(ino: nat, covered: seq<Item>, extents: ExtentTree)
    returns (r: Result<(seq<DataRef>, seq<DataRef>), CloneError>)
    requires NoInline(covered)
    ensures r.Ok? <==> AllHoused(covered, extents)
    ensures r.Ok? ==> Settled(ino, covered, extents, r.value.0, r.value.1)
  {
    var groups := GroupByExtent(covered);
    NothingSettled(ino, covered, extents);
    var releases: seq<DataRef>, unrefs: seq<DataRef> := [], [];
    var todo := groups.Keys;
    hide SoFar, ByExtent, Settled, InExtent, AllHoused, NoInline, DropsOf;
    while todo != {}
      invariant todo <= groups.Keys
      invariant SoFar(ino, covered, extents, todo, releases, unrefs)
      invariant Recorded(releases, extents) && Recorded(unrefs, extents)
      invariant forall b | b in groups && b !in todo :: AllHoused(groups[b], extents)
      decreases todo
    {
      var b := Least(todo);
      HousedByGroup(covered, extents, b);
      if b !in extents { return Err(NoRecord(b)); }
      var dropped := DropGroup(groups[b], b, extents[b].len);
      if dropped.Err? { return Err(dropped.error); }
      var drops := dropped.value;
      SettleOne(ino, covered, extents, todo, releases, unrefs, b, drops);
      if |extents[b].held| == |drops| {
        releases := releases + drops;
      } else {
        unrefs := unrefs + drops;
      }
      todo := todo - {b};
    }
    AllSettled(ino, covered, extents, releases, unrefs);
    return Ok((releases, unrefs));
  }

  // ------------------------------------------- the transaction's order of effects

  function Released(ino: nat, extents: ExtentTree, releases: seq<DataRef>): ExtentTree {
    map b | b in extents && RefsTo(ino, releases, b) == multiset{} :: extents[b]
  }

  function Less(rec: Record, refs: multiset<Owner>): Record { rec.(held := rec.held - refs) }

  function More(rec: Record, refs: multiset<Owner>): Record { rec.(held := rec.held + refs) }

  lemma InTwo(rec: Record, a: multiset<Owner>, b: multiset<Owner>)
    ensures Less(rec, a + b) == Less(Less(rec, a), b) && More(rec, a + b) == More(More(rec, a), b)
    ensures Less(rec, multiset{}) == rec == More(rec, multiset{})
  {
    assert rec.held - (a + b) == rec.held - a - b;
    assert rec.held + (a + b) == rec.held + a + b;
    assert rec.held - multiset{} == rec.held == rec.held + multiset{};
  }

  function Unreffed(ino: nat, extents: ExtentTree, unrefs: seq<DataRef>): ExtentTree {
    map b | b in extents :: Less(extents[b], RefsTo(ino, unrefs, b))
  }

  function Shared(ino: nat, extents: ExtentTree, shares: seq<DataRef>): ExtentTree {
    map b | b in extents :: More(extents[b], RefsTo(ino, shares, b))
  }

  /** What the transaction demands of a release: it is of every reference there is. */
  ghost predicate ReleasesFit(ino: nat, extents: ExtentTree, releases: seq<DataRef>) {
    Recorded(releases, extents) && forall b | b in extents :: RefsTo(ino, releases, b) in {multiset{}, extents[b].held}
  }

  /** Of dropped references: each is held, and they are not all there is. */
  ghost predicate UnrefsFit(ino: nat, extents: ExtentTree, unrefs: seq<DataRef>) {
    Recorded(unrefs, extents) && forall b | b in extents :: UnrefsFitAt(extents[b].held, RefsTo(ino, unrefs, b))
  }

  ghost predicate UnrefsFitAt(held: multiset<Owner>, u: multiset<Owner>) {
    u != multiset{} ==> u <= held && |u| < |held|
  }

  /** Of a share: its extent's references are all held inline. */
  ghost predicate SharesFit(extents: ExtentTree, shares: seq<DataRef>) {
    Recorded(shares, extents) && forall x | x in shares :: !extents[x.at].keyed
  }

  /** Released extents by address: length, and each reference that named it. */
  type Groups = map<nat, (nat, multiset<Owner>)>

  ghost predicate GroupedAt(ino: nat, refs: seq<DataRef>, out: Groups, b: nat) {
    && (b in out <==> RefsTo(ino, refs, b) != multiset{})
    && (b in out ==> out[b].1 == RefsTo(ino, refs, b) && HasLen(refs, b, out[b].0))
  }

  ghost predicate HasLen(refs: seq<DataRef>, b: nat, len: nat) { exists x :: x in refs && x.at == b && x.len == len }

  ghost predicate Grouped(ino: nat, refs: seq<DataRef>, out: Groups) {
    forall b: nat :: GroupedAt(ino, refs, out, b)
  }

  lemma GroupNext(ino: nat, refs: seq<DataRef>, out: Groups, x: DataRef)
    requires Grouped(ino, refs, out)
    ensures var was := if x.at in out then out[x.at] else (x.len, multiset{});
      Grouped(ino, refs + [x], out[x.at := (was.0, was.1 + multiset{Owner(ino, x.offset)})])
  {
    hide RefsTo;
    var was := if x.at in out then out[x.at] else (x.len, multiset{});
    var next := out[x.at := (was.0, was.1 + multiset{Owner(ino, x.offset)})];
    forall b: nat ensures GroupedAt(ino, refs + [x], next, b) {
      assert GroupedAt(ino, refs, out, b);
      RefsJoin(ino, refs, [x], b);
      RefsOne(ino, x, b);
      if b in out {
        var y :| y in refs && y.at == b && y.len == out[b].0;
        assert y in refs + [x];
      }
      assert x in refs + [x];
    }
  }

  lemma RefsOne(ino: nat, x: DataRef, b: nat)
    ensures RefsTo(ino, [x], b) == RefTo(ino, x, b)
  {
    assert [x][..0] == [];
  }

  /** Each extent released once, with the references of every item that named it. */
  method ReleasedExtents(ino: nat, releases: seq<DataRef>) returns (out: Groups)
    ensures Grouped(ino, releases, out)
  {
    out := map[];
    assert Grouped(ino, [], out);
    hide Grouped;
    for i := 0 to |releases|
      invariant Grouped(ino, releases[..i], out)
    {
      var x := releases[i];
      assert releases[..i+1] == releases[..i] + [x];
      GroupNext(ino, releases[..i], out, x);
      var was := if x.at in out then out[x.at] else (x.len, multiset{});
      out := out[x.at := (was.0, was.1 + multiset{Owner(ino, x.offset)})];
    }
    assert releases[..|releases|] == releases;
  }

  function Without(extents: ExtentTree, gone: set<nat>): ExtentTree { map b | b in extents && b !in gone :: extents[b] }

  /** A grouped release passes the transaction's test exactly when it is whole. */
  lemma GroupFits(ino: nat, extents: ExtentTree, releases: seq<DataRef>, groups: Groups, b: nat)
    requires Grouped(ino, releases, groups) && ReleasesFit(ino, extents, releases) && b in groups
    ensures b in extents && extents[b].len == groups[b].0 && extents[b].held == groups[b].1
  {
    hide RefsTo;
    assert GroupedAt(ino, releases, groups, b);
    var x :| x in releases && x.at == b && x.len == groups[b].0;
  }

  lemma GroupsReleased(ino: nat, extents: ExtentTree, releases: seq<DataRef>, groups: Groups)
    requires Grouped(ino, releases, groups)
    requires forall b | b in groups :: Held(extents, b) == groups[b].1
    ensures Without(extents, groups.Keys) == Released(ino, extents, releases)
    ensures forall b: nat | RefsTo(ino, releases, b) != multiset{} :: Held(extents, b) == RefsTo(ino, releases, b)
  {
    hide RefsTo;
    forall b: nat
      ensures b in groups <==> RefsTo(ino, releases, b) != multiset{}
      ensures b in groups ==> groups[b].1 == RefsTo(ino, releases, b)
    {
      assert GroupedAt(ino, releases, groups, b);
    }
  }

  /** The released extents' records go, once each is shown to be held by the write's
      own items and nothing else. */
  method DropRecords(ino: nat, extents: ExtentTree, releases: seq<DataRef>) returns (r: Result<ExtentTree, CloneError>)
    ensures ReleasesFit(ino, extents, releases) ==> r.Ok?
    ensures r.Ok? ==> r.value == Released(ino, extents, releases)
    ensures r.Ok? ==> forall b: nat | RefsTo(ino, releases, b) != multiset{} :: Held(extents, b) == RefsTo(ino, releases, b)
  {
    var groups := ReleasedExtents(ino, releases);
    var todo, left := groups.Keys, extents;
    assert left == Without(extents, {});
    hide Grouped, ReleasesFit, RefsTo;
    while todo != {}
      invariant todo <= groups.Keys
      invariant left == Without(extents, groups.Keys - todo)
      invariant forall b | b in groups.Keys - todo :: Held(extents, b) == groups[b].1
    {
      var b := Least(todo);
      if b !in left || left[b].len != groups[b].0 || left[b].held != groups[b].1 {
        if ReleasesFit(ino, extents, releases) { GroupFits(ino, extents, releases, groups, b); }
        return Err(NotHeldAlone(b));
      }
      left := left - {b};
      todo := todo - {b};
      assert left == Without(extents, groups.Keys - todo);
    }
    GroupsReleased(ino, extents, releases, groups);
    assert groups.Keys - {} == groups.Keys;
    return Ok(left);
  }

  lemma NoRefs(ino: nat, extents: ExtentTree)
    ensures Unreffed(ino, extents, []) == Shared(ino, extents, []) == extents
  {
    hide Less, More;
    forall b | b in extents ensures Less(extents[b], RefsTo(ino, [], b)) == extents[b] == More(extents[b], RefsTo(ino, [], b)) {
      InTwo(extents[b], multiset{}, multiset{});
    }
  }

  lemma RefNext(ino: nat, rec: Record, refs: seq<DataRef>, i: nat, b: nat)
    requires i < |refs|
    ensures var was, now := RefsTo(ino, refs[..i], b), RefsTo(ino, refs[..i+1], b);
      && (refs[i].at != b ==> now == was)
      && Less(rec, now) == Less(Less(rec, was), RefTo(ino, refs[i], b))
      && More(rec, now) == More(More(rec, was), RefTo(ino, refs[i], b))
  {
    RefsNext(ino, refs, i, b);
    InTwo(rec, RefsTo(ino, refs[..i], b), RefTo(ino, refs[i], b));
  }

  /** One more reference of a list changes its own extent's record and no other. */
  lemma ListNext(ino: nat, extents: ExtentTree, refs: seq<DataRef>, i: nat)
    requires i < |refs| && refs[i].at in extents
    ensures var u, x := Unreffed(ino, extents, refs[..i]), refs[i];
      Unreffed(ino, extents, refs[..i+1]) == u[x.at := Less(u[x.at], multiset{Owner(ino, x.offset)})]
    ensures var u, x := Shared(ino, extents, refs[..i]), refs[i];
      Shared(ino, extents, refs[..i+1]) == u[x.at := More(u[x.at], multiset{Owner(ino, x.offset)})]
  {
    hide RefsTo, Less, More;
    UnreffedNext(ino, extents, refs, i);
    SharedNext(ino, extents, refs, i);
  }

  lemma UnreffedNext(ino: nat, extents: ExtentTree, refs: seq<DataRef>, i: nat)
    requires i < |refs| && refs[i].at in extents
    ensures var u, x := Unreffed(ino, extents, refs[..i]), refs[i];
      Unreffed(ino, extents, refs[..i+1]) == u[x.at := Less(u[x.at], multiset{Owner(ino, x.offset)})]
  {
    hide RefsTo, Less, More;
    var was, now, x := Unreffed(ino, extents, refs[..i]), Unreffed(ino, extents, refs[..i+1]), refs[i];
    forall b | b in extents ensures now[b] == if b == x.at then Less(was[b], multiset{Owner(ino, x.offset)}) else was[b] {
      RefNext(ino, extents[b], refs, i, b);
    }
  }

  lemma SharedNext(ino: nat, extents: ExtentTree, refs: seq<DataRef>, i: nat)
    requires i < |refs| && refs[i].at in extents
    ensures var u, x := Shared(ino, extents, refs[..i]), refs[i];
      Shared(ino, extents, refs[..i+1]) == u[x.at := More(u[x.at], multiset{Owner(ino, x.offset)})]
  {
    hide RefsTo, Less, More;
    var was, now, x := Shared(ino, extents, refs[..i]), Shared(ino, extents, refs[..i+1]), refs[i];
    forall b | b in extents ensures now[b] == if b == x.at then More(was[b], multiset{Owner(ino, x.offset)}) else was[b] {
      RefNext(ino, extents[b], refs, i, b);
    }
  }

  lemma OneMoreHeld(held: multiset<Owner>, all: multiset<Owner>, done: multiset<Owner>, o: Owner)
    requires all <= held && done + multiset{o} <= all && |all| < |held|
    ensures o in held - done && |held - done| > 1
  {
    var one := multiset{o};
    assert held == (held - done) + done;
    assert all == (done + one) + (all - (done + one));
  }

  lemma {:induction false} UnrefFits(ino: nat, extents: ExtentTree, unrefs: seq<DataRef>, i: nat)
    requires i < |unrefs| && UnrefsFit(ino, extents, unrefs)
    ensures var u, x := Unreffed(ino, extents, unrefs[..i]), unrefs[i];
      x.at in u && u[x.at].len == x.len && Owner(ino, x.offset) in u[x.at].held && |u[x.at].held| > 1
  {
    var x := unrefs[i];
    assert x in unrefs;
    RefsNext(ino, unrefs, i, x.at);
    RefsSome(ino, unrefs, i + 1, x.at);
    hide RefsTo;
    OneMoreHeld(extents[x.at].held, RefsTo(ino, unrefs, x.at), RefsTo(ino, unrefs[..i], x.at), Owner(ino, x.offset));
  }

  /** Settling references leaves every record its length and its keyed items. */
  lemma SameRecords(ino: nat, extents: ExtentTree, refs: seq<DataRef>, b: nat)
    ensures b in extents <==> b in Unreffed(ino, extents, refs)
    ensures b in extents <==> b in Shared(ino, extents, refs)
    ensures b in extents ==> Unreffed(ino, extents, refs)[b].len == Shared(ino, extents, refs)[b].len == extents[b].len
    ensures b in extents ==> Shared(ino, extents, refs)[b].keyed == extents[b].keyed
  {
  }

  ghost predicate AllIn(refs: seq<DataRef>, extents: ExtentTree) { forall x | x in refs :: x.at in extents }

  lemma ListPrefix(extents: ExtentTree, refs: seq<DataRef>, i: nat)
    requires i < |refs|
    ensures AllIn(refs[..i], extents) && refs[i].at in extents ==> AllIn(refs[..i+1], extents)
    ensures SharesFit(extents, refs[..i]) && ShareFits(extents, refs[i]) ==> SharesFit(extents, refs[..i+1])
    ensures !ShareFits(extents, refs[i]) ==> !SharesFit(extents, refs)
  {
    assert refs[..i+1] == refs[..i] + [refs[i]];
    assert refs[i] in refs;
  }

  predicate ShareFits(extents: ExtentTree, x: DataRef) {
    x.at != 0 && x.at in extents && x.len == extents[x.at].len && !extents[x.at].keyed
  }

  /** Dropped references go one by one, and never an extent's last. */
  method DropReferences(ino: nat, extents: ExtentTree, unrefs: seq<DataRef>) returns (r: Result<ExtentTree, CloneError>)
    ensures UnrefsFit(ino, extents, unrefs) ==> r.Ok?
    ensures r.Ok? ==> r.value == Unreffed(ino, extents, unrefs) && AllIn(unrefs, extents)
  {
    var left := extents;
    NoRefs(ino, extents);
    assert unrefs[..0] == [];
    assert unrefs[..|unrefs|] == unrefs;
    hide UnrefsFit, RefsTo, Unreffed;
    for i := 0 to |unrefs|
      invariant left == Unreffed(ino, extents, unrefs[..i])
      invariant AllIn(unrefs[..i], extents)
    {
      var x := unrefs[i];
      SameRecords(ino, extents, unrefs[..i], x.at);
      if x.at !in left || left[x.at].len != x.len || Owner(ino, x.offset) !in left[x.at].held || |left[x.at].held| == 1 {
        if UnrefsFit(ino, extents, unrefs) { UnrefFits(ino, extents, unrefs, i); }
        return Err(NotHeld(x.at));
      }
      ListNext(ino, extents, unrefs, i);
      ListPrefix(extents, unrefs, i);
      hide *;
      left := left[x.at := Less(left[x.at], multiset{Owner(ino, x.offset)})];
    }
    return Ok(left);
  }

  /** Each share adds its reference to a record found by address and length. */
  method AddShares(ino: nat, extents: ExtentTree, shares: seq<DataRef>) returns (r: Result<ExtentTree, CloneError>)
    ensures r.Ok? <==> SharesFit(extents, shares)
    ensures r.Ok? ==> r.value == Shared(ino, extents, shares)
  {
    var left := extents;
    NoRefs(ino, extents);
    assert shares[..0] == [];
    assert shares[..|shares|] == shares;
    assert SharesFit(extents, shares[..0]);
    hide RefsTo, SharesFit, Shared;
    for i := 0 to |shares|
      invariant left == Shared(ino, extents, shares[..i])
      invariant SharesFit(extents, shares[..i])
    {
      var x := shares[i];
      SameRecords(ino, extents, shares[..i], x.at);
      ListPrefix(extents, shares, i);
      if x.at == 0 || x.at !in left || left[x.at].len != x.len { return Err(NoRecord(x.at)); }
      if left[x.at].keyed { return Err(KeyedReferences(x.at)); }
      ListNext(ino, extents, shares, i);
      hide *;
      left := left[x.at := More(left[x.at], multiset{Owner(ino, x.offset)})];
    }
    return Ok(left);
  }

  /** A write's references, settled in the transaction's order. */
  function AfterRefs(ino: nat, extents: ExtentTree, releases: seq<DataRef>, unrefs: seq<DataRef>, shares: seq<DataRef>): ExtentTree {
    Shared(ino, Unreffed(ino, Released(ino, extents, releases), unrefs), shares)
  }

  /** Each step fits what the steps before it left. */
  ghost predicate RefsFit(ino: nat, extents: ExtentTree, releases: seq<DataRef>, unrefs: seq<DataRef>, shares: seq<DataRef>) {
    var left := Released(ino, extents, releases);
    ReleasesFit(ino, extents, releases) && UnrefsFit(ino, left, unrefs) && SharesFit(left, shares)
  }

  lemma FitsUnreffed(ino: nat, extents: ExtentTree, unrefs: seq<DataRef>, shares: seq<DataRef>)
    ensures SharesFit(Unreffed(ino, extents, unrefs), shares) == SharesFit(extents, shares)
  {
  }

  method SettleRefs(ino: nat, extents: ExtentTree, releases: seq<DataRef>, unrefs: seq<DataRef>, shares: seq<DataRef>)
    returns (r: Result<ExtentTree, CloneError>)
    ensures RefsFit(ino, extents, releases, unrefs, shares) ==> r.Ok?
    ensures r.Ok? ==> r.value == AfterRefs(ino, extents, releases, unrefs, shares)
  {
    hide ReleasesFit, UnrefsFit, SharesFit, Released, Unreffed, Shared;
    var left := DropRecords(ino, extents, releases);
    if left.Err? { return left; }
    var less := DropReferences(ino, left.value, unrefs);
    if less.Err? { return less; }
    FitsUnreffed(ino, left.value, unrefs, shares);
    r := AddShares(ino, less.value, shares);
  }

  // ------------------------------------------------ the counts and the items agree

  /** The extent tree's references, inode by inode and offset by offset, are the
      items that name each extent; an extent nothing names has no record. */
  ghost predicate AccountedAt(extents: ExtentTree, files: map<nat, seq<Item>>, b: nat) {
    && (forall o: Owner :: Held(extents, b)[o] == Naming(o.ino, if o.ino in files then files[o.ino] else [], b)[o])
    && (b in extents ==> extents[b].held != multiset{})
  }

  ghost predicate Accounted(extents: ExtentTree, files: map<nat, seq<Item>>) {
    && 0 !in extents
    && (forall b: nat | b != 0 :: AccountedAt(extents, files, b))
  }

  lemma {:induction false} NamedIsHeld(extents: ExtentTree, files: map<nat, seq<Item>>, ino: nat, b: nat)
    requires AccountedAt(extents, files, b) && ino in files
    ensures Naming(ino, files[ino], b) <= Held(extents, b)
  {
    forall o: Owner ensures Naming(ino, files[ino], b)[o] <= Held(extents, b)[o] {
      if o.ino != ino { NamingIsOwn(ino, files[ino], b, o); }
    }
  }

  lemma BothHeld(extents: ExtentTree, files: map<nat, seq<Item>>, ino: nat, other: nat, b: nat)
    requires AccountedAt(extents, files, b) && ino in files && other in files && ino != other
    ensures Naming(ino, files[ino], b) + Naming(other, files[other], b) <= Held(extents, b)
  {
    forall o: Owner
      ensures (Naming(ino, files[ino], b) + Naming(other, files[other], b))[o] <= Held(extents, b)[o]
    {
      if o.ino != ino { NamingIsOwn(ino, files[ino], b, o); }
      if o.ino != other { NamingIsOwn(other, files[other], b, o); }
    }
  }

  lemma SizeOfPart<T>(a: multiset<T>, b: multiset<T>)
    requires a <= b
    ensures |a| <= |b|
    ensures |a| == |b| ==> a == b
  {
    assert b == a + (b - a);
  }

  /** When the items dropped are as many as all references, they are all of them:
      no part of the file, and no other file, names the extent still. */
  lemma AllDropped(held: multiset<Owner>, named: multiset<Owner>, covered: multiset<Owner>, splits: multiset<Owner>, parts: multiset<Owner>)
    requires parts + covered == named + splits && splits + splits <= parts && named <= held
    ensures covered <= named
    ensures |held| == |covered| ==> held == named == covered && splits == parts == multiset{}
  {
    forall o: Owner ensures covered[o] <= named[o] {
      assert (parts + covered)[o] == (named + splits)[o] && (splits + splits)[o] <= parts[o];
    }
    SizeOfPart(covered, named);
    SizeOfPart(named, held);
    if |held| == |covered| {
      assert held == named == covered;
      forall o: Owner ensures parts[o] == 0 && splits[o] == 0 {
        assert (parts + covered)[o] == (named + splits)[o] && (splits + splits)[o] <= parts[o];
      }
      assert parts == multiset{} && splits == multiset{};
    }
  }
}
