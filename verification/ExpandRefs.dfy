/** Shared data references expanded (`file_items_naming` in src/balance.rs): the items of
    each shared leaf listed for every tree that shares it, and the leaf's one reference
    turned into a reference from each of those trees. */
module ExpandRefs {
  import opened Base
  import opened Backref
  import opened SharedRefs

  // --------------------------------------------------------------- one shared leaf

  /** A tree's items in the leaf that name the extent. */
  function FilesIn(trees: Trees, at: nat, parent: nat, root: nat): set<FileItem> {
    if root in trees then set g | g in trees[root] && g.leaf == parent && g.item.bytenr == at :: g.item else {}
  }

  predicate Has(m: map<FileItem, set<nat>>, f: FileItem, root: nat) { f in m && root in m[f] }

  /** The leaf's items that name the extent, each with the trees that share it. */
  ghost predicate Shares(trees: Trees, roots: seq<nat>, at: nat, parent: nat, physical: map<FileItem, set<nat>>) {
    forall f, root :: Has(physical, f, root) <==> root in roots && f in FilesIn(trees, at, parent, root)
  }

  ghost predicate NoneEmpty(physical: map<FileItem, set<nat>>) { forall f | f in physical :: physical[f] != {} }

  predicate AllThere(trees: Trees, roots: seq<nat>) { forall i | 0 <= i < |roots| :: roots[i] in trees }

  /** Every item of the leaf that names the extent, whichever trees it is seen through. */
  function LeafFiles(trees: Trees, roots: seq<nat>, at: nat, parent: nat): set<FileItem> {
    set i, f | 0 <= i < |roots| && f in FilesIn(trees, at, parent, roots[i]) :: f
  }

  /** A shared reference that can be expanded: it counts its leaf's items, and none of
      them starts before the extent. */
  ghost predicate LeafRight(trees: Trees, roots: seq<nat>, at: nat, s: (nat, nat)) {
    && |LeafFiles(trees, roots, at, s.0)| == s.1
    && Late(LeafFiles(trees, roots, at, s.0))
  }

  /** The item is one of the first `n`, in that leaf, and names the extent. */
  ghost predicate FiledBy(filed: seq<Filed>, at: nat, parent: nat, n: nat, f: FileItem)
    requires n <= |filed|
  {
    f.bytenr == at && exists j :: 0 <= j < n && filed[j] == Filed(f, parent)
  }

  lemma FiledNext(filed: seq<Filed>, at: nat, parent: nat, n: nat, f: FileItem)
    requires n < |filed|
    ensures FiledBy(filed, at, parent, n + 1, f) <==>
      FiledBy(filed, at, parent, n, f) || (filed[n].item.bytenr == at && filed[n].leaf == parent && f == filed[n].item)
  {
    assert filed[n] == Filed(filed[n].item, filed[n].leaf);
  }

  method OneTree(filed: seq<Filed>, at: nat, parent: nat, root: nat, before: map<FileItem, set<nat>>)
    returns (physical: map<FileItem, set<nat>>)
    requires NoneEmpty(before)
    ensures NoneEmpty(physical)
    ensures forall f, r :: Has(physical, f, r) <==>
      Has(before, f, r) || (r == root && FiledBy(filed, at, parent, |filed|, f))
  {
    physical := before;
    for i := 0 to |filed|
      invariant NoneEmpty(physical)
      invariant forall f, r :: Has(physical, f, r) <==>
        Has(before, f, r) || (r == root && FiledBy(filed, at, parent, i, f))
    {
      var g := filed[i];
      var was := physical;
      if g.item.bytenr == at && g.leaf == parent {
        var had := if g.item in physical then physical[g.item] else {};
        physical := physical[g.item := had + {root}];
      }
      forall f, r ensures Has(physical, f, r) <==> Has(before, f, r) || (r == root && FiledBy(filed, at, parent, i + 1, f)) {
        FiledNext(filed, at, parent, i, f);
        assert Has(was, f, r) <==> Has(before, f, r) || (r == root && FiledBy(filed, at, parent, i, f));
      }
    }
  }

  method Physical(trees: Trees, roots: seq<nat>, at: nat, parent: nat) returns (physical: map<FileItem, set<nat>>)
    requires AllThere(trees, roots)
    ensures Shares(trees, roots, at, parent, physical) && physical.Keys == LeafFiles(trees, roots, at, parent)
  {
    physical := map[];
    for i := 0 to |roots|
      invariant NoneEmpty(physical) && Shares(trees, roots[..i], at, parent, physical)
    {
      var now := OneTree(trees[roots[i]], at, parent, roots[i], physical);
      assert roots[..i+1] == roots[..i] + [roots[i]];
      forall f ensures f in FilesIn(trees, at, parent, roots[i]) <==> FiledBy(trees[roots[i]], at, parent, |trees[roots[i]]|, f) { InLeaf(trees, at, parent, roots[i], f); }
      assert Shares(trees, roots[..i+1], at, parent, now);
      physical := now;
    }
    assert roots[..|roots|] == roots;
    SharedKeys(trees, roots, at, parent, physical);
  }

  lemma InLeaf(trees: Trees, at: nat, parent: nat, root: nat, f: FileItem)
    requires root in trees
    ensures f in FilesIn(trees, at, parent, root) <==> FiledBy(trees[root], at, parent, |trees[root]|, f)
  {
    if f in FilesIn(trees, at, parent, root) {
      var g :| g in trees[root] && g.leaf == parent && g.item == f;
      assert g == Filed(f, parent);
    }
  }

  lemma SharedKeys(trees: Trees, roots: seq<nat>, at: nat, parent: nat, physical: map<FileItem, set<nat>>)
    requires Shares(trees, roots, at, parent, physical) && NoneEmpty(physical)
    ensures physical.Keys == LeafFiles(trees, roots, at, parent)
  {
    hide FilesIn;
    forall f ensures f in physical <==> f in LeafFiles(trees, roots, at, parent) {
      if f in physical {
        var r :| r in physical[f];
        assert Has(physical, f, r);
        var i :| 0 <= i < |roots| && roots[i] == r;
        assert f in FilesIn(trees, at, parent, roots[i]);
      }
      if f in LeafFiles(trees, roots, at, parent) {
        var i :| 0 <= i < |roots| && f in FilesIn(trees, at, parent, roots[i]);
        assert Has(physical, f, roots[i]);
      }
    }
  }

  // ------------------------------------------------------- one reference for each tree

  function Tally(m: map<Triple, nat>, t: Triple): nat { if t in m then m[t] else 0 }

  predicate Is(f: FileItem, t: Triple) { f.ino == t.ino && f.At(t.offset) }

  predicate Positive(m: map<Triple, nat>) { forall t | t in m :: m[t] > 0 }

  /** One item listed, and counted, for every tree that shares it. */
  method OneFile(trees: Trees, at: nat, parent: nat, f: FileItem, sharing: set<nat>, items: seq<(nat, FileItem)>,
                 seen: set<(nat, nat, nat)>, expanded: map<Triple, nat>)
    returns (now: seq<(nat, FileItem)>, keys: set<(nat, nat, nat)>, more: map<Triple, nat>)
    requires KeysUnique(trees) && Listing(trees, items, seen) && f.start >= f.offset && Positive(expanded)
    requires forall r | r in sharing :: f in FilesIn(trees, at, parent, r)
    ensures Listing(trees, now, keys) && Positive(more)
    ensures forall x :: x in now <==> x in items || (x.0 in sharing && x.1 == f)
    ensures forall t :: Tally(more, t) == Tally(expanded, t) + if t.tree in sharing && Is(f, t) then 1 else 0
  {
    now, keys, more := items, seen, expanded;
    var todo := sharing;
    hide Listing, KeysUnique;
    while todo != {}
      invariant todo <= sharing && Listing(trees, now, keys) && Positive(more)
      invariant forall x :: x in now <==> x in items || (x.0 in sharing - todo && x.1 == f)
      invariant forall t :: Tally(more, t) == Tally(expanded, t) + if t.tree in sharing - todo && Is(f, t) then 1 else 0
    {
      var root :| root in todo;
      InTree(trees, at, parent, root, f);
      now, keys := List(trees, now, keys, (root, f));
      var t := Triple(root, f.ino, f.start - f.offset);
      more := more[t := Tally(more, t) + 1];
      todo := todo - {root};
    }
  }

  lemma InTree(trees: Trees, at: nat, parent: nat, root: nat, f: FileItem)
    requires f in FilesIn(trees, at, parent, root)
    ensures Holds(trees, root, f, parent) && f.bytenr == at
  {
    var g :| g in trees[root] && g.leaf == parent && g.item == f;
    assert g == Filed(f, parent);
  }

  /** The items of the leaf, seen through the reference's own tree, that it names. */
  function LeafNamed(trees: Trees, roots: seq<nat>, at: nat, parent: nat, t: Triple): set<FileItem> {
    if t.tree in roots then set f | f in FilesIn(trees, at, parent, t.tree) && Is(f, t) else {}
  }

  ghost predicate InLeafOf(trees: Trees, roots: seq<nat>, at: nat, parent: nat, x: (nat, FileItem)) {
    x.0 in roots && x.1 in FilesIn(trees, at, parent, x.0)
  }

  /** The leaf's items are listed besides those there were, for each tree that shares it. */
  ghost predicate LeafListed(trees: Trees, roots: seq<nat>, at: nat, parent: nat, items: seq<(nat, FileItem)>, now: seq<(nat, FileItem)>) {
    forall x :: x in now <==> x in items || InLeafOf(trees, roots, at, parent, x)
  }

  /** Each reference counts one more for each of them it names. */
  ghost predicate LeafCounted(trees: Trees, roots: seq<nat>, at: nat, parent: nat, expanded: map<Triple, nat>, more: map<Triple, nat>) {
    forall t :: Tally(more, t) == Tally(expanded, t) + |LeafNamed(trees, roots, at, parent, t)|
  }

  /** No item of these starts before the extent. */
  predicate Late(files: set<FileItem>) { forall f | f in files :: f.start >= f.offset }

  /** Every item of one shared leaf, or a refusal where one starts before its extent. */
  method OneLeaf(trees: Trees, roots: seq<nat>, at: nat, s: (nat, nat), items: seq<(nat, FileItem)>,
                 seen: set<(nat, nat, nat)>, expanded: map<Triple, nat>)
    returns (r: Result<(seq<(nat, FileItem)>, set<(nat, nat, nat)>, map<Triple, nat>), NamingError>)
    requires KeysUnique(trees) && Listing(trees, items, seen) && AllThere(trees, roots) && Positive(expanded)
    ensures r.Ok? <==> LeafRight(trees, roots, at, s)
    ensures r.Ok? ==> Listing(trees, r.value.0, r.value.1) && Positive(r.value.2)
    ensures r.Ok? ==> LeafListed(trees, roots, at, s.0, items, r.value.0) && LeafCounted(trees, roots, at, s.0, expanded, r.value.2)
  {
    hide Listing, KeysUnique, AllThere, FilesIn, Positive, Is, Tally, Listed, Tallied, Shares, LeafFiles, LeafNamed, InLeafOf, LeafListed, LeafCounted;
    var physical := Physical(trees, roots, at, s.0);
    assert |physical| == |physical.Keys|;
    if |physical| != s.1 { return Err(Miscounted); }
    var now, keys, more := items, seen, expanded;
    var todo := physical.Keys;
    ghost var done: set<FileItem> := {};
    NoneDone(trees, roots, at, s.0, items, expanded);
    while todo != {}
      invariant todo + done == physical.Keys && todo !! done
      invariant Listing(trees, now, keys) && Positive(more)
      invariant Late(done)
      invariant Listed(trees, roots, at, s.0, done, items, now) && Tallied(trees, roots, at, s.0, done, expanded, more)
      decreases |todo|
    {
      var f :| f in todo;
      if f.start < f.offset { return Err(BeforeItsExtent); }
      SharingTrees(trees, roots, at, s.0, physical, f);
      var newer, newKeys, evenMore := OneFile(trees, at, s.0, f, physical[f], now, keys, more);
      OneMoreFile(trees, roots, at, s.0, done, f, physical[f], items, now, newer, expanded, more, evenMore);
      now, keys, more := newer, newKeys, evenMore;
      todo, done := todo - {f}, done + {f};
    }
    assert done == physical.Keys;
    AllDone(trees, roots, at, s.0, items, now, expanded, more);
    return Ok((now, keys, more));
  }

  /** The files done so far are listed, through every tree that shares the leaf. */
  ghost predicate Listed(trees: Trees, roots: seq<nat>, at: nat, parent: nat, done: set<FileItem>,
                         items: seq<(nat, FileItem)>, now: seq<(nat, FileItem)>) {
    forall x :: x in now <==> x in items || (x.1 in done && InLeafOf(trees, roots, at, parent, x))
  }

  /** ... and counted. */
  ghost predicate Tallied(trees: Trees, roots: seq<nat>, at: nat, parent: nat, done: set<FileItem>,
                          expanded: map<Triple, nat>, more: map<Triple, nat>) {
    forall t :: Tally(more, t) == Tally(expanded, t) + |Within(trees, roots, at, parent, t, done)|
  }

  lemma NoneDone(trees: Trees, roots: seq<nat>, at: nat, parent: nat, items: seq<(nat, FileItem)>, expanded: map<Triple, nat>)
    ensures Listed(trees, roots, at, parent, {}, items, items) && Tallied(trees, roots, at, parent, {}, expanded, expanded)
  {
  }

  lemma SharingTrees(trees: Trees, roots: seq<nat>, at: nat, parent: nat, physical: map<FileItem, set<nat>>, f: FileItem)
    requires Shares(trees, roots, at, parent, physical) && f in physical
    ensures forall r :: r in physical[f] <==> r in roots && f in FilesIn(trees, at, parent, r)
  {
    hide FilesIn;
    assert forall r :: r in physical[f] <==> Has(physical, f, r);
  }

  lemma OneMoreFile(trees: Trees, roots: seq<nat>, at: nat, parent: nat, done: set<FileItem>, f: FileItem, sharing: set<nat>,
                    items: seq<(nat, FileItem)>, now: seq<(nat, FileItem)>, newer: seq<(nat, FileItem)>,
                    expanded: map<Triple, nat>, more: map<Triple, nat>, evenMore: map<Triple, nat>)
    requires f !in done && Listed(trees, roots, at, parent, done, items, now)
    requires Tallied(trees, roots, at, parent, done, expanded, more)
    requires forall r :: r in sharing <==> r in roots && f in FilesIn(trees, at, parent, r)
    requires forall x :: x in newer <==> x in now || (x.0 in sharing && x.1 == f)
    requires forall t :: Tally(evenMore, t) == Tally(more, t) + if t.tree in sharing && Is(f, t) then 1 else 0
    ensures Listed(trees, roots, at, parent, done + {f}, items, newer)
    ensures Tallied(trees, roots, at, parent, done + {f}, expanded, evenMore)
  {
    hide FilesIn, Is, Within, Tally;
    forall t ensures Tally(evenMore, t) == Tally(expanded, t) + |Within(trees, roots, at, parent, t, done + {f})| {
      OneWithin(trees, roots, at, parent, t, done, f, sharing);
    }
  }

  lemma AllDone(trees: Trees, roots: seq<nat>, at: nat, parent: nat, items: seq<(nat, FileItem)>, now: seq<(nat, FileItem)>,
                expanded: map<Triple, nat>, more: map<Triple, nat>)
    requires var done := LeafFiles(trees, roots, at, parent);
      Listed(trees, roots, at, parent, done, items, now) && Tallied(trees, roots, at, parent, done, expanded, more)
    ensures LeafListed(trees, roots, at, parent, items, now) && LeafCounted(trees, roots, at, parent, expanded, more)
  {
    hide FilesIn, Within, LeafNamed, Tally;
    forall t ensures Within(trees, roots, at, parent, t, LeafFiles(trees, roots, at, parent)) == LeafNamed(trees, roots, at, parent, t) {
      AllWithin(trees, roots, at, parent, t);
    }
    forall x | InLeafOf(trees, roots, at, parent, x) ensures x.1 in LeafFiles(trees, roots, at, parent) {
      var i :| 0 <= i < |roots| && roots[i] == x.0;
      assert x.1 in FilesIn(trees, at, parent, roots[i]);
    }
  }

  function Within(trees: Trees, roots: seq<nat>, at: nat, parent: nat, t: Triple, done: set<FileItem>): set<FileItem> {
    set f | f in done && f in LeafNamed(trees, roots, at, parent, t)
  }

  lemma AllWithin(trees: Trees, roots: seq<nat>, at: nat, parent: nat, t: Triple)
    ensures Within(trees, roots, at, parent, t, LeafFiles(trees, roots, at, parent)) == LeafNamed(trees, roots, at, parent, t)
  {
    hide FilesIn;
    forall f | f in LeafNamed(trees, roots, at, parent, t) ensures f in LeafFiles(trees, roots, at, parent) {
      var i :| 0 <= i < |roots| && roots[i] == t.tree;
      assert f in FilesIn(trees, at, parent, roots[i]);
    }
  }

  lemma OneWithin(trees: Trees, roots: seq<nat>, at: nat, parent: nat, t: Triple, done: set<FileItem>, f: FileItem, sharing: set<nat>)
    requires f !in done
    requires forall r :: r in sharing <==> r in roots && f in FilesIn(trees, at, parent, r)
    ensures |Within(trees, roots, at, parent, t, done + {f})|
         == |Within(trees, roots, at, parent, t, done)| + if t.tree in sharing && Is(f, t) then 1 else 0
  {
    var was, now := Within(trees, roots, at, parent, t, done), Within(trees, roots, at, parent, t, done + {f});
    hide FilesIn, Is;
    if f in now {
      assert now == was + {f};
    } else {
      assert now == was;
    }
  }

  // ----------------------------------------------------------------- every shared leaf

  ghost predicate InSharedLeaf(trees: Trees, roots: seq<nat>, at: nat, shared: seq<(nat, nat)>, x: (nat, FileItem)) {
    exists i :: 0 <= i < |shared| && InLeafOf(trees, roots, at, shared[i].0, x)
  }

  /** How many items a reference names through the shared leaves, leaf by leaf. */
  function SharedCount(trees: Trees, roots: seq<nat>, at: nat, shared: seq<(nat, nat)>, t: Triple): nat {
    if shared == [] then 0 else
      SharedCount(trees, roots, at, shared[..|shared|-1], t) + |LeafNamed(trees, roots, at, shared[|shared|-1].0, t)|
  }

  ghost predicate LeavesRight(trees: Trees, roots: seq<nat>, at: nat, shared: seq<(nat, nat)>) {
    forall i | 0 <= i < |shared| :: LeafRight(trees, roots, at, shared[i])
  }

  predicate IsBy(rest: seq<(nat, nat)>, parent: nat) { exists k :: 0 <= k < |rest| && rest[k].0 == parent }

  /** The shared references of the list are by the parents of `rest`, each at most once. */
  ghost predicate OnlyBy(refs: seq<Ref>, rest: seq<(nat, nat)>) {
    && OnlyDataOrShared(refs)
    && (forall i | 0 <= i < |refs| && refs[i].kind == SHARED_DATA_REF :: refs[i].b == refs[i].c == 0 && IsBy(rest, refs[i].a))
    && (forall i, j | 0 <= i < j < |refs| && refs[i].kind == refs[j].kind == SHARED_DATA_REF :: refs[i].a != refs[j].a)
  }

  lemma {:induction false} DataInJoin(a: seq<Ref>, b: seq<Ref>)
    ensures DataIn(a + b) == DataIn(a) + DataIn(b)
  {
    hide DataOf;
    if b == [] {
      assert a + b == a;
    } else {
      assert (a + b)[..|a + b|-1] == a + b[..|b|-1];
      DataInJoin(a, b[..|b|-1]);
    }
  }

  lemma NoDataIn(r: Ref)
    requires r.kind == SHARED_DATA_REF
    ensures DataIn([r]) == []
  {
    assert [r][..0] == [];
  }

  lemma {:induction false} TakenOut(refs: seq<Ref>, i: nat)
    requires i < |refs| && refs[i].kind == SHARED_DATA_REF
    ensures DataIn(Without(refs, i)) == DataIn(refs)
  {
    var r := [refs[i]];
    NoDataIn(refs[i]);
    hide DataIn, DataOf;
    assert refs == refs[..i] + (r + refs[i+1..]);
    DataInJoin(refs[..i], r + refs[i+1..]);
    DataInJoin(r, refs[i+1..]);
    DataInJoin(refs[..i], refs[i+1..]);
    assert [] + DataIn(refs[i+1..]) == DataIn(refs[i+1..]);
  }

  /** Only the reference found, if any is, is by that parent. */
  lemma {:induction false} OnlyParent(refs: seq<Ref>, rest: seq<(nat, nat)>, i: nat)
    requires rest != [] && OnlyBy(refs, rest) && i == Find(refs, Plain(SHARED_DATA_REF, rest[0].0, 0), 0)
    ensures i < |refs| ==> refs[i].kind == SHARED_DATA_REF
    ensures forall j | 0 <= j < |refs| && j != i && refs[j].kind == SHARED_DATA_REF :: IsBy(rest[1..], refs[j].a)
  {
    forall j | 0 <= j < |refs| && j != i && refs[j].kind == SHARED_DATA_REF ensures IsBy(rest[1..], refs[j].a) {
      assert refs[j].Names(Plain(SHARED_DATA_REF, refs[j].a, 0));
      var k :| 0 <= k < |rest| && rest[k].0 == refs[j].a;
      assert rest[1..][k-1] == rest[k];
    }
  }

  lemma {:induction false} WithoutOnlyBy(refs: seq<Ref>, rest: seq<(nat, nat)>, i: nat)
    requires rest != [] && OnlyBy(refs, rest) && i < |refs|
    requires forall j | 0 <= j < |refs| && j != i && refs[j].kind == SHARED_DATA_REF :: IsBy(rest[1..], refs[j].a)
    ensures OnlyBy(Without(refs, i), rest[1..])
  {
    hide IsBy;
    var now := Without(refs, i);
    assert forall j | 0 <= j < |now| :: now[j] == refs[if j < i then j else j + 1];
  }

  /** A parent's reference taken out leaves those of the other parents. */
  lemma {:induction false} TakenBy(rec: Record, rest: seq<(nat, nat)>)
    requires rest != [] && OnlyBy(rec.refs, rest)
    ensures var taken := TakeShared(rec, SHARED_DATA_REF, rest[0].0);
      var now := if taken.Some? then taken.value.0 else rec;
      OnlyBy(now.refs, rest[1..]) && DataIn(now.refs) == DataIn(rec.refs) && now == rec.(refs := now.refs)
  {
    var i := Find(rec.refs, Plain(SHARED_DATA_REF, rest[0].0, 0), 0);
    OnlyParent(rec.refs, rest, i);
    if i < |rec.refs| {
      TakenOut(rec.refs, i);
      WithoutOnlyBy(rec.refs, rest, i);
    }
    hide DataIn, Find, Without, IsBy;
  }

  // ---------------------------------------------------------------- the leaves in turn

  /** What expanding the first `n` shared references has come to. */
  ghost predicate LeavesDone(trees: Trees, roots: seq<nat>, at: nat, shared: seq<(nat, nat)>, n: nat,
                             items: seq<(nat, FileItem)>, now: seq<(nat, FileItem)>, more: map<Triple, nat>)
    requires n <= |shared|
  {
    && (forall x :: x in now <==> x in items || InSharedLeaf(trees, roots, at, shared[..n], x))
    && (forall t :: Tally(more, t) == SharedCount(trees, roots, at, shared[..n], t))
  }

  lemma {:induction false} OneMoreLeaf(trees: Trees, roots: seq<nat>, at: nat, shared: seq<(nat, nat)>, n: nat, items: seq<(nat, FileItem)>,
                    now: seq<(nat, FileItem)>, newer: seq<(nat, FileItem)>, more: map<Triple, nat>, evenMore: map<Triple, nat>)
    requires n < |shared| && LeavesDone(trees, roots, at, shared, n, items, now, more)
    requires LeafListed(trees, roots, at, shared[n].0, now, newer) && LeafCounted(trees, roots, at, shared[n].0, more, evenMore)
    ensures LeavesDone(trees, roots, at, shared, n + 1, items, newer, evenMore)
  {
    hide LeafNamed, InLeafOf, Tally;
    var upTo := shared[..n+1];
    assert upTo[..n] == shared[..n] && upTo[n] == shared[n];
    forall x ensures InSharedLeaf(trees, roots, at, upTo, x) <==> InSharedLeaf(trees, roots, at, shared[..n], x) || InLeafOf(trees, roots, at, shared[n].0, x) {
      assert forall i | 0 <= i < n :: upTo[i] == shared[..n][i];
    }
  }

  /** Every shared leaf's items, each tree's own references to them, and the record
      without the references those replace. */
  method AllLeaves(trees: Trees, roots: seq<nat>, at: nat, shared: seq<(nat, nat)>, items: seq<(nat, FileItem)>,
                   seen: set<(nat, nat, nat)>, body: Record)
    returns (r: Result<(seq<(nat, FileItem)>, map<Triple, nat>, Record), NamingError>)
    requires KeysUnique(trees) && Listing(trees, items, seen) && AllThere(trees, roots) && OnlyBy(body.refs, shared)
    ensures r.Ok? <==> LeavesRight(trees, roots, at, shared)
    ensures r.Ok? ==> Distinct(r.value.0) && Positive(r.value.1)
    ensures r.Ok? ==> LeavesDone(trees, roots, at, shared, |shared|, items, r.value.0, r.value.1)
    ensures r.Ok? ==> OnlyBy(r.value.2.refs, []) && DataIn(r.value.2.refs) == DataIn(body.refs) && r.value.2 == body.(refs := r.value.2.refs)
  {
    var now, keys, more, rest := items, seen, map[], body;
    assert shared[0..] == shared && shared[|shared|..] == [] && shared[..0] == [];
    hide KeysUnique, AllThere, OnlyBy, DataIn, Positive, LeafRight, LeafListed, LeafCounted;
    for i := 0 to |shared|
      invariant Listing(trees, now, keys) && Positive(more) && LeavesDone(trees, roots, at, shared, i, items, now, more)
      invariant forall k | 0 <= k < i :: LeafRight(trees, roots, at, shared[k])
      invariant OnlyBy(rest.refs, shared[i..]) && DataIn(rest.refs) == DataIn(body.refs) && rest == body.(refs := rest.refs)
    {
      hide LeavesDone, Listing;
      var leaf := OneLeaf(trees, roots, at, shared[i], now, keys, more);
      if leaf.Err? { return Err(leaf.error); }
      OneMoreLeaf(trees, roots, at, shared, i, items, now, leaf.value.0, more, leaf.value.2);
      now, keys, more := leaf.value.0, leaf.value.1, leaf.value.2;
      TakenBy(rest, shared[i..]);
      assert shared[i..][1..] == shared[i+1..];
      var taken := TakeShared(rest, SHARED_DATA_REF, shared[i].0);
      rest := if taken.Some? then taken.value.0 else rest;
    }
    return Ok((now, more, rest));
  }
}
