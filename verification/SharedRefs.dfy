/** The file items naming a data extent that is to be moved (`file_items_naming` in
    src/balance.rs): each found once, with the references shared leaves hold turned
    into references of their own. */
module SharedRefs {
  import opened Base
  import opened Backref

  /** A file's extent item: which inode's, where, and what it names. */
  datatype FileItem = FileItem(ino: nat, start: nat, bytenr: nat, offset: nat, rest: nat) {
    predicate At(off: nat) { start >= offset && start - offset == off }
  }

  /** A tree's items, each with the leaf it lies in. */
  datatype Filed = Filed(item: FileItem, leaf: nat)

  type Trees = map<nat, seq<Filed>>

  /** What a data reference names: the tree, the inode, the file offset. */
  datatype Triple = Triple(tree: nat, ino: nat, offset: nat)

  /** A data reference kept as an item of its own, under the hash it is filed by. */
  datatype KeyedRef = KeyedRef(key: nat, name: Triple, count: nat)

  datatype Extent = Extent(at: nat, body: Backref.Record, keyed: seq<KeyedRef>, sharedKeyed: seq<(nat, nat)>)

  datatype Found = Found(items: seq<(nat, FileItem)>, body: Backref.Record, expanded: seq<KeyedRef>)

  datatype NamingError =
    | NotData(kind: nat) | ParentTwice | CountsDiffer | NoTree(tree: nat) | Miscounted | BeforeItsExtent
    | HashTaken | Overflow | TooFew

  function NameOf(r: Ref): Triple { Triple(r.a, r.b, r.c) }

  // --------------------------------------------------------- references, counted

  function CountIn(refs: seq<Ref>, t: Triple): nat {
    if refs == [] then 0 else
      var r := refs[|refs|-1];
      CountIn(refs[..|refs|-1], t) + if r.kind == EXTENT_DATA_REF && NameOf(r) == t then r.count else 0
  }

  function CountKeyed(keyed: seq<KeyedRef>, t: Triple): nat {
    if keyed == [] then 0 else
      CountKeyed(keyed[..|keyed|-1], t) + if keyed[|keyed|-1].name == t then keyed[|keyed|-1].count else 0
  }

  function KeyedSum(keyed: seq<KeyedRef>): nat {
    if keyed == [] then 0 else KeyedSum(keyed[..|keyed|-1]) + keyed[|keyed|-1].count
  }

  function SharedSum(shared: seq<(nat, nat)>): nat {
    if shared == [] then 0 else SharedSum(shared[..|shared|-1]) + shared[|shared|-1].1
  }

  function SharedOf(r: Ref): seq<(nat, nat)> { if r.kind == SHARED_DATA_REF then [(r.a, r.count)] else [] }

  function DataOf(r: Ref): seq<KeyedRef> { if r.kind == EXTENT_DATA_REF then [KeyedRef(0, NameOf(r), r.count)] else [] }

  function SharedIn(refs: seq<Ref>): seq<(nat, nat)> {
    if refs == [] then [] else SharedIn(refs[..|refs|-1]) + SharedOf(refs[|refs|-1])
  }

  function DataIn(refs: seq<Ref>): seq<KeyedRef> {
    if refs == [] then [] else DataIn(refs[..|refs|-1]) + DataOf(refs[|refs|-1])
  }

  predicate OnlyData(refs: seq<Ref>) { forall i | 0 <= i < |refs| :: refs[i].kind == EXTENT_DATA_REF }

  predicate OnlyDataOrShared(refs: seq<Ref>) {
    forall i | 0 <= i < |refs| :: refs[i].kind == EXTENT_DATA_REF || refs[i].kind == SHARED_DATA_REF
  }

  /** An extent's data references, inline and filed, and its shared ones. */
  function AllData(e: Extent): seq<KeyedRef> { DataIn(e.body.refs) + e.keyed }

  function AllShared(e: Extent): seq<(nat, nat)> { SharedIn(e.body.refs) + e.sharedKeyed }

  lemma {:induction false} KeyedSumJoin(a: seq<KeyedRef>, b: seq<KeyedRef>)
    ensures KeyedSum(a + b) == KeyedSum(a) + KeyedSum(b)
  {
    if b == [] {
      assert a + b == a;
    } else {
      assert (a + b)[..|a + b|-1] == a + b[..|b|-1];
      KeyedSumJoin(a, b[..|b|-1]);
    }
  }

  lemma {:induction false} CountKeyedJoin(a: seq<KeyedRef>, b: seq<KeyedRef>, t: Triple)
    ensures CountKeyed(a + b, t) == CountKeyed(a, t) + CountKeyed(b, t)
  {
    if b == [] {
      assert a + b == a;
    } else {
      assert (a + b)[..|a + b|-1] == a + b[..|b|-1];
      CountKeyedJoin(a, b[..|b|-1], t);
    }
  }

  lemma {:induction false} CountInJoin(a: seq<Ref>, b: seq<Ref>, t: Triple)
    ensures CountIn(a + b, t) == CountIn(a, t) + CountIn(b, t)
  {
    if b == [] {
      assert a + b == a;
    } else {
      assert (a + b)[..|a + b|-1] == a + b[..|b|-1];
      CountInJoin(a, b[..|b|-1], t);
    }
  }

  lemma {:induction false} SharedSumJoin(a: seq<(nat, nat)>, b: seq<(nat, nat)>)
    ensures SharedSum(a + b) == SharedSum(a) + SharedSum(b)
  {
    if b == [] {
      assert a + b == a;
    } else {
      assert (a + b)[..|a + b|-1] == a + b[..|b|-1];
      SharedSumJoin(a, b[..|b|-1]);
    }
  }

  lemma OneByKind(r: Ref, t: Triple)
    requires r.kind == EXTENT_DATA_REF || r.kind == SHARED_DATA_REF
    ensures r.count == KeyedSum(DataOf(r)) + SharedSum(SharedOf(r))
    ensures CountKeyed(DataOf(r), t) == if r.kind == EXTENT_DATA_REF && NameOf(r) == t then r.count else 0
  {
    assert DataOf(r) != [] ==> DataOf(r)[..0] == [];
    assert SharedOf(r) != [] ==> SharedOf(r)[..0] == [];
  }

  /** A record of data and shared references counts as many as the two lists do. */
  lemma {:induction false} SplitsByKind(refs: seq<Ref>, t: Triple)
    requires OnlyDataOrShared(refs)
    ensures Sum(refs) == KeyedSum(DataIn(refs)) + SharedSum(SharedIn(refs))
    ensures CountIn(refs, t) == CountKeyed(DataIn(refs), t)
  {
    hide KeyedSum, SharedSum, CountKeyed, DataOf, SharedOf;
    if refs != [] {
      var init, r := refs[..|refs|-1], refs[|refs|-1];
      SplitsByKind(init, t);
      KeyedSumJoin(DataIn(init), DataOf(r));
      CountKeyedJoin(DataIn(init), DataOf(r), t);
      SharedSumJoin(SharedIn(init), SharedOf(r));
      OneByKind(r, t);
    } else {
      NoneCounted(t);
    }
  }

  lemma NoneCounted(t: Triple)
    ensures KeyedSum([]) == 0 && SharedSum([]) == 0 && CountKeyed([], t) == 0
  {
  }

  // ------------------------------------------------------------- reading the record

  predicate ParentsDiffer(shared: seq<(nat, nat)>) {
    forall i, j | 0 <= i < j < |shared| :: shared[i].0 != shared[j].0
  }

  /** Data references only, each shared parent once, and the record's count theirs. */
  ghost predicate AddsUp(e: Extent) {
    && OnlyDataOrShared(e.body.refs) && ParentsDiffer(AllShared(e))
    && e.body.total == KeyedSum(AllData(e)) + SharedSum(AllShared(e))
  }

  lemma InNext(refs: seq<Ref>, i: nat)
    requires i < |refs|
    ensures DataIn(refs[..i+1]) == DataIn(refs[..i]) + DataOf(refs[i]) && SharedIn(refs[..i+1]) == SharedIn(refs[..i]) + SharedOf(refs[i])
    ensures OnlyDataOrShared(refs[..i]) && (refs[i].kind == EXTENT_DATA_REF || refs[i].kind == SHARED_DATA_REF) ==> OnlyDataOrShared(refs[..i+1])
    ensures OnlyDataOrShared(refs) ==> refs[i].kind == EXTENT_DATA_REF || refs[i].kind == SHARED_DATA_REF
  {
    assert refs[..i+1][..i] == refs[..i];
  }

  /** What the extent's record and items refer to, refused unless it adds up. */
  method Collect(e: Extent) returns (r: Result<(seq<KeyedRef>, seq<(nat, nat)>), NamingError>)
    ensures r.Ok? <==> AddsUp(e)
    ensures r.Ok? ==> r.value == (AllData(e), AllShared(e))
  {
    var refs := e.body.refs;
    var data: seq<KeyedRef>, shared: seq<(nat, nat)> := [], [];
    assert refs[..0] == [] && refs[..|refs|] == refs;
    assert OnlyDataOrShared(refs[..0]) && DataIn([]) == [] && SharedIn([]) == [];
    hide DataIn, SharedIn, OnlyDataOrShared, DataOf, SharedOf, KeyedSum, SharedSum, ParentsDiffer;
    for i := 0 to |refs|
      invariant data == DataIn(refs[..i]) && shared == SharedIn(refs[..i]) && OnlyDataOrShared(refs[..i])
    {
      InNext(refs, i);
      if refs[i].kind != EXTENT_DATA_REF && refs[i].kind != SHARED_DATA_REF { return Err(NotData(refs[i].kind)); }
      data, shared := data + DataOf(refs[i]), shared + SharedOf(refs[i]);
    }
    data, shared := data + e.keyed, shared + e.sharedKeyed;
    if !ParentsDiffer(shared) { return Err(ParentTwice); }
    if e.body.total != KeyedSum(data) + SharedSum(shared) { return Err(CountsDiffer); }
    return Ok((data, shared));
  }

  // --------------------------------------------------------------- the items found

  /** A tree files each of its items under a key of its own. */
  ghost predicate KeysUnique(trees: Trees) {
    forall root, i, j | root in trees && 0 <= i < |trees[root]| && 0 <= j < |trees[root]|
      && trees[root][i].item.ino == trees[root][j].item.ino && trees[root][i].item.start == trees[root][j].item.start :: i == j
  }

  ghost predicate Holds(trees: Trees, root: nat, f: FileItem, leaf: nat) {
    root in trees && Filed(f, leaf) in trees[root]
  }

  predicate Fits(f: FileItem, at: nat, t: Triple) { f.ino == t.ino && f.bytenr == at && f.At(t.offset) }

  /** The tree has the item, and it names the extent as the reference says. */
  ghost predicate NamedBy(trees: Trees, at: nat, t: Triple, x: (nat, FileItem)) {
    x.0 == t.tree && Fits(x.1, at, t) && exists leaf :: Holds(trees, x.0, x.1, leaf)
  }

  ghost predicate Distinct(items: seq<(nat, FileItem)>) { forall i, j | 0 <= i < j < |items| :: items[i] != items[j] }

  /** An item's key, as the set of keys already seen holds it. */
  function KeyOf(x: (nat, FileItem)): (nat, nat, nat) { (x.0, x.1.ino, x.1.start) }

  /** What is listed is in its tree, once, and its key is among those seen. */
  ghost predicate Listing(trees: Trees, items: seq<(nat, FileItem)>, seen: set<(nat, nat, nat)>) {
    && Distinct(items)
    && (forall x | x in items :: KeyOf(x) in seen && exists leaf :: Holds(trees, x.0, x.1, leaf))
    && (forall k | k in seen :: exists x :: x in items && KeyOf(x) == k)
  }

  lemma SameKeySameItem(trees: Trees, x: (nat, FileItem), y: (nat, FileItem))
    requires KeysUnique(trees) && KeyOf(x) == KeyOf(y)
    requires (exists leaf :: Holds(trees, x.0, x.1, leaf)) && (exists leaf :: Holds(trees, y.0, y.1, leaf))
    ensures x == y
  {
    var a :| Holds(trees, x.0, x.1, a);
    var b :| Holds(trees, y.0, y.1, b);
    var i :| 0 <= i < |trees[x.0]| && trees[x.0][i] == Filed(x.1, a);
    var j :| 0 <= j < |trees[x.0]| && trees[x.0][j] == Filed(y.1, b);
  }

  /** Listing an item of a tree lists it once, whether or not it was listed. */
  method List(trees: Trees, items: seq<(nat, FileItem)>, seen: set<(nat, nat, nat)>, x: (nat, FileItem))
    returns (now: seq<(nat, FileItem)>, keys: set<(nat, nat, nat)>)
    requires KeysUnique(trees) && Listing(trees, items, seen) && exists leaf :: Holds(trees, x.0, x.1, leaf)
    ensures Listing(trees, now, keys)
    ensures forall y :: y in now <==> y in items || y == x
  {
    if KeyOf(x) in seen {
      ghost var y :| y in items && KeyOf(y) == KeyOf(x);
      SameKeySameItem(trees, x, y);
      return items, seen;
    }
    assert forall y | y in items :: KeyOf(y) in seen;
    now, keys := items + [x], seen + {KeyOf(x)};
    assert now[|items|] == x;
    forall k | k in keys ensures exists z :: z in now && KeyOf(z) == k {
      if k in seen {
        ghost var z :| z in items && KeyOf(z) == k;
        assert z in now;
      } else {
        assert x in now;
      }
    }
  }

  /** How many of a tree's items the reference names. */
  function NamedCount(filed: seq<Filed>, at: nat, t: Triple): nat {
    if filed == [] then 0 else
      NamedCount(filed[..|filed|-1], at, t) + if Fits(filed[|filed|-1].item, at, t) then 1 else 0
  }

  ghost predicate NamedByAny(trees: Trees, at: nat, data: seq<KeyedRef>, x: (nat, FileItem)) {
    exists i :: 0 <= i < |data| && NamedBy(trees, at, data[i].name, x)
  }

  /** Each reference's items, as many as it counts. */
  ghost predicate CountsRight(trees: Trees, at: nat, data: seq<KeyedRef>) {
    forall i | 0 <= i < |data| :: data[i].name.tree in trees && NamedCount(trees[data[i].name.tree], at, data[i].name) == data[i].count
  }

  lemma NamedNext(trees: Trees, at: nat, t: Triple, i: nat, x: (nat, FileItem))
    requires KeysUnique(trees) && t.tree in trees && i < |trees[t.tree]|
    ensures NamedUpTo(trees, at, t, i + 1, x) <==> NamedUpTo(trees, at, t, i, x) || (Fits(trees[t.tree][i].item, at, t) && x == (t.tree, trees[t.tree][i].item))
  {
  }

  /** As `NamedBy`, among the tree's first `n` items. */
  ghost predicate NamedUpTo(trees: Trees, at: nat, t: Triple, n: nat, x: (nat, FileItem))
    requires t.tree in trees && n <= |trees[t.tree]|
  {
    x.0 == t.tree && Fits(x.1, at, t) && exists j :: 0 <= j < n && trees[t.tree][j].item == x.1
  }

  lemma NamedAll(trees: Trees, at: nat, t: Triple, x: (nat, FileItem))
    requires t.tree in trees
    ensures NamedUpTo(trees, at, t, |trees[t.tree]|, x) <==> NamedBy(trees, at, t, x)
  {
    var filed := trees[t.tree];
    if j: nat :| j < |filed| && filed[j].item == x.1 && x.0 == t.tree {
      assert filed[j] == Filed(x.1, filed[j].leaf) && filed[j] in filed;
      assert Holds(trees, x.0, x.1, filed[j].leaf);
    }
    if leaf :| Holds(trees, x.0, x.1, leaf) && x.0 == t.tree {
      var j :| 0 <= j < |filed| && filed[j] == Filed(x.1, leaf);
      assert filed[j].item == x.1;
    }
  }

  /** The items one reference names, listed, and how many there are. */
  method ListNamed(trees: Trees, at: nat, t: Triple, items: seq<(nat, FileItem)>, seen: set<(nat, nat, nat)>)
    returns (now: seq<(nat, FileItem)>, keys: set<(nat, nat, nat)>, found: nat)
    requires KeysUnique(trees) && Listing(trees, items, seen) && t.tree in trees
    ensures Listing(trees, now, keys) && found == NamedCount(trees[t.tree], at, t)
    ensures forall x :: x in now <==> x in items || NamedBy(trees, at, t, x)
  {
    now, keys, found := items, seen, 0;
    var filed := trees[t.tree];
    hide Listing, KeysUnique, Fits, NamedBy;
    for i := 0 to |filed|
      invariant Listing(trees, now, keys) && found == NamedCount(filed[..i], at, t)
      invariant forall x :: x in now <==> x in items || NamedUpTo(trees, at, t, i, x)
    {
      var f := filed[i].item;
      assert filed[..i+1][..i] == filed[..i];
      forall x ensures NamedUpTo(trees, at, t, i + 1, x) <==> NamedUpTo(trees, at, t, i, x) || (Fits(f, at, t) && x == (t.tree, f)) {
        NamedNext(trees, at, t, i, x);
      }
      hide NamedUpTo;
      if !Fits(f, at, t) { continue; }
      found := found + 1;
      assert Holds(trees, t.tree, f, filed[i].leaf);
      now, keys := List(trees, now, keys, (t.tree, f));
    }
    assert filed[..|filed|] == filed;
    forall x ensures NamedUpTo(trees, at, t, |filed|, x) <==> NamedBy(trees, at, t, x) { NamedAll(trees, at, t, x); }
  }

  /** Every item a data reference names. */
  method FindKeyed(trees: Trees, at: nat, data: seq<KeyedRef>)
    returns (r: Result<(seq<(nat, FileItem)>, set<(nat, nat, nat)>), NamingError>)
    requires KeysUnique(trees)
    ensures r.Ok? <==> CountsRight(trees, at, data)
    ensures r.Ok? ==> Listing(trees, r.value.0, r.value.1) && forall x :: x in r.value.0 <==> NamedByAny(trees, at, data, x)
  {
    var items: seq<(nat, FileItem)>, seen: set<(nat, nat, nat)> := [], {};
    assert data[..0] == [] && data[..|data|] == data;
    hide NamedBy;
    for i := 0 to |data|
      invariant Listing(trees, items, seen) && CountsRight(trees, at, data[..i])
      invariant forall x :: x in items <==> NamedByAny(trees, at, data[..i], x)
    {
      hide Listing;
      var d := data[i];
      CountsPrefix(trees, at, data, i);
      if d.name.tree !in trees { return Err(NoTree(d.name.tree)); }
      var now, keys, found := ListNamed(trees, at, d.name, items, seen);
      if found != d.count { return Err(Miscounted); }
      forall x ensures NamedByAny(trees, at, data[..i+1], x) <==> NamedByAny(trees, at, data[..i], x) || NamedBy(trees, at, d.name, x) {
        NamedAnyNext(trees, at, data, i, x);
      }
      items, seen := now, keys;
    }
    return Ok((items, seen));
  }

  lemma CountsPrefix(trees: Trees, at: nat, data: seq<KeyedRef>, i: nat)
    requires i < |data|
    ensures var d := data[i];
      var right := d.name.tree in trees && NamedCount(trees[d.name.tree], at, d.name) == d.count;
      (CountsRight(trees, at, data[..i]) && right ==> CountsRight(trees, at, data[..i+1])) && (!right ==> !CountsRight(trees, at, data))
  {
  }

  lemma NamedAnyNext(trees: Trees, at: nat, data: seq<KeyedRef>, i: nat, x: (nat, FileItem))
    requires i < |data|
    ensures NamedByAny(trees, at, data[..i+1], x) <==> NamedByAny(trees, at, data[..i], x) || NamedBy(trees, at, data[i].name, x)
  {
    hide NamedBy;
    assert data[..i+1][i] == data[i];
    assert forall j | 0 <= j < i :: data[..i+1][j] == data[..i][j];
  }
}
