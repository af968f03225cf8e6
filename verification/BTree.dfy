/** The B-tree reader (src/btree.rs): descents and walks over blocks found by address,
    against the items of the tree in key order. A block that does not parse, or whose
    mirrors all fail, is one the map does not hold. */
module BTree {
  import opened Base

  datatype Ordering = Earlier | Same | Later

  datatype Key = Key(objectid: nat, kind: nat, offset: nat)

  function Compare(a: nat, b: nat): Ordering { if a < b then Earlier else if a == b then Same else Later }

  /** Object, then type, then offset. */
  function CompareKeys(a: Key, b: Key): Ordering {
    if a.objectid != b.objectid then Compare(a.objectid, b.objectid)
    else if a.kind != b.kind then Compare(a.kind, b.kind)
    else Compare(a.offset, b.offset)
  }

  predicate Before(a: Key, b: Key) { CompareKeys(a, b) == Earlier }

  lemma KeyOrder(a: Key, b: Key, c: Key)
    ensures CompareKeys(a, b) == Same <==> a == b
    ensures Before(a, b) <==> CompareKeys(b, a) == Later
    ensures Before(a, b) && Before(b, c) ==> Before(a, c)
    ensures Before(a, b) || a == b || Before(b, a)
    ensures !Before(b, a) && Before(b, c) ==> Before(a, c) || Before(b, c)
  {
  }

  datatype Item = Item(key: Key, data: nat)

  datatype Ptr = Ptr(key: Key, blockptr: nat, generation: nat)

  datatype Body = Leaf(items: seq<Item>) | Node(ptrs: seq<Ptr>)

  datatype Block = Block(level: nat, generation: nat, body: Body)

  datatype TreeError = Unreadable(at: nat) | WrongGeneration(at: nat) | WrongLevel(at: nat) | TooDeep(at: nat) | Twice(at: nat) | LevelZeroNode(at: nat)

  type Disk = map<nat, Block>

  const MAX_LEVEL: nat := 8

  predicate Ascending(keys: seq<Key>) { forall i, j | 0 <= i < j < |keys| :: Before(keys[i], keys[j]) }

  function ItemKeys(items: seq<Item>): seq<Key> { seq(|items|, i requires 0 <= i < |items| => items[i].key) }

  function PtrKeys(ptrs: seq<Ptr>): seq<Key> { seq(|ptrs|, i requires 0 <= i < |ptrs| => ptrs[i].key) }

  /** What parsing a block has shown: keys ascend, and a node has a child. */
  ghost predicate Parsed(b: Block) {
    match b.body
    case Leaf(items) => Ascending(ItemKeys(items))
    case Node(ptrs) => ptrs != [] && Ascending(PtrKeys(ptrs))
  }

  ghost predicate AllParsed(disk: Disk) { forall at | at in disk :: Parsed(disk[at]) }

  // -------------------------------------------------------------------- slots

  /** How many leading keys are at or before `key`. */
  function Above(keys: seq<Key>, key: Key, from: nat): (n: nat)
    requires from <= |keys|
    ensures from <= n <= |keys|
    ensures forall j | from <= j < n :: !Before(key, keys[j])
    ensures n < |keys| ==> Before(key, keys[n])
    decreases |keys| - from
  {
    if from == |keys| || Before(key, keys[from]) then from else Above(keys, key, from + 1)
  }

  /** How many leading keys are before `key`. */
  function Below(keys: seq<Key>, key: Key, from: nat): (n: nat)
    requires from <= |keys|
    ensures from <= n <= |keys|
    ensures forall j | from <= j < n :: Before(keys[j], key)
    ensures n < |keys| ==> !Before(keys[n], key)
    decreases |keys| - from
  {
    if from == |keys| || !Before(keys[from], key) then from else Below(keys, key, from + 1)
  }

  /** The child a descent takes: the last whose key is at or before the one sought,
      or the first. */
  function NodeSlot(ptrs: seq<Ptr>, key: Key): (slot: nat)
    requires ptrs != []
    ensures slot < |ptrs|
  {
    var above := Above(PtrKeys(ptrs), key, 0);
    if above == 0 then 0 else above - 1
  }

  /** Where a leaf's search settles: its first item at or after the key. */
  function LeafSlot(items: seq<Item>, key: Key): (slot: nat)
    ensures slot <= |items|
  {
    Below(ItemKeys(items), key, 0)
  }

  lemma NodeSlotSplits(ptrs: seq<Ptr>, key: Key)
    requires ptrs != [] && Ascending(PtrKeys(ptrs))
    ensures var slot := NodeSlot(ptrs, key);
      && (slot == 0 || !Before(key, ptrs[slot].key))
      && (forall j | slot < j < |ptrs| :: Before(key, ptrs[j].key))
  {
    var keys := PtrKeys(ptrs);
    var above := Above(keys, key, 0);
    forall j | above <= j < |ptrs| ensures Before(key, ptrs[j].key) {
      assert Before(key, keys[above]);
      if above < j { assert Before(keys[above], keys[j]); KeyOrder(key, keys[above], keys[j]); }
    }
    if above > 0 { assert !Before(key, keys[above - 1]); }
  }

  lemma LeafSlotSplits(items: seq<Item>, key: Key)
    requires Ascending(ItemKeys(items))
    ensures forall j | 0 <= j < LeafSlot(items, key) :: Before(items[j].key, key)
    ensures forall j | LeafSlot(items, key) <= j < |items| :: !Before(items[j].key, key)
  {
    var keys := ItemKeys(items);
    var slot := LeafSlot(items, key);
    forall j | 0 <= j < slot ensures Before(items[j].key, key) { assert Before(keys[j], key); }
    forall j | slot <= j < |items| ensures !Before(items[j].key, key) {
      if slot < j { assert Before(keys[slot], keys[j]); KeyOrder(keys[slot], keys[j], key); }
    }
  }

  // ----------------------------------------------------------- the tree itself

  /** A tree as its blocks build it. */
  datatype Tree =
    | Tip(at: nat, generation: nat, items: seq<Item>)
    | Branch(at: nat, generation: nat, level: nat, ptrs: seq<Ptr>, kids: seq<Tree>)
  {
    function Level(): nat { if Tip? then 0 else level }
  }

  function InOrder(t: Tree): seq<Item>
    decreases t
  {
    match t
    case Tip(_, _, items) => items
    case Branch(_, _, _, _, kids) => AllInOrder(kids)
  }

  function AllInOrder(kids: seq<Tree>): seq<Item>
    decreases kids
  {
    if kids == [] then [] else InOrder(kids[0]) + AllInOrder(kids[1..])
  }

  /** Every block of the tree lies where its parent says, a level below it. */
  ghost predicate Stored(disk: Disk, t: Tree)
    decreases t
  {
    match t
    case Tip(at, generation, items) => at in disk && disk[at] == Block(0, generation, Leaf(items))
    case Branch(at, generation, level, ptrs, kids) =>
      && at in disk && disk[at] == Block(level, generation, Node(ptrs))
      && |ptrs| == |kids| && level > 0
      && (forall i | 0 <= i < |kids| ::
            && ptrs[i].blockptr == kids[i].at && ptrs[i].generation == kids[i].generation
            && kids[i].Level() == level - 1 && Stored(disk, kids[i]))
  }

  ghost predicate AllBefore(items: seq<Item>, key: Key) { forall x | x in items :: Before(x.key, key) }

  ghost predicate NoneBefore(items: seq<Item>, key: Key) { forall x | x in items :: !Before(x.key, key) }

  /** Every child's items lie before the next child's key, and at or after its own;
      the first child may reach lower. */
  ghost predicate Searchable(t: Tree)
    decreases t
  {
    match t
    case Tip(_, _, _) => true
    case Branch(_, _, _, ptrs, kids) =>
      && |ptrs| == |kids|
      && (forall i | 0 <= i < |kids| :: Searchable(kids[i]))
      && (forall i | 0 <= i < |kids| - 1 :: AllBefore(InOrder(kids[i]), ptrs[i+1].key))
      && (forall i | 0 < i < |kids| :: NoneBefore(InOrder(kids[i]), ptrs[i].key))
  }

  function Blocks(t: Tree): set<nat>
    decreases t
  {
    match t
    case Tip(at, _, _) => {at}
    case Branch(at, _, _, _, kids) => {at} + AllBlocks(kids)
  }

  function AllBlocks(kids: seq<Tree>): set<nat>
    decreases kids
  {
    if kids == [] then {} else Blocks(kids[0]) + AllBlocks(kids[1..])
  }

  /** One path to each block. */
  ghost predicate Distinct(t: Tree)
    decreases t
  {
    match t
    case Tip(_, _, _) => true
    case Branch(at, _, _, _, kids) =>
      && at !in AllBlocks(kids)
      && (forall i | 0 <= i < |kids| :: Distinct(kids[i]))
      && (forall i, j | 0 <= i < j < |kids| :: Blocks(kids[i]) !! Blocks(kids[j]))
  }

  ghost predicate WellFormed(disk: Disk, t: Tree) {
    Stored(disk, t) && Searchable(t) && Distinct(t) && t.Level() < MAX_LEVEL
  }

  lemma {:induction false} KidBlocks(kids: seq<Tree>, i: nat)
    requires i < |kids|
    ensures Blocks(kids[i]) <= AllBlocks(kids)
    decreases kids
  {
    if i > 0 {
      KidBlocks(kids[1..], i - 1);
      assert kids[1..][i-1] == kids[i];
    }
  }

  lemma KidWellFormed(disk: Disk, t: Tree, i: nat)
    requires WellFormed(disk, t) && t.Branch? && i < |t.kids|
    ensures WellFormed(disk, t.kids[i]) && t.at !in Blocks(t.kids[i]) && Blocks(t.kids[i]) <= Blocks(t)
  {
    KidBlocks(t.kids, i);
  }

  lemma AtInBlocks(t: Tree) ensures t.at in Blocks(t) {}

  lemma {:induction false} InOrderSplit(kids: seq<Tree>, i: nat)
    requires i < |kids|
    ensures AllInOrder(kids) == AllInOrder(kids[..i]) + InOrder(kids[i]) + AllInOrder(kids[i+1..])
    decreases kids
  {
    if i == 0 {
      assert kids[..0] == [];
    } else {
      InOrderSplit(kids[1..], i - 1);
      assert kids[1..][..i-1] == kids[1..i] && kids[1..][i-1] == kids[i] && kids[1..][i..] == kids[i+1..];
      assert kids[..i][0] == kids[0] && kids[..i][1..] == kids[1..i];
    }
  }

  // ------------------------------------------------------------------ descents

  function ReadVerified(disk: Disk, at: nat, generation: Option<nat>): Result<Block, TreeError> {
    if at !in disk then Err(Unreadable(at))
    else if generation.Some? && disk[at].generation != generation.value then Err(WrongGeneration(at))
    else Ok(disk[at])
  }

  /** A node with a child for each pointer, all the way down. */
  predicate Wide(t: Tree)
    decreases t
  {
    match t
    case Tip(_, _, _) => true
    case Branch(_, _, _, ptrs, kids) => |ptrs| == |kids| && ptrs != [] && forall i | 0 <= i < |kids| :: Wide(kids[i])
  }

  lemma {:induction false} StoredWide(disk: Disk, t: Tree)
    requires Stored(disk, t) && AllParsed(disk)
    ensures Wide(t)
    decreases t
  {
    if t.Branch? {
      assert Parsed(disk[t.at]);
      forall i | 0 <= i < |t.kids| ensures Wide(t.kids[i]) { StoredWide(disk, t.kids[i]); }
    }
  }

  /** The blocks a descent reads, from `t` down. */
  function PathOf(disk: Disk, t: Tree, key: Key): seq<Block>
    requires Stored(disk, t) && Wide(t)
    decreases t
  {
    [disk[t.at]] + if t.Tip? then [] else PathOf(disk, t.kids[NodeSlot(t.ptrs, key)], key)
  }

  /** Where a descent stands in a well-formed tree: at the block of `here`, with the
      path behind it read. */
  ghost predicate Descending(disk: Disk, t: Tree, here: Tree, key: Key, at: nat, level: Option<nat>, generation: Option<nat>, path: seq<Block>) {
    && WellFormed(disk, t) && Wide(t)
    && WellFormed(disk, here) && Wide(here) && here.at == at && |path| + here.Level() < MAX_LEVEL
    && (level.Some? ==> level.value == here.Level()) && (generation.Some? ==> generation.value == here.generation)
    && PathOf(disk, t, key) == path + PathOf(disk, here, key)
  }

  lemma DescentStarts(disk: Disk, t: Tree, key: Key)
    requires AllParsed(disk) && WellFormed(disk, t)
    ensures Descending(disk, t, t, key, t.at, None, None, [])
  {
    StoredWide(disk, t);
    assert [] + PathOf(disk, t, key) == PathOf(disk, t, key);
  }

  lemma DescentReads(disk: Disk, t: Tree, here: Tree, key: Key, at: nat, level: Option<nat>, generation: Option<nat>, path: seq<Block>)
    requires Descending(disk, t, here, key, at, level, generation, path)
    ensures ReadVerified(disk, at, generation) == Ok(disk[at])
    ensures level.Some? ==> disk[at].level == level.value
    ensures disk[at].body.Node? ==> disk[at].level > 0 && here.Branch? && here.ptrs == disk[at].body.ptrs
    ensures disk[at].body.Leaf? ==> PathOf(disk, t, key) == path + [disk[at]]
  {
    assert here.Tip? ==> PathOf(disk, here, key) == [disk[at]];
  }

  lemma KidFacts(disk: Disk, t: Tree, i: nat)
    requires WellFormed(disk, t) && Wide(t) && t.Branch? && i < |t.kids|
    ensures |t.ptrs| == |t.kids| && WellFormed(disk, t.kids[i]) && Wide(t.kids[i])
    ensures t.ptrs[i].blockptr == t.kids[i].at && t.ptrs[i].generation == t.kids[i].generation
    ensures t.level > 0 && t.kids[i].Level() == t.level - 1
  {
    KidWellFormed(disk, t, i);
  }

  lemma PathSteps(disk: Disk, here: Tree, key: Key, slot: nat)
    requires Stored(disk, here) && Wide(here) && here.Branch? && slot == NodeSlot(here.ptrs, key)
    ensures PathOf(disk, here, key) == [disk[here.at]] + PathOf(disk, here.kids[slot], key)
  {
  }

  lemma DescentSteps(disk: Disk, t: Tree, here: Tree, key: Key, at: nat, level: Option<nat>, generation: Option<nat>, path: seq<Block>)
    requires Descending(disk, t, here, key, at, level, generation, path) && here.Branch?
    ensures var slot := NodeSlot(here.ptrs, key);
      Descending(disk, t, here.kids[slot], key, here.ptrs[slot].blockptr, Some(here.level - 1), Some(here.ptrs[slot].generation), path + [disk[at]])
  {
    assert here.ptrs != [] && |here.ptrs| == |here.kids|;
    var slot := NodeSlot(here.ptrs, key);
    hide Searchable, Distinct;
    KidFacts(disk, here, slot);
    PathSteps(disk, here, key, slot);
    hide WellFormed, Wide, PathOf, NodeSlot, Stored;
    Associate(path, [disk[at]], PathOf(disk, here.kids[slot], key));
  }

  lemma Associate<T>(a: seq<T>, b: seq<T>, c: seq<T>)
    ensures a + (b + c) == a + b + c
  {
  }

  lemma NoDescentLeft(disk: Disk, t: Tree, here: Tree, key: Key, at: nat, level: Option<nat>, generation: Option<nat>, path: seq<Block>)
    requires Descending(disk, t, here, key, at, level, generation, path)
    ensures |path| < MAX_LEVEL
  {
  }

  /** Every block from the root towards the key, the leaf last. */
  method DescendPath(disk: Disk, root: nat, key: Key, ghost t: Tree) returns (r: Result<seq<Block>, TreeError>)
    requires AllParsed(disk)
    ensures r.Ok? ==> 0 < |r.value| <= MAX_LEVEL && r.value[|r.value|-1].body.Leaf?
    ensures WellFormed(disk, t) && t.at == root ==> Wide(t) && r == Ok(PathOf(disk, t, key))
  {
    var path: seq<Block> := [];
    var at := root;
    var level: Option<nat>, generation: Option<nat> := None, None;
    ghost var here := t;
    ghost var good := WellFormed(disk, t) && t.at == root;
    if good { StoredWide(disk, t); DescentStarts(disk, t, key); }
    hide Descending, WellFormed, Wide, PathOf, NodeSlot, AllParsed;
    for d := 0 to MAX_LEVEL
      invariant |path| == d
      invariant good ==> Descending(disk, t, here, key, at, level, generation, path)
    {
      if good { DescentReads(disk, t, here, key, at, level, generation, path); }
      var block := ReadVerified(disk, at, generation);
      if block.Err? { return Err(block.error); }
      if level.Some? && block.value.level != level.value { return Err(WrongLevel(at)); }
      match block.value.body
      case Leaf(_) =>
        path := path + [block.value];
        return Ok(path);
      case Node(ptrs) =>
        NodesHavePtrs(disk, at);
        var slot := NodeSlot(ptrs, key);
        if block.value.level == 0 { return Err(LevelZeroNode(at)); }
        if good {
          DescentSteps(disk, t, here, key, at, level, generation, path);
          here := here.kids[slot];
        }
        level, generation := Some(block.value.level - 1), Some(ptrs[slot].generation);
        at := ptrs[slot].blockptr;
        path := path + [block.value];
    }
    if good { NoDescentLeft(disk, t, here, key, at, level, generation, path); }
    return Err(TooDeep(root));
  }

  lemma NodesHavePtrs(disk: Disk, at: nat)
    requires AllParsed(disk) && at in disk && disk[at].body.Node?
    ensures disk[at].body.ptrs != []
  {
    assert Parsed(disk[at]);
  }

  /** The leaf a descent ends in, and how many items lie before it. */
  function LeafFor(t: Tree, key: Key): (leaf: Tree)
    requires Wide(t)
    ensures leaf.Tip?
    decreases t
  {
    if t.Tip? then t else LeafFor(t.kids[NodeSlot(t.ptrs, key)], key)
  }

  function Skipped(t: Tree, key: Key): nat
    requires Wide(t)
    decreases t
  {
    if t.Tip? then 0 else
      var slot := NodeSlot(t.ptrs, key);
      |AllInOrder(t.kids[..slot])| + Skipped(t.kids[slot], key)
  }

  lemma {:induction false} PathEnds(disk: Disk, t: Tree, key: Key)
    requires Stored(disk, t) && Wide(t)
    ensures var path := PathOf(disk, t, key); path[|path|-1].body == Leaf(LeafFor(t, key).items)
    decreases t
  {
    if t.Branch? { PathEnds(disk, t.kids[NodeSlot(t.ptrs, key)], key); }
  }

  /** Node keys ascend all the way down. */
  ghost predicate Sorted(t: Tree)
    decreases t
  {
    match t
    case Tip(_, _, items) => Ascending(ItemKeys(items))
    case Branch(_, _, _, ptrs, kids) => Ascending(PtrKeys(ptrs)) && forall i | 0 <= i < |kids| :: Sorted(kids[i])
  }

  lemma {:induction false} StoredSorted(disk: Disk, t: Tree)
    requires Stored(disk, t) && AllParsed(disk)
    ensures Sorted(t)
    decreases t
  {
    assert Parsed(disk[t.at]);
    if t.Branch? {
      forall i | 0 <= i < |t.kids| ensures Sorted(t.kids[i]) { StoredSorted(disk, t.kids[i]); }
    }
  }

  lemma {:induction false} AllBeforeKids(kids: seq<Tree>, key: Key)
    requires forall i | 0 <= i < |kids| :: AllBefore(InOrder(kids[i]), key)
    ensures AllBefore(AllInOrder(kids), key)
    decreases kids
  {
    if kids != [] { AllBeforeKids(kids[1..], key); }
  }

  predicate After(key: Key, items: seq<Item>) { forall x | x in items :: Before(key, x.key) }

  lemma {:induction false} AfterKids(kids: seq<Tree>, key: Key)
    requires forall i | 0 <= i < |kids| :: After(key, InOrder(kids[i]))
    ensures After(key, AllInOrder(kids))
    decreases kids
  {
    if kids != [] { AfterKids(kids[1..], key); }
  }

  lemma LeftOfSlot(t: Tree, key: Key, i: nat)
    requires t.Branch? && Wide(t) && Searchable(t) && Sorted(t) && i < NodeSlot(t.ptrs, key)
    ensures AllBefore(InOrder(t.kids[i]), key)
  {
    var slot := NodeSlot(t.ptrs, key);
    var keys := PtrKeys(t.ptrs);
    NodeSlotSplits(t.ptrs, key);
    assert AllBefore(InOrder(t.kids[i]), keys[i+1]);
    assert i + 1 < slot ==> Before(keys[i+1], keys[slot]);
    hide Searchable, Sorted, Wide, InOrder, NodeSlot;
    forall x | x in InOrder(t.kids[i]) ensures Before(x.key, key) {
      KeyOrder(x.key, keys[i+1], keys[slot]);
      KeyOrder(x.key, keys[slot], key);
      KeyOrder(key, keys[slot], key);
    }
  }

  lemma RightOfSlot(t: Tree, key: Key, k: nat)
    requires t.Branch? && Wide(t) && Searchable(t) && Sorted(t) && NodeSlot(t.ptrs, key) < k < |t.kids|
    ensures After(key, InOrder(t.kids[k]))
  {
    var keys := PtrKeys(t.ptrs);
    NodeSlotSplits(t.ptrs, key);
    assert NoneBefore(InOrder(t.kids[k]), keys[k]) && Before(key, keys[k]);
    hide Searchable, Sorted, Wide, InOrder, NodeSlot;
    forall x | x in InOrder(t.kids[k]) ensures Before(key, x.key) {
      KeyOrder(key, keys[k], x.key);
      KeyOrder(x.key, keys[k], key);
    }
  }

  /** Everything left of the slot lies before the key, everything right of it after. */
  lemma SidesOfSlot(t: Tree, key: Key)
    requires t.Branch? && Wide(t) && Searchable(t) && Sorted(t)
    ensures var slot := NodeSlot(t.ptrs, key);
      AllBefore(AllInOrder(t.kids[..slot]), key) && After(key, AllInOrder(t.kids[slot+1..]))
  {
    hide Searchable, Sorted, InOrder, AllInOrder, NodeSlot;
    var slot := NodeSlot(t.ptrs, key);
    var left, right := t.kids[..slot], t.kids[slot+1..];
    forall i | 0 <= i < |left| ensures AllBefore(InOrder(left[i]), key) { LeftOfSlot(t, key, i); }
    AllBeforeKids(left, key);
    forall i | 0 <= i < |right| ensures After(key, InOrder(right[i])) { RightOfSlot(t, key, slot + 1 + i); }
    AfterKids(right, key);
  }

  /** A stretch of the items: what lies before it is before the key, and what lies
      after it is after. */
  ghost predicate Around(items: seq<Item>, a: nat, leaf: seq<Item>, key: Key) {
    && a + |leaf| <= |items| && items[a..a+|leaf|] == leaf
    && AllBefore(items[..a], key) && After(key, items[a+|leaf|..])
  }

  lemma InMiddle(left: seq<Item>, mid: seq<Item>, right: seq<Item>, a: nat, leaf: seq<Item>, key: Key)
    requires Around(mid, a, leaf, key) && AllBefore(left, key) && After(key, right)
    ensures Around(left + mid + right, |left| + a, leaf, key)
  {
    var all, b := left + mid + right, |left| + a;
    assert all[b..b+|leaf|] == mid[a..a+|leaf|];
    assert all[..b] == left + mid[..a];
    assert all[b+|leaf|..] == mid[a+|leaf|..] + right;
  }

  /** The leaf a descent ends in, among the items in order. */
  lemma {:induction false} LeafInPlace(t: Tree, key: Key)
    requires Wide(t) && Searchable(t) && Sorted(t)
    ensures Around(InOrder(t), Skipped(t, key), LeafFor(t, key).items, key)
    decreases t
  {
    if t.Branch? {
      var slot := NodeSlot(t.ptrs, key);
      var kid := t.kids[slot];
      LeafInPlace(kid, key);
      SidesOfSlot(t, key);
      InOrderSplit(t.kids, slot);
      assert Skipped(t, key) == |AllInOrder(t.kids[..slot])| + Skipped(kid, key) && LeafFor(t, key) == LeafFor(kid, key);
      hide Around, Searchable, Sorted, AllInOrder, NodeSlot, Wide, Skipped, LeafFor;
      InMiddle(AllInOrder(t.kids[..slot]), InOrder(kid), AllInOrder(t.kids[slot+1..]), Skipped(kid, key), LeafFor(kid, key).items, key);
    } else {
      assert t.items[0..|t.items|] == t.items && t.items[..0] == [] && t.items[|t.items|..] == [];
    }
  }

  /** Each pointer's key is its child's first. */
  ghost predicate Tight(t: Tree)
    decreases t
  {
    match t
    case Tip(_, _, _) => true
    case Branch(_, _, _, ptrs, kids) =>
      && |ptrs| == |kids|
      && (forall i | 0 <= i < |kids| :: Tight(kids[i]) && InOrder(kids[i]) != [] && InOrder(kids[i])[0].key == ptrs[i].key)
  }

  /** So the last item at or before a key, if there is one, is in the key's leaf. */
  lemma {:induction false} LeafHasPredecessor(t: Tree, key: Key)
    requires Wide(t) && Searchable(t) && Sorted(t) && Tight(t)
    ensures Skipped(t, key) == 0 || (LeafFor(t, key).items != [] && !Before(key, LeafFor(t, key).items[0].key))
    ensures InOrder(t) != [] ==> LeafFor(t, key).items != []
    decreases t
  {
    if t.Branch? {
      var slot := NodeSlot(t.ptrs, key);
      var kid := t.kids[slot];
      LeafHasPredecessor(kid, key);
      LeafInPlace(kid, key);
      NodeSlotSplits(t.ptrs, key);
      if slot == 0 {
        assert t.kids[..0] == [];
      } else if Skipped(kid, key) == 0 {
        assert LeafFor(kid, key).items[0] == InOrder(kid)[0];
      }
    }
  }

  // --------------------------------------------------------------------- search

  /** The item filed under exactly `key`, among all of them. */
  ghost predicate IsLookup(found: Option<Item>, items: seq<Item>, key: Key) {
    if found.Some? then found.value in items && found.value.key == key else forall x | x in items :: x.key != key
  }

  lemma LeafLooksUp(items: seq<Item>, a: nat, leaf: seq<Item>, key: Key)
    requires Around(items, a, leaf, key) && Ascending(ItemKeys(leaf))
    ensures var slot := LeafSlot(leaf, key);
      IsLookup(if slot < |leaf| && leaf[slot].key == key then Some(leaf[slot]) else None, items, key)
  {
    var slot := LeafSlot(leaf, key);
    LeafSlotSplits(leaf, key);
    assert items == items[..a] + leaf + items[a+|leaf|..];
    if slot < |leaf| && leaf[slot].key == key {
      assert leaf[slot] in items;
    } else {
      forall x | x in items ensures x.key != key {
        if x in leaf {
          var j :| 0 <= j < |leaf| && leaf[j] == x;
          if j > slot { assert Before(ItemKeys(leaf)[slot], ItemKeys(leaf)[j]); KeyOrder(leaf[slot].key, key, x.key); }
        } else {
          KeyOrder(x.key, key, key);
        }
      }
    }
  }

  /** Search agrees with a lookup among the tree's items in order. */
  method Search(disk: Disk, root: nat, key: Key, ghost t: Tree) returns (r: Result<Option<Item>, TreeError>)
    requires AllParsed(disk)
    ensures WellFormed(disk, t) && t.at == root ==> r.Ok? && IsLookup(r.value, InOrder(t), key)
  {
    var path := DescendPath(disk, root, key, t);
    if path.Err? { return Err(path.error); }
    var items := path.value[|path.value|-1].body.items;
    var slot := LeafSlot(items, key);
    if WellFormed(disk, t) && t.at == root {
      PathEnds(disk, t, key);
      StoredSorted(disk, t);
      LeafInPlace(t, key);
      LeafSorted(t, key);
      LeafLooksUp(InOrder(t), Skipped(t, key), items, key);
    }
    if slot == |items| || items[slot].key != key { return Ok(None); }
    return Ok(Some(items[slot]));
  }

  lemma {:induction false} LeafSorted(t: Tree, key: Key)
    requires Wide(t) && Sorted(t)
    ensures Ascending(ItemKeys(LeafFor(t, key).items))
    decreases t
  {
    if t.Branch? { LeafSorted(t.kids[NodeSlot(t.ptrs, key)], key); }
  }

  // ---------------------------------------------------------------------- walks

  /** A visitor: what it knows next, and whether it wants the next item. */
  type Visitor<!S> = (S, Item) -> (S, bool)

  /** The items visited one by one until the visitor stops. */
  function Visited<S>(visit: Visitor<S>, s: S, items: seq<Item>): (S, bool)
    decreases items
  {
    if items == [] then (s, true) else
      var next := visit(s, items[0]);
      if next.1 then Visited(visit, next.0, items[1..]) else next
  }

  lemma {:induction false} VisitedJoin<S>(visit: Visitor<S>, s: S, a: seq<Item>, b: seq<Item>)
    ensures var first := Visited(visit, s, a);
      Visited(visit, s, a + b) == if first.1 then Visited(visit, first.0, b) else first
    decreases a
  {
    if a == [] {
      assert a + b == b;
    } else {
      assert (a + b)[0] == a[0] && (a + b)[1..] == a[1..] + b;
      VisitedJoin(visit, visit(s, a[0]).0, a[1..], b);
    }
  }

  /** The items a walk from `start` visits. */
  function From(items: seq<Item>, start: Option<Key>): seq<Item> {
    if start.None? then items else items[LeafSlot(items, start.value)..]
  }

  /** What one walk remembers: the blocks it has been at, and where it is. */
  class WalkState {
    var seen: set<nat>
    var depth: nat
    var level: Option<nat>
    var generation: Option<nat>
    /** Every block read, in order. */
    ghost var fetched: seq<nat>

    constructor ()
      ensures seen == {} && depth == 0 && level == None && generation == None && fetched == []
    {
      seen, depth, level, generation, fetched := {}, 0, None, None, [];
    }

    ghost predicate OnceEach() reads this {
      (forall x | x in fetched :: x in seen) && (forall i, j | 0 <= i < j < |fetched| :: fetched[i] != fetched[j])
    }

    method Enter(child: nat, written: nat) returns (outer: (Option<nat>, Option<nat>))
      modifies `level, `generation, `depth
      ensures outer == (old(level), old(generation))
      ensures level == Some(child) && generation == Some(written) && depth == old(depth) + 1
    {
      outer := (level, generation);
      level, generation, depth := Some(child), Some(written), depth + 1;
    }

    method Leave(outer: (Option<nat>, Option<nat>))
      requires depth > 0
      modifies `level, `generation, `depth
      ensures (level, generation) == outer && depth == old(depth) - 1
    {
      level, generation, depth := outer.0, outer.1, depth - 1;
    }

    /** Depth first, left to right. On any map of blocks the walk ends, having read no
        block twice; on a well-formed tree it visits exactly the items from `start`. */
    method Walk<S>(disk: Disk, at: nat, start: Option<Key>, visit: Visitor<S>, s: S, ghost t: Tree)
      returns (r: Result<(S, bool), TreeError>)
      requires AllParsed(disk) && OnceEach()
      modifies this
      ensures OnceEach() && old(seen) <= seen && old(fetched) <= fetched
      ensures depth == old(depth) && level == old(level) && generation == old(generation)
      ensures Expects(disk, t, old(seen), old(depth), old(level), old(generation)) && t.at == at ==>
        && r == Ok(Visited(visit, s, From(InOrder(t), start)))
        && seen <= old(seen) + Blocks(t)
      decreases if depth < MAX_LEVEL then MAX_LEVEL - depth else 0
    {
      ghost var good := Expects(disk, t, seen, depth, level, generation) && t.at == at;
      if good { EntersNode(disk, t, seen, depth, level, generation); }
      hide Expects, Entered, AllParsed, WellFormed, Blocks, InOrder;
      if depth >= MAX_LEVEL { return Err(TooDeep(at)); }
      if at in seen { return Err(Twice(at)); }
      seen := seen + {at};
      fetched := fetched + [at];
      var block := ReadVerified(disk, at, generation);
      if block.Err? { return Err(block.error); }
      if level.Some? && block.value.level != level.value { return Err(WrongLevel(at)); }
      match block.value.body
      case Leaf(items) =>
        var first := if start.None? then 0 else LeafSlot(items, start.value);
        r := VisitLeaf(items, first, visit, s);
      case Node(ptrs) =>
        NodesHavePtrs(disk, at);
        var first := if start.None? then 0 else NodeSlot(ptrs, start.value);
        if block.value.level == 0 { return Err(LevelZeroNode(at)); }
        r := WalkKids(disk, ptrs, first, block.value.level - 1, start, visit, s, t, at);
    }

    /** A node's children from one on, the first of them entered partway. */
    method WalkKids<S>(disk: Disk, ptrs: seq<Ptr>, first: nat, below: nat, start: Option<Key>, visit: Visitor<S>, s: S, ghost t: Tree, ghost at: nat)
      returns (r: Result<(S, bool), TreeError>)
      requires AllParsed(disk) && OnceEach() && depth < MAX_LEVEL && first < |ptrs|
      modifies this
      ensures OnceEach() && old(seen) <= seen && old(fetched) <= fetched
      ensures depth == old(depth) && level == old(level) && generation == old(generation)
      ensures Entered(disk, t, at, ptrs, below, old(seen), old(depth)) && first == FirstKid(t, start) ==>
        && r == Ok(Visited(visit, s, From(InOrder(t), start)))
        && seen <= old(seen) + Blocks(t)
      decreases if depth < MAX_LEVEL then MAX_LEVEL - depth else 0, 0
    {
      ghost var good := Entered(disk, t, at, ptrs, below, seen, depth) && first == FirstKid(t, start);
      ghost var before := seen;
      var now := s;
      KidsStart(good, disk, t, at, ptrs, below, start, visit, s, seen, depth);
      hide *;
      for i := first to |ptrs|
        invariant OnceEach() && before <= seen && old(fetched) <= fetched
        invariant depth == old(depth) && level == old(level) && generation == old(generation)
        invariant good ==> Going(disk, t, start, visit, s, now, i, before, seen)
      {
        ghost var kid := KidOf(t, i);
        KidExpected(good, disk, t, at, ptrs, below, start, visit, s, now, i, before, seen, depth);
        var childStart := if i == first then start else None;
        var outer := Enter(below, ptrs[i].generation);
        ghost var was := seen;
        var child := Walk(disk, ptrs[i].blockptr, childStart, visit, now, kid);
        Leave(outer);
        if child.Err? { return child; }
        KidWalked(good, disk, t, start, visit, s, now, i, before, was, seen, child.value);
        if !child.value.1 { return child; }
        now := child.value.0;
      }
      KidsEnd(good, disk, t, start, visit, s, now, |ptrs|, before, seen);
      return Ok((now, true));
    }
  }

  /** Whether a walk about to read `t`'s block finds it well formed and new. */
  ghost predicate Expects(disk: Disk, t: Tree, seen: set<nat>, depth: nat, level: Option<nat>, generation: Option<nat>) {
    && WellFormed(disk, t) && Blocks(t) !! seen && depth + t.Level() < MAX_LEVEL
    && (level.Some? ==> level.value == t.Level()) && (generation.Some? ==> generation.value == t.generation)
  }

  /** Past a node's own block: its children are as new as it was. */
  ghost predicate Entered(disk: Disk, t: Tree, at: nat, ptrs: seq<Ptr>, below: nat, seen: set<nat>, depth: nat) {
    && WellFormed(disk, t) && t.Branch? && t.at == at && t.ptrs == ptrs && below == t.level - 1
    && AllKidsNew(t, seen) && depth + t.Level() < MAX_LEVEL && AllParsed(disk)
  }

  lemma EntersNode(disk: Disk, t: Tree, seen: set<nat>, depth: nat, level: Option<nat>, generation: Option<nat>)
    requires Expects(disk, t, seen, depth, level, generation) && AllParsed(disk)
    ensures t.at !in seen && depth < MAX_LEVEL && ReadVerified(disk, t.at, generation) == Ok(disk[t.at])
    ensures level.Some? ==> disk[t.at].level == level.value
    ensures disk[t.at].body.Leaf? ==> disk[t.at].body.items == InOrder(t) && t.at in Blocks(t)
    ensures disk[t.at].body.Node? ==> disk[t.at].level > 0 && t.Branch? && t.ptrs == disk[t.at].body.ptrs
    ensures disk[t.at].body.Node? ==> Entered(disk, t, t.at, disk[t.at].body.ptrs, disk[t.at].level - 1, seen + {t.at}, depth)
    ensures t.at in Blocks(t)
  {
    AtInBlocks(t);
  }

  ghost predicate AllKidsNew(t: Tree, seen: set<nat>) { t.Branch? ==> AllBlocks(t.kids) !! seen }

  /** The child a walk from `start` enters first. */
  function FirstKid(t: Tree, start: Option<Key>): nat
    requires t.Branch?
  {
    if start.None? || t.ptrs == [] then 0 else NodeSlot(t.ptrs, start.value)
  }

  /** What is left to visit before child `i`. */
  function RestOf(t: Tree, i: nat, start: Option<Key>): seq<Item>
    requires t.Branch? && i <= |t.kids|
  {
    if i == |t.kids| then [] else
      From(InOrder(t.kids[i]), if i == FirstKid(t, start) then start else None) + AllInOrder(t.kids[i+1..])
  }

  /** A leaf's items from one on. */
  method VisitLeaf<S>(items: seq<Item>, first: nat, visit: Visitor<S>, s: S) returns (r: Result<(S, bool), TreeError>)
    requires first <= |items|
    ensures r == Ok(Visited(visit, s, items[first..]))
  {
    var now := s;
    var i := first;
    while i < |items|
      invariant first <= i <= |items|
      invariant Visited(visit, s, items[first..]) == Visited(visit, now, items[i..])
    {
      assert items[i..][0] == items[i] && items[i..][1..] == items[i+1..];
      var next := visit(now, items[i]);
      if !next.1 { return Ok(next); }
      now := next.0;
      i := i + 1;
    }
    return Ok((now, true));
  }

  lemma {:induction false} BlocksSplit(kids: seq<Tree>, i: nat)
    requires i < |kids|
    ensures AllBlocks(kids[..i+1]) == AllBlocks(kids[..i]) + Blocks(kids[i])
    ensures AllBlocks(kids[..i+1]) <= AllBlocks(kids)
    decreases kids
  {
    var rest := kids[1..];
    assert kids[..i+1][0] == kids[0] && kids[..i+1][1..] == rest[..i];
    if i == 0 {
      assert kids[..0] == [] && rest[..0] == [];
    } else {
      assert kids[..i][0] == kids[0] && kids[..i][1..] == rest[..i-1] && rest[i-1] == kids[i];
      BlocksSplit(rest, i - 1);
    }
  }

  lemma {:induction false} EarlierApart(kids: seq<Tree>, i: nat, n: nat)
    requires n <= i < |kids| && forall j, k | 0 <= j < k < |kids| :: Blocks(kids[j]) !! Blocks(kids[k])
    ensures Blocks(kids[i]) !! AllBlocks(kids[..n])
    decreases n
  {
    if n > 0 {
      EarlierApart(kids, i, n - 1);
      BlocksSplit(kids, n - 1);
    } else {
      assert kids[..0] == [];
    }
  }

  /** Where a walk of a node's children stands before child `i`: what it has still to
      visit from here is what it had from the start, and it has been at no later
      child's blocks. */
  ghost predicate Going<S>(disk: Disk, t: Tree, start: Option<Key>, visit: Visitor<S>, s: S, now: S, i: nat, before: set<nat>, seen: set<nat>) {
    && AllParsed(disk) && WellFormed(disk, t) && t.Branch? && |t.ptrs| == |t.kids| && FirstKid(t, start) <= i <= |t.kids|
    && AllBlocks(t.kids) !! before && seen <= before + AllBlocks(t.kids[..i])
    && Visited(visit, s, From(InOrder(t), start)) == Visited(visit, now, RestOf(t, i, start))
  }

  function KidOf(t: Tree, i: nat): Tree { if t.Branch? && i < |t.kids| then t.kids[i] else t }

  lemma KidExpected<S>(good: bool, disk: Disk, t: Tree, at: nat, ptrs: seq<Ptr>, below: nat, start: Option<Key>, visit: Visitor<S>,
                       s: S, now: S, i: nat, before: set<nat>, seen: set<nat>, depth: nat)
    requires i < |ptrs| && (good ==> Entered(disk, t, at, ptrs, below, before, depth) && Going(disk, t, start, visit, s, now, i, before, seen))
    ensures good ==> ptrs[i].blockptr == KidOf(t, i).at
    ensures good ==> Expects(disk, KidOf(t, i), seen, depth + 1, Some(below), Some(ptrs[i].generation))
  {
    hide Visited, RestOf, From;
    if good {
      KidWellFormed(disk, t, i);
      KidBlocks(t.kids, i);
      EarlierApart(t.kids, i, i);
    }
  }

  lemma RestSplits<S>(visit: Visitor<S>, now: S, t: Tree, i: nat, start: Option<Key>)
    requires t.Branch? && FirstKid(t, start) <= i < |t.kids|
    ensures var child := Visited(visit, now, From(InOrder(t.kids[i]), if i == FirstKid(t, start) then start else None));
      Visited(visit, now, RestOf(t, i, start)) == if child.1 then Visited(visit, child.0, RestOf(t, i + 1, start)) else child
  {
    assert RestOf(t, i + 1, start) == AllInOrder(t.kids[i+1..]) by {
      if i + 1 < |t.kids| { assert t.kids[i+1..][0] == t.kids[i+1] && t.kids[i+1..][1..] == t.kids[i+2..]; }
    }
    VisitedJoin(visit, now, From(InOrder(t.kids[i]), if i == FirstKid(t, start) then start else None), AllInOrder(t.kids[i+1..]));
  }

  lemma KidWalked<S>(good: bool, disk: Disk, t: Tree, start: Option<Key>, visit: Visitor<S>, s: S, now: S, i: nat, before: set<nat>,
                     was: set<nat>, seen: set<nat>, child: (S, bool))
    requires good ==> Going(disk, t, start, visit, s, now, i, before, was) && i < |t.ptrs|
    requires good ==> child == Visited(visit, now, From(InOrder(KidOf(t, i)), if i == FirstKid(t, start) then start else None))
    requires good ==> seen <= was + Blocks(KidOf(t, i))
    ensures good && child.1 ==> Going(disk, t, start, visit, s, child.0, i + 1, before, seen)
    ensures good && !child.1 ==> Visited(visit, s, From(InOrder(t), start)) == child
    ensures good ==> seen <= before + Blocks(t)
  {
    hide Visited, WellFormed, AllParsed, RestOf, From;
    if good {
      RestSplits(visit, now, t, i, start);
      BlocksSplit(t.kids, i);
    }
  }

  lemma KidsEnd<S>(good: bool, disk: Disk, t: Tree, start: Option<Key>, visit: Visitor<S>, s: S, now: S, n: nat, before: set<nat>, seen: set<nat>)
    requires good ==> t.Branch? && n == |t.ptrs| && Going(disk, t, start, visit, s, now, n, before, seen)
    ensures good ==> Visited(visit, s, From(InOrder(t), start)) == (now, true) && seen <= before + Blocks(t)
  {
    if good { assert t.kids[..|t.kids|] == t.kids; }
  }

  lemma SlotAt(items: seq<Item>, key: Key, j: nat)
    requires j < |items|
    ensures j < LeafSlot(items, key) ==> Before(items[j].key, key)
    ensures j == LeafSlot(items, key) ==> !Before(items[j].key, key)
  {
    assert ItemKeys(items)[j] == items[j].key;
  }

  lemma InPrefix(items: seq<Item>, key: Key, n: nat, j: nat)
    requires n <= |items| && j < |items| && AllBefore(items[..n], key)
    ensures j < n ==> Before(items[j].key, key)
  {
    if j < n { assert items[..n][j] == items[j]; }
  }

  /** A slot that splits the items at the key is the slot. */
  lemma SlotIs(items: seq<Item>, key: Key, n: nat)
    requires n <= |items| && AllBefore(items[..n], key) && (n < |items| ==> !Before(items[n].key, key))
    ensures LeafSlot(items, key) == n
  {
    var slot := LeafSlot(items, key);
    if n < |items| { SlotAt(items, key, n); }
    if slot < |items| {
      SlotAt(items, key, slot);
      InPrefix(items, key, n, slot);
    }
  }

  lemma FromMiddle(left: seq<Item>, mid: seq<Item>, right: seq<Item>, key: Key)
    requires AllBefore(left, key) && After(key, right)
    ensures From(left + mid + right, Some(key)) == From(mid, Some(key)) + right
  {
    var slot := LeafSlot(mid, key);
    var keys := ItemKeys(mid);
    var all, n := left + mid + right, |left| + slot;
    forall x | x in mid[..slot] ensures Before(x.key, key) {
      var j :| 0 <= j < slot && mid[..slot][j] == x;
      assert Before(keys[j], key);
    }
    assert all[..n] == left + mid[..slot];
    assert AllBefore(all[..n], key);
    if n < |all| {
      if slot < |mid| {
        assert all[n] == mid[slot] && !Before(keys[slot], key);
      } else {
        assert all[n] == right[0];
        KeyOrder(right[0].key, key, key);
      }
    }
    SlotIs(all, key, n);
    assert all[n..] == mid[slot..] + right;
  }

  lemma StartSplits(disk: Disk, t: Tree, start: Option<Key>)
    requires AllParsed(disk) && WellFormed(disk, t) && t.Branch?
    ensures |t.kids| == |t.ptrs| && FirstKid(t, start) < |t.kids|
    ensures From(InOrder(t), start) == RestOf(t, FirstKid(t, start), start)
  {
    StoredWide(disk, t);
    StoredSorted(disk, t);
    var first := FirstKid(t, start);
    InOrderSplit(t.kids, first);
    if start.None? {
      assert t.kids[..0] == [];
    } else {
      SidesOfSlot(t, start.value);
      FromMiddle(AllInOrder(t.kids[..first]), InOrder(t.kids[first]), AllInOrder(t.kids[first+1..]), start.value);
    }
  }

  lemma KidsStart<S>(good: bool, disk: Disk, t: Tree, at: nat, ptrs: seq<Ptr>, below: nat, start: Option<Key>, visit: Visitor<S>,
                     s: S, seen: set<nat>, depth: nat)
    requires good ==> Entered(disk, t, at, ptrs, below, seen, depth)
    ensures good ==> t.Branch? && t.ptrs == ptrs && Going(disk, t, start, visit, s, s, FirstKid(t, start), seen, seen)
  {
    if good {
      StartSplits(disk, t, start);
      hide Visited, From, InOrder, WellFormed, AllParsed;
    }
  }

  /** Every item from a key on, in order, while the visitor wants more. */
  method ForEachFrom<S>(disk: Disk, root: nat, start: Option<Key>, visit: Visitor<S>, s: S, ghost t: Tree) returns (r: Result<S, TreeError>)
    requires AllParsed(disk)
    ensures WellFormed(disk, t) && t.at == root ==> r == Ok(Visited(visit, s, From(InOrder(t), start)).0)
  {
    var state := new WalkState();
    var walked := state.Walk(disk, root, start, visit, s, t);
    if walked.Err? { return Err(walked.error); }
    return Ok(walked.value.0);
  }

  // ------------------------------------------------------ a run of one type

  predicate Filed(x: Item, objectid: nat, kind: nat) { x.key.objectid == objectid && x.key.kind == kind }

  function Filtered(items: seq<Item>, objectid: nat, kind: nat): seq<Item> {
    if items == [] then [] else
      (if Filed(items[0], objectid, kind) then [items[0]] else []) + Filtered(items[1..], objectid, kind)
  }

  /** The closure that collects one object's items of one type. */
  function Collect(objectid: nat, kind: nat): Visitor<seq<Item>> {
    (out: seq<Item>, x: Item) => if Filed(x, objectid, kind) then (out + [x], true) else (out, false)
  }

  lemma {:induction false} NoneFiled(items: seq<Item>, objectid: nat, kind: nat)
    requires forall x | x in items :: !Filed(x, objectid, kind)
    ensures Filtered(items, objectid, kind) == []
  {
    if items != [] { NoneFiled(items[1..], objectid, kind); }
  }

  lemma {:induction false} FilteredJoin(a: seq<Item>, b: seq<Item>, objectid: nat, kind: nat)
    ensures Filtered(a + b, objectid, kind) == Filtered(a, objectid, kind) + Filtered(b, objectid, kind)
    decreases a
  {
    if a == [] {
      assert a + b == b;
    } else {
      assert (a + b)[0] == a[0] && (a + b)[1..] == a[1..] + b;
      FilteredJoin(a[1..], b, objectid, kind);
      var first := if Filed(a[0], objectid, kind) then [a[0]] else [];
      Associate(first, Filtered(a[1..], objectid, kind), Filtered(b, objectid, kind));
    }
  }

  /** From the run's first possible key, the items filed so come first. */
  lemma {:induction false} CollectsRun(items: seq<Item>, objectid: nat, kind: nat, out: seq<Item>)
    requires Ascending(ItemKeys(items)) && NoneBefore(items, Key(objectid, kind, 0))
    ensures Visited(Collect(objectid, kind), out, items).0 == out + Filtered(items, objectid, kind)
    decreases items
  {
    if items != [] {
      var keys := ItemKeys(items);
      var rest := items[1..];
      assert forall j | 0 <= j < |rest| :: ItemKeys(rest)[j] == keys[j+1];
      if Filed(items[0], objectid, kind) {
        CollectsRun(rest, objectid, kind, out + [items[0]]);
      } else {
        forall x | x in rest ensures !Filed(x, objectid, kind) {
          var j :| 0 <= j < |rest| && rest[j] == x;
          assert Before(keys[0], keys[j+1]);
          assert !Before(items[0].key, Key(objectid, kind, 0));
        }
        NoneFiled(rest, objectid, kind);
      }
    }
  }

  lemma {:induction false} TreeAscends(t: Tree)
    requires Searchable(t) && Sorted(t) && Wide(t)
    ensures Ascending(ItemKeys(InOrder(t)))
    decreases t
  {
    if t.Branch? {
      forall i | 0 <= i < |t.kids| ensures Ascending(ItemKeys(InOrder(t.kids[i]))) { TreeAscends(t.kids[i]); }
      KidsAscend(t, |t.kids|);
      assert t.kids[..|t.kids|] == t.kids;
    }
  }

  lemma {:induction false} KidsAscend(t: Tree, n: nat)
    requires t.Branch? && n <= |t.kids| && Searchable(t) && Sorted(t) && Wide(t)
    requires forall i | 0 <= i < |t.kids| :: Ascending(ItemKeys(InOrder(t.kids[i])))
    ensures Ascending(ItemKeys(AllInOrder(t.kids[..n])))
    ensures 0 < n < |t.kids| ==> AllBefore(AllInOrder(t.kids[..n]), t.ptrs[n].key)
    decreases n
  {
    if n > 0 {
      KidsAscend(t, n - 1);
      var kids := t.kids[..n];
      InOrderSplit(kids, n - 1);
      assert kids[..n-1] == t.kids[..n-1] && kids[n..] == [] && kids[n-1] == t.kids[n-1];
      var a, b := AllInOrder(t.kids[..n-1]), InOrder(t.kids[n-1]);
      assert AllInOrder(kids) == a + b;
      var keys := PtrKeys(t.ptrs);
      hide AllInOrder, InOrder, Searchable, Sorted, Wide;
      KidsApart(t, n);
      if n > 1 { JoinAscends(a, b, keys[n-1]); } else { assert a + b == b; }
      if n < |t.kids| && n > 1 {
        forall x | x in a ensures Before(x.key, keys[n]) { assert Before(keys[n-1], keys[n]); KeyOrder(x.key, keys[n-1], keys[n]); }
      }
    } else {
      assert t.kids[..0] == [];
    }
  }

  lemma KidsApart(t: Tree, n: nat)
    requires t.Branch? && 0 < n <= |t.kids| && Searchable(t) && Sorted(t) && Wide(t)
    ensures n > 1 ==> NoneBefore(InOrder(t.kids[n-1]), t.ptrs[n-1].key)
    ensures n < |t.kids| ==> AllBefore(InOrder(t.kids[n-1]), t.ptrs[n].key)
    ensures n == 1 ==> AllInOrder(t.kids[..n-1]) == []
    ensures Ascending(PtrKeys(t.ptrs)) && |t.ptrs| == |t.kids|
  {
    assert n == 1 ==> t.kids[..n-1] == [];
  }

  lemma JoinAscends(a: seq<Item>, b: seq<Item>, key: Key)
    requires Ascending(ItemKeys(a)) && Ascending(ItemKeys(b)) && AllBefore(a, key) && NoneBefore(b, key)
    ensures Ascending(ItemKeys(a + b))
  {
    var keys := ItemKeys(a + b);
    forall i, j | 0 <= i < j < |keys| ensures Before(keys[i], keys[j]) {
      if j < |a| {
        assert Before(ItemKeys(a)[i], ItemKeys(a)[j]);
      } else if i >= |a| {
        assert Before(ItemKeys(b)[i-|a|], ItemKeys(b)[j-|a|]);
      } else {
        assert a[i] in a && b[j-|a|] in b;
        KeyOrder(a[i].key, key, b[j-|a|].key);
      }
    }
  }

  /** Every item of one object and type. */
  method FindAll(disk: Disk, root: nat, objectid: nat, kind: nat, ghost t: Tree) returns (r: Result<seq<Item>, TreeError>)
    requires AllParsed(disk)
    ensures WellFormed(disk, t) && t.at == root ==> r == Ok(Filtered(InOrder(t), objectid, kind))
  {
    var start := Key(objectid, kind, 0);
    r := ForEachFrom(disk, root, Some(start), Collect(objectid, kind), [], t);
    if WellFormed(disk, t) && t.at == root {
      StoredWide(disk, t);
      StoredSorted(disk, t);
      TreeAscends(t);
      RunFromStart(InOrder(t), objectid, kind);
    }
  }

  lemma SplitAtRun(items: seq<Item>, key: Key, slot: nat)
    requires Ascending(ItemKeys(items)) && slot == LeafSlot(items, key)
    ensures Ascending(ItemKeys(items[slot..])) && NoneBefore(items[slot..], key) && AllBefore(items[..slot], key)
  {
    LeafSlotSplits(items, key);
    var rest := items[slot..];
    assert forall j | 0 <= j < |rest| :: ItemKeys(rest)[j] == ItemKeys(items)[slot+j];
    forall x | x in rest ensures !Before(x.key, key) {
      var j :| 0 <= j < |rest| && rest[j] == x;
      assert items[slot + j] == x;
    }
  }

  lemma RunFromStart(items: seq<Item>, objectid: nat, kind: nat)
    requires Ascending(ItemKeys(items))
    ensures Visited(Collect(objectid, kind), [], From(items, Some(Key(objectid, kind, 0)))).0 == Filtered(items, objectid, kind)
  {
    var key := Key(objectid, kind, 0);
    var slot := LeafSlot(items, key);
    SplitAtRun(items, key, slot);
    forall x | x in items[..slot] ensures !Filed(x, objectid, kind) {
      assert Before(x.key, key);
    }
    hide Ascending, NoneBefore, AllBefore, Filed, Filtered, Visited, LeafSlot;
    NoneFiled(items[..slot], objectid, kind);
    FilteredJoin(items[..slot], items[slot..], objectid, kind);
    assert items[..slot] + items[slot..] == items;
    CollectsRun(items[slot..], objectid, kind, []);
    assert [] + Filtered(items[slot..], objectid, kind) == Filtered(items[slot..], objectid, kind);
  }
}
