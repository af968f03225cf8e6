/** Moving data extents from one block group to another (`move_data_extents` in
    src/balance.rs), as edits of what a commit makes durable: every extent keeps its
    record and its items under its new address. */
module Moving {
  import opened Base
  import opened ChunkMap

  type Bytes = nat -> byte

  /** A file extent item's key: its tree, its inode and where in the file it starts. */
  datatype Key = Key(tree: nat, ino: nat, start: nat)

  /** The extent an item names, and all else it says. */
  datatype Item = Item(bytenr: nat, rest: nat)

  datatype Rec = Rec(len: nat, refs: nat)

  datatype Group = Group(length: nat, used: nat)

  /** What is committed: the chunk map, the block groups, the data extents and the file
      items that name them. */
  datatype Disk = Disk(chunks: seq<Chunk>, groups: map<nat, Group>, extents: map<nat, Rec>, items: map<Key, Item>)

  /** An extent as it is listed before any is moved: with every item naming it. */
  datatype DataExtent = DataExtent(at: nat, len: nat, items: set<Key>)

  function ItemsOf(items: map<Key, Item>, at: nat): set<Key> { set k | k in items && items[k].bytenr == at }

  function Lens(extents: seq<DataExtent>): (s: seq<nat>)
    ensures |s| == |extents|
  {
    seq(|extents|, i requires 0 <= i < |extents| => extents[i].len)
  }

  // --------------------------------------------------------------------- what a file reads

  /** The bytes of an extent, as a file that names it reads them. */
  function Content(b: Bytes, at: nat, len: nat): seq<byte> { seq(len, i => if i >= 0 then b(at + i) else 0) }

  /** What an item reads: all it says but the address, and the bytes it names. */
  function ReadOf(d: Disk, b: Bytes, k: Key): (nat, seq<byte>)
    requires k in d.items && d.items[k].bytenr in d.extents
  {
    (d.items[k].rest, Content(b, d.items[k].bytenr, d.extents[d.items[k].bytenr].len))
  }

  // ------------------------------------------------------------------------- renaming

  /** `d` is `o` with each extent at the address `w` gives it: same records, same items. */
  ghost predicate Renamed(o: Disk, d: Disk, w: map<nat, nat>) {
    RecordsMoved(o.extents, d.extents, w) && ItemsMoved(o.items, d.items, w)
  }

  ghost predicate RecordsMoved(was: map<nat, Rec>, now: map<nat, Rec>, w: map<nat, nat>) {
    && w.Keys == was.Keys && Injective(w)
    && (forall a | a in w :: w[a] in now && now[w[a]] == was[a])
    && (forall b | b in now :: Comes(w, b))
  }

  ghost predicate ItemsMoved(was: map<Key, Item>, now: map<Key, Item>, w: map<nat, nat>) {
    && was.Keys == now.Keys
    && (forall k | k in was :: was[k].bytenr in w && now[k] == was[k].(bytenr := w[was[k].bytenr]))
  }

  ghost predicate Injective(w: map<nat, nat>) { forall a, b | a in w && b in w && w[a] == w[b] :: a == b }

  ghost predicate Comes(w: map<nat, nat>, b: nat) { exists a :: a in w && w[a] == b }

  /** The bytes are where `w` says. */
  ghost predicate SameContent(o: Disk, ob: Bytes, b: Bytes, w: map<nat, nat>)
    requires w.Keys == o.extents.Keys
  {
    forall a | a in w :: Content(b, w[a], o.extents[a].len) == Content(ob, a, o.extents[a].len)
  }

  ghost predicate Named(d: Disk) { forall k | k in d.items :: d.items[k].bytenr in d.extents }

  lemma {:induction false} RenamedNamed(o: Disk, d: Disk, w: map<nat, nat>)
    requires Renamed(o, d, w)
    ensures Named(o) && Named(d)
  {
  }

  /** Every file reads what it read. */
  lemma {:induction false} RenamedReads(o: Disk, ob: Bytes, d: Disk, b: Bytes, w: map<nat, nat>, k: Key)
    requires Renamed(o, d, w) && SameContent(o, ob, b, w) && k in o.items
    ensures Named(o) && Named(d) && k in d.items && ReadOf(d, b, k) == ReadOf(o, ob, k)
  {
    RenamedNamed(o, d, w);
    hide Content;
  }

  /** An extent's count is still the number of items that name it. */
  ghost predicate CountsRight(d: Disk) { forall a | a in d.extents :: d.extents[a].refs == |ItemsOf(d.items, a)| }

  lemma {:induction false} RenamedCounts(o: Disk, d: Disk, w: map<nat, nat>)
    requires Renamed(o, d, w) && CountsRight(o)
    ensures CountsRight(d)
  {
    forall b | b in d.extents ensures d.extents[b].refs == |ItemsOf(d.items, b)| {
      assert Comes(w, b);
      var a :| a in w && w[a] == b;
      SameItems(o, d, w, a);
    }
  }

  lemma {:induction false} SameItems(o: Disk, d: Disk, w: map<nat, nat>, a: nat)
    requires Renamed(o, d, w) && a in w
    ensures ItemsOf(d.items, w[a]) == ItemsOf(o.items, a)
  {
    forall k ensures k in ItemsOf(d.items, w[a]) <==> k in ItemsOf(o.items, a) {
    }
  }

  // -------------------------------------------------------------------------- one move

  function Repoint(items: map<Key, Item>, keys: set<Key>, to: nat): map<Key, Item> {
    map k | k in items :: if k in keys then items[k].(bytenr := to) else items[k]
  }

  function Shift(groups: map<nat, Group>, from: nat, to: nat, len: nat): map<nat, Group>
    requires from in groups && to in groups && from != to && groups[from].used >= len
  {
    groups[from := groups[from].(used := groups[from].used - len)][to := groups[to].(used := groups[to].used + len)]
  }

  predicate Movable(d: Disk, e: DataExtent, from: nat, to: nat) {
    e.at in d.extents && from in d.groups && to in d.groups && from != to && d.groups[from].used >= e.len
  }

  /** One extent's edits: its record under the new address, its items naming that, and
      both groups' counts. */
  function MoveOne(d: Disk, e: DataExtent, from: nat, to: nat, place: nat): Disk
    requires Movable(d, e, from, to)
  {
    Disk(d.chunks, Shift(d.groups, from, to, e.len), (d.extents - {e.at})[place := d.extents[e.at]], Repoint(d.items, e.items, place))
  }

  lemma {:induction false} MoveRenames(o: Disk, d: Disk, w: map<nat, nat>, e: DataExtent, from: nat, to: nat, place: nat)
    requires Renamed(o, d, w) && Movable(d, e, from, to) && place !in d.extents
    requires e.at in w && w[e.at] == e.at && e.items == ItemsOf(o.items, e.at)
    ensures Renamed(o, MoveOne(d, e, from, to, place), w[e.at := place])
  {
    RecordMoves(o.extents, d.extents, w, e.at, place);
    ItemsMove(o.items, d.items, w, e, place);
    hide RecordsMoved, ItemsMoved, ItemsOf, Repoint;
  }

  lemma {:induction false} RecordMoves(was: map<nat, Rec>, d: map<nat, Rec>, w: map<nat, nat>, at: nat, place: nat)
    requires RecordsMoved(was, d, w) && at in w && w[at] == at && at in d && place !in d
    ensures RecordsMoved(was, (d - {at})[place := d[at]], w[at := place])
  {
    var now, v := (d - {at})[place := d[at]], w[at := place];
    assert v.Keys == w.Keys;
    forall a | a in v ensures v[a] in now && now[v[a]] == was[a] {
      assert a != at ==> w[a] != at && w[a] != place;
    }
    forall b | b in now ensures Comes(v, b) {
      if b == place {
        assert v[at] == b;
      } else {
        assert Comes(w, b);
        var a :| a in w && w[a] == b;
        assert v[a] == b;
      }
    }
    forall a, b | a in v && b in v && v[a] == v[b] ensures a == b {
      assert a != at ==> w[a] in d && w[a] != place;
      assert b != at ==> w[b] in d && w[b] != place;
    }
  }

  lemma {:induction false} ItemsMove(was: map<Key, Item>, d: map<Key, Item>, w: map<nat, nat>, e: DataExtent, place: nat)
    requires ItemsMoved(was, d, w) && e.at in w && e.items == ItemsOf(was, e.at)
    ensures ItemsMoved(was, Repoint(d, e.items, place), w[e.at := place])
  {
  }
}
