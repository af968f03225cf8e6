/** Descents of the checksum tree (src/csum.rs and src/btree.rs): the leaf a search for
    a sector ends in is the one the lookups and edits of digests start from. */
module CsumDescent {
  import opened Base
  import BTree
  import Csum

  const EXTENT_CSUM_OBJECTID: nat := U64_SPAN - 10

  const EXTENT_CSUM_KEY: nat := 128

  function KeyOf(at: nat): BTree.Key { BTree.Key(EXTENT_CSUM_OBJECTID, EXTENT_CSUM_KEY, at) }

  /** The tree files each item under the first sector it describes. */
  ghost predicate Files(t: BTree.Tree, items: seq<Csum.Packed>) {
    |BTree.InOrder(t)| == |items| && forall i | 0 <= i < |items| :: BTree.InOrder(t)[i].key == KeyOf(items[i].at)
  }

  /** The stretch of the items in order that a search for `target` ends in. */
  function LeafOf(t: BTree.Tree, target: nat): (nat, nat) {
    if !BTree.Wide(t) then (0, 0) else
      var skipped := BTree.Skipped(t, KeyOf(target));
      (skipped, skipped + |BTree.LeafFor(t, KeyOf(target)).items|)
  }

  /** On every stored checksum tree, the leaf a search ends in is a stretch of the items
      around the sector searched for: what a lookup of digests starts from. */
  lemma SearchesEndAround(disk: BTree.Disk, t: BTree.Tree, items: seq<Csum.Packed>, target: nat)
    requires BTree.AllParsed(disk) && BTree.WellFormed(disk, t) && Files(t, items)
    ensures Csum.LeafAround(items, LeafOf(t, target), target)
  {
    BTree.StoredWide(disk, t);
    BTree.StoredSorted(disk, t);
    EndsAround(t, items, target);
  }

  lemma EndsAround(t: BTree.Tree, items: seq<Csum.Packed>, target: nat)
    requires BTree.Wide(t) && BTree.Searchable(t) && BTree.Sorted(t) && Files(t, items)
    ensures Csum.LeafAround(items, LeafOf(t, target), target)
  {
    var key := KeyOf(target);
    BTree.LeafInPlace(t, key);
    var a, leaf, all := BTree.Skipped(t, key), BTree.LeafFor(t, key).items, BTree.InOrder(t);
    hide BTree.Skipped, BTree.LeafFor, BTree.InOrder, BTree.Wide, BTree.Searchable, BTree.Sorted;
    forall j | 0 <= j < a ensures items[j].at < target { assert all[j] in all[..a]; }
    forall j | a + |leaf| <= j < |items| ensures target < items[j].at { assert all[j] in all[a+|leaf|..]; }
  }

  /** Where each pointer's key is its child's first, it ends at the last item at or before
      the sector, if there is one. */
  lemma EndsInLeaf(t: BTree.Tree, items: seq<Csum.Packed>, target: nat)
    requires BTree.Wide(t) && BTree.Searchable(t) && BTree.Sorted(t) && BTree.Tight(t) && Files(t, items)
    ensures Csum.LeafFor(items, LeafOf(t, target), target)
  {
    var key := KeyOf(target);
    BTree.LeafInPlace(t, key);
    BTree.LeafHasPredecessor(t, key);
    EndsAround(t, items, target);
    var a, leaf, all := BTree.Skipped(t, key), BTree.LeafFor(t, key).items, BTree.InOrder(t);
    hide BTree.Skipped, BTree.LeafFor, BTree.InOrder, BTree.Wide, BTree.Searchable, BTree.Sorted, BTree.Tight;
    if a != 0 { assert all[a..a+|leaf|][0] == all[a]; }
  }

  /** Every stored checksum tree whose pointers' keys are their children's first is one the
      lookups and edits of digests read aright. */
  lemma SearchesDescend(disk: BTree.Disk, t: BTree.Tree, items: seq<Csum.Packed>)
    requires BTree.AllParsed(disk) && BTree.WellFormed(disk, t) && BTree.Tight(t) && Files(t, items)
    ensures Csum.Descends(items, (target: nat) => LeafOf(t, target))
  {
    BTree.StoredWide(disk, t);
    BTree.StoredSorted(disk, t);
    forall target: nat ensures Csum.LeafFor(items, LeafOf(t, target), target) { EndsInLeaf(t, items, target); }
  }

  // ------------------------------------------------------- a digest stepped over

  const OVERHANG: Csum.Packed := Csum.Packed(0, [7, 8])

  const FAR: Csum.Packed := Csum.Packed(0x10_0000, [9])

  /** Two leaves, the second pointed at by a key before its first item's. */
  const LOOSE: BTree.Tree :=
    BTree.Branch(0, 1, 1, [BTree.Ptr(KeyOf(0), 1, 1), BTree.Ptr(KeyOf(4096), 2, 1)],
                 [BTree.Tip(1, 1, [BTree.Item(KeyOf(0), 0)]), BTree.Tip(2, 1, [BTree.Item(KeyOf(0x10_0000), 0)])])

  lemma LooseItems()
    ensures BTree.InOrder(LOOSE) == [BTree.Item(KeyOf(0), 0), BTree.Item(KeyOf(0x10_0000), 0)]
  {
    assert LOOSE.kids[1..] == [LOOSE.kids[1]] && LOOSE.kids[1..][1..] == [];
    assert BTree.AllInOrder(LOOSE.kids[1..]) == [BTree.Item(KeyOf(0x10_0000), 0)];
  }

  lemma LooseLeaf()
    ensures BTree.Wide(LOOSE) && BTree.Skipped(LOOSE, KeyOf(4096)) == 1 && BTree.LeafFor(LOOSE, KeyOf(4096)) == LOOSE.kids[1]
  {
    assert BTree.NodeSlot(LOOSE.ptrs, KeyOf(4096)) == 1;
    assert LOOSE.kids[..1] == [LOOSE.kids[0]] && LOOSE.kids[..1][1..] == [];
  }

  lemma LooseSearchable()
    ensures BTree.Searchable(LOOSE) && BTree.Sorted(LOOSE)
  {
    assert BTree.InOrder(LOOSE.kids[0]) == [BTree.Item(KeyOf(0), 0)] && BTree.InOrder(LOOSE.kids[1]) == [BTree.Item(KeyOf(0x10_0000), 0)];
  }

  /** A search for the second sector of an item ends in the leaf after it, and a lookup
      that starts there misses the sector's digest. */
  lemma SteppedOver()
    ensures BTree.Searchable(LOOSE) && BTree.Sorted(LOOSE) && Files(LOOSE, [OVERHANG, FAR]) && Csum.Ordered([OVERHANG, FAR], 4096)
    ensures LeafOf(LOOSE, 4096) == (1, 2) && Csum.SaysIn(Csum.BeforeLeaf([OVERHANG, FAR], (1, 2), 4096), 4096, 4096, 8192)
  {
    LooseItems();
    LooseLeaf();
    LooseSearchable();
    hide BTree.InOrder, BTree.Skipped, BTree.LeafFor, BTree.Searchable, BTree.Sorted;
    assert Csum.SectorAt(OVERHANG, 4096, 1) == 4096;
    assert Csum.Says(OVERHANG, 4096, 4096, 8);
    assert [OVERHANG][0] == OVERHANG;
    assert Csum.SaidBy([OVERHANG], 4096, 4096, 8);
  }
}
