/** Edits of a tree's items by key: what a batch of deletes and puts leaves. */
module Keyed {
  import opened Base

  datatype Edit<+V> = Delete | Put(item: V)

  /** Edits by key: a later edit of one key has replaced an earlier one. */
  function Edited<V>(m: map<nat, V>, edits: map<nat, Edit<V>>): map<nat, V> {
    map k | k in m.Keys + edits.Keys && (k in edits ==> edits[k].Put?) :: if k in edits then edits[k].item else m[k]
  }

  lemma HasLeast(s: set<nat>)
    requires s != {}
    ensures exists k :: k in s && forall j | j in s :: k <= j
  {
    var k :| k in s;
    if s - {k} != {} {
      HasLeast(s - {k});
      var l :| l in s - {k} && forall j | j in s - {k} :: l <= j;
      assert forall j | j in s :: j == k || j in s - {k};
      assert Min(k, l) in s && forall j | j in s :: Min(k, l) <= j;
    } else {
      assert forall j | j in s :: j == k || j in s - {k};
      assert k in s && forall j | j in s :: k <= j;
    }
  }

  /** The first key of an ordered map. */
  function Least(s: set<nat>): (k: nat)
    requires s != {}
    ensures k in s && forall j | j in s :: k <= j
  {
    HasLeast(s);
    var k :| k in s && forall j | j in s :: k <= j;
    k
  }

  /** Edits to separate stretches of the keys apply separately. */
  lemma EditedApart<V>(m: map<nat, V>, e: map<nat, Edit<V>>, m2: map<nat, V>, e2: map<nat, Edit<V>>)
    requires (m.Keys + e.Keys) !! (m2.Keys + e2.Keys)
    ensures Edited(m + m2, e + e2) == Edited(m, e) + Edited(m2, e2)
  {
  }

  lemma EditedTwice<V>(m: map<nat, V>, e: map<nat, Edit<V>>, e2: map<nat, Edit<V>>)
    ensures Edited(m, e + e2) == Edited(Edited(m, e), e2)
  {
  }

  lemma EditedByNone<V>(m: map<nat, V>)
    ensures Edited(m, map[]) == m
  {
  }

  lemma DeleteOne<V>(m: map<nat, V>, k: nat)
    ensures Edited(m, map[k := Delete]) == m - {k}
  {
  }

  lemma PutOne<V>(m: map<nat, V>, k: nat, v: V)
    ensures Edited(m, map[k := Put(v)]) == m[k := v]
  {
  }

  lemma FirstApart<V>(m: map<nat, V>, k: nat)
    requires k in m
    ensures m == map[k := m[k]] + (m - {k}) && |m - {k}| < |m|
  {
    assert (m - {k}).Keys == m.Keys - {k};
  }

  lemma EditOne<V>(m: map<nat, V>, edits: map<nat, Edit<V>>, k: nat)
    requires k in edits
    ensures Edited(m, edits) == Edited(if edits[k].Put? then m[k := edits[k].item] else m - {k}, edits - {k})
    ensures |edits - {k}| < |edits|
  {
    FirstApart(edits, k);
    EditedTwice(m, map[k := edits[k]], edits - {k});
    if edits[k].Put? { PutOne(m, k, edits[k].item); } else { DeleteOne(m, k); }
    hide Edited;
  }

  ghost predicate KeysIn(m: set<nat>, lo: int, hi: int) { forall k | k in m :: lo <= k < hi }

  /** The middle two of four joined maps trade places when they share no key. */
  lemma Swap<V>(a: map<nat, V>, b: map<nat, V>, c: map<nat, V>, d: map<nat, V>)
    requires b.Keys !! c.Keys
    ensures (a + b) + (c + d) == (a + c) + (b + d)
  {
  }

  lemma NothingPlus<V>(m: map<nat, V>)
    ensures map[] + m == m
  {
  }
}
