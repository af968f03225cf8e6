/** The file items naming an extent that is to be moved, whole (`file_items_naming` in
    src/balance.rs): the references shared leaves held are written back as references of
    their own, and what is listed is set against what is counted. */
module ItemsNaming {
  import opened Base
  import opened Backref
  import opened SharedRefs
  import opened ExpandRefs

  function HashOf(hash: Hash, t: Triple): nat { hash(t.tree, t.ino, t.offset) }

  predicate KeyIn(out: seq<KeyedRef>, key: nat) { exists i :: 0 <= i < |out| && out[i].key == key }

  /** The extent's own reference items, without those rewritten. */
  function Kept(keyed: seq<KeyedRef>, out: seq<KeyedRef>): seq<KeyedRef> {
    if keyed == [] then [] else
      var last := keyed[|keyed|-1];
      Kept(keyed[..|keyed|-1], out) + if KeyIn(out, last.key) then [] else [last]
  }

  ghost predicate KeysDiffer(keyed: seq<KeyedRef>) { forall i, j | 0 <= i < j < |keyed| :: keyed[i].key != keyed[j].key }

  /** The first item under a key. */
  function Prior(keyed: seq<KeyedRef>, key: nat): (p: Option<KeyedRef>)
    ensures p.None? <==> !KeyIn(keyed, key)
    ensures p.Some? ==> p.value in keyed && p.value.key == key
  {
    if keyed == [] then None else
      var init, last := keyed[..|keyed|-1], keyed[|keyed|-1];
      var p := Prior(init, key);
      KeyInNext(init, last, key);
      assert init + [last] == keyed;
      if p.Some? then p else if last.key == key then Some(last) else None
  }

  lemma {:induction false} KeyInNext(init: seq<KeyedRef>, last: KeyedRef, key: nat)
    ensures KeyIn(init + [last], key) <==> KeyIn(init, key) || last.key == key
  {
    assert forall i | 0 <= i < |init| :: (init + [last])[i] == init[i];
    assert (init + [last])[|init|] == last;
  }

  function PriorCount(keyed: seq<KeyedRef>, key: nat, t: Triple): nat {
    var p := Prior(keyed, key);
    if p.Some? && p.value.name == t then p.value.count else 0
  }

  function PriorSum(keyed: seq<KeyedRef>, key: nat): nat {
    var p := Prior(keyed, key);
    if p.Some? then p.value.count else 0
  }

  /** Rewriting one more item leaves out the one there was under its key, and no other. */
  lemma {:induction false} OneReplaced(keyed: seq<KeyedRef>, out: seq<KeyedRef>, q: KeyedRef, t: Triple)
    requires KeysDiffer(keyed) && !KeyIn(out, q.key)
    ensures CountKeyed(Kept(keyed, out), t) == CountKeyed(Kept(keyed, out + [q]), t) + PriorCount(keyed, q.key, t)
    ensures KeyedSum(Kept(keyed, out)) == KeyedSum(Kept(keyed, out + [q])) + PriorSum(keyed, q.key)
  {
    hide KeyIn, CountKeyed, KeyedSum;
    if keyed == [] { return; }
    var init, last := keyed[..|keyed|-1], keyed[|keyed|-1];
    OneReplaced(init, out, q, t);
    KeyInNext(out, q, last.key);
    OnlyLast(init, last, q.key);
    assert init + [last] == keyed;
    LastCounted(Kept(init, out), last, t);
    LastCounted(Kept(init, out + [q]), last, t);
    assert Kept(init, out) + [] == Kept(init, out) && Kept(init, out + [q]) + [] == Kept(init, out + [q]);
  }

  lemma {:induction false} OnlyLast(init: seq<KeyedRef>, last: KeyedRef, key: nat)
    requires KeysDiffer(init + [last])
    ensures last.key == key ==> Prior(init, key).None?
  {
    assert (init + [last])[|init|] == last;
    assert forall i | 0 <= i < |init| :: (init + [last])[i] == init[i];
  }

  lemma {:induction false} LastCounted(keyed: seq<KeyedRef>, last: KeyedRef, t: Triple)
    ensures CountKeyed(keyed + [last], t) == CountKeyed(keyed, t) + if last.name == t then last.count else 0
    ensures KeyedSum(keyed + [last]) == KeyedSum(keyed) + last.count
  {
    assert (keyed + [last])[..|keyed|] == keyed;
  }

  lemma {:induction false} AddedCounts(hash: Hash, refs: seq<Ref>, x: Ref, t: Triple)
    requires x.kind == EXTENT_DATA_REF
    ensures CountIn(Added(hash, refs, x), t) == CountIn(refs, t) + if NameOf(x) == t then x.count else 0
    ensures OnlyData(refs) ==> OnlyData(Added(hash, refs, x))
  {
    var i := FirstStop(hash, refs, x, 0);
    if FoundAt(refs, x, i) { UpCounts(refs, x, i, t); } else { PutCounts(refs, x, i, t); }
    hide CountIn, FirstStop;
  }

  lemma {:induction false} UpCounts(refs: seq<Ref>, x: Ref, i: nat, t: Triple)
    requires x.kind == EXTENT_DATA_REF && FoundAt(refs, x, i)
    ensures CountIn(refs[i := Up(refs[i], x)], t) == CountIn(refs, t) + if NameOf(x) == t then x.count else 0
  {
    hide CountIn;
    var now := refs[i := Up(refs[i], x)];
    CountAt(now, i, t);
    CountAt(refs, i, t);
    assert now[..i] == refs[..i] && now[i+1..] == refs[i+1..];
  }

  lemma {:induction false} PutCounts(refs: seq<Ref>, x: Ref, i: nat, t: Triple)
    requires x.kind == EXTENT_DATA_REF && i <= |refs|
    ensures CountIn(refs[..i] + [x] + refs[i..], t) == CountIn(refs, t) + if NameOf(x) == t then x.count else 0
  {
    hide CountIn;
    var now := refs[..i] + [x] + refs[i..];
    CountAt(now, i, t);
    assert now[..i] == refs[..i] && now[i+1..] == refs[i..];
    CountInJoin(refs[..i], refs[i..], t);
    assert refs == refs[..i] + refs[i..];
  }

  lemma {:induction false} CountAt(refs: seq<Ref>, i: nat, t: Triple)
    requires i < |refs|
    ensures CountIn(refs, t) == CountIn(refs[..i], t) + CountIn(refs[i+1..], t)
      + if refs[i].kind == EXTENT_DATA_REF && NameOf(refs[i]) == t then refs[i].count else 0
  {
    assert refs == refs[..i] + ([refs[i]] + refs[i+1..]);
    CountInJoin(refs[..i], [refs[i]] + refs[i+1..], t);
    CountInJoin([refs[i]], refs[i+1..], t);
    assert [refs[i]][..0] == [];
  }

  // ------------------------------------------------------- the references written back

  /** Every reference counts what it did, and what has been expanded so far. */
  ghost predicate Counted(keyed: seq<KeyedRef>, before: seq<Ref>, refs: seq<Ref>, out: seq<KeyedRef>, expanded: map<Triple, nat>, todo: set<Triple>) {
    forall t :: CountIn(refs, t) + CountKeyed(Kept(keyed, out), t) + CountKeyed(out, t)
      == CountIn(before, t) + CountKeyed(keyed, t) + if t in todo then 0 else Tally(expanded, t)
  }

  /** The record counts its own references, the items kept and the items rewritten. */
  ghost predicate Totalled(keyed: seq<KeyedRef>, body: Record, out: seq<KeyedRef>) {
    OnlyData(body.refs) && body.total == Sum(body.refs) + KeyedSum(Kept(keyed, out)) + KeyedSum(out)
  }

  /** The items rewritten are the references of trees done, each under its own hash. */
  ghost predicate Rewritten(hash: Hash, out: seq<KeyedRef>, expanded: map<Triple, nat>, todo: set<Triple>) {
    && KeysDiffer(out)
    && forall i | 0 <= i < |out| :: out[i].key == HashOf(hash, out[i].name) && out[i].name in expanded && out[i].name !in todo
  }

  /** The record has a data reference of the name. */
  predicate InlineNamed(refs: seq<Ref>, t: Triple) {
    exists i :: 0 <= i < |refs| && refs[i].kind == EXTENT_DATA_REF && NameOf(refs[i]) == t
  }

  /** A reference to be written as an item: the record has none of its name. */
  predicate ToWrite(refs: seq<Ref>, expanded: map<Triple, nat>, t: Triple) { t in expanded && !InlineNamed(refs, t) }

  /** A reference to be written under a hash that is another's: an item of the extent's
      has it under a different name, or another to be written does. */
  ghost predicate OtherAt(hash: Hash, keyed: seq<KeyedRef>, refs: seq<Ref>, expanded: map<Triple, nat>, t: Triple) {
    || NotOwn(keyed, HashOf(hash, t), t)
    || (exists u :: ToWrite(refs, expanded, u) && u != t && HashOf(hash, u) == HashOf(hash, t))
  }

  predicate NotOwn(keyed: seq<KeyedRef>, key: nat, t: Triple) { Prior(keyed, key).Some? && Prior(keyed, key).value.name != t }

  ghost predicate Clash(hash: Hash, keyed: seq<KeyedRef>, refs: seq<Ref>, expanded: map<Triple, nat>) {
    exists t :: ToWrite(refs, expanded, t) && OtherAt(hash, keyed, refs, expanded, t)
  }

  /** Every reference done that had to be written is, under a hash no other item has. */
  ghost predicate Written(keyed: seq<KeyedRef>, refs: seq<Ref>, hash: Hash, out: seq<KeyedRef>, expanded: map<Triple, nat>, todo: set<Triple>) {
    && (forall i | 0 <= i < |out| :: ToWrite(refs, expanded, out[i].name))
    && (forall t | ToWrite(refs, expanded, t) && t !in todo :: IsIn(out, t) && !NotOwn(keyed, HashOf(hash, t), t))
  }

  predicate IsIn(out: seq<KeyedRef>, t: Triple) { exists i :: 0 <= i < |out| && out[i].name == t }

  lemma {:induction false} AllWritten(hash: Hash, keyed: seq<KeyedRef>, refs: seq<Ref>, out: seq<KeyedRef>, expanded: map<Triple, nat>)
    requires Written(keyed, refs, hash, out, expanded, {}) && Rewritten(hash, out, expanded, {})
    ensures !Clash(hash, keyed, refs, expanded)
  {
    forall t, u | ToWrite(refs, expanded, t) && ToWrite(refs, expanded, u) && u != t ensures HashOf(hash, u) != HashOf(hash, t) {
      assert IsIn(out, t) && IsIn(out, u);
      var i :| 0 <= i < |out| && out[i].name == t;
      var j :| 0 <= j < |out| && out[j].name == u;
    }
  }

  lemma {:induction false} OneMoreWritten(hash: Hash, keyed: seq<KeyedRef>, refs: seq<Ref>, out: seq<KeyedRef>, q: KeyedRef,
                                          expanded: map<Triple, nat>, todo: set<Triple>)
    requires Written(keyed, refs, hash, out, expanded, todo) && ToWrite(refs, expanded, q.name) && !NotOwn(keyed, HashOf(hash, q.name), q.name)
    ensures Written(keyed, refs, hash, out + [q], expanded, todo - {q.name})
  {
    hide NotOwn, InlineNamed;
    var more := out + [q];
    assert more[|out|] == q && forall i | 0 <= i < |out| :: more[i] == out[i];
    forall t | ToWrite(refs, expanded, t) && t !in todo - {q.name} ensures IsIn(more, t) {
      if t != q.name {
        assert IsIn(out, t);
        var i :| 0 <= i < |out| && out[i].name == t;
        assert more[i].name == t;
      }
    }
  }

  lemma {:induction false} InlineWritten(hash: Hash, keyed: seq<KeyedRef>, refs: seq<Ref>, out: seq<KeyedRef>, t: Triple,
                                         expanded: map<Triple, nat>, todo: set<Triple>)
    requires Written(keyed, refs, hash, out, expanded, todo) && InlineNamed(refs, t)
    ensures Written(keyed, refs, hash, out, expanded, todo - {t})
  {
    hide NotOwn, InlineNamed, IsIn;
  }

  lemma {:induction false} NamedJoin(a: seq<Ref>, b: seq<Ref>, u: Triple)
    ensures InlineNamed(a + b, u) <==> InlineNamed(a, u) || InlineNamed(b, u)
  {
    assert forall j | 0 <= j < |a| :: (a + b)[j] == a[j];
    assert forall j | 0 <= j < |b| :: (a + b)[|a| + j] == b[j];
  }

  lemma {:induction false} BesideNames(a: seq<Ref>, x: Ref, b: seq<Ref>, u: Triple)
    requires x.kind == EXTENT_DATA_REF
    ensures InlineNamed(a + [x] + b, u) <==> InlineNamed(a + b, u) || NameOf(x) == u
  {
    NamedJoin(a, b, u);
    NamedJoin(a, [x], u);
    NamedJoin(a + [x], b, u);
    assert [x][0] == x;
  }

  lemma {:induction false} PutNames(refs: seq<Ref>, x: Ref, i: nat, u: Triple)
    requires x.kind == EXTENT_DATA_REF && i <= |refs|
    ensures InlineNamed(PutAt(refs, x, i), u) <==> InlineNamed(refs, u) || NameOf(x) == u
  {
    if FoundAt(refs, x, i) {
      var now := PutAt(refs, x, i);
      assert forall j | 0 <= j < |refs| :: NameOf(now[j]) == NameOf(refs[j]) && now[j].kind == refs[j].kind;
      assert NameOf(now[i]) == NameOf(x);
    } else {
      assert PutAt(refs, x, i) == refs[..i] + [x] + refs[i..] && refs[..i] + refs[i..] == refs;
      hide InlineNamed, PutAt;
      BesideNames(refs[..i], x, refs[i..], u);
    }
  }

  lemma {:induction false} AddedNames(hash: Hash, refs: seq<Ref>, x: Ref, u: Triple)
    requires x.kind == EXTENT_DATA_REF
    ensures InlineNamed(Added(hash, refs, x), u) <==> InlineNamed(refs, u) || NameOf(x) == u
  {
    PutNames(refs, x, FirstStop(hash, refs, x, 0), u);
  }

  lemma {:induction false} NoneRewritten(keyed: seq<KeyedRef>)
    ensures Kept(keyed, []) == keyed
  {
    if keyed != [] { NoneRewritten(keyed[..|keyed|-1]); }
  }

  lemma {:induction false} AtFirst(hash: Hash, keyed: seq<KeyedRef>, refs: seq<Ref>, expanded: map<Triple, nat>)
    ensures Counted(keyed, refs, refs, [], expanded, expanded.Keys) && Rewritten(hash, [], expanded, expanded.Keys)
  {
    NoneRewritten(keyed);
  }

  /** One reference counted up as many times as it is expanded, the others as they are. */
  method AddTimes(hash: Hash, body: Record, t: Triple, add: nat) returns (r: Result<Record, NamingError>)
    requires OnlyData(body.refs)
    ensures r.Err? ==> r.error == Overflow
    ensures r.Ok? ==> OnlyData(r.value.refs) && r.value == Record(body.total + add, body.fixed, r.value.refs)
    ensures r.Ok? ==> Sum(r.value.refs) == Sum(body.refs) + add
    ensures r.Ok? ==> forall u :: CountIn(r.value.refs, u) == CountIn(body.refs, u) + if u == t then add else 0
    ensures r.Ok? && InlineNamed(body.refs, t) ==> forall u :: InlineNamed(r.value.refs, u) <==> InlineNamed(body.refs, u)
  {
    var now := body;
    var x := DataRef(t.tree, t.ino, t.offset);
    for i := 0 to add
      invariant OnlyData(now.refs) && now == Record(body.total + i, body.fixed, now.refs)
      invariant Sum(now.refs) == Sum(body.refs) + i
      invariant forall u :: CountIn(now.refs, u) == CountIn(body.refs, u) + if u == t then i else 0
      invariant InlineNamed(body.refs, t) ==> forall u :: InlineNamed(now.refs, u) <==> InlineNamed(body.refs, u)
    {
      var more := AddData(hash, now, x);
      if more.Err? { return Err(Overflow); }
      AddedSums(hash, now.refs, x);
      forall u ensures CountIn(more.value.refs, u) == CountIn(now.refs, u) + if u == t then 1 else 0 {
        AddedCounts(hash, now.refs, x, u);
      }
      AddedCounts(hash, now.refs, x, t);
      forall u ensures InlineNamed(more.value.refs, u) <==> InlineNamed(now.refs, u) || u == t { AddedNames(hash, now.refs, x, u); }
      hide Added, CountIn, Sum, OnlyData, InlineNamed;
      now := more.value;
    }
    return Ok(now);
  }

  lemma {:induction false} InlineStep(keyed: seq<KeyedRef>, before: seq<Ref>, body: Record, now: Record, out: seq<KeyedRef>,
                                      expanded: map<Triple, nat>, todo: set<Triple>, t: Triple)
    requires t in todo && t in expanded && Counted(keyed, before, body.refs, out, expanded, todo) && Totalled(keyed, body, out)
    requires OnlyData(now.refs) && now.total == body.total + expanded[t] && Sum(now.refs) == Sum(body.refs) + expanded[t]
    requires forall u :: CountIn(now.refs, u) == CountIn(body.refs, u) + if u == t then expanded[t] else 0
    ensures Counted(keyed, before, now.refs, out, expanded, todo - {t}) && Totalled(keyed, now, out)
  {
    hide CountIn, CountKeyed, Kept, Sum, KeyedSum, OnlyData;
  }

  lemma {:induction false} ItemStep(keyed: seq<KeyedRef>, before: seq<Ref>, body: Record, out: seq<KeyedRef>, q: KeyedRef,
                                    expanded: map<Triple, nat>, todo: set<Triple>)
    requires KeysDiffer(keyed) && !KeyIn(out, q.key) && q.name in todo && q.name in expanded
    requires Counted(keyed, before, body.refs, out, expanded, todo) && Totalled(keyed, body, out)
    requires var p := Prior(keyed, q.key);
      (p.Some? ==> p.value.name == q.name) && q.count == expanded[q.name] + PriorSum(keyed, q.key)
    ensures Counted(keyed, before, body.refs, out + [q], expanded, todo - {q.name})
    ensures Totalled(keyed, body.(total := body.total + expanded[q.name]), out + [q])
  {
    forall u ensures CountKeyed(Kept(keyed, out + [q]), u) + CountKeyed(out + [q], u)
      == CountKeyed(Kept(keyed, out), u) + CountKeyed(out, u) + if u == q.name then expanded[u] else 0
    {
      OneReplaced(keyed, out, q, u);
      LastCounted(out, q, u);
    }
    OneReplaced(keyed, out, q, q.name);
    LastCounted(out, q, q.name);
    hide CountIn, CountKeyed, Kept, Sum, KeyedSum, OnlyData, KeyIn;
  }

  lemma {:induction false} OneMoreKey(hash: Hash, out: seq<KeyedRef>, q: KeyedRef, expanded: map<Triple, nat>, todo: set<Triple>)
    requires Rewritten(hash, out, expanded, todo) && !KeyIn(out, q.key) && q.key == HashOf(hash, q.name)
    requires q.name in todo && q.name in expanded
    ensures Rewritten(hash, out + [q], expanded, todo - {q.name})
  {
  }

  /** A reference whose hash is taken clashes. */
  lemma {:induction false} TakenKey(hash: Hash, keyed: seq<KeyedRef>, refs: seq<Ref>, out: seq<KeyedRef>, expanded: map<Triple, nat>, todo: set<Triple>, t: Triple)
    requires Rewritten(hash, out, expanded, todo) && Written(keyed, refs, hash, out, expanded, todo) && t in todo && ToWrite(refs, expanded, t)
    ensures KeyIn(out, HashOf(hash, t)) || NotOwn(keyed, HashOf(hash, t), t) ==> Clash(hash, keyed, refs, expanded)
  {
    if i :| 0 <= i < |out| && out[i].key == HashOf(hash, t) {
      assert out[i].name != t && ToWrite(refs, expanded, out[i].name);
      assert OtherAt(hash, keyed, refs, expanded, t);
    }
    if NotOwn(keyed, HashOf(hash, t), t) { assert OtherAt(hash, keyed, refs, expanded, t); }
  }

  /** The references shared leaves held, written back as ordinary ones: counted up where
      the record has one of the name, else as an item under its hash. */
  method WriteBack(hash: Hash, keyed: seq<KeyedRef>, body: Record, expanded: map<Triple, nat>)
    returns (r: Result<(Record, seq<KeyedRef>), NamingError>)
    requires KeysDiffer(keyed) && Totalled(keyed, body, [])
    ensures r.Err? ==> r.error == Overflow || r.error == HashTaken
    ensures r.Ok? ==> !Clash(hash, keyed, body.refs, expanded)
    ensures r.Err? && r.error == HashTaken ==> Clash(hash, keyed, body.refs, expanded)
    ensures r.Ok? ==> Counted(keyed, body.refs, r.value.0.refs, r.value.1, expanded, {})
    ensures r.Ok? ==> Totalled(keyed, r.value.0, r.value.1) && Rewritten(hash, r.value.1, expanded, {}) && r.value.0.fixed == body.fixed
  {
    var now, out: seq<KeyedRef>, todo := body, [], expanded.Keys;
    AtFirst(hash, keyed, body.refs, expanded);
    hide KeysDiffer, Kept, CountIn, CountKeyed, InlineNamed, NotOwn, Clash;
    while todo != {}
      invariant todo <= expanded.Keys && now.fixed == body.fixed
      invariant Counted(keyed, body.refs, now.refs, out, expanded, todo)
      invariant Totalled(keyed, now, out) && Rewritten(hash, out, expanded, todo)
      invariant Written(keyed, body.refs, hash, out, expanded, todo) && forall u :: InlineNamed(now.refs, u) <==> InlineNamed(body.refs, u)
    {
      hide Counted, Rewritten, Written;
      var t :| t in todo;
      var add := expanded[t];
      if InlineNamed(now.refs, t) {
        var more := AddTimes(hash, now, t, add);
        if more.Err? { return Err(Overflow); }
        InlineStep(keyed, body.refs, now, more.value, out, expanded, todo, t);
        FewerLeft(hash, out, expanded, todo, t);
        InlineWritten(hash, keyed, body.refs, out, t, expanded, todo);
        now, todo := more.value, todo - {t};
        continue;
      }
      var q := KeyedRef(HashOf(hash, t), t, add);
      var prior := Prior(keyed, q.key);
      TakenKey(hash, keyed, body.refs, out, expanded, todo, t);
      OwnOrNot(keyed, q.key, t);
      if prior.Some? {
        if prior.value.name != t { return Err(HashTaken); }
        if prior.value.count + add >= U32_SPAN { return Err(Overflow); }
        q := q.(count := prior.value.count + add);
      }
      if now.total + add >= U64_SPAN { return Err(Overflow); }
      // Each name comes once, so an item already written under the hash is another's.
      if KeyIn(out, q.key) { return Err(HashTaken); }
      ItemStep(keyed, body.refs, now, out, q, expanded, todo);
      OneMoreKey(hash, out, q, expanded, todo);
      OneMoreWritten(hash, keyed, body.refs, out, q, expanded, todo);
      now, out, todo := now.(total := now.total + add), out + [q], todo - {t};
    }
    AllWritten(hash, keyed, body.refs, out, expanded);
    return Ok((now, out));
  }

  lemma OwnOrNot(keyed: seq<KeyedRef>, key: nat, t: Triple)
    ensures NotOwn(keyed, key, t) <==> Prior(keyed, key).Some? && Prior(keyed, key).value.name != t
  {
  }

  lemma {:induction false} FewerLeft(hash: Hash, out: seq<KeyedRef>, expanded: map<Triple, nat>, todo: set<Triple>, t: Triple)
    requires Rewritten(hash, out, expanded, todo)
    ensures Rewritten(hash, out, expanded, todo - {t})
  {
  }

  // ------------------------------------------------------------------------ the whole

  /** A reference's count once the extent is written back. */
  function NewCount(e: Extent, found: Found, t: Triple): nat {
    CountIn(found.body.refs, t) + CountKeyed(Kept(e.keyed, found.expanded), t) + CountKeyed(found.expanded, t)
  }

  /** What the extent's references say of the file items, checked before any is moved. */
  ghost predicate Accountable(trees: Trees, roots: seq<nat>, e: Extent) {
    && AddsUp(e) && CountsRight(trees, e.at, AllData(e))
    && (AllShared(e) != [] ==> AllThere(trees, roots)) && LeavesRight(trees, roots, e.at, AllShared(e))
  }

  lemma {:induction false} SharedListed(refs: seq<Ref>, i: nat)
    requires i < |refs| && refs[i].kind == SHARED_DATA_REF
    ensures IsBy(SharedIn(refs), refs[i].a)
  {
    var init, r := refs[..|refs|-1], refs[|refs|-1];
    if i < |init| {
      SharedListed(init, i);
      var k :| 0 <= k < |SharedIn(init)| && SharedIn(init)[k].0 == refs[i].a;
      assert SharedIn(refs)[k] == SharedIn(init)[k];
    } else {
      assert SharedIn(refs)[|SharedIn(init)|].0 == r.a;
    }
  }

  lemma {:induction false} SharedApart(refs: seq<Ref>, i: nat, j: nat)
    requires i < j < |refs| && refs[i].kind == refs[j].kind == SHARED_DATA_REF && ParentsDiffer(SharedIn(refs))
    ensures refs[i].a != refs[j].a
  {
    var init, r := refs[..|refs|-1], refs[|refs|-1];
    var was := SharedIn(init);
    assert SharedIn(refs) == was + SharedOf(r);
    assert forall k | 0 <= k < |was| :: SharedIn(refs)[k] == was[k];
    if j < |init| {
      SharedApart(init, i, j);
    } else {
      SharedListed(init, i);
      var k :| 0 <= k < |was| && was[k].0 == refs[i].a;
      assert SharedIn(refs)[|was|].0 == r.a;
    }
  }

  lemma {:induction false} ByTheShared(e: Extent)
    requires AddsUp(e) && AllValid(e.body.refs)
    ensures OnlyBy(e.body.refs, AllShared(e))
  {
    var refs, inline, all := e.body.refs, SharedIn(e.body.refs), AllShared(e);
    assert forall k | 0 <= k < |inline| :: all[k] == inline[k];
    forall i | 0 <= i < |refs| && refs[i].kind == SHARED_DATA_REF
      ensures refs[i].b == refs[i].c == 0 && IsBy(all, refs[i].a)
    {
      SharedListed(refs, i);
      var k :| 0 <= k < |inline| && inline[k].0 == refs[i].a;
      assert Valid(refs[i]) && all[k].0 == refs[i].a;
    }
    forall i, j | 0 <= i < j < |refs| && refs[i].kind == refs[j].kind == SHARED_DATA_REF ensures refs[i].a != refs[j].a {
      SharedApart(refs, i, j);
    }
  }

  lemma {:induction false} NoSharedLeft(refs: seq<Ref>)
    requires OnlyBy(refs, [])
    ensures OnlyData(refs) && SharedIn(refs) == []
  {
    if refs != [] {
      var init, r := refs[..|refs|-1], refs[|refs|-1];
      assert refs[|refs|-1] == r && r.kind == EXTENT_DATA_REF;
      assert OnlyBy(init, []);
      NoSharedLeft(init);
    }
  }

  /** Less what was shared, the record counts the references that are not. */
  lemma {:induction false} LessShared(e: Extent, rest: Record)
    requires AddsUp(e) && OnlyBy(rest.refs, []) && DataIn(rest.refs) == DataIn(e.body.refs) && rest == e.body.(refs := rest.refs)
    ensures rest.total >= SharedSum(AllShared(e))
    ensures Totalled(e.keyed, rest.(total := rest.total - SharedSum(AllShared(e))), [])
    ensures forall t :: CountIn(rest.refs, t) + CountKeyed(e.keyed, t) == CountKeyed(AllData(e), t)
  {
    hide KeyedSum, SharedSum, CountKeyed, CountIn, Kept, OnlyBy, DataIn;
    NoSharedLeft(rest.refs);
    OnlyDataIsEither(rest.refs);
    NoneRewritten(e.keyed);
    KeyedSumJoin(DataIn(rest.refs), e.keyed);
    forall t ensures CountIn(rest.refs, t) + CountKeyed(e.keyed, t) == CountKeyed(AllData(e), t) {
      SplitsByKind(rest.refs, t);
      CountKeyedJoin(DataIn(rest.refs), e.keyed, t);
    }
    var some := Triple(0, 0, 0);
    SplitsByKind(rest.refs, some);
    NoneCounted(some);
  }

  lemma OnlyDataIsEither(refs: seq<Ref>)
    requires OnlyData(refs)
    ensures OnlyDataOrShared(refs)
  {
  }

  ghost predicate Items(trees: Trees, roots: seq<nat>, e: Extent, items: seq<(nat, FileItem)>) {
    && Distinct(items)
    && forall x :: x in items <==> NamedByAny(trees, e.at, AllData(e), x) || InSharedLeaf(trees, roots, e.at, AllShared(e), x)
  }

  /** Each reference counts the items it counted, and those the shared leaves hold. */
  ghost predicate NewCounts(trees: Trees, roots: seq<nat>, e: Extent, found: Found) {
    forall t :: NewCount(e, found, t) == CountKeyed(AllData(e), t) + SharedCount(trees, roots, e.at, AllShared(e), t)
  }

  /** Every file item naming the extent, each (tree, item) once, and the extent's record
      and reference items as they are once no reference is shared. */
  method FileItemsNaming(hash: Hash, trees: Trees, roots: seq<nat>, e: Extent) returns (r: Result<Found, NamingError>)
    requires KeysUnique(trees) && KeysDiffer(e.keyed) && AllValid(e.body.refs)
    ensures r.Ok? ==> Accountable(trees, roots, e)
    ensures r.Err? && r.error != HashTaken && r.error != Overflow ==> !Accountable(trees, roots, e)
    ensures r.Ok? ==> Items(trees, roots, e, r.value.items)
    ensures r.Ok? ==> NewCounts(trees, roots, e, r.value)
    ensures r.Ok? ==> Totalled(e.keyed, r.value.body, r.value.expanded) && r.value.body.fixed == e.body.fixed
  {
    hide KeysUnique, KeysDiffer, AllValid, Totalled, CountsRight, NamedByAny, InSharedLeaf, Listing, OnlyBy, DataIn, LeavesDone;
    var refs := Collect(e);
    if refs.Err? { return Err(refs.error); }
    var data, shared := refs.value.0, refs.value.1;
    var named := FindKeyed(trees, e.at, data);
    if named.Err? { return Err(named.error); }
    var live := if shared == [] then [] else roots;
    if !AllThere(trees, live) {
      var i :| 0 <= i < |live| && live[i] !in trees;
      return Err(NoTree(live[i]));
    }
    ByTheShared(e);
    var leaves := AllLeaves(trees, live, e.at, shared, named.value.0, named.value.1, e.body);
    if leaves.Err? { return Err(leaves.error); }
    var rest := leaves.value.2;
    LessShared(e, rest);
    if rest.total < SharedSum(shared) { return Err(TooFew); }
    var body := rest.(total := rest.total - SharedSum(shared));
    var back := WriteBack(hash, e.keyed, body, leaves.value.1);
    if back.Err? { return Err(back.error); }
    var found := Found(leaves.value.0, back.value.0, back.value.1);
    AllFound(trees, roots, e, live, named.value.0, leaves.value.1, body, found);
    return Ok(found);
  }

  lemma {:induction false} AllFound(trees: Trees, roots: seq<nat>, e: Extent, live: seq<nat>, named: seq<(nat, FileItem)>,
                                    expanded: map<Triple, nat>, body: Record, found: Found)
    requires live == if AllShared(e) == [] then [] else roots
    requires forall x :: x in named <==> NamedByAny(trees, e.at, AllData(e), x)
    requires Distinct(found.items) && LeavesDone(trees, live, e.at, AllShared(e), |AllShared(e)|, named, found.items, expanded)
    requires forall t :: CountIn(body.refs, t) + CountKeyed(e.keyed, t) == CountKeyed(AllData(e), t)
    requires Counted(e.keyed, body.refs, found.body.refs, found.expanded, expanded, {})
    ensures Items(trees, roots, e, found.items) && NewCounts(trees, roots, e, found)
  {
    var shared := AllShared(e);
    assert shared[..|shared|] == shared;
    hide CountIn, CountKeyed, Kept, Tally, NamedByAny, InLeafOf, LeafNamed, Distinct, AllShared, AllData;
    assert shared == [] ==> forall t :: SharedCount(trees, live, e.at, shared, t) == SharedCount(trees, roots, e.at, shared, t);
  }

  // ------------------------------------------------------- listed against counted

  /** The items listed that the reference names. */
  function ListedFor(items: seq<(nat, FileItem)>, at: nat, t: Triple): set<(nat, FileItem)> {
    set x | x in items && x.0 == t.tree && SharedRefs.Fits(x.1, at, t)
  }

  /** The tree's items the reference names. */
  function NamedSet(filed: seq<Filed>, at: nat, t: Triple): set<FileItem> {
    set g | g in filed && SharedRefs.Fits(g.item, at, t) :: g.item
  }

  ghost predicate KeysOnce(filed: seq<Filed>) {
    forall i, j | 0 <= i < j < |filed| :: filed[i].item.ino != filed[j].item.ino || filed[i].item.start != filed[j].item.start
  }

  lemma {:induction false} NamedSetNext(init: seq<Filed>, g: Filed, at: nat, t: Triple)
    requires KeysOnce(init + [g])
    ensures NamedSet(init + [g], at, t) == NamedSet(init, at, t) + if SharedRefs.Fits(g.item, at, t) then {g.item} else {}
    ensures SharedRefs.Fits(g.item, at, t) ==> g.item !in NamedSet(init, at, t)
  {
    var filed := init + [g];
    assert forall i | 0 <= i < |init| :: init[i] == filed[i];
    assert filed[|init|] == g;
    hide SharedRefs.Fits;
  }

  lemma {:induction false} NamedSetSize(filed: seq<Filed>, at: nat, t: Triple)
    requires KeysOnce(filed)
    ensures |NamedSet(filed, at, t)| == NamedCount(filed, at, t)
  {
    if filed != [] {
      var init, g := filed[..|filed|-1], filed[|filed|-1];
      assert filed == init + [g];
      NamedSetSize(init, at, t);
      NamedSetNext(init, g, at, t);
      hide NamedSet, SharedRefs.Fits, KeysOnce;
    }
  }

  /** Items seen through one tree, paired with the tree. */
  function InTreeOf(root: nat, files: set<FileItem>): set<(nat, FileItem)> { set f | f in files :: (root, f) }

  lemma {:induction false} InTreeSize(root: nat, files: set<FileItem>)
    ensures |InTreeOf(root, files)| == |files|
  {
    if files != {} {
      var f :| f in files;
      InTreeSize(root, files - {f});
      assert InTreeOf(root, files) == InTreeOf(root, files - {f}) + {(root, f)};
    }
  }

  /** The items the reference names in any of the shared leaves. */
  function SharedFiles(trees: Trees, roots: seq<nat>, at: nat, shared: seq<(nat, nat)>, t: Triple): set<FileItem> {
    set i, f | 0 <= i < |shared| && f in LeafNamed(trees, roots, at, shared[i].0, t) :: f
  }

  lemma {:induction false} OneLeafEach(trees: Trees, roots: seq<nat>, at: nat, p: nat, q: nat, t: Triple, f: FileItem)
    requires KeysUnique(trees) && f in LeafNamed(trees, roots, at, p, t) && f in LeafNamed(trees, roots, at, q, t)
    ensures p == q
  {
    InTree(trees, at, p, t.tree, f);
    InTree(trees, at, q, t.tree, f);
    var filed := trees[t.tree];
    var i :| 0 <= i < |filed| && filed[i] == Filed(f, p);
    var j :| 0 <= j < |filed| && filed[j] == Filed(f, q);
  }

  /** Leaves of different parents share no item, so their items count up. */
  lemma {:induction false} SharedFilesSize(trees: Trees, roots: seq<nat>, at: nat, shared: seq<(nat, nat)>, t: Triple)
    requires KeysUnique(trees) && ParentsDiffer(shared)
    ensures |SharedFiles(trees, roots, at, shared, t)| == SharedCount(trees, roots, at, shared, t)
  {
    hide LeafNamed, KeysUnique;
    if shared != [] {
      var init, s := shared[..|shared|-1], shared[|shared|-1];
      SharedFilesSize(trees, roots, at, init, t);
      var was, more := SharedFiles(trees, roots, at, init, t), LeafNamed(trees, roots, at, s.0, t);
      assert was !! more by {
        forall f | f in was && f in more ensures false {
          var i :| 0 <= i < |init| && f in LeafNamed(trees, roots, at, init[i].0, t);
          OneLeafEach(trees, roots, at, init[i].0, s.0, t, f);
        }
      }
      MoreShared(trees, roots, at, init, s, t);
      assert shared == init + [s];
      hide SharedFiles;
      assert |was + more| == |was| + |more|;
    }
  }

  lemma {:induction false} MoreShared(trees: Trees, roots: seq<nat>, at: nat, init: seq<(nat, nat)>, s: (nat, nat), t: Triple)
    ensures SharedFiles(trees, roots, at, init + [s], t) == SharedFiles(trees, roots, at, init, t) + LeafNamed(trees, roots, at, s.0, t)
  {
    hide LeafNamed;
    var all := init + [s];
    assert all[|init|] == s && forall i | 0 <= i < |init| :: all[i] == init[i];
  }

  /** How many of the data references go by the name. */
  function RefsNamed(data: seq<KeyedRef>, t: Triple): nat {
    if data == [] then 0 else RefsNamed(data[..|data|-1], t) + if data[|data|-1].name == t then 1 else 0
  }

  ghost predicate EachCounts(data: seq<KeyedRef>, t: Triple, n: nat) { forall d | d in data && d.name == t :: d.count == n }

  lemma {:induction false} CountedByName(data: seq<KeyedRef>, t: Triple, n: nat)
    requires EachCounts(data, t, n)
    ensures RefsNamed(data, t) == 0 || n == 0 ==> CountKeyed(data, t) == 0
    ensures RefsNamed(data, t) == 1 ==> CountKeyed(data, t) == n
    ensures RefsNamed(data, t) > 1 ==> CountKeyed(data, t) >= n + n
  {
    if data != [] {
      assert EachCounts(data[..|data|-1], t, n) && data[|data|-1] in data;
      CountedByName(data[..|data|-1], t, n);
    }
  }

  lemma {:induction false} SomeNamed(data: seq<KeyedRef>, t: Triple)
    ensures RefsNamed(data, t) > 0 <==> exists i :: 0 <= i < |data| && data[i].name == t
  {
    if data != [] {
      var init := data[..|data|-1];
      SomeNamed(init, t);
      assert forall i | 0 <= i < |init| :: init[i] == data[i];
    }
  }

  lemma {:induction false} KeysOnceIn(trees: Trees, root: nat)
    requires KeysUnique(trees) && root in trees
    ensures KeysOnce(trees[root])
  {
  }

  lemma {:induction false} NamedIn(trees: Trees, at: nat, t: Triple, f: FileItem)
    requires t.tree in trees
    ensures f in NamedSet(trees[t.tree], at, t) <==> NamedBy(trees, at, t, (t.tree, f))
  {
    if f in NamedSet(trees[t.tree], at, t) {
      var g :| g in trees[t.tree] && SharedRefs.Fits(g.item, at, t) && g.item == f;
      assert g == Filed(f, g.leaf) && Holds(trees, t.tree, f, g.leaf);
    }
  }

  lemma {:induction false} SharedFits(trees: Trees, roots: seq<nat>, at: nat, shared: seq<(nat, nat)>, t: Triple, f: FileItem)
    ensures f in SharedFiles(trees, roots, at, shared, t) <==> InSharedLeaf(trees, roots, at, shared, (t.tree, f)) && SharedRefs.Fits(f, at, t)
  {
    if f in SharedFiles(trees, roots, at, shared, t) {
      var k :| 0 <= k < |shared| && f in LeafNamed(trees, roots, at, shared[k].0, t);
      InTree(trees, at, shared[k].0, t.tree, f);
      assert InLeafOf(trees, roots, at, shared[k].0, (t.tree, f));
    }
    if InSharedLeaf(trees, roots, at, shared, (t.tree, f)) && SharedRefs.Fits(f, at, t) {
      var k :| 0 <= k < |shared| && InLeafOf(trees, roots, at, shared[k].0, (t.tree, f));
      assert f in LeafNamed(trees, roots, at, shared[k].0, t);
    }
  }

  lemma {:induction false} SharedAreNamed(trees: Trees, roots: seq<nat>, at: nat, shared: seq<(nat, nat)>, t: Triple)
    requires t.tree in trees
    ensures SharedFiles(trees, roots, at, shared, t) <= NamedSet(trees[t.tree], at, t)
  {
    forall f | f in SharedFiles(trees, roots, at, shared, t) ensures f in NamedSet(trees[t.tree], at, t) {
      var k :| 0 <= k < |shared| && f in LeafNamed(trees, roots, at, shared[k].0, t);
      InTree(trees, at, shared[k].0, t.tree, f);
    }
  }

  /** What is listed for a reference: its tree's items if it is a reference of the
      extent's own, else the shared leaves' items. */
  lemma {:induction false} ListedIs(trees: Trees, roots: seq<nat>, e: Extent, items: seq<(nat, FileItem)>, t: Triple)
    requires CountsRight(trees, e.at, AllData(e)) && Items(trees, roots, e, items)
    ensures RefsNamed(AllData(e), t) > 0 ==> t.tree in trees && ListedFor(items, e.at, t) == InTreeOf(t.tree, NamedSet(trees[t.tree], e.at, t))
    ensures RefsNamed(AllData(e), t) == 0 ==> ListedFor(items, e.at, t) == InTreeOf(t.tree, SharedFiles(trees, roots, e.at, AllShared(e), t))
  {
    var data, shared := AllData(e), AllShared(e);
    SomeNamed(data, t);
    if RefsNamed(data, t) > 0 {
      var i :| 0 <= i < |data| && data[i].name == t;
      SharedAreNamed(trees, roots, e.at, shared, t);
      forall f ensures (t.tree, f) in ListedFor(items, e.at, t) <==> f in NamedSet(trees[t.tree], e.at, t) {
        NamedIn(trees, e.at, t, f);
        SharedFits(trees, roots, e.at, shared, t, f);
        OnlyItsOwn(trees, e, t, f);
      }
    } else {
      forall f ensures (t.tree, f) in ListedFor(items, e.at, t) <==> f in SharedFiles(trees, roots, e.at, shared, t) {
        SharedFits(trees, roots, e.at, shared, t, f);
        OnlyItsOwn(trees, e, t, f);
      }
    }
    hide NamedSet, SharedFiles, Items, CountsRight;
  }

  /** An item fits one name of its tree only. */
  lemma {:induction false} OnlyItsOwn(trees: Trees, e: Extent, t: Triple, f: FileItem)
    ensures SharedRefs.Fits(f, e.at, t) ==>
      (NamedByAny(trees, e.at, AllData(e), (t.tree, f)) <==> RefsNamed(AllData(e), t) > 0 && NamedBy(trees, e.at, t, (t.tree, f)))
  {
    var data := AllData(e);
    SomeNamed(data, t);
    if i :| 0 <= i < |data| && NamedBy(trees, e.at, data[i].name, (t.tree, f)) {
      assert SharedRefs.Fits(f, e.at, t) ==> data[i].name == t;
    }
  }

  /** A name the record counts once for each item: no item goes by it, or the items are
      one reference's own, or the shared leaves'. */
  ghost predicate CountedOnce(trees: Trees, roots: seq<nat>, e: Extent, t: Triple) {
    var own, shared := RefsNamed(AllData(e), t), SharedCount(trees, roots, e.at, AllShared(e), t);
    own == 0 || (t.tree in trees && NamedCount(trees[t.tree], e.at, t) == 0) || (own == 1 && shared == 0)
  }

  /** The items listed never outnumber what is counted, and are as many exactly where no
      reference of the extent's own names what a shared leaf or another reference does:
      an item both name is listed once and counted twice. */
  lemma {:induction false} ListedAgainstCounted(trees: Trees, roots: seq<nat>, e: Extent, found: Found, t: Triple)
    requires KeysUnique(trees) && Accountable(trees, roots, e) && Items(trees, roots, e, found.items) && NewCounts(trees, roots, e, found)
    ensures |ListedFor(found.items, e.at, t)| <= NewCount(e, found, t)
    ensures |ListedFor(found.items, e.at, t)| == NewCount(e, found, t) <==> CountedOnce(trees, roots, e, t)
  {
    var data, shared := AllData(e), AllShared(e);
    ListedIs(trees, roots, e, found.items, t);
    assert ParentsDiffer(shared);
    SharedFilesSize(trees, roots, e.at, shared, t);
    if RefsNamed(data, t) == 0 {
      InTreeSize(t.tree, SharedFiles(trees, roots, e.at, shared, t));
      assert EachCounts(data, t, 0) by { NoneSoNamed(data, t); }
      CountedByName(data, t, 0);
    } else {
      var filed := trees[t.tree];
      KeysOnceIn(trees, t.tree);
      NamedSetSize(filed, e.at, t);
      InTreeSize(t.tree, NamedSet(filed, e.at, t));
      SharedAreNamed(trees, roots, e.at, shared, t);
      SubsetSize(SharedFiles(trees, roots, e.at, shared, t), NamedSet(filed, e.at, t));
      assert EachCounts(data, t, NamedCount(filed, e.at, t));
      CountedByName(data, t, NamedCount(filed, e.at, t));
    }
    hide ListedFor, NamedSet, SharedFiles, InTreeOf, Items, CountKeyed, NewCount, NamedCount, SharedCount;
  }

  const LEAF: nat := 0x50_0000

  const ONCE_FILED: FileItem := FileItem(257, 0, 0x100_0000, 0, 0)

  const ONE_TREE: Trees := map[5 := [Filed(ONCE_FILED, LEAF)]]

  const ITS_NAME: Triple := Triple(5, 257, 0)

  /** A record counting two: the item's own reference, and its leaf's. */
  const TWICE_NAMED: Extent :=
    Extent(0x100_0000, Record(2, [], [Ref(EXTENT_DATA_REF, 5, 257, 0, 1), Ref(SHARED_DATA_REF, LEAF, 0, 0, 1)]), [], [])

  lemma TwiceNamedLists()
    ensures AllData(TWICE_NAMED) == [KeyedRef(0, ITS_NAME, 1)] && AllShared(TWICE_NAMED) == [(LEAF, 1)]
  {
    var refs := TWICE_NAMED.body.refs;
    assert refs[..1] == [refs[0]] && refs[..1][..0] == [];
    assert DataIn(refs[..1]) == [KeyedRef(0, ITS_NAME, 1)] && SharedIn(refs[..1]) == [];
  }

  lemma TwiceNamedLeaf()
    ensures LeafFiles(ONE_TREE, [5], TWICE_NAMED.at, LEAF) == {ONCE_FILED}
    ensures LeafNamed(ONE_TREE, [5], TWICE_NAMED.at, LEAF, ITS_NAME) == {ONCE_FILED}
    ensures NamedCount(ONE_TREE[5], TWICE_NAMED.at, ITS_NAME) == 1
  {
    assert ONE_TREE[5][0] == Filed(ONCE_FILED, LEAF) && ONE_TREE[5][..0] == [];
    assert FilesIn(ONE_TREE, TWICE_NAMED.at, LEAF, 5) == {ONCE_FILED};
    assert [5][0] == 5;
  }

  lemma TwiceNamedSums(data: seq<KeyedRef>, shared: seq<(nat, nat)>)
    requires data == [KeyedRef(0, ITS_NAME, 1)] && shared == [(LEAF, 1)]
    ensures KeyedSum(data) == 1 && SharedSum(shared) == 1 && RefsNamed(data, ITS_NAME) == 1
    ensures SharedCount(ONE_TREE, [5], TWICE_NAMED.at, shared, ITS_NAME) == 1
  {
    TwiceNamedLeaf();
    hide LeafFiles, LeafNamed, NamedCount;
    assert data[..0] == [] && shared[..0] == [];
  }

  lemma OneTreeKeys()
    ensures KeysUnique(ONE_TREE)
  {
  }

  lemma AddsUpWhen(e: Extent, data: seq<KeyedRef>, shared: (nat, nat))
    requires AllData(e) == data && AllShared(e) == [shared] && OnlyDataOrShared(e.body.refs)
    requires e.body.total == KeyedSum(data) + SharedSum([shared])
    ensures AddsUp(e)
  {
    hide AllData, AllShared, KeyedSum, SharedSum, OnlyDataOrShared;
  }

  lemma OnlyTwo(a: Ref, b: Ref)
    requires a.kind == EXTENT_DATA_REF && b.kind == SHARED_DATA_REF
    ensures OnlyDataOrShared([a, b])
  {
  }

  lemma TwiceNamedAddsUp()
    ensures AddsUp(TWICE_NAMED)
  {
    hide AllData, AllShared, KeyedSum, SharedSum, OnlyDataOrShared, AddsUp;
    TwiceNamedLists();
    TwiceNamedSums(AllData(TWICE_NAMED), AllShared(TWICE_NAMED));
    OnlyTwo(Ref(EXTENT_DATA_REF, 5, 257, 0, 1), Ref(SHARED_DATA_REF, LEAF, 0, 0, 1));
    AddsUpWhen(TWICE_NAMED, [KeyedRef(0, ITS_NAME, 1)], (LEAF, 1));
  }

  lemma OneRight(trees: Trees, roots: seq<nat>, at: nat, d: KeyedRef, shared: (nat, nat))
    requires d.name.tree in trees && NamedCount(trees[d.name.tree], at, d.name) == d.count && LeafRight(trees, roots, at, shared)
    ensures CountsRight(trees, at, [d]) && LeavesRight(trees, roots, at, [shared])
  {
    hide NamedCount, LeafRight;
  }

  lemma TwiceNamedRight()
    ensures LeafRight(ONE_TREE, [5], TWICE_NAMED.at, (LEAF, 1)) && AllThere(ONE_TREE, [5]) && 5 in ONE_TREE
  {
    TwiceNamedLeaf();
    hide LeafFiles, LeafNamed, NamedCount;
  }

  lemma TwiceNamedCounts()
    ensures CountsRight(ONE_TREE, TWICE_NAMED.at, AllData(TWICE_NAMED))
    ensures AllThere(ONE_TREE, [5]) && LeavesRight(ONE_TREE, [5], TWICE_NAMED.at, AllShared(TWICE_NAMED))
  {
    hide AllData, AllShared, CountsRight, LeavesRight, LeafRight, AllThere, NamedCount, LeafFiles, LeafNamed;
    TwiceNamedLists();
    TwiceNamedLeaf();
    TwiceNamedRight();
    OneRight(ONE_TREE, [5], TWICE_NAMED.at, KeyedRef(0, ITS_NAME, 1), (LEAF, 1));
  }

  lemma TwiceNamedNotOnce()
    ensures !CountedOnce(ONE_TREE, [5], TWICE_NAMED, ITS_NAME)
  {
    TwiceNamedLists();
    TwiceNamedLeaf();
    TwiceNamedSums(AllData(TWICE_NAMED), AllShared(TWICE_NAMED));
    hide AllData, AllShared, LeafFiles, LeafNamed, NamedCount, RefsNamed, SharedCount;
  }

  /** An item named by a reference of its own and by its shared leaf: the record adds up,
      and the one item listed is counted as two. */
  lemma {:induction false} ListedOnceCountedTwice(found: Found)
    requires Items(ONE_TREE, [5], TWICE_NAMED, found.items) && NewCounts(ONE_TREE, [5], TWICE_NAMED, found)
    ensures KeysUnique(ONE_TREE) && Accountable(ONE_TREE, [5], TWICE_NAMED)
    ensures |ListedFor(found.items, TWICE_NAMED.at, ITS_NAME)| < NewCount(TWICE_NAMED, found, ITS_NAME)
  {
    OneTreeKeys();
    TwiceNamedAddsUp();
    TwiceNamedCounts();
    TwiceNamedNotOnce();
    hide KeysUnique, AddsUp, CountsRight, AllThere, LeavesRight, CountedOnce, Items, NewCounts, NewCount, ListedFor, AllData, AllShared;
    ListedAgainstCounted(ONE_TREE, [5], TWICE_NAMED, found, ITS_NAME);
  }

  lemma {:induction false} NoneSoNamed(data: seq<KeyedRef>, t: Triple)
    requires RefsNamed(data, t) == 0
    ensures EachCounts(data, t, 0)
  {
    SomeNamed(data, t);
    assert forall d | d in data :: exists i :: 0 <= i < |data| && data[i] == d;
  }

  lemma {:induction false} SubsetSize(a: set<FileItem>, b: set<FileItem>)
    requires a <= b
    ensures |a| <= |b|
  {
    assert b == a + (b - a);
  }
}
