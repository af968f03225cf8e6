/** An extent record's inline references (src/backref.rs): the bytes of an extent item
    against the list of references they hold, and the edits of that list. The hash that
    orders data references is a parameter. */
module Backref {
  import opened Base

  const EXTENT_OWNER_REF: nat := 172
  const TREE_BLOCK_REF: nat := 176
  const EXTENT_DATA_REF: nat := 178
  const SHARED_BLOCK_REF: nat := 182
  const SHARED_DATA_REF: nat := 184

  const ITEM_HEADER: nat := 24
  const TREE_BLOCK_INFO: nat := 18
  const U32_SPAN: nat := 0x1_0000_0000

  datatype ItemType = ExtentItem | MetadataItem

  datatype RefError =
    | Short | UnknownKind(kind: nat) | EndsInside(kind: nat) | LastReference | CountAtLimit | TotalAtLimit
    | NamedAlready | OtherDataRefs | NotShared | CountsTooFew

  /** One inline reference: `a` is the tree or the parent, `b` and `c` a data
      reference's inode and file offset; an owner counts nothing, a block one. */
  datatype Ref = Ref(kind: nat, a: nat, b: nat, c: nat, count: nat) {
    predicate Names(x: Ref) { kind == x.kind && a == x.a && b == x.b && c == x.c }
  }

  predicate KnownKind(kind: nat) {
    kind in {EXTENT_OWNER_REF, TREE_BLOCK_REF, EXTENT_DATA_REF, SHARED_BLOCK_REF, SHARED_DATA_REF}
  }

  predicate Valid(r: Ref) {
    && KnownKind(r.kind) && r.a < U64_SPAN && r.b < U64_SPAN && r.c < U64_SPAN && r.count < U32_SPAN
    && (r.kind != EXTENT_DATA_REF ==> r.b == 0 && r.c == 0)
    && (r.kind == EXTENT_OWNER_REF ==> r.count == 0)
    && (r.kind in {TREE_BLOCK_REF, SHARED_BLOCK_REF} ==> r.count == 1)
  }

  predicate AllValid(refs: seq<Ref>) { forall i | 0 <= i < |refs| :: Valid(refs[i]) }

  // ----------------------------------------------------------- little-endian words

  function Pow256(k: nat): Pos { if k == 0 then 1 else 256 * Pow256(k - 1) }

  function Le(n: nat, k: nat): (b: seq<byte>)
    ensures |b| == k
  {
    if k == 0 then [] else [(n % 256) as byte] + Le(n / 256, k - 1)
  }

  function FromLe(b: seq<byte>): nat {
    if b == [] then 0 else b[0] as nat + 256 * FromLe(b[1..])
  }

  lemma {:induction false} LeReads(n: nat, k: nat)
    requires n < Pow256(k)
    ensures FromLe(Le(n, k)) == n
    decreases k
  {
    if k > 0 {
      LeReads(n / 256, k - 1);
      assert Le(n, k)[1..] == Le(n / 256, k - 1);
    }
  }

  lemma {:induction false} LeWrites(b: seq<byte>)
    ensures Le(FromLe(b), |b|) == b && FromLe(b) < Pow256(|b|)
  {
    if b != [] {
      LeWrites(b[1..]);
      var n := FromLe(b);
      assert n % 256 == b[0] as nat && n / 256 == FromLe(b[1..]);
    }
  }

  lemma Widths()
    ensures Pow256(4) == U32_SPAN && Pow256(8) == U64_SPAN
  {
    assert Pow256(2) == 0x1_0000 && Pow256(3) == 0x100_0000;
    assert Pow256(5) == 0x100_0000_0000 && Pow256(6) == 0x1_0000_0000_0000 && Pow256(7) == 0x100_0000_0000_0000;
  }

  // ---------------------------------------------------------- references as bytes

  function PayloadLen(kind: nat): Option<nat> {
    if kind in {EXTENT_OWNER_REF, TREE_BLOCK_REF, SHARED_BLOCK_REF} then Some(8)
    else if kind == EXTENT_DATA_REF then Some(28)
    else if kind == SHARED_DATA_REF then Some(12)
    else None
  }

  function Payload(r: Ref): (p: seq<byte>)
    requires Valid(r)
    ensures Some(|p|) == PayloadLen(r.kind)
  {
    if r.kind == EXTENT_DATA_REF then Le(r.a, 8) + Le(r.b, 8) + Le(r.c, 8) + Le(r.count, 4)
    else if r.kind == SHARED_DATA_REF then Le(r.a, 8) + Le(r.count, 4)
    else Le(r.a, 8)
  }

  function RefOf(kind: nat, p: seq<byte>): Ref
    requires Some(|p|) == PayloadLen(kind)
  {
    if kind == EXTENT_DATA_REF then Ref(kind, FromLe(p[..8]), FromLe(p[8..16]), FromLe(p[16..24]), FromLe(p[24..28]))
    else if kind == SHARED_DATA_REF then Ref(kind, FromLe(p[..8]), 0, 0, FromLe(p[8..12]))
    else Ref(kind, FromLe(p), 0, 0, if kind == EXTENT_OWNER_REF then 0 else 1)
  }

  lemma PayloadReads(r: Ref)
    requires Valid(r)
    ensures RefOf(r.kind, Payload(r)) == r
  {
    Widths();
    LeReads(r.a, 8);
    LeReads(r.b, 8);
    LeReads(r.c, 8);
    LeReads(r.count, 4);
    hide Le, FromLe, Pow256;
    if r.kind == EXTENT_DATA_REF {
      FourSlices(Le(r.a, 8), Le(r.b, 8), Le(r.c, 8), Le(r.count, 4));
    } else if r.kind == SHARED_DATA_REF {
      TwoSlices(Le(r.a, 8), Le(r.count, 4));
    }
  }

  lemma FourSlices(a: seq<byte>, b: seq<byte>, c: seq<byte>, d: seq<byte>)
    requires |a| == |b| == |c| == 8 && |d| == 4
    ensures var p := a + b + c + d; p[..8] == a && p[8..16] == b && p[16..24] == c && p[24..28] == d
  {
  }

  lemma TwoSlices(a: seq<byte>, d: seq<byte>)
    requires |a| == 8 && |d| == 4
    ensures (a + d)[..8] == a && (a + d)[8..12] == d
  {
  }

  lemma PayloadWrites(kind: nat, p: seq<byte>)
    requires Some(|p|) == PayloadLen(kind)
    ensures Valid(RefOf(kind, p)) && Payload(RefOf(kind, p)) == p
  {
    Widths();
    hide Le, FromLe, Pow256;
    if kind == EXTENT_DATA_REF {
      LeWrites(p[..8]);
      LeWrites(p[8..16]);
      LeWrites(p[16..24]);
      LeWrites(p[24..28]);
      assert p == p[..8] + p[8..16] + p[16..24] + p[24..28];
    } else if kind == SHARED_DATA_REF {
      LeWrites(p[..8]);
      LeWrites(p[8..12]);
      assert p == p[..8] + p[8..12];
    } else {
      LeWrites(p);
    }
  }

  function Encoded(r: Ref): seq<byte>
    requires Valid(r)
  {
    [r.kind as byte] + Payload(r)
  }

  function EncodeAll(refs: seq<Ref>): seq<byte>
    requires AllValid(refs)
  {
    if refs == [] then [] else Encoded(refs[0]) + EncodeAll(refs[1..])
  }

  /** The references from `at` to the end of the item. */
  function ParseRefs(b: seq<byte>): Result<seq<Ref>, RefError>
    decreases |b|
  {
    if b == [] then Ok([]) else
      var kind := b[0] as nat;
      var len := PayloadLen(kind);
      if len.None? then Err(UnknownKind(kind))
      else if 1 + len.value > |b| then Err(EndsInside(kind))
      else
        var rest := ParseRefs(b[1 + len.value..]);
        if rest.Err? then rest else Ok([RefOf(kind, b[1..1 + len.value])] + rest.value)
  }

  lemma {:induction false} ParseEncoded(refs: seq<Ref>)
    requires AllValid(refs)
    ensures ParseRefs(EncodeAll(refs)) == Ok(refs)
    decreases refs
  {
    hide EncodeAll, ParseRefs, Payload, RefOf, Valid;
    if refs != [] {
      var r := refs[0];
      ParseEncoded(refs[1..]);
      PayloadReads(r);
      Unfold(refs);
      KindFits(r);
      ParseFirst(r.kind, Payload(r), EncodeAll(refs[1..]));
      assert refs == [r] + refs[1..];
    } else {
      NothingParsed();
    }
  }

  lemma NothingParsed() ensures ParseRefs(EncodeAll([])) == Ok([]) {}

  lemma KindFits(r: Ref)
    requires Valid(r)
    ensures r.kind < 256
  {
  }

  lemma Unfold(refs: seq<Ref>)
    requires AllValid(refs) && refs != []
    ensures EncodeAll(refs) == [refs[0].kind as byte] + Payload(refs[0]) + EncodeAll(refs[1..])
  {
  }

  lemma ParseFirst(kind: nat, p: seq<byte>, rest: seq<byte>)
    requires kind < 256 && Some(|p|) == PayloadLen(kind) && ParseRefs(rest).Ok?
    ensures ParseRefs([kind as byte] + p + rest) == Ok([RefOf(kind, p)] + ParseRefs(rest).value)
  {
    hide RefOf;
    var b := [kind as byte] + p + rest;
    assert b[0] == kind as byte && b[1..1+|p|] == p && b[1+|p|..] == rest;
  }

  lemma EncodeCons(r: Ref, rest: seq<Ref>)
    requires Valid(r) && AllValid(rest)
    ensures AllValid([r] + rest) && EncodeAll([r] + rest) == [r.kind as byte] + Payload(r) + EncodeAll(rest)
  {
    assert ([r] + rest)[0] == r && ([r] + rest)[1..] == rest;
  }

  lemma {:induction false} EncodeParsed(b: seq<byte>)
    requires ParseRefs(b).Ok?
    ensures AllValid(ParseRefs(b).value) && EncodeAll(ParseRefs(b).value) == b
    decreases |b|
  {
    hide Payload, RefOf, ParseRefs, EncodeAll, Valid, PayloadLen;
    if b != [] {
      UnfoldParse(b);
      var kind := b[0] as nat;
      var n := PayloadLen(kind).value;
      EncodeParsed(b[1+n..]);
      PayloadWrites(kind, b[1..1+n]);
      KindOf(kind, b[1..1+n]);
      EncodeCons(RefOf(kind, b[1..1+n]), ParseRefs(b[1+n..]).value);
      ThreeParts(b, 1 + n);
    } else {
      ParseNone();
    }
  }

  lemma ThreeParts(b: seq<byte>, n: nat)
    requires 0 < n <= |b|
    ensures b == [b[0]] + b[1..n] + b[n..]
  {
  }

  lemma KindOf(kind: nat, p: seq<byte>)
    requires Some(|p|) == PayloadLen(kind)
    ensures RefOf(kind, p).kind == kind
  {
  }

  lemma UnfoldParse(b: seq<byte>)
    requires b != [] && ParseRefs(b).Ok?
    ensures PayloadLen(b[0] as nat).Some? && 1 + PayloadLen(b[0] as nat).value <= |b|
    ensures var n := PayloadLen(b[0] as nat).value;
      ParseRefs(b[1+n..]).Ok? && ParseRefs(b).value == [RefOf(b[0] as nat, b[1..1+n])] + ParseRefs(b[1+n..]).value
  {
  }

  lemma ParseStep(b: seq<byte>)
    requires b != []
    ensures var kind := b[0] as nat;
      var len := PayloadLen(kind);
      ParseRefs(b) ==
        if len.None? then Err(UnknownKind(kind))
        else if 1 + len.value > |b| then Err(EndsInside(kind))
        else Prefixed([RefOf(kind, b[1..1+len.value])], ParseRefs(b[1+len.value..]))
  {
  }

  lemma ParseAt(b: seq<byte>, at: nat)
    requires at < |b|
    ensures var kind := b[at] as nat;
      var len := PayloadLen(kind);
      ParseRefs(b[at..]) ==
        if len.None? then Err(UnknownKind(kind))
        else if at + 1 + len.value > |b| then Err(EndsInside(kind))
        else Prefixed([RefOf(kind, b[at+1..at+1+len.value])], ParseRefs(b[at+1+len.value..]))
  {
    hide ParseRefs, RefOf, Prefixed;
    ParseStep(b[at..]);
    var len := PayloadLen(b[at] as nat);
    if len.Some? && at + 1 + len.value <= |b| {
      assert b[at..][1..1+len.value] == b[at+1..at+1+len.value] && b[at..][1+len.value..] == b[at+1+len.value..];
    }
  }

  /** The loop over an item's references. */
  method InlineRefs(b: seq<byte>) returns (r: Result<seq<Ref>, RefError>)
    ensures r == ParseRefs(b)
  {
    var at, out := 0, [];
    NonePrefixed(ParseRefs(b));
    assert b[0..] == b;
    hide ParseRefs, RefOf, Prefixed, PayloadLen;
    while at < |b|
      invariant at <= |b|
      invariant ParseRefs(b) == Prefixed(out, ParseRefs(b[at..]))
    {
      ParseAt(b, at);
      var kind := b[at] as nat;
      var len := PayloadLen(kind);
      ErrPrefixed(out, kind);
      if len.None? { return Err(UnknownKind(kind)); }
      if at + 1 + len.value > |b| { return Err(EndsInside(kind)); }
      var p := b[at+1..at+1+len.value];
      PrefixedOnce(out, RefOf(kind, p), ParseRefs(b[at+1+len.value..]));
      out := out + [RefOf(kind, p)];
      at := at + 1 + len.value;
    }
    assert b[at..] == [];
    ParseNone();
    AllPrefixed(out);
    return Ok(out);
  }

  lemma AllPrefixed(out: seq<Ref>)
    ensures Prefixed(out, Ok([])) == Ok(out)
  {
    assert out + [] == out;
  }

  lemma ErrPrefixed(out: seq<Ref>, kind: nat)
    ensures Prefixed(out, Err(UnknownKind(kind))) == Err(UnknownKind(kind))
    ensures Prefixed(out, Err(EndsInside(kind))) == Err(EndsInside(kind))
  {
  }

  lemma ParseNone() ensures ParseRefs([]) == Ok([]) && EncodeAll([]) == [] {}

  lemma NonePrefixed(more: Result<seq<Ref>, RefError>)
    ensures Prefixed([], more) == more
  {
    if more.Ok? { assert [] + more.value == more.value; }
  }

  function Prefixed(out: seq<Ref>, more: Result<seq<Ref>, RefError>): Result<seq<Ref>, RefError> {
    if more.Err? then more else Ok(out + more.value)
  }

  lemma PrefixedOnce(out: seq<Ref>, r: Ref, more: Result<seq<Ref>, RefError>)
    ensures Prefixed(out + [r], more) == Prefixed(out, Prefixed([r], more))
  {
    if more.Ok? { assert out + ([r] + more.value) == out + [r] + more.value; }
  }

  // ------------------------------------------------------------------- records

  /** What an item says: its total, the rest of its fixed part, and its references. */
  datatype Record = Record(total: nat, fixed: seq<byte>, refs: seq<Ref>)

  /** Where the references start, by the flags at the end of the fixed fields. */
  function RefsStart(kind: ItemType, flags: nat): nat {
    if kind == ExtentItem && flags / 2 % 2 == 1 then ITEM_HEADER + TREE_BLOCK_INFO else ITEM_HEADER
  }

  predicate Fits(kind: ItemType, rec: Record) {
    && rec.total < U64_SPAN && AllValid(rec.refs)
    && |rec.fixed| >= 16 && 8 + |rec.fixed| == RefsStart(kind, FromLe(rec.fixed[8..16]))
  }

  function Decode(kind: ItemType, body: seq<byte>): Result<Record, RefError> {
    if |body| < ITEM_HEADER then Err(Short) else
      var start := RefsStart(kind, FromLe(body[16..24]));
      if start > |body| then Err(Short) else
        var refs := ParseRefs(body[start..]);
        if refs.Err? then Err(refs.error) else Ok(Record(FromLe(body[..8]), body[8..start], refs.value))
  }

  function Encode(rec: Record): seq<byte>
    requires AllValid(rec.refs)
  {
    Le(rec.total, 8) + rec.fixed + EncodeAll(rec.refs)
  }

  /** What is rebuilt parses back, and what parses is rebuilt as it was. */
  lemma DecodeEncoded(kind: ItemType, rec: Record)
    requires Fits(kind, rec)
    ensures Decode(kind, Encode(rec)) == Ok(rec)
  {
    Widths();
    LeReads(rec.total, 8);
    ParseEncoded(rec.refs);
    hide Le, FromLe, EncodeAll, ParseRefs, Pow256;
    var body := Encode(rec);
    BodyParts(Le(rec.total, 8), rec.fixed, EncodeAll(rec.refs));
  }

  lemma BodyParts(head: seq<byte>, fixed: seq<byte>, tail: seq<byte>)
    requires |head| == 8 && |fixed| >= 16
    ensures var b := head + fixed + tail;
      b[..8] == head && b[16..24] == fixed[8..16] && b[8..8+|fixed|] == fixed && b[8+|fixed|..] == tail
  {
  }

  lemma EncodeDecoded(kind: ItemType, body: seq<byte>)
    requires Decode(kind, body).Ok?
    ensures Fits(kind, Decode(kind, body).value) && Encode(Decode(kind, body).value) == body
  {
    hide Le, FromLe, EncodeAll, ParseRefs, Pow256, Valid;
    Widths();
    LeWrites(body[..8]);
    var start := RefsStart(kind, FromLe(body[16..24]));
    EncodeParsed(body[start..]);
    FlagsAt(body, start);
    Parts(body, 8, start);
  }

  lemma FlagsAt(body: seq<byte>, start: nat)
    requires 24 <= start <= |body|
    ensures body[8..start][8..16] == body[16..24]
  {
    assert forall i | 0 <= i < 8 :: body[8..start][8..16][i] == body[16..24][i];
  }

  lemma Parts(b: seq<byte>, i: nat, j: nat)
    requires i <= j <= |b|
    ensures b == b[..i] + b[i..j] + b[j..]
  {
  }

  // -------------------------------------------------------------- order and count

  type Hash = (nat, nat, nat) -> nat

  /** What orders references of one type: a data reference's hash, else its offset. */
  function Rank(hash: Hash, r: Ref): nat {
    if r.kind == EXTENT_DATA_REF then hash(r.a, r.b, r.c) else r.a
  }

  /** Types upwards, and ranks downwards within one; owners wherever they are. */
  ghost predicate Ordered(hash: Hash, refs: seq<Ref>) {
    forall i, j | 0 <= i < j < |refs| && refs[i].kind != EXTENT_OWNER_REF && refs[j].kind != EXTENT_OWNER_REF ::
      refs[i].kind < refs[j].kind || (refs[i].kind == refs[j].kind && Rank(hash, refs[i]) >= Rank(hash, refs[j]))
  }

  function Sum(refs: seq<Ref>): nat {
    if refs == [] then 0 else Sum(refs[..|refs|-1]) + refs[|refs|-1].count
  }

  lemma {:induction false} SumJoin(a: seq<Ref>, b: seq<Ref>)
    ensures Sum(a + b) == Sum(a) + Sum(b)
  {
    if b == [] {
      assert a + b == a;
    } else {
      assert (a + b)[..|a + b|-1] == a + b[..|b|-1];
      SumJoin(a, b[..|b|-1]);
    }
  }

  lemma SumAt(refs: seq<Ref>, i: nat)
    requires i < |refs|
    ensures Sum(refs) == Sum(refs[..i]) + refs[i].count + Sum(refs[i+1..])
  {
    assert refs == refs[..i] + [refs[i]] + refs[i+1..];
    SumJoin(refs[..i] + [refs[i]], refs[i+1..]);
    SumJoin(refs[..i], [refs[i]]);
    assert [refs[i]][..0] == [];
  }

  /** Where the kernel's scan for `x` stops: at a higher type, at `x` itself, or at a
      smaller rank of its type. */
  predicate Stops(hash: Hash, r: Ref, x: Ref) {
    r.kind > x.kind || (r.kind == x.kind && (r.Names(x) || Rank(hash, r) < Rank(hash, x)))
  }

  function FirstStop(hash: Hash, refs: seq<Ref>, x: Ref, from: nat): (i: nat)
    requires from <= |refs|
    ensures from <= i <= |refs|
    ensures forall j | from <= j < i :: !Stops(hash, refs[j], x)
    ensures i < |refs| ==> Stops(hash, refs[i], x)
    decreases |refs| - from
  {
    if from == |refs| || Stops(hash, refs[from], x) then from else FirstStop(hash, refs, x, from + 1)
  }

  /** The first stop is the only one of its kind. */
  lemma FirstStopIs(hash: Hash, refs: seq<Ref>, x: Ref, i: nat)
    requires i <= |refs| && (forall j | 0 <= j < i :: !Stops(hash, refs[j], x)) && (i < |refs| ==> Stops(hash, refs[i], x))
    ensures FirstStop(hash, refs, x, 0) == i
  {
  }

  predicate FoundAt(refs: seq<Ref>, x: Ref, i: nat) { i < |refs| && refs[i].Names(x) }

  /** On an ordered list, stopping early loses nothing: the scan ends at the reference
      exactly when the list has it. */
  lemma EarlyStopFinds(hash: Hash, refs: seq<Ref>, x: Ref)
    requires Ordered(hash, refs) && x.kind > EXTENT_OWNER_REF
    ensures FoundAt(refs, x, FirstStop(hash, refs, x, 0)) <==> exists j :: 0 <= j < |refs| && refs[j].Names(x)
  {
    var i := FirstStop(hash, refs, x, 0);
    if j: nat :| j < |refs| && refs[j].Names(x) {
      assert Stops(hash, refs[j], x);
      assert i <= j;
      if i < j { assert refs[i].Names(x) by { EarlierStop(hash, refs, x, i, j); } }
    }
  }

  lemma EarlierStop(hash: Hash, refs: seq<Ref>, x: Ref, i: nat, j: nat)
    requires Ordered(hash, refs) && x.kind > EXTENT_OWNER_REF && i < j < |refs| && refs[j].Names(x) && Stops(hash, refs[i], x)
    ensures refs[i].Names(x)
  {
    assert Rank(hash, refs[j]) == Rank(hash, x);
    assert refs[i].kind != EXTENT_OWNER_REF;
  }

  // ----------------------------------------------------------- edits of the list

  /** One more of `x`: counted up where it is, else put where the scan stops. */
  function Added(hash: Hash, refs: seq<Ref>, x: Ref): seq<Ref> { PutAt(refs, x, FirstStop(hash, refs, x, 0)) }

  function Up(r: Ref, x: Ref): Ref { r.(count := r.count + x.count) }

  function PutAt(refs: seq<Ref>, x: Ref, i: nat): seq<Ref>
    requires i <= |refs|
  {
    if FoundAt(refs, x, i) then refs[i := Up(refs[i], x)] else refs[..i] + [x] + refs[i..]
  }

  /** The first reference named as `x`, on a full scan. */
  function Find(refs: seq<Ref>, x: Ref, from: nat): (i: nat)
    requires from <= |refs|
    ensures from <= i <= |refs|
    ensures forall j | from <= j < i :: !refs[j].Names(x)
    ensures i < |refs| ==> refs[i].Names(x)
    decreases |refs| - from
  {
    if from == |refs| || refs[from].Names(x) then from else Find(refs, x, from + 1)
  }

  lemma FindIs(refs: seq<Ref>, x: Ref, i: nat)
    requires i < |refs| && refs[i].Names(x) && forall j | 0 <= j < i :: !refs[j].Names(x)
    ensures Find(refs, x, 0) == i
  {
  }

  function Without(refs: seq<Ref>, i: nat): seq<Ref>
    requires i < |refs|
  {
    refs[..i] + refs[i+1..]
  }

  /** One of the first so named dropped: counted down, or gone at its last. */
  function Dropped(refs: seq<Ref>, x: Ref): seq<Ref> {
    var i := Find(refs, x, 0);
    if i == |refs| then refs
    else if refs[i].count > 1 then refs[i := refs[i].(count := refs[i].count - 1)]
    else Without(refs, i)
  }

  lemma AddedSums(hash: Hash, refs: seq<Ref>, x: Ref)
    ensures Sum(Added(hash, refs, x)) == Sum(refs) + x.count
  {
    var i := FirstStop(hash, refs, x, 0);
    var now := Added(hash, refs, x);
    SumAt(now, i);
    if FoundAt(refs, x, i) {
      SumAt(refs, i);
      assert now[..i] == refs[..i] && now[i+1..] == refs[i+1..];
    } else {
      assert now[..i] == refs[..i] && now[i+1..] == refs[i..];
      SumJoin(refs[..i], refs[i..]);
      assert refs == refs[..i] + refs[i..];
    }
  }

  lemma DroppedSums(refs: seq<Ref>, x: Ref)
    requires exists j :: 0 <= j < |refs| && refs[j].Names(x)
    requires Counts(refs, x)
    ensures Sum(Dropped(refs, x)) == Sum(refs) - 1
  {
    var i := Find(refs, x, 0);
    SumAt(refs, i);
    var now := Dropped(refs, x);
    if refs[i].count > 1 {
      SumAt(now, i);
      assert now[..i] == refs[..i] && now[i+1..] == refs[i+1..];
    } else {
      SumJoin(refs[..i], refs[i+1..]);
    }
  }

  lemma AddedOrdered(hash: Hash, refs: seq<Ref>, x: Ref)
    requires Ordered(hash, refs) && x.kind > EXTENT_OWNER_REF
    ensures Ordered(hash, Added(hash, refs, x))
  {
    var i := FirstStop(hash, refs, x, 0);
    var now := Added(hash, refs, x);
    if !FoundAt(refs, x, i) {
      forall j | i <= j < |refs| && refs[j].kind != EXTENT_OWNER_REF
        ensures x.kind < refs[j].kind || (x.kind == refs[j].kind && Rank(hash, x) >= Rank(hash, refs[j]))
      {
        PastStop(hash, refs, x, i, j);
      }
      forall a, b | 0 <= a < b < |now| && now[a].kind != EXTENT_OWNER_REF && now[b].kind != EXTENT_OWNER_REF
        ensures now[a].kind < now[b].kind || (now[a].kind == now[b].kind && Rank(hash, now[a]) >= Rank(hash, now[b]))
      {
        if a < i { assert !Stops(hash, refs[a], x); }
      }
    }
  }

  lemma PastStop(hash: Hash, refs: seq<Ref>, x: Ref, i: nat, j: nat)
    requires Ordered(hash, refs) && x.kind > EXTENT_OWNER_REF && i <= j < |refs| && Stops(hash, refs[i], x)
    requires refs[j].kind != EXTENT_OWNER_REF
    ensures x.kind < refs[j].kind || (x.kind == refs[j].kind && Rank(hash, x) >= Rank(hash, refs[j]))
  {
    assert refs[i].Names(x) ==> Rank(hash, refs[i]) == Rank(hash, x);
    assert refs[i].kind != EXTENT_OWNER_REF || x.kind < EXTENT_OWNER_REF;
  }

  // ----------------------------------------------------------- what edits undo

  /** Adding counts up or puts the reference where nothing before it has its name, so a
      full scan finds that one, and dropping it gives the list back. */
  lemma DropUndoesAdd(hash: Hash, refs: seq<Ref>, x: Ref)
    requires x.count == 1 && Counts(refs, x)
    ensures Dropped(Added(hash, refs, x), x) == refs
  {
    var i := FirstStop(hash, refs, x, 0);
    var now := Added(hash, refs, x);
    forall j | 0 <= j < i ensures !now[j].Names(x) {
      assert !Stops(hash, refs[j], x);
    }
    FindIs(now, x, i);
    if FoundAt(refs, x, i) {
      assert refs[i].(count := refs[i].count + 1).(count := refs[i].count) == refs[i];
      assert Dropped(now, x) == refs;
    } else {
      assert Dropped(now, x) == refs[..i] + refs[i..];
    }
  }

  /** References of one type and different ranks go in in either order: the higher's
      place comes no later, and neither stops the scan for the other before its own. */
  lemma AddsCommute(hash: Hash, refs: seq<Ref>, x: Ref, y: Ref)
    requires x.kind == y.kind && Rank(hash, x) != Rank(hash, y)
    ensures Added(hash, Added(hash, refs, x), y) == Added(hash, Added(hash, refs, y), x)
  {
    if Rank(hash, x) > Rank(hash, y) { HigherFirst(hash, refs, x, y); } else { HigherFirst(hash, refs, y, x); }
  }

  lemma HigherFirst(hash: Hash, refs: seq<Ref>, x: Ref, y: Ref)
    requires x.kind == y.kind && Rank(hash, x) > Rank(hash, y)
    ensures Added(hash, Added(hash, refs, x), y) == Added(hash, Added(hash, refs, y), x)
  {
    var i, j := FirstStop(hash, refs, x, 0), FirstStop(hash, refs, y, 0);
    assert i <= j by { if j < |refs| { StopsHigher(hash, refs[j], x, y); } }
    if FoundAt(refs, x, i) { NotBoth(hash, refs[i], x, y); }
    hide FirstStop, PutAt, FoundAt, Stops;
    AddThenLower(hash, refs, x, y, i, j);
    AddThenHigher(hash, refs, x, y, i, j);
    BothAdded(refs, x, y, i, j);
  }

  lemma StopsHigher(hash: Hash, r: Ref, x: Ref, y: Ref)
    requires x.kind == y.kind && Rank(hash, x) > Rank(hash, y) && Stops(hash, r, y)
    ensures Stops(hash, r, x)
  {
    assert r.Names(y) ==> Rank(hash, r) == Rank(hash, y);
  }

  lemma NotBoth(hash: Hash, r: Ref, x: Ref, y: Ref)
    requires x.kind == y.kind && Rank(hash, x) > Rank(hash, y) && r.Names(x)
    ensures !Stops(hash, r, y)
  {
    assert Rank(hash, r) == Rank(hash, x);
  }

  /** Where the lower goes once the higher is in: one further on, if that was put in. */
  lemma AddThenLower(hash: Hash, refs: seq<Ref>, x: Ref, y: Ref, i: nat, j: nat)
    requires x.kind == y.kind && Rank(hash, x) > Rank(hash, y) && i <= j
    requires i == FirstStop(hash, refs, x, 0) && j == FirstStop(hash, refs, y, 0) && (FoundAt(refs, x, i) ==> i < j)
    ensures FirstStop(hash, Added(hash, refs, x), y, 0) == if FoundAt(refs, x, i) then j else j + 1
  {
    var now := Added(hash, refs, x);
    var k := if FoundAt(refs, x, i) then j else j + 1;
    assert !Stops(hash, x, y);
    forall a | 0 <= a < k ensures !Stops(hash, now[a], y) {
      if FoundAt(refs, x, i) {
        assert !Stops(hash, refs[a], y);
      } else {
        assert a < i ==> now[a] == refs[a] && !Stops(hash, refs[a], y);
        assert a > i ==> now[a] == refs[a-1] && !Stops(hash, refs[a-1], y);
      }
    }
    FirstStopIs(hash, now, y, k);
  }

  lemma AddThenHigher(hash: Hash, refs: seq<Ref>, x: Ref, y: Ref, i: nat, j: nat)
    requires x.kind == y.kind && Rank(hash, x) > Rank(hash, y) && i <= j
    requires i == FirstStop(hash, refs, x, 0) && j == FirstStop(hash, refs, y, 0) && (FoundAt(refs, x, i) ==> i < j)
    ensures FirstStop(hash, Added(hash, refs, y), x, 0) == i
    ensures FoundAt(Added(hash, refs, y), x, i) <==> FoundAt(refs, x, i)
  {
    var now := Added(hash, refs, y);
    assert Stops(hash, y, x) && !y.Names(x);
    forall a | 0 <= a < i ensures !Stops(hash, now[a], x) {
      assert !Stops(hash, refs[a], x);
    }
    FirstStopIs(hash, now, x, i);
  }

  lemma BothAdded(refs: seq<Ref>, x: Ref, y: Ref, i: nat, j: nat)
    requires i <= j <= |refs| && (FoundAt(refs, x, i) ==> i < j)
    requires FoundAt(PutAt(refs, y, j), x, i) <==> FoundAt(refs, x, i)
    ensures PutAt(PutAt(refs, x, i), y, if FoundAt(refs, x, i) then j else j + 1) == PutAt(PutAt(refs, y, j), x, i)
  {
    var inX := PutAt(refs, x, i);
    var k := if FoundAt(refs, x, i) then j else j + 1;
    if j < |refs| { assert inX[k] == refs[j]; }
  }

  // ------------------------------------------------------------- edits of an item

  function DataRef(tree: nat, objectid: nat, offset: nat): Ref { Ref(EXTENT_DATA_REF, tree, objectid, offset, 1) }

  /** One more data reference: the counts are checked before either moves. */
  function AddData(hash: Hash, rec: Record, x: Ref): Result<Record, RefError> {
    var i := FirstStop(hash, rec.refs, x, 0);
    if FoundAt(rec.refs, x, i) && rec.refs[i].count + 1 >= U32_SPAN then Err(CountAtLimit)
    else if rec.total + 1 >= U64_SPAN then Err(TotalAtLimit)
    else Ok(Record(rec.total + 1, rec.fixed, Added(hash, rec.refs, x)))
  }

  /** One data reference less, unless it is the extent's last. */
  function DropData(rec: Record, x: Ref): Result<Option<Record>, RefError> {
    if Find(rec.refs, x, 0) == |rec.refs| then Ok(None)
    else if rec.total <= 1 then Err(LastReference)
    else Ok(Some(Record(rec.total - 1, rec.fixed, Dropped(rec.refs, x))))
  }

  lemma AddedValid(hash: Hash, rec: Record, x: Ref, kind: ItemType)
    requires Fits(kind, rec) && Valid(x) && AddData(hash, rec, x).Ok? && x.kind == EXTENT_DATA_REF && x.count == 1
    ensures Fits(kind, AddData(hash, rec, x).value)
  {
    var i := FirstStop(hash, rec.refs, x, 0);
    var refs := Added(hash, rec.refs, x);
    forall j | 0 <= j < |refs| ensures Valid(refs[j]) {
      assert !FoundAt(rec.refs, x, i) && j > i ==> refs[j] == rec.refs[j-1];
    }
  }

  lemma DroppedValid(rec: Record, x: Ref, kind: ItemType)
    requires Fits(kind, rec) && x.kind == EXTENT_DATA_REF && DropData(rec, x).Ok? && DropData(rec, x).value.Some?
    ensures Fits(kind, DropData(rec, x).value.value)
  {
    var i := Find(rec.refs, x, 0);
    var refs := Dropped(rec.refs, x);
    forall j | 0 <= j < |refs| ensures Valid(refs[j]) {
      assert rec.refs[i].count <= 1 && j >= i ==> refs[j] == rec.refs[j+1];
    }
  }

  /** The item's fixed fields and its references, or why it cannot be read. */
  method Open(kind: ItemType, body: seq<byte>) returns (r: Result<Record, RefError>)
    ensures r == Decode(kind, body)
  {
    if |body| < ITEM_HEADER { return Err(Short); }
    var start := RefsStart(kind, FromLe(body[16..24]));
    if start > |body| { return Err(Short); }
    var refs := InlineRefs(body[start..]);
    if refs.Err? { return Err(refs.error); }
    return Ok(Record(FromLe(body[..8]), body[8..start], refs.value));
  }

  lemma RebuildStep(head: seq<byte>, out: seq<byte>, refs: seq<Ref>, i: nat)
    requires i < |refs| && AllValid(refs) && head == out + EncodeAll(refs[i..])
    ensures head == out + [refs[i].kind as byte] + Payload(refs[i]) + EncodeAll(refs[i+1..])
  {
    Unfold(refs[i..]);
    assert refs[i..][0] == refs[i] && refs[i..][1..] == refs[i+1..];
    hide EncodeAll, Payload, Valid;
    Grouped(out, [refs[i].kind as byte], Payload(refs[i]), EncodeAll(refs[i+1..]));
  }

  lemma Grouped(a: seq<byte>, b: seq<byte>, c: seq<byte>, d: seq<byte>)
    ensures a + (b + c + d) == a + b + c + d
  {
  }

  /** An item rebuilt from its fixed part and the references given. */
  method Rebuild(rec: Record) returns (out: seq<byte>)
    requires AllValid(rec.refs)
    ensures out == Encode(rec)
  {
    out := Le(rec.total, 8) + rec.fixed;
    assert rec.refs[0..] == rec.refs;
    hide EncodeAll, Payload, Le;
    for i := 0 to |rec.refs|
      invariant Encode(rec) == out + EncodeAll(rec.refs[i..])
    {
      RebuildStep(Encode(rec), out, rec.refs, i);
      assert Valid(rec.refs[i]);
      out := out + [rec.refs[i].kind as byte];
      out := out + Payload(rec.refs[i]);
    }
    ParseNone();
    assert rec.refs[|rec.refs|..] == [] && out + [] == out;
  }

  /** The scan for a data reference, from the front: past lower types, to a higher one,
      to the reference itself, or to a smaller hash. */
  method Scan(hash: Hash, refs: seq<Ref>, x: Ref) returns (at: nat, same: bool)
    requires x.kind == EXTENT_DATA_REF
    ensures at == FirstStop(hash, refs, x, 0) && same == FoundAt(refs, x, at) && (same ==> at < |refs|)
  {
    var want := hash(x.a, x.b, x.c);
    for i := 0 to |refs|
      invariant forall j | 0 <= j < i :: !Stops(hash, refs[j], x)
    {
      var r := refs[i];
      if r.kind > EXTENT_DATA_REF {
        FirstStopIs(hash, refs, x, i);
        return i, false;
      }
      if r.kind < EXTENT_DATA_REF { continue; }
      if r.Names(x) {
        FirstStopIs(hash, refs, x, i);
        return i, true;
      }
      if hash(r.a, r.b, r.c) < want {
        FirstStopIs(hash, refs, x, i);
        return i, false;
      }
    }
    FirstStopIs(hash, refs, x, |refs|);
    return |refs|, false;
  }

  /** `body` with one more data reference: it parses back to the list with it added. */
  method AddInlineDataRef(hash: Hash, kind: ItemType, body: seq<byte>, tree: nat, objectid: nat, offset: nat)
    returns (r: Result<seq<byte>, RefError>)
    requires tree < U64_SPAN && objectid < U64_SPAN && offset < U64_SPAN
    ensures r.Ok? <==> Decode(kind, body).Ok? && AddData(hash, Decode(kind, body).value, DataRef(tree, objectid, offset)).Ok?
    ensures r.Ok? ==> Decode(kind, r.value) == AddData(hash, Decode(kind, body).value, DataRef(tree, objectid, offset))
  {
    hide Decode, FirstStop, Valid, Encode, FoundAt, Fits;
    var found := Open(kind, body);
    if found.Err? { return Err(found.error); }
    var rec := found.value;
    EncodeDecoded(kind, body);
    var x := DataRef(tree, objectid, offset);
    var at, same := Scan(hash, rec.refs, x);
    if same && rec.refs[at].count + 1 >= U32_SPAN { return Err(CountAtLimit); }
    var refs := if same then rec.refs[at := rec.refs[at].(count := rec.refs[at].count + 1)] else rec.refs[..at] + [x] + rec.refs[at..];
    assert refs == Added(hash, rec.refs, x);
    if rec.total + 1 >= U64_SPAN { return Err(TotalAtLimit); }
    var now := Record(rec.total + 1, rec.fixed, refs);
    ValidDataRef(tree, objectid, offset);
    AddedValid(hash, rec, x, kind);
    DecodeEncoded(kind, now);
    FitsValid(kind, now);
    var out := Rebuild(now);
    return Ok(out);
  }

  lemma FitsValid(kind: ItemType, rec: Record)
    requires Fits(kind, rec)
    ensures AllValid(rec.refs)
  {
  }

  lemma ValidDataRef(tree: nat, objectid: nat, offset: nat)
    requires tree < U64_SPAN && objectid < U64_SPAN && offset < U64_SPAN
    ensures Valid(DataRef(tree, objectid, offset))
  {
  }

  /** `body` with one data reference less, or nothing when it holds none so named. */
  method DropInlineDataRef(kind: ItemType, body: seq<byte>, tree: nat, objectid: nat, offset: nat)
    returns (r: Result<Option<seq<byte>>, RefError>)
    ensures r.Ok? <==> Decode(kind, body).Ok? && DropData(Decode(kind, body).value, DataRef(tree, objectid, offset)).Ok?
    ensures r.Ok? && r.value.None? ==> DropData(Decode(kind, body).value, DataRef(tree, objectid, offset)) == Ok(None)
    ensures r.Ok? && r.value.Some? ==> Decode(kind, r.value.value).Ok?
    ensures r.Ok? && r.value.Some? ==>
      DropData(Decode(kind, body).value, DataRef(tree, objectid, offset)) == Ok(Some(Decode(kind, r.value.value).value))
  {
    hide Decode, Find, Valid, Encode, Fits;
    var found := Open(kind, body);
    if found.Err? { return Err(found.error); }
    var rec := found.value;
    EncodeDecoded(kind, body);
    var x := DataRef(tree, objectid, offset);
    var at := Find(rec.refs, x, 0);
    if at == |rec.refs| { return Ok(None); }
    if rec.total <= 1 { return Err(LastReference); }
    var refs := if rec.refs[at].count > 1 then rec.refs[at := rec.refs[at].(count := rec.refs[at].count - 1)]
      else rec.refs[..at] + rec.refs[at+1..];
    assert refs == Dropped(rec.refs, x);
    var now := Record(rec.total - 1, rec.fixed, refs);
    DroppedValid(rec, x, kind);
    DecodeEncoded(kind, now);
    FitsValid(kind, now);
    var out := Rebuild(now);
    return Ok(Some(out));
  }

  /** The bytes of an item with one more data reference. */
  function AddedBytes(hash: Hash, kind: ItemType, body: seq<byte>, x: Ref): Option<seq<byte>>
    requires Valid(x) && x.kind == EXTENT_DATA_REF && x.count == 1
  {
    var rec := Decode(kind, body);
    if rec.Err? then None else
      var now := AddData(hash, rec.value, x);
      if now.Err? then None else
        EncodeDecoded(kind, body);
        AddedValid(hash, rec.value, x, kind);
        Some(Encode(now.value))
  }

  lemma SameDecoded(kind: ItemType, a: seq<byte>, b: seq<byte>)
    requires Decode(kind, a).Ok? && Decode(kind, a) == Decode(kind, b)
    ensures a == b
  {
    EncodeDecoded(kind, a);
    EncodeDecoded(kind, b);
  }

  lemma AddedDecodes(hash: Hash, kind: ItemType, body: seq<byte>, x: Ref)
    requires Valid(x) && x.kind == EXTENT_DATA_REF && x.count == 1 && AddedBytes(hash, kind, body, x).Some?
    ensures Decode(kind, body).Ok? && AddData(hash, Decode(kind, body).value, x).Ok?
    ensures Decode(kind, AddedBytes(hash, kind, body, x).value) == AddData(hash, Decode(kind, body).value, x)
  {
    EncodeDecoded(kind, body);
    AddedValid(hash, Decode(kind, body).value, x, kind);
    DecodeEncoded(kind, AddData(hash, Decode(kind, body).value, x).value);
  }

  // ---------------------------------------------------------------- adds in any order

  /** Data references added one after the other, unless one of them is refused. */
  function AddEach(hash: Hash, rec: Record, xs: seq<Ref>): Option<Record>
    decreases |xs|
  {
    if xs == [] then Some(rec) else
      var now := AddData(hash, rec, xs[0]);
      if now.Err? then None else AddEach(hash, now.value, xs[1..])
  }

  /** Data references of one, of which two are the same or have different hashes. */
  ghost predicate HashesApart(hash: Hash, xs: seq<Ref>) {
    && (forall i | 0 <= i < |xs| :: xs[i].kind == EXTENT_DATA_REF && xs[i].count == 1)
    && (forall i, j | 0 <= i < |xs| && 0 <= j < |xs| :: xs[i] == xs[j] || Rank(hash, xs[i]) != Rank(hash, xs[j]))
  }

  /** Where a reference goes, and what is there, is the same with a higher one in. */
  lemma {:induction false} FoundBesides(hash: Hash, refs: seq<Ref>, x: Ref, y: Ref)
    requires x.kind == y.kind && Rank(hash, x) > Rank(hash, y)
    ensures var i, j := FirstStop(hash, refs, x, 0), FirstStop(hash, refs, y, 0);
      var inX, inY := Added(hash, refs, x), Added(hash, refs, y);
      var k, l := FirstStop(hash, inX, y, 0), FirstStop(hash, inY, x, 0);
      && (FoundAt(inX, y, k) <==> FoundAt(refs, y, j)) && (FoundAt(refs, y, j) ==> inX[k].count == refs[j].count)
      && (FoundAt(inY, x, l) <==> FoundAt(refs, x, i)) && (FoundAt(refs, x, i) ==> inY[l].count == refs[i].count)
  {
    var i, j := FirstStop(hash, refs, x, 0), FirstStop(hash, refs, y, 0);
    assert i <= j by { if j < |refs| { StopsHigher(hash, refs[j], x, y); } }
    if FoundAt(refs, x, i) { NotBoth(hash, refs[i], x, y); }
    AddThenLower(hash, refs, x, y, i, j);
    AddThenHigher(hash, refs, x, y, i, j);
    hide FirstStop, Stops;
    var inX, inY := Added(hash, refs, x), Added(hash, refs, y);
    if j < |refs| { assert inX[if FoundAt(refs, x, i) then j else j + 1] == refs[j]; }
    if FoundAt(refs, x, i) { assert inY[i] == refs[i]; }
  }

  lemma {:induction false} TwoInOrder(hash: Hash, rec: Record, x: Ref, y: Ref)
    requires x.kind == y.kind && x.count == y.count == 1 && Rank(hash, x) > Rank(hash, y)
    ensures AddEach(hash, rec, [x, y]) == AddEach(hash, rec, [y, x])
  {
    FoundBesides(hash, rec.refs, x, y);
    AddsCommute(hash, rec.refs, x, y);
    TwoAre(hash, rec, x, y);
    TwoAre(hash, rec, y, x);
    hide Added, FirstStop, FoundAt, AddEach;
  }

  /** Two references added, spelled out. */
  lemma {:induction false} TwoAre(hash: Hash, rec: Record, x: Ref, y: Ref)
    requires x.count == y.count == 1
    ensures var i := FirstStop(hash, rec.refs, x, 0);
      var refs := Added(hash, rec.refs, x);
      var k := FirstStop(hash, refs, y, 0);
      AddEach(hash, rec, [x, y]) ==
        if (FoundAt(rec.refs, x, i) && rec.refs[i].count + 1 >= U32_SPAN) || (FoundAt(refs, y, k) && refs[k].count + 1 >= U32_SPAN)
          || rec.total + 2 >= U64_SPAN then None
        else Some(Record(rec.total + 2, rec.fixed, Added(hash, refs, y)))
  {
    hide Added, FirstStop, FoundAt;
    assert [x, y][1..] == [y] && [y][1..] == [];
    var now := AddData(hash, rec, x);
    if now.Ok? { assert AddEach(hash, now.value, [y]) == if AddData(hash, now.value, y).Err? then None else Some(AddData(hash, now.value, y).value); }
  }

  lemma {:induction false} EachAfter(hash: Hash, rec: Record, xs: seq<Ref>, ys: seq<Ref>)
    ensures AddEach(hash, rec, xs + ys) == if AddEach(hash, rec, xs).None? then None else AddEach(hash, AddEach(hash, rec, xs).value, ys)
    decreases |xs|
  {
    hide AddData;
    if xs == [] {
      assert xs + ys == ys;
    } else {
      assert (xs + ys)[1..] == xs[1..] + ys;
      var now := AddData(hash, rec, xs[0]);
      if now.Ok? { EachAfter(hash, now.value, xs[1..], ys); }
    }
  }

  /** Two neighbours change places. */
  lemma {:induction false} Swapped(hash: Hash, rec: Record, a: seq<Ref>, x: Ref, y: Ref, b: seq<Ref>)
    requires x.kind == y.kind && x.count == y.count == 1 && (x == y || Rank(hash, x) != Rank(hash, y))
    ensures AddEach(hash, rec, a + [x, y] + b) == AddEach(hash, rec, a + [y, x] + b)
  {
    EachAfter(hash, rec, a + [x, y], b);
    EachAfter(hash, rec, a + [y, x], b);
    EachAfter(hash, rec, a, [x, y]);
    EachAfter(hash, rec, a, [y, x]);
    var at := AddEach(hash, rec, a);
    if at.Some? && x != y {
      if Rank(hash, x) > Rank(hash, y) { TwoInOrder(hash, at.value, x, y); } else { TwoInOrder(hash, at.value, y, x); }
    }
    hide AddEach;
  }

  /** A reference taken to the front. */
  lemma {:induction false} ToFront(hash: Hash, rec: Record, xs: seq<Ref>, i: nat)
    requires HashesApart(hash, xs) && i < |xs|
    ensures AddEach(hash, rec, xs) == AddEach(hash, rec, [xs[i]] + (xs[..i] + xs[i+1..]))
    decreases i
  {
    hide AddEach, Rank;
    if i == 0 {
      assert xs == [xs[0]] + (xs[..0] + xs[1..]);
    } else {
      var a, b := xs[..i-1], xs[i+1..];
      assert xs == a + [xs[i-1], xs[i]] + b;
      Swapped(hash, rec, a, xs[i-1], xs[i], b);
      var ys := a + [xs[i], xs[i-1]] + b;
      SwappedApart(hash, xs, i);
      ToFront(hash, rec, ys, i - 1);
      assert ys[..i-1] == a && ys[i..] == [xs[i-1]] + b && a + ([xs[i-1]] + b) == xs[..i] + b;
    }
  }

  lemma {:induction false} SwappedApart(hash: Hash, xs: seq<Ref>, i: nat)
    requires HashesApart(hash, xs) && 0 < i < |xs|
    ensures HashesApart(hash, xs[..i-1] + [xs[i], xs[i-1]] + xs[i+1..])
  {
    hide Rank;
    var ys := xs[..i-1] + [xs[i], xs[i-1]] + xs[i+1..];
    assert forall k | 0 <= k < |xs| :: ys[k] == xs[if k == i then i - 1 else if k == i - 1 then i else k];
  }

  /** Any order of the references leaves the same record, or is refused alike. */
  lemma {:induction false} EachInAnyOrder(hash: Hash, rec: Record, xs: seq<Ref>, ys: seq<Ref>)
    requires HashesApart(hash, xs) && multiset(xs) == multiset(ys)
    ensures AddEach(hash, rec, xs) == AddEach(hash, rec, ys)
    decreases |xs|
  {
    hide AddData, Rank;
    if xs == [] {
      assert |multiset(ys)| == 0;
    } else {
      assert xs[0] in multiset(ys);
      var i :| 0 <= i < |ys| && ys[i] == xs[0];
      var rest := ys[..i] + ys[i+1..];
      SameApart(hash, xs, ys);
      ToFront(hash, rec, ys, i);
      RestOf(xs, ys, i);
      var now := AddData(hash, rec, xs[0]);
      assert ([ys[i]] + rest)[1..] == rest;
      TailApart(hash, xs);
      if now.Ok? { EachInAnyOrder(hash, now.value, xs[1..], rest); }
    }
  }

  lemma {:induction false} TailApart(hash: Hash, xs: seq<Ref>)
    requires HashesApart(hash, xs) && xs != []
    ensures HashesApart(hash, xs[1..])
  {
    hide Rank;
  }

  lemma {:induction false} RestOf(xs: seq<Ref>, ys: seq<Ref>, i: nat)
    requires xs != [] && multiset(xs) == multiset(ys) && i < |ys| && ys[i] == xs[0]
    ensures multiset(xs[1..]) == multiset(ys[..i] + ys[i+1..])
  {
    var rest := ys[..i] + ys[i+1..];
    assert xs == [xs[0]] + xs[1..] && ys == ys[..i] + ([ys[i]] + ys[i+1..]);
    assert multiset(ys) == multiset(ys[..i]) + (multiset{ys[i]} + multiset(ys[i+1..]));
    assert multiset(rest) == multiset(ys[..i]) + multiset(ys[i+1..]);
    assert multiset(xs[1..]) == multiset(xs) - multiset{xs[0]};
  }

  lemma {:induction false} SameApart(hash: Hash, xs: seq<Ref>, ys: seq<Ref>)
    requires HashesApart(hash, xs) && multiset(xs) == multiset(ys)
    ensures HashesApart(hash, ys)
  {
    hide Rank;
    forall i | 0 <= i < |ys| ensures exists k :: 0 <= k < |xs| && xs[k] == ys[i] {
      assert ys[i] in multiset(xs);
    }
  }

  /** The bytes of an item with each reference added, unless one of them is refused. */
  function AddedBytesEach(hash: Hash, kind: ItemType, body: seq<byte>, xs: seq<Ref>): Option<seq<byte>>
    requires forall i | 0 <= i < |xs| :: Valid(xs[i]) && xs[i].kind == EXTENT_DATA_REF && xs[i].count == 1
    decreases |xs|
  {
    if xs == [] then Some(body) else
      var now := AddedBytes(hash, kind, body, xs[0]);
      if now.None? then None else AddedBytesEach(hash, kind, now.value, xs[1..])
  }

  lemma {:induction false} BytesEachAre(hash: Hash, kind: ItemType, body: seq<byte>, xs: seq<Ref>)
    requires forall i | 0 <= i < |xs| :: Valid(xs[i]) && xs[i].kind == EXTENT_DATA_REF && xs[i].count == 1
    requires Decode(kind, body).Ok?
    ensures AddedBytesEach(hash, kind, body, xs).Some? <==> AddEach(hash, Decode(kind, body).value, xs).Some?
    ensures AddedBytesEach(hash, kind, body, xs).Some? ==>
      Decode(kind, AddedBytesEach(hash, kind, body, xs).value) == Ok(AddEach(hash, Decode(kind, body).value, xs).value)
    decreases |xs|
  {
    if xs != [] {
      AddedWhen(hash, kind, body, xs[0]);
      var now := AddedBytes(hash, kind, body, xs[0]);
      hide AddedBytes, Decode, AddData, Valid;
      if now.Some? {
        AddedDecodes(hash, kind, body, xs[0]);
        BytesEachAre(hash, kind, now.value, xs[1..]);
      }
    }
  }

  lemma {:induction false} AddedWhen(hash: Hash, kind: ItemType, body: seq<byte>, x: Ref)
    requires Valid(x) && x.kind == EXTENT_DATA_REF && x.count == 1 && Decode(kind, body).Ok?
    ensures AddedBytes(hash, kind, body, x).Some? <==> AddData(hash, Decode(kind, body).value, x).Ok?
  {
  }

  /** References with different hashes leave the same bytes in any order, and one order
      is refused exactly when another is. */
  lemma {:induction false} SameBytesAnyOrder(hash: Hash, kind: ItemType, body: seq<byte>, xs: seq<Ref>, ys: seq<Ref>)
    requires HashesApart(hash, xs) && multiset(xs) == multiset(ys)
    requires forall i | 0 <= i < |xs| :: Valid(xs[i])
    ensures forall i | 0 <= i < |ys| :: Valid(ys[i]) && ys[i].kind == EXTENT_DATA_REF && ys[i].count == 1
    ensures AddedBytesEach(hash, kind, body, xs) == AddedBytesEach(hash, kind, body, ys)
  {
    SameApart(hash, xs, ys);
    forall i | 0 <= i < |ys| ensures Valid(ys[i]) {
      assert ys[i] in multiset(xs);
      var k :| 0 <= k < |xs| && xs[k] == ys[i];
    }
    if Decode(kind, body).Ok? {
      hide Decode, Valid, AddedBytesEach, AddEach;
      BytesEachAre(hash, kind, body, xs);
      BytesEachAre(hash, kind, body, ys);
      EachInAnyOrder(hash, Decode(kind, body).value, xs, ys);
      if AddedBytesEach(hash, kind, body, xs).Some? {
        SameDecoded(kind, AddedBytesEach(hash, kind, body, xs).value, AddedBytesEach(hash, kind, body, ys).value);
      }
    } else {
      assert |multiset(xs)| == |xs| && |multiset(ys)| == |ys|;
      hide Decode, Valid;
    }
  }

  /** No reference so named counts nothing. */
  predicate Counts(refs: seq<Ref>, x: Ref) { forall j | 0 <= j < |refs| && refs[j].Names(x) :: refs[j].count >= 1 }

  /** Dropping what was added gives the item's bytes back. */
  lemma DropGivesBytesBack(hash: Hash, kind: ItemType, body: seq<byte>, x: Ref, rec: Record)
    requires Valid(x) && x.kind == EXTENT_DATA_REF && x.count == 1 && AddedBytes(hash, kind, body, x).Some?
    requires Decode(kind, body) == Ok(rec) && rec.total >= 1 && Counts(rec.refs, x)
    ensures var after := Decode(kind, AddedBytes(hash, kind, body, x).value);
      after.Ok? && DropData(after.value, x) == Ok(Some(rec)) && AllValid(rec.refs) && Encode(rec) == body
  {
    hide AddedBytes, Decode, AddData, DropData, Valid, Encode;
    EncodeDecoded(kind, body);
    AddedDecodes(hash, kind, body, x);
    FitsValid(kind, rec);
    DropsWhatIsAdded(hash, rec, x);
  }

  lemma DropsWhatIsAdded(hash: Hash, rec: Record, x: Ref)
    requires x.count == 1 && AddData(hash, rec, x).Ok? && rec.total >= 1 && Counts(rec.refs, x)
    ensures DropData(AddData(hash, rec, x).value, x) == Ok(Some(rec))
  {
    hide Added, Dropped, Find, FirstStop, FoundAt, Counts;
    DropUndoesAdd(hash, rec.refs, x);
    StillFound(hash, rec.refs, x);
  }

  lemma StillFound(hash: Hash, refs: seq<Ref>, x: Ref)
    ensures Find(Added(hash, refs, x), x, 0) < |Added(hash, refs, x)|
  {
    var i := FirstStop(hash, refs, x, 0);
    assert Added(hash, refs, x)[i].Names(x);
  }

  // ----------------------------------------- shared references and tree blocks

  /** Where the kernel puts a new reference: an owner is passed over. */
  function InsertPosition(refs: seq<Ref>, kind: nat, offset: nat, from: nat): (i: nat)
    requires from <= |refs|
    ensures from <= i <= |refs|
    decreases |refs| - from
  {
    if from == |refs| then from
    else
      var r := refs[from];
      if r.kind != EXTENT_OWNER_REF && (kind < r.kind || (kind == r.kind && r.a < offset)) then from
      else InsertPosition(refs, kind, offset, from + 1)
  }

  /** Of a type ordered by offset, where its scan stops when the reference is not there. */
  lemma {:induction false} InsertsAtStop(hash: Hash, refs: seq<Ref>, x: Ref, from: nat)
    requires from <= |refs| && x.kind > EXTENT_OWNER_REF && x.kind != EXTENT_DATA_REF
    requires forall j | 0 <= j < |refs| :: !refs[j].Names(x)
    ensures InsertPosition(refs, x.kind, x.a, from) == FirstStop(hash, refs, x, from)
    decreases |refs| - from
  {
    if from < |refs| && !Stops(hash, refs[from], x) { InsertsAtStop(hash, refs, x, from + 1); }
  }

  /** And the place of the one data reference there is, whatever its hash. */
  lemma {:induction false} InsertsOnlyData(hash: Hash, refs: seq<Ref>, x: Ref, from: nat)
    requires from <= |refs| && x.kind == EXTENT_DATA_REF && forall j | 0 <= j < |refs| :: refs[j].kind != EXTENT_DATA_REF
    ensures InsertPosition(refs, x.kind, 0, from) == FirstStop(hash, refs, x, from)
    decreases |refs| - from
  {
    if from < |refs| && !Stops(hash, refs[from], x) { InsertsOnlyData(hash, refs, x, from + 1); }
  }

  function Plain(kind: nat, a: nat, count: nat): Ref { Ref(kind, a, 0, 0, count) }

  /** The shared reference naming `parent` taken out whole, and its count. */
  function TakeShared(rec: Record, kind: nat, parent: nat): Option<(Record, nat)> {
    var i := Find(rec.refs, Plain(kind, parent, 0), 0);
    if i == |rec.refs| then None else Some((rec.(refs := Without(rec.refs, i)), rec.refs[i].count))
  }

  /** An ordinary reference to a tree block put beside the others. */
  function AddKeyedBlock(rec: Record, tree: nat): Result<Record, RefError> {
    var x := Plain(TREE_BLOCK_REF, tree, 1);
    if Find(rec.refs, x, 0) < |rec.refs| then Err(NamedAlready) else
      var at := InsertPosition(rec.refs, TREE_BLOCK_REF, tree, 0);
      Ok(rec.(refs := rec.refs[..at] + [x] + rec.refs[at..]))
  }

  /** A data reference counted up, or put in where it is the only one. */
  function AddKeyedData(rec: Record, tree: nat, objectid: nat, offset: nat, count: nat): Result<Record, RefError> {
    var x := Ref(EXTENT_DATA_REF, tree, objectid, offset, count);
    var i := Find(rec.refs, x, 0);
    if i < |rec.refs| then Ok(rec.(refs := rec.refs[i := Up(rec.refs[i], x)]))
    else if exists j :: 0 <= j < |rec.refs| && rec.refs[j].kind == EXTENT_DATA_REF then Err(OtherDataRefs)
    else
      var at := InsertPosition(rec.refs, EXTENT_DATA_REF, 0, 0);
      Ok(rec.(refs := rec.refs[..at] + [x] + rec.refs[at..]))
  }

  /** References by a parent block: data's counted together, a block's only once. */
  function AddShared(rec: Record, kind: nat, parent: nat, count: nat): Result<Record, RefError> {
    var x := Plain(kind, parent, count);
    var i := Find(rec.refs, x, 0);
    var at := InsertPosition(rec.refs, kind, parent, 0);
    var refs := if i < |rec.refs| then rec.refs[i := Up(rec.refs[i], x)] else rec.refs[..at] + [x] + rec.refs[at..];
    if kind != SHARED_DATA_REF && kind != SHARED_BLOCK_REF then Err(NotShared)
    else if kind == SHARED_BLOCK_REF && i < |rec.refs| then Err(NamedAlready)
    else if kind == SHARED_BLOCK_REF && count != 1 then Err(NotShared)
    else Ok(Record(rec.total + count, rec.fixed, refs))
  }

  /** A tree's reference dropped, unless it is the block's last. */
  function DropTree(rec: Record, tree: nat): Result<Option<Record>, RefError> {
    var i := Find(rec.refs, Plain(TREE_BLOCK_REF, tree, 0), 0);
    if i == |rec.refs| then Ok(None)
    else if rec.total <= 1 then Err(LastReference)
    else Ok(Some(Record(rec.total - 1, rec.fixed, Without(rec.refs, i))))
  }

  function AddTree(rec: Record, tree: nat): Result<Record, RefError> {
    var added := AddKeyedBlock(rec, tree);
    if added.Err? then added
    else if rec.total + 1 >= U64_SPAN then Err(TotalAtLimit)
    else Ok(added.value.(total := rec.total + 1))
  }

  /** The record's total is what its references count, and `elsewhere` references kept
      as items of their own. */
  ghost predicate Balanced(hash: Hash, rec: Record, elsewhere: int) {
    Ordered(hash, rec.refs) && rec.total == Sum(rec.refs) + elsewhere
  }

  lemma WithoutKeeps(hash: Hash, refs: seq<Ref>, i: nat)
    requires i < |refs| && Ordered(hash, refs)
    ensures Ordered(hash, Without(refs, i)) && Sum(Without(refs, i)) == Sum(refs) - refs[i].count
  {
    SumAt(refs, i);
    SumJoin(refs[..i], refs[i+1..]);
  }

  lemma InsertKeeps(hash: Hash, refs: seq<Ref>, x: Ref, at: nat)
    requires Ordered(hash, refs) && x.kind > EXTENT_OWNER_REF && at == FirstStop(hash, refs, x, 0) && !FoundAt(refs, x, at)
    ensures Ordered(hash, refs[..at] + [x] + refs[at..]) && Sum(refs[..at] + [x] + refs[at..]) == Sum(refs) + x.count
  {
    AddedOrdered(hash, refs, x);
    AddedSums(hash, refs, x);
  }

  lemma UpKeeps(hash: Hash, refs: seq<Ref>, x: Ref, i: nat)
    requires Ordered(hash, refs) && i < |refs|
    ensures Ordered(hash, refs[i := Up(refs[i], x)]) && Sum(refs[i := Up(refs[i], x)]) == Sum(refs) + x.count
  {
    var now := refs[i := Up(refs[i], x)];
    SumAt(refs, i);
    SumAt(now, i);
    assert now[..i] == refs[..i] && now[i+1..] == refs[i+1..];
  }

  lemma AddDataKeeps(hash: Hash, rec: Record, x: Ref, elsewhere: int)
    requires Balanced(hash, rec, elsewhere) && x.kind == EXTENT_DATA_REF && x.count == 1
    ensures AddData(hash, rec, x).Ok? ==> Balanced(hash, AddData(hash, rec, x).value, elsewhere)
  {
    AddedOrdered(hash, rec.refs, x);
    AddedSums(hash, rec.refs, x);
    hide Added, Ordered, Sum;
  }

  lemma DropDataKeeps(hash: Hash, rec: Record, x: Ref, elsewhere: int)
    requires Balanced(hash, rec, elsewhere) && x.kind == EXTENT_DATA_REF && Counts(rec.refs, x)
    ensures DropData(rec, x).Ok? && DropData(rec, x).value.Some? ==> Balanced(hash, DropData(rec, x).value.value, elsewhere)
  {
    var i := Find(rec.refs, x, 0);
    if i < |rec.refs| {
      DroppedSums(rec.refs, x);
      DroppedOrdered(hash, rec.refs, x);
    }
    hide Dropped, Ordered, Sum, Find;
  }

  lemma DroppedOrdered(hash: Hash, refs: seq<Ref>, x: Ref)
    requires Ordered(hash, refs)
    ensures Ordered(hash, Dropped(refs, x))
  {
    var i := Find(refs, x, 0);
    if i < |refs| { WithoutKeeps(hash, refs, i); }
  }

  lemma SharedEditsKeep(hash: Hash, rec: Record, kind: nat, parent: nat, count: nat, elsewhere: int)
    requires Balanced(hash, rec, elsewhere)
    ensures AddShared(rec, kind, parent, count).Ok? ==> Balanced(hash, AddShared(rec, kind, parent, count).value, elsewhere)
    ensures TakeShared(rec, kind, parent).Some? ==>
      Balanced(hash, TakeShared(rec, kind, parent).value.0, elsewhere + TakeShared(rec, kind, parent).value.1)
  {
    var x := Plain(kind, parent, count);
    var i := Find(rec.refs, x, 0);
    FindSame(rec.refs, x, Plain(kind, parent, 0));
    if i < |rec.refs| {
      UpKeeps(hash, rec.refs, x, i);
      WithoutKeeps(hash, rec.refs, i);
    } else if kind == SHARED_DATA_REF || kind == SHARED_BLOCK_REF {
      InsertsAtStop(hash, rec.refs, x, 0);
      InsertKeeps(hash, rec.refs, x, FirstStop(hash, rec.refs, x, 0));
    }
  }

  lemma FindSame(refs: seq<Ref>, x: Ref, y: Ref)
    requires x.(count := 0) == y.(count := 0)
    ensures Find(refs, x, 0) == Find(refs, y, 0)
  {
    var i, j := Find(refs, x, 0), Find(refs, y, 0);
    assert i < |refs| ==> refs[i].Names(y);
    assert j < |refs| ==> refs[j].Names(x);
  }

  lemma TreeEditsKeep(hash: Hash, rec: Record, tree: nat, elsewhere: int)
    requires Balanced(hash, rec, elsewhere) && AllValid(rec.refs)
    ensures AddKeyedBlock(rec, tree).Ok? ==> Balanced(hash, AddKeyedBlock(rec, tree).value, elsewhere - 1)
    ensures AddTree(rec, tree).Ok? ==> Balanced(hash, AddTree(rec, tree).value, elsewhere)
    ensures DropTree(rec, tree).Ok? && DropTree(rec, tree).value.Some? ==> Balanced(hash, DropTree(rec, tree).value.value, elsewhere)
  {
    var x := Plain(TREE_BLOCK_REF, tree, 1);
    var i := Find(rec.refs, x, 0);
    FindSame(rec.refs, x, Plain(TREE_BLOCK_REF, tree, 0));
    if i < |rec.refs| {
      WithoutKeeps(hash, rec.refs, i);
      assert Valid(rec.refs[i]);
    } else {
      InsertsAtStop(hash, rec.refs, x, 0);
      InsertKeeps(hash, rec.refs, x, FirstStop(hash, rec.refs, x, 0));
    }
  }

  /** A shared reference turned into ordinary ones of the same count leaves the record
      as balanced as it was. */
  lemma KeyedDataKeeps(hash: Hash, rec: Record, tree: nat, objectid: nat, offset: nat, count: nat, elsewhere: int)
    requires Balanced(hash, rec, elsewhere)
    ensures AddKeyedData(rec, tree, objectid, offset, count).Ok? ==>
      Balanced(hash, AddKeyedData(rec, tree, objectid, offset, count).value, elsewhere - count)
  {
    var x := Ref(EXTENT_DATA_REF, tree, objectid, offset, count);
    var i := Find(rec.refs, x, 0);
    if i < |rec.refs| {
      UpKeeps(hash, rec.refs, x, i);
    } else if forall j | 0 <= j < |rec.refs| :: rec.refs[j].kind != EXTENT_DATA_REF {
      InsertsOnlyData(hash, rec.refs, x, 0);
      InsertKeeps(hash, rec.refs, x, FirstStop(hash, rec.refs, x, 0));
    }
  }

  lemma PutValid(refs: seq<Ref>, x: Ref, at: nat)
    requires AllValid(refs) && at <= |refs| && Valid(x)
    ensures AllValid(refs[..at] + [x] + refs[at..])
  {
  }

  lemma UpValid(refs: seq<Ref>, x: Ref, i: nat)
    requires AllValid(refs) && i < |refs| && refs[i].kind in {EXTENT_DATA_REF, SHARED_DATA_REF} && refs[i].count + x.count < U32_SPAN
    ensures AllValid(refs[i := Up(refs[i], x)])
  {
  }

  lemma WithoutValid(refs: seq<Ref>, i: nat)
    requires AllValid(refs) && i < |refs|
    ensures AllValid(Without(refs, i))
  {
  }

  /** Every other edit's record can be written too, and so parses back as it was made,
      while the counts it adds up stay within their fields. */
  lemma EditsParseBack(kind: ItemType, rec: Record, refKind: nat, a: nat, b: nat, c: nat, count: nat)
    requires Fits(kind, rec) && a < U64_SPAN && b < U64_SPAN && c < U64_SPAN
    requires count < U32_SPAN && rec.total + count < U64_SPAN
    requires forall j | 0 <= j < |rec.refs| :: rec.refs[j].count + count < U32_SPAN
    ensures TakeShared(rec, refKind, a).Some? ==> Fits(kind, TakeShared(rec, refKind, a).value.0)
    ensures AddShared(rec, refKind, a, count).Ok? ==> Fits(kind, AddShared(rec, refKind, a, count).value)
    ensures AddKeyedData(rec, a, b, c, count).Ok? ==> Fits(kind, AddKeyedData(rec, a, b, c, count).value)
    ensures AddTree(rec, a).Ok? ==> Fits(kind, AddTree(rec, a).value)
    ensures DropTree(rec, a).Ok? && DropTree(rec, a).value.Some? ==> Fits(kind, DropTree(rec, a).value.value)
  {
    SharedParsesBack(kind, rec, refKind, a, count);
    KeyedDataParsesBack(kind, rec, a, b, c, count);
    TreeParsesBack(kind, rec, a);
    hide Fits, TakeShared, AddShared, AddKeyedData, AddTree, DropTree, Valid;
  }

  lemma SharedParsesBack(kind: ItemType, rec: Record, refKind: nat, a: nat, count: nat)
    requires Fits(kind, rec) && a < U64_SPAN && count < U32_SPAN && rec.total + count < U64_SPAN
    requires forall j | 0 <= j < |rec.refs| :: rec.refs[j].count + count < U32_SPAN
    ensures TakeShared(rec, refKind, a).Some? ==> Fits(kind, TakeShared(rec, refKind, a).value.0)
    ensures AddShared(rec, refKind, a, count).Ok? ==> Fits(kind, AddShared(rec, refKind, a, count).value)
  {
    var x := Plain(refKind, a, count);
    var i, j := Find(rec.refs, Plain(refKind, a, 0), 0), Find(rec.refs, x, 0);
    if i < |rec.refs| { WithoutValid(rec.refs, i); }
    if AddShared(rec, refKind, a, count).Ok? {
      if j < |rec.refs| { UpValid(rec.refs, x, j); } else { PutValid(rec.refs, x, InsertPosition(rec.refs, refKind, a, 0)); }
    }
  }

  lemma KeyedDataParsesBack(kind: ItemType, rec: Record, a: nat, b: nat, c: nat, count: nat)
    requires Fits(kind, rec) && a < U64_SPAN && b < U64_SPAN && c < U64_SPAN && count < U32_SPAN
    requires forall j | 0 <= j < |rec.refs| :: rec.refs[j].count + count < U32_SPAN
    ensures AddKeyedData(rec, a, b, c, count).Ok? ==> Fits(kind, AddKeyedData(rec, a, b, c, count).value)
  {
    var x := Ref(EXTENT_DATA_REF, a, b, c, count);
    var i := Find(rec.refs, x, 0);
    if i < |rec.refs| { UpValid(rec.refs, x, i); } else { PutValid(rec.refs, x, InsertPosition(rec.refs, EXTENT_DATA_REF, 0, 0)); }
  }

  lemma TreeParsesBack(kind: ItemType, rec: Record, a: nat)
    requires Fits(kind, rec) && a < U64_SPAN
    ensures AddTree(rec, a).Ok? ==> Fits(kind, AddTree(rec, a).value)
    ensures DropTree(rec, a).Ok? && DropTree(rec, a).value.Some? ==> Fits(kind, DropTree(rec, a).value.value)
  {
    var x := Plain(TREE_BLOCK_REF, a, 1);
    var i := Find(rec.refs, Plain(TREE_BLOCK_REF, a, 0), 0);
    if i < |rec.refs| { WithoutValid(rec.refs, i); }
    PutValid(rec.refs, x, InsertPosition(rec.refs, TREE_BLOCK_REF, a, 0));
  }
}
