/** A new chunk for a relocation (`allocate_chunk` in src/balance.rs): after every chunk
    there is, on the device with the most unallocated space, and clear throughout of the
    rows that hold a superblock copy. */
module NewChunk {
  import opened Base
  import opened ChunkMap
  import opened FreeSpace
  import opened Placement
  import Allocator

  const DEFAULT_STRIPE_LEN: nat := 0x1_0000

  /** A device that may take the new chunk, and how long it is. */
  datatype Device = Device(devid: nat, total: nat)

  datatype ChunkError = NotImplemented(profile: Profile) | NoCandidate | NoRoom(copies: nat, length: nat)

  function CopiesOf(p: Profile): Option<nat> {
    match p
    case Single => Some(1)
    case Dup => Some(2)
    case _ => None
  }

  /** Where the next chunk goes: after every chunk there is. */
  function NextLogical(chunks: seq<Chunk>): nat {
    if chunks == [] then 0 else Max(NextLogical(chunks[..|chunks|-1]), chunks[|chunks|-1].End())
  }

  lemma {:induction false} AfterAll(chunks: seq<Chunk>, i: nat)
    requires i < |chunks|
    ensures chunks[i].End() <= NextLogical(chunks)
  {
    if i < |chunks| - 1 { AfterAll(chunks[..|chunks|-1], i); }
  }

  /** A chunk's extents on a device, of its first `n` stripes. */
  function StripesOn(c: Chunk, devid: nat, n: nat): seq<FreeExtent>
    requires WellFormed(c) && n <= |c.stripes|
  {
    if n == 0 then [] else
      var s := c.stripes[n-1];
      StripesOn(c, devid, n - 1) + if s.devid == devid then [FreeExtent(s.offset, PerStripe(c))] else []
  }

  /** The extents of a device that chunks have taken. */
  function TakenOn(chunks: seq<Chunk>, devid: nat): seq<FreeExtent>
    requires forall i | 0 <= i < |chunks| :: WellFormed(chunks[i])
  {
    if chunks == [] then [] else
      var init, c := chunks[..|chunks|-1], chunks[|chunks|-1];
      assert WellFormed(c);
      TakenOn(init, devid) + StripesOn(c, devid, |c.stripes|)
  }

  function LengthOf(taken: seq<FreeExtent>): nat {
    if taken == [] then 0 else LengthOf(taken[..|taken|-1]) + taken[|taken|-1].len
  }

  /** What no chunk has taken of a device. */
  function Unallocated(chunks: seq<Chunk>, d: Device): nat
    requires forall i | 0 <= i < |chunks| :: WellFormed(chunks[i])
  {
    var taken := LengthOf(TakenOn(chunks, d.devid));
    if d.total >= taken then d.total - taken else 0
  }

  lemma {:induction false} StripeListed(c: Chunk, n: nat, s: nat)
    requires WellFormed(c) && s < n <= |c.stripes|
    ensures FreeExtent(c.stripes[s].offset, PerStripe(c)) in StripesOn(c, c.stripes[s].devid, n)
  {
    hide WellFormed, PerStripe;
    if s < n - 1 { StripeListed(c, n - 1, s); }
  }

  lemma {:induction false} StripeTaken(chunks: seq<Chunk>, i: nat, s: nat)
    requires forall k | 0 <= k < |chunks| :: WellFormed(chunks[k])
    requires i < |chunks| && s < |chunks[i].stripes|
    ensures FreeExtent(chunks[i].stripes[s].offset, PerStripe(chunks[i])) in TakenOn(chunks, chunks[i].stripes[s].devid)
  {
    hide WellFormed, PerStripe;
    if i < |chunks| - 1 {
      StripeTaken(chunks[..|chunks|-1], i, s);
    } else {
      StripeListed(chunks[i], |chunks[i].stripes|, s);
    }
  }

  /** The stripes a chunk of the profile would have at those places of a device. */
  function Built(logical: nat, length: nat, p: Profile, devid: nat, places: seq<nat>): Chunk {
    Chunk(logical, length, DEFAULT_STRIPE_LEN, p, 1, seq(|places|, i requires 0 <= i < |places| => Stripe(devid, places[i])))
  }

  ghost predicate Hosts(chunks: seq<Chunk>, d: Device, length: nat, places: seq<nat>)
    requires forall i | 0 <= i < |chunks| :: WellFormed(chunks[i])
  {
    && (forall j | 0 <= j < |places| :: Allowed(places[j], length, d.total, Obstacles(TakenOn(chunks, d.devid))))
    && (forall j, k | 0 <= j < k < |places| :: places[j] + length <= places[k])
  }

  /** No set of so many stripes fits on the device. */
  ghost predicate NoPlace(chunks: seq<Chunk>, d: Device, length: nat, copies: nat)
    requires forall i | 0 <= i < |chunks| :: WellFormed(chunks[i])
  {
    length > 0 ==> forall s: set<nat> | Places(s, length, d.total, Obstacles(TakenOn(chunks, d.devid))) :: |s| < copies
  }

  // ------------------------------------------------------ the map with the chunk in it

  lemma {:induction false} BuiltFits(chunks: seq<Chunk>, d: Device, length: nat, p: Profile, places: seq<nat>)
    requires Ordered(chunks) && length > 0 && CopiesOf(p) == Some(|places|)
    requires NextLogical(chunks) + length < U64_SPAN
    ensures var c := Built(NextLogical(chunks), length, p, d.devid, places);
      WellFormed(c) && PerStripe(c) == length && WholeRows(c) && Translatable(c) && Ordered(chunks + [c])
  {
    var c := Built(NextLogical(chunks), length, p, d.devid, places);
    forall i | 0 <= i < |chunks| ensures chunks[i].End() <= c.logical { AfterAll(chunks, i); }
    assert WellFormed(c);
    hide WellFormed;
    assert forall i | 0 <= i < |chunks| :: (chunks + [c])[i] == chunks[i];
  }

  /** The new stripes are apart from every stripe there was, and from each other. */
  lemma {:induction false} BuiltApart(chunks: seq<Chunk>, d: Device, length: nat, c: Chunk, places: seq<nat>)
    requires Ordered(chunks) && Hosts(chunks, d, length, places)
    requires c == Built(c.logical, length, c.profile, d.devid, places) && WellFormed(c) && PerStripe(c) == length
    ensures forall t, i, s | 0 <= t < |places| && 0 <= i < |chunks| && 0 <= s < |chunks[i].stripes| ::
      StripesApart(chunks[i].stripes[s], PerStripe(chunks[i]), c.stripes[t], length)
    ensures forall t, u | 0 <= t < |places| && 0 <= u < |places| && t != u :: StripesApart(c.stripes[t], length, c.stripes[u], length)
  {
    forall t, i, s | 0 <= t < |places| && 0 <= i < |chunks| && 0 <= s < |chunks[i].stripes|
      ensures StripesApart(chunks[i].stripes[s], PerStripe(chunks[i]), c.stripes[t], length)
    {
      hide WellFormed, PerStripe;
      var was := chunks[i].stripes[s];
      if was.devid == d.devid {
        StripeTaken(chunks, i, s);
        var o := FreeExtent(was.offset, PerStripe(chunks[i]));
        assert o in Obstacles(TakenOn(chunks, d.devid)) by { Taken(TakenOn(chunks, d.devid), o); }
        assert !Overlaps(places[t], length, o);
      }
    }
    hide WellFormed, PerStripe, Allowed;
  }

  lemma Taken(taken: seq<FreeExtent>, o: FreeExtent)
    requires o in taken
    ensures o in Obstacles(taken)
  {
    var i :| 0 <= i < |taken| && taken[i] == o;
    assert Obstacles(taken)[i] == o;
  }

  lemma {:induction false} BuiltSound(chunks: seq<Chunk>, d: Device, length: nat, p: Profile, places: seq<nat>)
    requires Sound(chunks) && Allocator.OnGrid(chunks) && length > 0 && CopiesOf(p) == Some(|places|)
    requires Hosts(chunks, d, length, places) && NextLogical(chunks) + length < U64_SPAN && d.total <= U64_SPAN
    ensures var c := Built(NextLogical(chunks), length, p, d.devid, places);
      Sound(chunks + [c]) && Allocator.OnGrid(chunks + [c]) && Translatable(c)
  {
    var c := Built(NextLogical(chunks), length, p, d.devid, places);
    BuiltFits(chunks, d, length, p, places);
    BuiltApart(chunks, d, length, c, places);
    OnOneGrid(chunks, d, length, c, places);
    hide WellFormed, WholeRows, PerStripe, Ordered, Hosts, Built, Allocator.StripesOnGrid;
    assert DeviceExtentsDisjoint(chunks + [c]) by { AllApart(chunks, c, length); }
    assert StripesFit(chunks + [c]) by { AllFit(chunks, d, c, length, places); }
  }

  lemma {:induction false} AllApart(chunks: seq<Chunk>, c: Chunk, length: nat)
    requires Ordered(chunks) && Ordered(chunks + [c]) && DeviceExtentsDisjoint(chunks) && WellFormed(c) && PerStripe(c) == length
    requires forall t, i, s | 0 <= t < |c.stripes| && 0 <= i < |chunks| && 0 <= s < |chunks[i].stripes| ::
      StripesApart(chunks[i].stripes[s], PerStripe(chunks[i]), c.stripes[t], length)
    requires forall t, u | 0 <= t < |c.stripes| && 0 <= u < |c.stripes| && t != u :: StripesApart(c.stripes[t], length, c.stripes[u], length)
    ensures DeviceExtentsDisjoint(chunks + [c])
  {
    hide WellFormed, PerStripe;
    var all, n := chunks + [c], |chunks|;
    forall i, s, j, t | 0 <= i <= n && 0 <= s < |all[i].stripes| && 0 <= j <= n && 0 <= t < |all[j].stripes| && (i != j || s != t)
      ensures StripesApart(all[i].stripes[s], PerStripe(all[i]), all[j].stripes[t], PerStripe(all[j]))
    {
      if i < n { assert all[i] == chunks[i]; }
      if j < n { assert all[j] == chunks[j]; }
    }
  }

  lemma {:induction false} AllFit(chunks: seq<Chunk>, d: Device, c: Chunk, length: nat, places: seq<nat>)
    requires Ordered(chunks) && StripesFit(chunks) && Ordered(chunks + [c])
    requires c == Built(c.logical, length, c.profile, d.devid, places) && WellFormed(c) && PerStripe(c) == length && WholeRows(c)
    requires Hosts(chunks, d, length, places) && d.total <= U64_SPAN
    ensures StripesFit(chunks + [c])
  {
    hide WellFormed, WholeRows, PerStripe;
    var all := chunks + [c];
    forall i | 0 <= i < |all| ensures WholeRows(all[i]) {
      if i < |chunks| { assert all[i] == chunks[i]; }
    }
    forall i, s | 0 <= i < |all| && 0 <= s < |all[i].stripes| ensures all[i].stripes[s].offset + PerStripe(all[i]) <= U64_SPAN {
      if i < |chunks| {
        assert all[i] == chunks[i];
      } else {
        assert Allowed(places[s], length, d.total, Obstacles(TakenOn(chunks, d.devid)));
      }
    }
  }

  lemma {:induction false} OnOneGrid(chunks: seq<Chunk>, d: Device, length: nat, c: Chunk, places: seq<nat>)
    requires Ordered(chunks) && Allocator.OnGrid(chunks) && Ordered(chunks + [c]) && Hosts(chunks, d, length, places)
    requires c == Built(c.logical, length, c.profile, d.devid, places)
    ensures Allocator.OnGrid(chunks + [c])
  {
    var all := chunks + [c];
    forall i | 0 <= i < |all| ensures Allocator.StripesOnGrid(all[i]) {
      if i < |chunks| {
        assert all[i] == chunks[i];
      } else {
        hide WellFormed;
        forall s | 0 <= s < |c.stripes| ensures c.stripes[s].offset % DEFAULT_STRIPE_LEN == 0 {
          assert Allowed(places[s], length, d.total, Obstacles(TakenOn(chunks, d.devid)));
          RowsInMib(places[s]);
        }
      }
    }
  }

  lemma RowsInMib(p: nat)
    requires p % MIB == 0
    ensures p % DEFAULT_STRIPE_LEN == 0
  {
  }

  // --------------------------------------------------------------- clear of the copies

  /** A row of a stripe placed on a MiB boundary lies in one MiB of the device, so it
      holds no superblock copy unless the stripe is in the way of the copy's MiBs. */
  lemma RowClear(taken: seq<FreeExtent>, device: nat, len: nat, p: nat, x: nat, k: nat)
    requires Allowed(p, len, device, Obstacles(taken)) && x < len && k < |SUPER_OFFSETS|
    ensures !Allocator.SameRow(p + x, SUPER_OFFSETS[k], p, DEFAULT_STRIPE_LEN)
  {
    var copy := SUPER_OFFSETS[k];
    var o := CopyMibs(copy);
    assert Obstacles(taken)[|taken| + 1 + k] == o;
    assert !Overlaps(p, len, o);
    if Allocator.SameRow(p + x, copy, p, DEFAULT_STRIPE_LEN) { SameMib(p, x, copy - p); }
  }

  lemma SameMib(p: nat, x: nat, y: nat)
    requires p % MIB == 0 && x / DEFAULT_STRIPE_LEN == y / DEFAULT_STRIPE_LEN
    ensures (p + y) - (p + y) % MIB <= p + x < (p + y) - (p + y) % MIB + MIB
  {
    assert x / MIB == (x / DEFAULT_STRIPE_LEN) / 16 && y / MIB == (y / DEFAULT_STRIPE_LEN) / 16;
  }

  /** Every byte of the new chunk is clear of the copies' rows, on every mirror. */
  lemma {:induction false} BuiltClear(chunks: seq<Chunk>, d: Device, length: nat, c: Chunk, places: seq<nat>)
    requires Sound(chunks + [c]) && Translatable(c) && Ordered(chunks) && Hosts(chunks, d, length, places)
    requires c == Built(c.logical, length, c.profile, d.devid, places) && CopiesOf(c.profile) == Some(|places|)
    ensures Allocator.Clear(chunks + [c], c.logical, length)
  {
    var all := chunks + [c];
    assert all[|chunks|] == c;
    forall b | c.logical <= b < c.logical + length ensures !Allocator.Dangerous(all, b) {
      Allocator.CopiesInChunk(all, |chunks|, b);
      forall mirror | 0 <= mirror < NumMirrors(c) ensures !Allocator.DangerousCopy(all, b, mirror) {
        CopyClear(chunks, d, length, c, places, b, mirror);
      }
    }
  }

  lemma {:induction false} CopyClear(chunks: seq<Chunk>, d: Device, length: nat, c: Chunk, places: seq<nat>, b: nat, mirror: nat)
    requires Sound(chunks + [c]) && Translatable(c) && Ordered(chunks) && Hosts(chunks, d, length, places)
    requires c == Built(c.logical, length, c.profile, d.devid, places) && CopiesOf(c.profile) == Some(|places|)
    requires c.logical <= b < c.logical + length && mirror < NumMirrors(c)
    ensures !Allocator.DangerousCopy(chunks + [c], b, mirror)
  {
    var all := chunks + [c];
    assert all[|chunks|] == c;
    MapsOnSoundPool(all, |chunks|, b, mirror);
    PlacedInside(c, b, mirror);
    StripePlaceIsWhereItMaps(c, b, mirror);
    var (index, into) := StripePlace(c, b, mirror);
    assert PerStripe(c) == length;
    hide DeviceExtentsDisjoint, StripesFit, WellFormed, StripePlace, MapMirror, Allowed, MapAt, ChunkFor;
    assert Allowed(places[index], length, d.total, Obstacles(TakenOn(chunks, d.devid)));
    forall k | 0 <= k < |SUPER_OFFSETS| ensures !Allocator.SameRow(places[index] + into, SUPER_OFFSETS[k], places[index], DEFAULT_STRIPE_LEN) {
      RowClear(TakenOn(chunks, d.devid), d.total, length, places[index], into, k);
    }
  }

  // ------------------------------------------------------------------------ the choice

  /** Of the devices asked so far, the best that has room. */
  ghost predicate Best(chunks: seq<Chunk>, asked: seq<Device>, length: nat, copies: nat, chosen: Option<(Device, seq<nat>)>)
    requires forall i | 0 <= i < |chunks| :: WellFormed(chunks[i])
  {
    && (chosen.None? ==> forall d | d in asked :: NoPlace(chunks, d, length, copies))
    && (chosen.Some? ==>
      && chosen.value.0 in asked && |chosen.value.1| == copies && Hosts(chunks, chosen.value.0, length, chosen.value.1)
      && forall d | d in asked :: NoPlace(chunks, d, length, copies) || Unallocated(chunks, d) <= Unallocated(chunks, chosen.value.0))
  }

  /** A chunk after all the others, on the device with the most unallocated space of
      those with room; refused only when no device has. The map stays sound with it, and
      none of its bytes shares a row with a superblock copy. */
  method AllocateChunk(chunks: seq<Chunk>, candidates: seq<Device>, p: Profile, length: nat) returns (r: Result<Chunk, ChunkError>)
    requires Sound(chunks) && Allocator.OnGrid(chunks) && NextLogical(chunks) + length < U64_SPAN
    requires forall d | d in candidates :: d.total <= U64_SPAN
    ensures r.Ok? ==> r.value.logical == NextLogical(chunks) && r.value.length == length && r.value.profile == p
    ensures r.Ok? ==> Sound(chunks + [r.value]) && Allocator.OnGrid(chunks + [r.value]) && Translatable(r.value)
    ensures r.Ok? ==> Allocator.Clear(chunks + [r.value], r.value.logical, length)
    ensures r.Ok? ==> exists d, places :: Best(chunks, candidates, length, |places|, Some((d, places))) && r.value == Built(NextLogical(chunks), length, p, d.devid, places)
    ensures r.Err? ==> candidates == [] || CopiesOf(p).None? || forall d | d in candidates :: NoPlace(chunks, d, length, CopiesOf(p).value)
  {
    if candidates == [] { return Err(NoCandidate); }
    if CopiesOf(p).None? { return Err(NotImplemented(p)); }
    var copies := CopiesOf(p).value;
    var chosen: Option<(Device, seq<nat>)> := None;
    hide WellFormed, DeviceExtentsDisjoint, StripesFit, Allocator.OnGrid, Hosts, NoPlace, Obstacles, TakenOn, Allowed, Places;
    for i := 0 to |candidates|
      invariant Best(chunks, candidates[..i], length, copies, chosen)
      invariant chosen.Some? ==> length > 0 && chosen.value.0 in candidates
    {
      var d := candidates[i];
      var places := PlaceStripes(TakenOn(chunks, d.devid), d.total, length, copies);
      PlacedOn(chunks, d, length, copies, places);
      assert candidates[..i+1] == candidates[..i] + [d];
      if places.Some? && (chosen.None? || Unallocated(chunks, d) > Unallocated(chunks, chosen.value.0)) {
        chosen := Some((d, places.value));
      }
    }
    assert candidates[..|candidates|] == candidates;
    if chosen.None? { return Err(NoRoom(copies, length)); }
    var d, places := chosen.value.0, chosen.value.1;
    var c := Built(NextLogical(chunks), length, p, d.devid, places);
    BuiltSound(chunks, d, length, p, places);
    BuiltClear(chunks, d, length, c, places);
    return Ok(c);
  }

  lemma {:induction false} PlacedOn(chunks: seq<Chunk>, d: Device, length: nat, copies: nat, places: Option<seq<nat>>)
    requires Ordered(chunks)
    requires places.Some? ==> |places.value| == copies
    requires places.Some? ==> forall j | 0 <= j < copies :: Allowed(places.value[j], length, d.total, Obstacles(TakenOn(chunks, d.devid)))
    requires places.Some? ==> forall j, k | 0 <= j < k < copies :: places.value[j] + length <= places.value[k]
    requires places.None? && length > 0 ==> forall s: set<nat> | Places(s, length, d.total, Obstacles(TakenOn(chunks, d.devid))) :: |s| < copies
    ensures places.Some? ==> Hosts(chunks, d, length, places.value)
    ensures places.None? ==> NoPlace(chunks, d, length, copies)
  {
  }
}
