/** The commit protocol (src/commit.rs): ordered device writes with two flushes,
    what a power cut may leave of them, and which state the next mount reads. */
module Commit {
  import opened Base

  /** A tree block as a crash sees it: the blocks it points at, and what it says. */
  datatype Block = Block(children: set<nat>, payload: nat)

  /** The superblock fields a commit may set or has to carry over. */
  datatype Super = Super(
    generation: nat, root: nat, rootLevel: nat, bytesUsed: nat, chunkRoot: nat,
    chunkRootGeneration: nat, incompat: set<nat>, totalBytes: nat, logRoot: nat)

  /** What one commit sets; a `None` field is carried over from the image read back. */
  datatype Change = Change(
    generation: nat, root: nat, rootLevel: Option<nat>, bytesUsed: Option<nat>,
    chunkRoot: Option<nat>, chunkRootGeneration: Option<nat>, incompat: set<nat>,
    totalBytes: Option<nat>, clearLog: bool)

  datatype PlacedBlock = PlacedBlock(logical: nat, block: Block, length: nat)

  datatype Op = WriteBlock(logical: nat, block: Block) | WriteSuper(slot: nat, super: Super) | Flush

  /** Tree blocks by address, and the superblock copies that verify by offset. */
  datatype Disk = Disk(blocks: map<nat, Block>, supers: map<nat, Super>)

  datatype CommitError = ReadOnly | Stale(handle: nat, disk: nat) | BadBlock(index: nat, logical: nat)

  function Or<T>(o: Option<T>, otherwise: T): T { if o.Some? then o.value else otherwise }

  /** The superblock a commit writes, built over the copy read back from the device. */
  function Image(raw: Super, c: Change): Super {
    Super(c.generation, c.root, Or(c.rootLevel, raw.rootLevel), Or(c.bytesUsed, raw.bytesUsed),
          Or(c.chunkRoot, raw.chunkRoot), Or(c.chunkRootGeneration, raw.chunkRootGeneration),
          raw.incompat + c.incompat, Or(c.totalBytes, raw.totalBytes),
          if c.clearLog then 0 else raw.logRoot)
  }

  predicate Fits(size: nat, slot: nat) { slot + SUPERBLOCK_SIZE <= size }

  /** The copies at `offsets` that a device of `size` bytes holds. */
  function FittingSlots(size: nat, offsets: seq<nat>): seq<nat> {
    if offsets == [] then [] else
      var last := offsets[|offsets|-1];
      var front := FittingSlots(size, offsets[..|offsets|-1]);
      if Fits(size, last) then front + [last] else front
  }

  predicate AllNodes(blocks: seq<PlacedBlock>, nodesize: nat) {
    forall j | 0 <= j < |blocks| :: blocks[j].length == nodesize
  }

  function BlockWrites(blocks: seq<PlacedBlock>): seq<Op> {
    seq(|blocks|, i requires 0 <= i < |blocks| => WriteBlock(blocks[i].logical, blocks[i].block))
  }

  function SuperWrites(image: Super, slots: seq<nat>): seq<Op> {
    seq(|slots|, i requires 0 <= i < |slots| => WriteSuper(slots[i], image))
  }

  /** Everything a commit issues, in order: blocks, flush, superblocks, flush. */
  function CommitTrace(blocks: seq<PlacedBlock>, image: Super, slots: seq<nat>): seq<Op> {
    BlockWrites(blocks) + [Flush] + SuperWrites(image, slots) + [Flush]
  }

  function Do(d: Disk, op: Op): Disk {
    match op
    case WriteBlock(at, b) => d.(blocks := d.blocks[at := b])
    case WriteSuper(slot, s) => d.(supers := d.supers[slot := s])
    case Flush => d
  }

  function DoAll(d: Disk, ops: seq<Op>): Disk {
    if ops == [] then d else Do(DoAll(d, ops[..|ops|-1]), ops[|ops|-1])
  }

  lemma DoAllOne(d: Disk, ops: seq<Op>, op: Op)
    ensures DoAll(d, ops + [op]) == Do(DoAll(d, ops), op)
  {
    assert (ops + [op])[..|ops|] == ops;
  }

  lemma {:induction false} DoAllSplit(d: Disk, a: seq<Op>, b: seq<Op>)
    ensures DoAll(d, a + b) == DoAll(DoAll(d, a), b)
    decreases |b|
  {
    if b == [] {
      assert a + b == a;
    } else {
      DoAllSplit(d, a, b[..|b|-1]);
      assert (a + b)[..|a + b| - 1] == a + b[..|b|-1];
    }
  }

  lemma DoAllTrace(blocked: Disk, d: Disk, blocks: seq<PlacedBlock>, image: Super, slots: seq<nat>)
    requires blocked == DoAll(d, BlockWrites(blocks))
    ensures DoAll(d, CommitTrace(blocks, image, slots))
         == DoAll(Do(blocked, Flush), SuperWrites(image, slots))
  {
    var front := BlockWrites(blocks) + [Flush];
    DoAllOne(d, BlockWrites(blocks), Flush);
    DoAllSplit(d, front, SuperWrites(image, slots));
    DoAllOne(d, front + SuperWrites(image, slots), Flush);
  }

  /** The newest verifying copy; of equal generations, the lower copy. */
  function Newest(supers: map<nat, Super>, slots: seq<nat>): Option<Super> {
    if slots == [] then None else
      var best := Newest(supers, slots[..|slots|-1]);
      var slot := slots[|slots|-1];
      if slot in supers && (best.None? || supers[slot].generation > best.value.generation)
      then Some(supers[slot]) else best
  }

  lemma NewestOneMore(supers: map<nat, Super>, slots: seq<nat>, slot: nat)
    ensures var best := Newest(supers, slots);
      Newest(supers, slots + [slot]) ==
        if slot in supers && (best.None? || supers[slot].generation > best.value.generation)
        then Some(supers[slot]) else best
  {
    assert (slots + [slot])[..|slots|] == slots;
  }

  lemma FittingOneMore(size: nat, offsets: seq<nat>, n: nat)
    requires n < |offsets|
    ensures var front := FittingSlots(size, offsets[..n]);
      FittingSlots(size, offsets[..n+1]) == if Fits(size, offsets[n]) then front + [offsets[n]] else front
  {
    assert offsets[..n+1][..n] == offsets[..n];
  }

  /** A mount's handle on one device: what reads return, and every write and
      flush it has issued since. */
  class Volume {
    const size: nat
    const nodesize: nat
    const writable: bool
    const offsets: seq<nat>
    var disk: Disk
    var issued: seq<Op>
    var sb: Super

    constructor (size: nat, nodesize: nat, writable: bool, disk: Disk, sb: Super)
      ensures this.size == size && this.nodesize == nodesize && this.writable == writable
      ensures offsets == SUPER_OFFSETS
      ensures this.disk == disk && this.sb == sb && issued == []
    {
      this.size, this.nodesize, this.writable, offsets := size, nodesize, writable, SUPER_OFFSETS;
      this.disk, this.sb, issued := disk, sb, [];
    }

    /** The offsets of the copies this device is large enough to hold. */
    function Slots(): seq<nat> { FittingSlots(size, offsets) }

    method Issue(op: Op)
      modifies this`disk, this`issued
      ensures issued == old(issued) + [op] && disk == Do(old(disk), op)
    {
      disk, issued := Do(disk, op), issued + [op];
    }

    method ReadSuperblock() returns (best: Option<Super>)
      ensures best == Newest(disk.supers, Slots())
    {
      best := None;
      for copy := 0 to |offsets|
        invariant best == Newest(disk.supers, FittingSlots(size, offsets[..copy]))
      {
        var slot := offsets[copy];
        FittingOneMore(size, offsets, copy);
        if Fits(size, slot) {
          NewestOneMore(disk.supers, FittingSlots(size, offsets[..copy]), slot);
          if slot in disk.supers
             && (best.None? || disk.supers[slot].generation > best.value.generation) {
            best := Some(disk.supers[slot]);
          }
        }
      }
      assert offsets[..|offsets|] == offsets;
    }

    /** The commit. A failure before the superblocks has issued block writes only. */
    method CommitWith(blocks: seq<PlacedBlock>, change: Change) returns (r: Result<(), CommitError>)
      requires |offsets| > 0 && offsets[0] in disk.supers
      modifies this`disk, this`issued
      ensures r == Err(ReadOnly) <==> !writable
      ensures var newest := old(Newest(disk.supers, Slots()));
        (r.Err? && r.error.Stale?) <==>
        writable && newest.Some? && newest.value.generation > sb.generation
      ensures r.Err? && !r.error.BadBlock? ==> issued == old(issued) && disk == old(disk)
      ensures r.Err? && r.error.BadBlock? ==>
        var k := r.error.index;
        && k < |blocks| && blocks[k].length != nodesize && blocks[k].logical == r.error.logical
        && AllNodes(blocks[..k], nodesize)
        && issued == old(issued) + BlockWrites(blocks[..k])
        && disk == DoAll(old(disk), BlockWrites(blocks[..k]))
      ensures r.Ok? ==>
        var trace := CommitTrace(blocks, Image(old(disk.supers[offsets[0]]), change), Slots());
        AllNodes(blocks, nodesize) && issued == old(issued) + trace && disk == DoAll(old(disk), trace)
    {
      if !writable { return Err(ReadOnly); }
      var newest := ReadSuperblock();
      if newest.Some? && newest.value.generation > sb.generation {
        return Err(Stale(sb.generation, newest.value.generation));
      }
      var image := Image(disk.supers[offsets[0]], change);
      var written := WriteBlocks(blocks);
      if written < |blocks| {
        return Err(BadBlock(written, blocks[written].logical));
      }
      assert blocks[..|blocks|] == blocks;
      DoAllTrace(disk, old(disk), blocks, image, Slots());
      Issue(Flush);
      WriteSuperblocks(image);
      Issue(Flush);
      return Ok(());
    }

    /** The blocks, in order, up to the first that is not a node long. */
    method WriteBlocks(blocks: seq<PlacedBlock>) returns (written: nat)
      modifies this`disk, this`issued
      ensures written <= |blocks| && (written < |blocks| ==> blocks[written].length != nodesize)
      ensures AllNodes(blocks[..written], nodesize)
      ensures issued == old(issued) + BlockWrites(blocks[..written])
      ensures disk == DoAll(old(disk), BlockWrites(blocks[..written]))
    {
      ghost var done: seq<Op> := [];
      for k := 0 to |blocks|
        invariant done == BlockWrites(blocks[..k])
        invariant forall j | 0 <= j < k :: blocks[j].length == nodesize
        invariant issued == old(issued) + done && disk == DoAll(old(disk), done)
      {
        if blocks[k].length != nodesize {
          return k;
        }
        Issue(WriteBlock(blocks[k].logical, blocks[k].block));
        done := Noted(old(disk), done, WriteBlock(blocks[k].logical, blocks[k].block));
      }
      return |blocks|;
    }

    /** The image to every copy the device holds, in address order. */
    method WriteSuperblocks(image: Super)
      modifies this`disk, this`issued
      ensures issued == old(issued) + SuperWrites(image, Slots())
      ensures disk == DoAll(old(disk), SuperWrites(image, Slots()))
    {
      ghost var done: seq<Op> := [];
      for copy := 0 to |offsets|
        invariant done == SuperWrites(image, FittingSlots(size, offsets[..copy]))
        invariant issued == old(issued) + done && disk == DoAll(old(disk), done)
      {
        FittingOneMore(size, offsets, copy);
        if Fits(size, offsets[copy]) {
          Issue(WriteSuper(offsets[copy], image));
          done := Noted(old(disk), done, WriteSuper(offsets[copy], image));
        }
      }
      assert offsets[..|offsets|] == offsets;
    }

    ghost method Noted(d: Disk, done: seq<Op>, op: Op) returns (next: seq<Op>)
      ensures next == done + [op] && DoAll(d, next) == Do(DoAll(d, done), op)
    {
      next := done + [op];
      DoAllOne(d, done, op);
    }
  }

  // ---------------------------------------------------------------- power cuts

  /** `after` is a state a power cut may leave when `unflushed` was issued since
      `d` became durable: any subset of the superblock writes, each whole or not
      at all, and anything at all, torn writes included, at a written block. */
  ghost predicate Landed(d: Disk, unflushed: seq<Op>, after: Disk) {
    && (forall a | !Writes(unflushed, a) ::
          (a in after.blocks <==> a in d.blocks) && (a in d.blocks ==> after.blocks[a] == d.blocks[a]))
    && (forall slot :: CopyAt(after, slot) == CopyAt(d, slot)
          || (exists i | 0 <= i < |unflushed| ::
                unflushed[i].WriteSuper? && unflushed[i].slot == slot
                && CopyAt(after, slot) == Some(unflushed[i].super)))
  }

  ghost predicate Writes(ops: seq<Op>, a: nat) {
    exists i | 0 <= i < |ops| :: ops[i].WriteBlock? && ops[i].logical == a
  }

  function CopyAt(d: Disk, slot: nat): Option<Super> {
    if slot in d.supers then Some(d.supers[slot]) else None
  }

  /** How much of `issued` is behind its last flush. */
  function Flushed(issued: seq<Op>): (n: nat)
    ensures n <= |issued|
    ensures forall i | n <= i < |issued| :: !issued[i].Flush?
    ensures n > 0 ==> issued[n-1].Flush?
  {
    if issued == [] then 0
    else if issued[|issued|-1].Flush? then |issued|
    else Flushed(issued[..|issued|-1])
  }

  /** A state a power cut may leave once `issued` went out to a device at `d`. */
  ghost predicate CrashOf(d: Disk, issued: seq<Op>, after: Disk) {
    Landed(DoAll(d, issued[..Flushed(issued)]), issued[Flushed(issued)..], after)
  }

  // ------------------------------------------------------------ intact trees

  /** `tree` is all of what a reader following pointers from `root` can reach,
      and the device holds every block of it. */
  ghost predicate Intact(blocks: map<nat, Block>, root: nat, tree: map<nat, Block>) {
    && root in tree
    && (forall a | a in tree :: a in blocks && blocks[a] == tree[a])
    && (forall a, c | a in tree && c in tree[a].children :: c in tree)
  }

  /** Following child pointers on the device from an intact root never leaves the
      tree, so what is read is what the tree says. */
  lemma {:induction false} ReaderStaysInTree(
    blocks: map<nat, Block>, root: nat, tree: map<nat, Block>, path: seq<nat>)
    requires Intact(blocks, root, tree)
    requires |path| > 0 && path[0] == root
    requires forall i | 0 <= i < |path| - 1 ::
      path[i] in blocks && path[i+1] in blocks[path[i]].children
    ensures path[|path|-1] in tree && blocks[path[|path|-1]] == tree[path[|path|-1]]
  {
    if |path| > 1 {
      ReaderStaysInTree(blocks, root, tree, path[..|path|-1]);
      assert path[..|path|-1][|path|-2] == path[|path|-2];
    }
  }

  lemma {:induction false} NewestIsACopy(supers: map<nat, Super>, slots: seq<nat>)
    ensures Newest(supers, slots).None? <==> forall s | s in slots :: s !in supers
    ensures Newest(supers, slots).Some? ==>
      (exists s | s in slots :: s in supers && supers[s] == Newest(supers, slots).value)
      && forall s | s in slots && s in supers ::
           supers[s].generation <= Newest(supers, slots).value.generation
  {
    if slots != [] {
      var front := slots[..|slots|-1];
      NewestIsACopy(supers, front);
      assert forall s :: s in slots <==> s in front || s == slots[|slots|-1];
    }
  }

  /** Writing one newer image over any subset of the copies: the newest copy is
      the old newest when no write landed, and the image when one did. */
  lemma {:induction false} NewestAfterLanding(
    before: map<nat, Super>, after: map<nat, Super>, slots: seq<nat>, image: Super)
    requires forall s | s in slots ::
      (s in after && after[s] == image) || ((s in after <==> s in before) && (s in before ==> after[s] == before[s]))
    requires forall s | s in slots && s in before :: before[s].generation < image.generation
    ensures Newest(after, slots) ==
      if exists s | s in slots :: s in after && after[s] == image then Some(image) else Newest(before, slots)
    ensures Newest(before, slots).Some? ==> Newest(before, slots).value.generation < image.generation
  {
    if slots != [] {
      var front, last := slots[..|slots|-1], slots[|slots|-1];
      assert forall s :: s in slots <==> s in front || s == last;
      NewestAfterLanding(before, after, front, image);
    }
  }

  lemma {:induction false} BlockWritesOnly(d: Disk, blocks: seq<PlacedBlock>)
    ensures DoAll(d, BlockWrites(blocks)).supers == d.supers
    ensures forall a | !Writes(BlockWrites(blocks), a) ::
      (a in DoAll(d, BlockWrites(blocks)).blocks <==> a in d.blocks)
      && (a in d.blocks ==> DoAll(d, BlockWrites(blocks)).blocks[a] == d.blocks[a])
  {
    if blocks != [] {
      var front := blocks[..|blocks|-1];
      var ops := BlockWrites(blocks);
      assert ops[..|ops|-1] == BlockWrites(front);
      BlockWritesOnly(d, front);
      assert ops[|ops|-1] == WriteBlock(blocks[|blocks|-1].logical, blocks[|blocks|-1].block);
      assert Writes(ops, blocks[|blocks|-1].logical);
      forall a | Writes(BlockWrites(front), a) ensures Writes(ops, a) {
        var i :| 0 <= i < |BlockWrites(front)| && BlockWrites(front)[i].WriteBlock? && BlockWrites(front)[i].logical == a;
        assert ops[i] == BlockWrites(front)[i];
      }
    }
  }

  lemma {:induction false} SuperWritesOnly(d: Disk, image: Super, slots: seq<nat>)
    ensures DoAll(d, SuperWrites(image, slots)).blocks == d.blocks
    ensures forall s :: CopyAt(DoAll(d, SuperWrites(image, slots)), s) ==
                        (if s in slots then Some(image) else CopyAt(d, s))
  {
    if slots != [] {
      var front := slots[..|slots|-1];
      var ops := SuperWrites(image, slots);
      assert ops[..|ops|-1] == SuperWrites(image, front);
      SuperWritesOnly(d, image, front);
      assert forall s :: s in slots <==> s in front || s == slots[|slots|-1];
    }
  }

  /** Overwriting only addresses outside a tree leaves the tree intact. */
  lemma TreeSurvives(d: Disk, ops: seq<Op>, after: Disk, root: nat, tree: map<nat, Block>)
    requires Landed(d, ops, after) && Intact(d.blocks, root, tree)
    requires forall a | a in tree :: !Writes(ops, a)
    ensures Intact(after.blocks, root, tree)
  {
  }

  // ------------------------------------------------------------ one commit

  /** A mounted volume: its durable state, the superblock it was mounted from,
      and the tree that superblock's root reaches. */
  datatype World = World(disk: Disk, sb: Super, tree: map<nat, Block>)

  datatype Attempt = Attempt(blocks: seq<PlacedBlock>, change: Change, tree: map<nat, Block>)

  ghost predicate Mounted(w: World, slots: seq<nat>) {
    && Newest(w.disk.supers, slots) == Some(w.sb)
    && Intact(w.disk.blocks, w.sb.root, w.tree)
    && |slots| > 0 && slots[0] in w.disk.supers
  }

  /** Copy-on-write: the commit's blocks go where the mounted tree has none, and
      with them in place the new root reaches the new tree. */
  ghost predicate CopiesOnWrite(w: World, a: Attempt) {
    && a.change.generation == w.sb.generation + 1
    && (forall i | 0 <= i < |a.blocks| :: a.blocks[i].logical !in w.tree)
    && Intact(DoAll(w.disk, BlockWrites(a.blocks)).blocks, a.change.root, a.tree)
  }

  function ImageOf(w: World, a: Attempt, slots: seq<nat>): Super
    requires |slots| > 0 && slots[0] in w.disk.supers
  {
    Image(w.disk.supers[slots[0]], a.change)
  }

  function TraceOf(w: World, a: Attempt, slots: seq<nat>): seq<Op>
    requires |slots| > 0 && slots[0] in w.disk.supers
  {
    CommitTrace(a.blocks, ImageOf(w, a, slots), slots)
  }

  /** The three stretches of a commit a power cut can fall in, and what is
      durable and what is not in each. */
  lemma CutFallsIn(w: World, a: Attempt, slots: seq<nat>, i: nat, after: Disk)
    requires |slots| > 0 && slots[0] in w.disk.supers && i <= |TraceOf(w, a, slots)|
    requires CrashOf(w.disk, TraceOf(w, a, slots)[..i], after)
    ensures var n, m := |a.blocks|, |slots|;
      var writes := SuperWrites(ImageOf(w, a, slots), slots);
      var durable := DoAll(w.disk, BlockWrites(a.blocks));
      if i <= n then Landed(w.disk, BlockWrites(a.blocks)[..i], after)
      else if i <= n + 1 + m then Landed(durable, writes[..i-n-1], after)
      else Landed(DoAll(durable, writes), [], after)
  {
    var n, m := |a.blocks|, |slots|;
    var image := ImageOf(w, a, slots);
    var writes := SuperWrites(image, slots);
    var front := BlockWrites(a.blocks) + [Flush];
    var ops := TraceOf(w, a, slots)[..i];
    var f := Flushed(ops);
    if i <= n {
      assert ops == BlockWrites(a.blocks)[..i];
      assert f == 0 && ops[..0] == [] && ops[0..] == ops;
    } else if i <= n + 1 + m {
      assert ops == front + writes[..i-n-1];
      assert ops[n] == Flush && forall j | n < j < |ops| :: ops[j] == writes[j-n-1];
      assert f == n + 1 && ops[..f] == front && ops[f..] == writes[..i-n-1];
      DoAllOne(w.disk, BlockWrites(a.blocks), Flush);
    } else {
      assert ops == (front + writes) + [Flush];
      assert f == |ops| && ops[..f] == ops && ops[f..] == [];
      DoAllOne(w.disk, front + writes, Flush);
      DoAllSplit(w.disk, front, writes);
      DoAllOne(w.disk, BlockWrites(a.blocks), Flush);
    }
  }

  /** Crash safety of one commit: cut the power after any number `i` of its
      operations, let any subset of what was not flushed land, and the newest
      copy names a root whose whole tree is on the device -- the old one before
      the superblocks go out, the old or the new one while they do, and the new
      one once the second flush returns. */
  lemma CommitIsCrashSafe(w: World, a: Attempt, slots: seq<nat>, i: nat, after: Disk)
    requires Mounted(w, slots) && CopiesOnWrite(w, a)
    requires i <= |TraceOf(w, a, slots)|
    requires CrashOf(w.disk, TraceOf(w, a, slots)[..i], after)
    ensures slots[0] in after.supers
    ensures var found := Newest(after.supers, slots);
      || (found == Some(w.sb) && Intact(after.blocks, w.sb.root, w.tree))
      || (found == Some(ImageOf(w, a, slots)) && Intact(after.blocks, a.change.root, a.tree))
    ensures i <= |a.blocks| + 1 ==> Newest(after.supers, slots) == Some(w.sb)
    ensures i == |TraceOf(w, a, slots)| ==> Newest(after.supers, slots) == Some(ImageOf(w, a, slots))
  {
    CutFallsIn(w, a, slots, i, after);
    hide Intact, Newest, Landed, CrashOf, DoAll, Image;
    if i <= |a.blocks| {
      BeforeFirstFlush(w, a, slots, i, after);
    } else {
      PastFirstFlush(w, a, slots, i, after);
    }
  }

  /** Up to the first flush only blocks outside the old tree move. */
  lemma BeforeFirstFlush(w: World, a: Attempt, slots: seq<nat>, i: nat, after: Disk)
    requires Mounted(w, slots) && CopiesOnWrite(w, a)
    requires i <= |a.blocks| && Landed(w.disk, BlockWrites(a.blocks)[..i], after)
    ensures slots[0] in after.supers && Newest(after.supers, slots) == Some(w.sb) && Intact(after.blocks, w.sb.root, w.tree)
  {
    var ops := BlockWrites(a.blocks)[..i];
    hide Intact, Newest, Landed, Image;
    forall x | x in w.tree ensures !Writes(ops, x) {}
    TreeSurvives(w.disk, ops, after, w.sb.root, w.tree);
    SameCopies(w.disk, ops, after);
  }

  lemma OldTreeDurable(w: World, a: Attempt)
    requires Intact(w.disk.blocks, w.sb.root, w.tree)
    requires forall i | 0 <= i < |a.blocks| :: a.blocks[i].logical !in w.tree
    ensures Intact(DoAll(w.disk, BlockWrites(a.blocks)).blocks, w.sb.root, w.tree)
    ensures DoAll(w.disk, BlockWrites(a.blocks)).supers == w.disk.supers
  {
    BlockWritesOnly(w.disk, a.blocks);
    forall x | x in w.tree ensures !Writes(BlockWrites(a.blocks), x) {}
  }

  /** Past the second flush every copy is the new image. */
  lemma AllCopiesLand(w: World, durable: Disk, slots: seq<nat>, image: Super, after: Disk)
    requires Mounted(w, slots) && image.generation == w.sb.generation + 1 && durable.supers == w.disk.supers
    requires Landed(DoAll(durable, SuperWrites(image, slots)), [], after)
    ensures after.blocks == durable.blocks && slots[0] in after.supers
    ensures Newest(after.supers, slots) == Some(image)
  {
    var base := DoAll(durable, SuperWrites(image, slots));
    SuperWritesOnly(durable, image, slots);
    forall s ensures CopyAt(base, s) == CopyAt(w.disk, s) || (s in slots && CopyAt(base, s) == Some(image)) {}
    CopiesLand(w, base, slots, image, slots, [], after);
    assert CopyAt(after, slots[0]) == CopyAt(base, slots[0]) == Some(image);
  }

  lemma SameDisk(w: World, durable: Disk)
    requires durable.supers == w.disk.supers
    ensures forall s :: CopyAt(durable, s) == CopyAt(w.disk, s)
  {
  }

  /** Past the first flush both trees are durable, and only copies still move. */
  lemma PastFirstFlush(w: World, a: Attempt, slots: seq<nat>, i: nat, after: Disk)
    requires Mounted(w, slots) && CopiesOnWrite(w, a)
    requires |a.blocks| < i <= |TraceOf(w, a, slots)|
    requires var writes := SuperWrites(ImageOf(w, a, slots), slots);
      var durable := DoAll(w.disk, BlockWrites(a.blocks));
      if i <= |a.blocks| + 1 + |slots| then Landed(durable, writes[..i-|a.blocks|-1], after)
      else Landed(DoAll(durable, writes), [], after)
    ensures slots[0] in after.supers
    ensures Intact(after.blocks, w.sb.root, w.tree) && Intact(after.blocks, a.change.root, a.tree)
    ensures Newest(after.supers, slots) in {Some(w.sb), Some(ImageOf(w, a, slots))}
    ensures i == |a.blocks| + 1 ==> Newest(after.supers, slots) == Some(w.sb)
    ensures i == |TraceOf(w, a, slots)| ==> Newest(after.supers, slots) == Some(ImageOf(w, a, slots))
  {
    var n, image := |a.blocks|, ImageOf(w, a, slots);
    var durable := DoAll(w.disk, BlockWrites(a.blocks));
    assert |TraceOf(w, a, slots)| == n + 1 + |slots| + 1;
    OldTreeDurable(w, a);
    assert image.generation == w.sb.generation + 1;
    hide *;
    if i <= n + 1 + |slots| {
      SomeCopiesLand(w, durable, slots, image, i - n - 1, after);
    } else {
      AllCopiesLand(w, durable, slots, image, after);
    }
  }

  /** Before the second flush any of the copies sent may be the new image. */
  lemma SomeCopiesLand(w: World, durable: Disk, slots: seq<nat>, image: Super, k: nat, after: Disk)
    requires Mounted(w, slots) && image.generation == w.sb.generation + 1 && durable.supers == w.disk.supers && k <= |slots|
    requires |SuperWrites(image, slots)| == |slots| && Landed(durable, SuperWrites(image, slots)[..k], after)
    ensures after.blocks == durable.blocks && slots[0] in after.supers
    ensures Newest(after.supers, slots) in {Some(w.sb), Some(image)}
    ensures k == 0 ==> Newest(after.supers, slots) == Some(w.sb)
  {
    hide Landed, Newest, Intact, CopyAt, SuperWrites;
    SameDisk(w, durable);
    SentCopies(image, slots, k);
    CopiesLand(w, durable, slots, image, slots[..k], SuperWrites(image, slots)[..k], after);
  }

  lemma SentCopies(image: Super, slots: seq<nat>, k: nat)
    requires k <= |slots|
    ensures |SuperWrites(image, slots)| == |slots|
    ensures var ops := SuperWrites(image, slots)[..k];
      forall i | 0 <= i < |ops| :: ops[i].WriteSuper? && ops[i].super == image && ops[i].slot in slots[..k]
  {
    var ops := SuperWrites(image, slots)[..k];
    forall i | 0 <= i < |ops| ensures ops[i].slot in slots[..k] { assert slots[..k][i] == slots[i]; }
  }

  /** Block writes alone leave every copy as it was. */
  lemma SameCopies(d: Disk, ops: seq<Op>, after: Disk)
    requires Landed(d, ops, after) && forall i | 0 <= i < |ops| :: !ops[i].WriteSuper?
    ensures after.supers == d.supers
  {
    forall s ensures (s in after.supers <==> s in d.supers)
                     && (s in d.supers ==> after.supers[s] == d.supers[s])
    {
      assert CopyAt(after, s) == CopyAt(d, s);
    }
  }

  /** Only copies of one image, newer than every copy there was, still move: the
      newest copy found is the mounted one, or that image once one landed. */
  lemma CopiesLand(w: World, base: Disk, slots: seq<nat>, image: Super,
                   sent: seq<nat>, ops: seq<Op>, after: Disk)
    requires Mounted(w, slots) && image.generation == w.sb.generation + 1
    requires Landed(base, ops, after)
    requires forall i | 0 <= i < |ops| :: ops[i].WriteSuper? && ops[i].super == image && ops[i].slot in sent
    requires forall s :: CopyAt(base, s) == CopyAt(w.disk, s) || (s in sent && CopyAt(base, s) == Some(image))
    ensures after.blocks == base.blocks && slots[0] in after.supers
    ensures Newest(after.supers, slots) in {Some(w.sb), Some(image)}
    ensures CopyAt(after, slots[0]) == Some(image) ==> Newest(after.supers, slots) == Some(image)
    ensures sent == [] ==> Newest(after.supers, slots) == Some(w.sb)
  {
    NewestIsACopy(w.disk.supers, slots);
    forall s ensures CopyAt(after, s) == CopyAt(w.disk, s) || (s in sent && CopyAt(after, s) == Some(image)) {
      assert CopyAt(after, s) == CopyAt(base, s) || CopyAt(after, s) == Some(image);
    }
    assert CopyAt(w.disk, slots[0]).Some? && CopyAt(after, slots[0]).Some?;
    forall s | s in slots
      ensures (s in after.supers && after.supers[s] == image)
        || ((s in after.supers <==> s in w.disk.supers)
            && (s in w.disk.supers ==> after.supers[s] == w.disk.supers[s]))
    {
      assert CopyAt(after, s) == CopyAt(w.disk, s) || CopyAt(after, s) == Some(image);
    }
    NewestAfterLanding(w.disk.supers, after.supers, slots, image);
    if sent == [] {
      forall s | s in slots && s in after.supers ensures after.supers[s] != image {
        assert CopyAt(after, s) == CopyAt(w.disk, s);
      }
    }
    assert after.blocks == base.blocks by {
      assert forall x :: !Writes(ops, x);
    }
  }

  // ------------------------------------------------------------ runs

  /** One commit attempted on `w`, cut short after `i` operations or run to its
      end, and the volume mounted again. */
  ghost predicate Step(w: World, a: Attempt, i: nat, next: World, slots: seq<nat>) {
    && |slots| > 0 && slots[0] in w.disk.supers
    && i <= |TraceOf(w, a, slots)|
    && CrashOf(w.disk, TraceOf(w, a, slots)[..i], next.disk)
    && Newest(next.disk.supers, slots) == Some(next.sb)
    && next.tree == if next.sb == w.sb then w.tree else a.tree
  }

  ghost predicate Run(worlds: seq<World>, attempts: seq<Attempt>, cuts: seq<nat>, slots: seq<nat>) {
    && |worlds| == |attempts| + 1 && |cuts| == |attempts|
    && forall k | 0 <= k < |attempts| ::
         CopiesOnWrite(worlds[k], attempts[k]) && Step(worlds[k], attempts[k], cuts[k], worlds[k+1], slots)
  }

  /** Over every run of commits, crashes and remounts, each mount finds an intact
      tree: the one the mount before it had, or the one just being committed. */
  lemma {:induction false} EveryMountIsOldOrNew(
    worlds: seq<World>, attempts: seq<Attempt>, cuts: seq<nat>, slots: seq<nat>, k: nat)
    requires |worlds| > 0 && Mounted(worlds[0], slots) && Run(worlds, attempts, cuts, slots)
    requires k < |worlds|
    ensures Mounted(worlds[k], slots)
    ensures k > 0 ==>
      || (worlds[k].sb == worlds[k-1].sb && worlds[k].tree == worlds[k-1].tree)
      || (worlds[k].sb.root == attempts[k-1].change.root && worlds[k].tree == attempts[k-1].tree
          && worlds[k].sb.generation == worlds[k-1].sb.generation + 1)
  {
    if k > 0 {
      EveryMountIsOldOrNew(worlds, attempts, cuts, slots, k - 1);
      var w, a, next := worlds[k-1], attempts[k-1], worlds[k-1+1];
      assert CopiesOnWrite(w, a) && Step(w, a, cuts[k-1], next, slots);
      hide *;
      OneStepOn(w, a, cuts[k-1], next, slots);
    }
  }

  lemma OneStepOn(w: World, a: Attempt, i: nat, next: World, slots: seq<nat>)
    requires Mounted(w, slots) && CopiesOnWrite(w, a) && Step(w, a, i, next, slots)
    ensures Mounted(next, slots)
    ensures (next.sb == w.sb && next.tree == w.tree)
      || (next.sb.root == a.change.root && next.tree == a.tree && next.sb.generation == w.sb.generation + 1)
  {
    hide Intact, Newest, CrashOf;
    CommitIsCrashSafe(w, a, slots, i, next.disk);
  }

  // ------------------------------------------ fields carried over from copy 0

  /** The image names every field of the handle's superblock, or the change's own
      value for it, exactly when the first copy agrees with the handle on each
      field the change leaves alone. */
  lemma ImageKeepsFields(first: Super, sb: Super, c: Change)
    ensures Image(first, c) == Image(sb, c) <==>
      && (c.rootLevel.None? ==> first.rootLevel == sb.rootLevel)
      && (c.bytesUsed.None? ==> first.bytesUsed == sb.bytesUsed)
      && (c.chunkRoot.None? ==> first.chunkRoot == sb.chunkRoot)
      && (c.chunkRootGeneration.None? ==> first.chunkRootGeneration == sb.chunkRootGeneration)
      && first.incompat - c.incompat == sb.incompat - c.incompat
      && (c.totalBytes.None? ==> first.totalBytes == sb.totalBytes)
      && (!c.clearLog ==> first.logRoot == sb.logRoot)
  {
    if first.incompat - c.incompat == sb.incompat - c.incompat {
      assert first.incompat + c.incompat == (first.incompat - c.incompat) + c.incompat;
      assert sb.incompat + c.incompat == (sb.incompat - c.incompat) + c.incompat;
    }
    if first.incompat + c.incompat == sb.incompat + c.incompat {
      assert first.incompat - c.incompat == (first.incompat + c.incompat) - c.incompat;
      assert sb.incompat - c.incompat == (sb.incompat + c.incompat) - c.incompat;
    }
  }

  /** A power cut that lands the second copy and not the first leaves a volume
      whose next commit puts an older `bytesUsed` back: the two commits are each
      crash safe, and the fields carried over are not the mounted ones. */
  lemma StaleFirstCopyLosesAField(slots: seq<nat>, old0: Super, new1: Super, blocks: map<nat, Block>, c: Change)
    returns (d: Disk, after: Disk)
    requires |slots| >= 2 && slots[0] != slots[1]
    requires old0.generation < new1.generation && old0.bytesUsed != new1.bytesUsed
    requires c.bytesUsed == None
    ensures Landed(d, SuperWrites(new1, slots), after)
    ensures CopyAt(after, slots[1]) == Some(new1) && CopyAt(after, slots[0]) == Some(old0)
    ensures Image(after.supers[slots[0]], c).bytesUsed != new1.bytesUsed
  {
    d := Disk(blocks, map[slots[0] := old0]);
    after := Disk(blocks, map[slots[0] := old0, slots[1] := new1]);
    var ops := SuperWrites(new1, slots);
    assert ops[1] == WriteSuper(slots[1], new1);
    forall s ensures CopyAt(after, s) == CopyAt(d, s) || s == slots[1] {}
  }

  /** The superblock writes land in address order: some first part of them. */
  ghost predicate LandedInOrder(d: Disk, image: Super, slots: seq<nat>, issued: nat, after: Disk)
    requires issued <= |slots|
  {
    exists j | 0 <= j <= issued :: after.supers == DoAll(d, SuperWrites(image, slots)[..j]).supers
  }

  /** When copies land in address order the first copy is the newest one, before
      a commit and after it, so nothing the handle was mounted with is lost. */
  lemma FirstCopyStaysNewest(w: World, a: Attempt, slots: seq<nat>, issued: nat, after: Disk)
    requires Mounted(w, slots) && CopiesOnWrite(w, a) && issued <= |slots|
    requires w.disk.supers[slots[0]] == w.sb
    requires LandedInOrder(w.disk, ImageOf(w, a, slots), slots, issued, after)
    ensures ImageOf(w, a, slots) == Image(w.sb, a.change)
    ensures slots[0] in after.supers && Newest(after.supers, slots) == Some(after.supers[slots[0]])
    ensures after.supers[slots[0]] in {w.sb, Image(w.sb, a.change)}
  {
    var image := ImageOf(w, a, slots);
    var j :| 0 <= j <= issued && after.supers == DoAll(w.disk, SuperWrites(image, slots)[..j]).supers;
    assert SuperWrites(image, slots)[..j] == SuperWrites(image, slots[..j]);
    SuperWritesOnly(w.disk, image, slots[..j]);
    NewestIsACopy(w.disk.supers, slots);
    var landed := DoAll(w.disk, SuperWrites(image, slots)[..j]);
    hide Newest, DoAll, SuperWrites, Intact, Image, LandedInOrder;
    FirstLanded(w, slots, j, image, landed);
  }

  /** The first copies, in order, have become the image. */
  lemma FirstLanded(w: World, slots: seq<nat>, j: nat, image: Super, landed: Disk)
    requires j <= |slots| && |slots| > 0 && slots[0] in w.disk.supers && w.disk.supers[slots[0]] == w.sb
    requires Newest(w.disk.supers, slots) == Some(w.sb) && forall s | s in slots && s in w.disk.supers :: w.disk.supers[s].generation < image.generation
    requires forall s :: CopyAt(landed, s) == if s in slots[..j] then Some(image) else CopyAt(w.disk, s)
    ensures slots[0] in landed.supers && Newest(landed.supers, slots) == Some(landed.supers[slots[0]])
    ensures landed.supers[slots[0]] in {w.sb, image}
  {
    hide Newest;
    forall s | s in slots
      ensures (s in landed.supers && landed.supers[s] == image)
        || ((s in landed.supers <==> s in w.disk.supers) && (s in w.disk.supers ==> landed.supers[s] == w.disk.supers[s]))
    {
      assert CopyAt(landed, s) == Some(image) || CopyAt(landed, s) == CopyAt(w.disk, s);
    }
    NewestAfterLanding(w.disk.supers, landed.supers, slots, image);
    assert CopyAt(landed, slots[0]) == if slots[0] in slots[..j] then Some(image) else CopyAt(w.disk, slots[0]);
    if j > 0 {
      assert slots[..j][0] == slots[0];
    } else {
      assert slots[..j] == [];
      forall s | s in slots && s in landed.supers ensures landed.supers[s] != image {
        assert CopyAt(landed, s) == CopyAt(w.disk, s);
      }
    }
  }

  ghost predicate CopiesInOrder(w: World, a: Attempt, next: World, slots: seq<nat>) {
    |slots| > 0 && slots[0] in w.disk.supers && LandedInOrder(w.disk, ImageOf(w, a, slots), slots, |slots|, next.disk)
  }

  /** A run in which every commit's superblock writes land in address order. */
  ghost predicate OrderedRun(worlds: seq<World>, attempts: seq<Attempt>, cuts: seq<nat>, slots: seq<nat>) {
    && Run(worlds, attempts, cuts, slots)
    && forall k | 0 <= k < |attempts| :: CopiesInOrder(worlds[k], attempts[k], worlds[k+1], slots)
  }

  /** A superblock with the changes that landed made to it, one after the other. */
  function Changed(sb: Super, attempts: seq<Attempt>, landed: seq<bool>): Super
    requires |attempts| == |landed|
  {
    if attempts == [] then sb else
      var n := |attempts| - 1;
      var was := Changed(sb, attempts[..n], landed[..n]);
      if landed[n] then Image(was, attempts[n].change) else was
  }

  /** Over such a run no field is ever lost: every mounted superblock is the first one
      with the changes that landed made to it, and the first copy is that one. */
  lemma {:induction false} NoFieldLost(worlds: seq<World>, attempts: seq<Attempt>, cuts: seq<nat>, slots: seq<nat>, k: nat)
    returns (landed: seq<bool>)
    requires |worlds| > 0 && Mounted(worlds[0], slots) && OrderedRun(worlds, attempts, cuts, slots) && k < |worlds|
    requires worlds[0].disk.supers[slots[0]] == worlds[0].sb
    ensures |landed| == k && worlds[k].sb == Changed(worlds[0].sb, attempts[..k], landed)
    ensures Mounted(worlds[k], slots) && worlds[k].disk.supers[slots[0]] == worlds[k].sb
  {
    EveryMountIsOldOrNew(worlds, attempts, cuts, slots, k);
    if k == 0 {
      landed := [];
      NothingChanged(worlds[0].sb, attempts);
    } else {
      var so := NoFieldLost(worlds, attempts, cuts, slots, k - 1);
      assert k <= |attempts|;
      hide Mounted, OrderedRun, Image, Run, Changed;
      OneCommitOn(worlds, attempts, cuts, slots, k);
      var now := worlds[k].sb != worlds[k-1].sb;
      landed := so + [now];
      ChangedOn(worlds[0].sb, attempts, so, now, k);
    }
  }

  lemma NothingChanged(sb: Super, attempts: seq<Attempt>)
    ensures Changed(sb, attempts[..0], []) == sb
  {
  }

  lemma {:induction false} ChangedOn(sb: Super, attempts: seq<Attempt>, so: seq<bool>, now: bool, k: nat)
    requires 0 < k <= |attempts| && |so| == k - 1
    ensures Changed(sb, attempts[..k], so + [now]) ==
      var was := Changed(sb, attempts[..k-1], so);
      if now then Image(was, attempts[k-1].change) else was
  {
    hide Image;
    assert attempts[..k][..k-1] == attempts[..k-1] && (so + [now])[..k-1] == so;
  }

  lemma {:induction false} OneCommitOn(worlds: seq<World>, attempts: seq<Attempt>, cuts: seq<nat>, slots: seq<nat>, k: nat)
    requires OrderedRun(worlds, attempts, cuts, slots) && 0 < k < |worlds|
    requires Mounted(worlds[k-1], slots) && worlds[k-1].disk.supers[slots[0]] == worlds[k-1].sb && Mounted(worlds[k], slots)
    ensures worlds[k].disk.supers[slots[0]] == worlds[k].sb
    ensures worlds[k].sb in {worlds[k-1].sb, Image(worlds[k-1].sb, attempts[k-1].change)}
  {
    assert CopiesInOrder(worlds[k-1], attempts[k-1], worlds[k-1+1], slots);
    assert CopiesOnWrite(worlds[k-1], attempts[k-1]);
    FirstCopyStaysNewest(worlds[k-1], attempts[k-1], slots, |slots|, worlds[k].disk);
  }
}
