/**
 The snapshot on disk: a superblock naming a body, written through a volatile write cache.

 `DiskState` is what the device holds: its durable blocks and the writes still in its cache. A crash
 keeps any subset of the cached writes. `Restored` is what the restore procedure returns from a set
 of blocks, and the lemmas say what it can return after a crash at any point of a commit.
 */
module SnapshotStore {
  import opened Bytes
  import opened Codec

  const BLOCK_SIZE := 512
  const MAGIC: U64 := 0xEC0FABC09DEEDA
  const VERSION: U32 := 1
  const SUPERBLOCK_LBA := 0
  const SNAPSHOT_LBA := 1
  const FLUSH_EVERY_BLOCKS := 32

  type Block = s: Bytes | |s| == 512 witness seq(512, _ => 0)

  /** BLAKE3, as a function the proofs know nothing about. */
  type Hash = Bytes -> Bytes32

  datatype Write = Write(lba: nat, block: Block)

  datatype DiskState = DiskState(durable: seq<Block>, pending: seq<Write>)

  ghost predicate ValidDisk(d: DiskState) {
    && 0 < |d.durable| < 0x1_0000_0000
    && forall w <- d.pending :: w.lba < |d.durable|
  }

  /** The blocks after the writes have reached them in order. */
  function Apply(image: seq<Block>, ws: seq<Write>): (r: seq<Block>)
    requires forall w <- ws :: w.lba < |image|
    ensures |r| == |image|
    decreases |ws|
  {
    if ws == [] then image else Apply(image[ws[0].lba := ws[0].block], ws[1..])
  }

  /** What reads return: the cache is consistent. */
  function View(d: DiskState): (r: seq<Block>)
    requires forall w <- d.pending :: w.lba < |d.durable|
    ensures |r| == |d.durable|
  {
    Apply(d.durable, d.pending)
  }

  /** The writes a crash lets through. */
  function Kept(ws: seq<Write>, keep: seq<bool>): (r: seq<Write>)
    requires |ws| == |keep|
    ensures forall w <- r :: w in ws
    decreases |ws|
  {
    if ws == [] then []
    else (if keep[0] then [ws[0]] else []) + Kept(ws[1..], keep[1..])
  }

  ghost predicate CrashImage(d: DiskState, image: seq<Block>)
    requires ValidDisk(d)
  {
    exists keep: seq<bool> ::
      |keep| == |d.pending| && image == Apply(d.durable, Kept(d.pending, keep))
  }

  /** A block's possible contents after a crash. */
  ghost predicate MayHold(d: DiskState, lba: nat, block: Block)
    requires ValidDisk(d) && lba < |d.durable|
  {
    d.durable[lba] == block || Write(lba, block) in d.pending
  }

  // ----- superblock and body -----

  datatype Superblock = Superblock(bodyLen: U64, checksum: Bytes32)

  function SuperblockFields(s: Snapshot, bodyLen: nat, checksum: Bytes32): (r: Bytes)
    ensures |r| == 68
  {
    Le(MAGIC, 8) + (Le(VERSION, 4) + (Le(s.lamport, 8)
    + (Le(|s.nodes|, 4) + (Le(|s.edges|, 4) + (Le(bodyLen, 8) + checksum)))))
  }

  function Pad(s: Bytes): Block
    requires |s| <= 512
  {
    s + seq(512 - |s|, _ => 0)
  }

  function SuperblockOf(s: Snapshot, body: Bytes, hash: Hash): Block {
    Pad(SuperblockFields(s, |body|, hash(body)))
  }

  function ParseSuperblock(b: Bytes): Result<Superblock> {
    var (magic, o) :- ParseU64(b, 0);
    if magic != MAGIC then Err(BadMagic) else
    var (version, o) :- ParseU32(b, o);
    if version != VERSION then Err(BadVersion) else
    var (_, o) :- ParseU64(b, o);
    var (_, o) :- ParseU32(b, o);
    var (_, o) :- ParseU32(b, o);
    var (len, o) :- ParseU64(b, o);
    var (sum, o) :- ParseRaw(b, o, 32);
    Ok(Superblock(len, sum))
  }

  /** How many blocks hold n bytes (`div_ceil`). */
  function Blocks(n: nat): nat {
    (n + 511) / 512
  }

  /** The body cut into blocks, the last one zero-filled. */
  function BodyBlocks(body: Bytes): (r: seq<Block>)
    ensures |r| == Blocks(|body|)
    decreases |body|
  {
    if body == [] then []
    else if |body| <= 512 then [Pad(body)]
    else [body[..512]] + BodyBlocks(body[512..])
  }

  function Flat(bs: seq<Block>): (r: Bytes)
    ensures |r| == 512 * |bs|
  {
    if bs == [] then [] else bs[0] + Flat(bs[1..])
  }

  /** The n body bytes that follow the superblock. */
  function BodyFrom(image: seq<Block>, n: nat): (r: Bytes)
    requires 1 + Blocks(n) <= |image|
    ensures |r| == n
  {
    Flat(image[1..1 + Blocks(n)])[..n]
  }

  function Restored(image: seq<Block>, hash: Hash): Result<Snapshot> {
    if image == [] then Err(Io) else
    var sb :- ParseSuperblock(image[0]);
    if 1 + Blocks(sb.bodyLen) > |image| then Err(Io) else
    var body := BodyFrom(image, sb.bodyLen);
    if hash(body) != sb.checksum then Err(BadChecksum) else ParseSnapshot(body)
  }

  // ----- what survives a crash -----

  /** A crash image holds, block by block, either the durable content or some cached write. */
  lemma {:induction false} ApplyHolds(image: seq<Block>, ws: seq<Write>, lba: nat)
    requires (forall w <- ws :: w.lba < |image|) && lba < |image|
    ensures Apply(image, ws)[lba] == image[lba] || Write(lba, Apply(image, ws)[lba]) in ws
    decreases |ws|
  {
    if ws != [] {
      ApplyHolds(image[ws[0].lba := ws[0].block], ws[1..], lba);
    }
  }

  lemma CrashHolds(d: DiskState, image: seq<Block>, lba: nat)
    requires ValidDisk(d) && CrashImage(d, image) && lba < |d.durable|
    ensures |image| == |d.durable| && MayHold(d, lba, image[lba])
  {
    var keep: seq<bool> :| |keep| == |d.pending| && image == Apply(d.durable, Kept(d.pending, keep));
    ApplyHolds(d.durable, Kept(d.pending, keep), lba);
  }

  /** A block nothing is written to keeps its content. */
  lemma {:induction false} ApplyElsewhere(image: seq<Block>, ws: seq<Write>, lba: nat)
    requires (forall w <- ws :: w.lba < |image|) && lba < |image|
    requires forall w <- ws :: w.lba != lba
    ensures Apply(image, ws)[lba] == image[lba]
    decreases |ws|
  {
    if ws != [] {
      ApplyElsewhere(image[ws[0].lba := ws[0].block], ws[1..], lba);
    }
  }

  lemma {:induction false} ApplyAppend(image: seq<Block>, ws: seq<Write>, w: Write)
    requires (forall x <- ws :: x.lba < |image|) && w.lba < |image|
    ensures Apply(image, ws + [w]) == Apply(image, ws)[w.lba := w.block]
    decreases |ws|
  {
    if ws == [] {
      assert ws + [w] == [w];
      assert Apply(image, [w]) == Apply(image[w.lba := w.block], [w][1..]);
    } else {
      assert (ws + [w])[1..] == ws[1..] + [w];
      ApplyAppend(image[ws[0].lba := ws[0].block], ws[1..], w);
    }
  }

  // ----- recognising superblocks and bodies -----

  lemma SuperblockReads(s: Snapshot, body: Bytes, hash: Hash)
    requires |body| < 0x1_0000_0000_0000_0000
    ensures ParseSuperblock(SuperblockOf(s, body, hash)) == Ok(Superblock(|body|, hash(body)))
  {
    hide Le, FromLe, ParseLe, ParseU32, ParseU64, ParseRaw, At;
    var b := SuperblockOf(s, body, hash);
    var b6 := Le(|body|, 8) + hash(body);
    var b5 := Le(|s.edges|, 4) + b6;
    var b4 := Le(|s.nodes|, 4) + b5;
    var b3 := Le(s.lamport, 8) + b4;
    var b2 := Le(VERSION, 4) + b3;
    assert At(b, 0, Le(MAGIC, 8) + b2) by {
      PadAt(SuperblockFields(s, |body|, hash(body)));
    }
    AtConcat(b, 0, Le(MAGIC, 8), b2);
    AtConcat(b, 8, Le(VERSION, 4), b3);
    AtConcat(b, 12, Le(s.lamport, 8), b4);
    AtConcat(b, 20, Le(|s.nodes|, 4), b5);
    AtConcat(b, 24, Le(|s.edges|, 4), b6);
    AtConcat(b, 28, Le(|body|, 8), hash(body));
    U64At(b, 0, MAGIC);
    U32At(b, 8, VERSION);
    U64At(b, 12, s.lamport);
    U32Reads(b, 20);
    U32Reads(b, 24);
    U64At(b, 28, |body|);
    RawAt(b, 36, hash(body));
  }

  lemma PadAt(s: Bytes)
    requires |s| <= 512
    ensures At(Pad(s), 0, s)
  {
  }

  lemma U32Reads(b: Bytes, off: nat)
    requires off + 4 <= |b|
    ensures ParseU32(b, off).Ok?
  {
  }

  lemma {:induction false} FlatBlocks(body: Bytes)
    ensures body <= Flat(BodyBlocks(body))
    decreases |body|
  {
    if |body| > 512 {
      FlatBlocks(body[512..]);
      assert body == body[..512] + body[512..];
    }
  }

  /** Byte k of the flattened blocks is byte k % 512 of block k / 512. */
  lemma {:induction false} FlatAt(bs: seq<Block>, i: nat, j: nat)
    requires i < |bs| && j < 512
    ensures Flat(bs)[512 * i + j] == bs[i][j]
  {
    if i > 0 {
      FlatAt(bs[1..], i - 1, j);
    }
  }

  /** The blocks after the superblock are the body's, so the body is read back. */
  lemma BodyReads(image: seq<Block>, body: Bytes)
    requires 1 + Blocks(|body|) <= |image|
    requires image[1..1 + Blocks(|body|)] == BodyBlocks(body)
    ensures BodyFrom(image, |body|) == body
  {
    FlatBlocks(body);
  }

  /** Block i of the image disagrees with the body on one of the body's bytes. */
  ghost predicate Disagrees(block: Block, i: nat, body: Bytes) {
    exists j :: 0 <= j < 512 && 512 * i + j < |body| && block[j] != body[512 * i + j]
  }

  lemma Disagreement(image: seq<Block>, i: nat, body: Bytes)
    requires i < Blocks(|body|) && 1 + Blocks(|body|) <= |image|
    requires Disagrees(image[1 + i], i, body)
    ensures BodyFrom(image, |body|) != body
  {
    var bs := image[1..1 + Blocks(|body|)];
    var j :| 0 <= j < 512 && 512 * i + j < |body| && image[1 + i][j] != body[512 * i + j];
    FlatAt(bs, i, j);
    assert BodyFrom(image, |body|)[512 * i + j] == Flat(bs)[512 * i + j];
  }

  // ----- the commit -----

  /** No other byte string has this one's digest. */
  ghost predicate CollisionFree(hash: Hash, body: Bytes) {
    forall x: Bytes :: hash(x) == hash(body) ==> x == body
  }

  /** The disk a commit starts from: one whose superblock is not ours yet, or one that restores. */
  ghost predicate Committed(base: seq<Block>, hash: Hash) {
    && base != []
    && var sb := ParseSuperblock(base[0]);
       sb.Ok? ==>
         && Restored(base, hash).Ok?
         && 1 + Blocks(sb.value.bodyLen) <= |base|
         && CollisionFree(hash, BodyFrom(base, sb.value.bodyLen))
  }

  /** What a restore may return once a commit of `body` over `base` has begun. */
  ghost predicate OldOrNew(r: Result<Snapshot>, base: seq<Block>, body: Bytes, hash: Hash) {
    r.Err? || r == Restored(base, hash) || r == ParseSnapshot(body)
  }

  ghost predicate CrashSafe(d: DiskState, base: seq<Block>, body: Bytes, hash: Hash)
    requires ValidDisk(d)
  {
    forall image :: CrashImage(d, image) ==> OldOrNew(Restored(image, hash), base, body, hash)
  }

  /** Block 0 holds the old superblock or the new one, whatever a crash keeps. */
  ghost predicate SuperblockWithin(d: DiskState, base: seq<Block>, sb: Block)
    requires ValidDisk(d) && base != []
  {
    && |d.durable| == |base|
    && forall b: Block :: MayHold(d, 0, b) ==> b == base[0] || b == sb
  }

  /** A superblock naming a body of this length and digest restores that body or nothing. */
  lemma SameBody(image: seq<Block>, sb: Superblock, body: Bytes, hash: Hash)
    requires image != [] && ParseSuperblock(image[0]) == Ok(sb)
    requires sb.checksum == hash(body) && CollisionFree(hash, body)
    ensures Restored(image, hash).Err? || Restored(image, hash) == ParseSnapshot(body)
  {
    hide ParseSuperblock, BodyFrom, ParseSnapshot;
  }

  /**
   Crash atomicity. As long as block 0 can only hold the old superblock or the new one, no
   mixture of old and new body blocks is ever restored: after any crash, restore fails, or
   returns what it returned before the commit, or returns the committed fabric.
   */
  lemma NeverAMix(d: DiskState, base: seq<Block>, s: Snapshot, body: Bytes, hash: Hash)
    requires ValidDisk(d) && Committed(base, hash) && CollisionFree(hash, body)
    requires |body| < 0x1_0000_0000_0000_0000
    requires SuperblockWithin(d, base, SuperblockOf(s, body, hash))
    ensures CrashSafe(d, base, body, hash)
  {
    hide ParseSuperblock, BodyFrom, ParseSnapshot, SuperblockOf, Apply, Kept;
    forall image | CrashImage(d, image)
      ensures OldOrNew(Restored(image, hash), base, body, hash)
    {
      CrashHolds(d, image, 0);
      if image[0] == base[0] {
        var was := ParseSuperblock(base[0]);
        if was.Ok? {
          SameBody(image, was.value, BodyFrom(base, was.value.bodyLen), hash);
        }
      } else {
        SuperblockReads(s, body, hash);
        SameBody(image, Superblock(|body|, hash(body)), body, hash);
      }
    }
  }

  // ----- any number of commits -----

  /** The digest of one of these bodies is all that a superblock in block 0 can name. */
  ghost predicate HeadsName(d: DiskState, bodies: set<Bytes>, hash: Hash)
    requires ValidDisk(d)
  {
    forall b: Block :: MayHold(d, 0, b) && ParseSuperblock(b).Ok? ==>
      NamesOne(ParseSuperblock(b).value.checksum, bodies, hash)
  }

  ghost predicate NamesOne(checksum: Bytes32, bodies: set<Bytes>, hash: Hash) {
    exists body <- bodies :: checksum == hash(body)
  }

  ghost predicate RestoresOne(r: Result<Snapshot>, bodies: set<Bytes>) {
    r.Err? || exists body <- bodies :: r == ParseSnapshot(body)
  }

  /** However the blocks of several commits are mixed, a crash restores one of the bodies, whole, or nothing. */
  lemma NeverAMixOfMany(d: DiskState, bodies: set<Bytes>, hash: Hash, image: seq<Block>)
    requires ValidDisk(d) && HeadsName(d, bodies, hash) && forall body <- bodies :: CollisionFree(hash, body)
    requires CrashImage(d, image)
    ensures RestoresOne(Restored(image, hash), bodies)
  {
    hide ParseSuperblock, BodyFrom, ParseSnapshot, Apply, Kept;
    CrashHolds(d, image, 0);
    var sb := ParseSuperblock(image[0]);
    if sb.Ok? {
      assert NamesOne(sb.value.checksum, bodies, hash);
      var body :| body in bodies && sb.value.checksum == hash(body);
      SameBody(image, sb.value, body, hash);
    }
  }

  /** Every content a body block may have after a crash agrees with the body. */
  ghost predicate BodySettled(d: DiskState, body: Bytes)
    requires ValidDisk(d) && 1 + Blocks(|body|) <= |d.durable|
  {
    forall lba, block :: 1 <= lba <= Blocks(|body|) && MayHold(d, lba, block) ==> !Disagrees(block, lba - 1, body)
  }

  /** Whenever the new superblock survives a crash, the new fabric is restored. */
  ghost predicate CommitDurable(d: DiskState, sb: Block, body: Bytes, hash: Hash)
    requires ValidDisk(d)
  {
    forall image :: CrashImage(d, image) && image[0] == sb ==> Restored(image, hash) == ParseSnapshot(body)
  }

  lemma Agreement(image: seq<Block>, body: Bytes)
    requires 1 + Blocks(|body|) <= |image|
    requires forall lba :: 1 <= lba <= Blocks(|body|) ==> !Disagrees(image[lba], lba - 1, body)
    ensures BodyFrom(image, |body|) == body
  {
    var bs := image[1..1 + Blocks(|body|)];
    forall k | 0 <= k < |body|
      ensures BodyFrom(image, |body|)[k] == body[k]
    {
      var i, j := k / 512, k % 512;
      FlatAt(bs, i, j);
      assert bs[i] == image[1 + i];
      assert Flat(bs)[k] == bs[i][j];
      assert !Disagrees(image[1 + i], i, body);
    }
  }

  /** Some write reaches the block, so its content comes from one of the writes. */
  lemma {:induction false} ApplyHit(image: seq<Block>, ws: seq<Write>, w: Write)
    requires (forall x <- ws :: x.lba < |image|) && w in ws
    ensures Write(w.lba, Apply(image, ws)[w.lba]) in ws
    decreases |ws|
  {
    var next := image[ws[0].lba := ws[0].block];
    if exists x :: x in ws[1..] && x.lba == w.lba {
      var x :| x in ws[1..] && x.lba == w.lba;
      ApplyHit(next, ws[1..], x);
    } else {
      ApplyElsewhere(next, ws[1..], w.lba);
    }
  }

  lemma {:induction false} KeptMember(ws: seq<Write>, keep: seq<bool>, w: Write)
    requires |ws| == |keep|
    ensures w in Kept(ws, keep) <==> exists i :: 0 <= i < |ws| && keep[i] && ws[i] == w
    decreases |ws|
  {
    if ws != [] {
      KeptMember(ws[1..], keep[1..], w);
      if w in Kept(ws[1..], keep[1..]) {
        var i :| 0 <= i < |ws| - 1 && keep[1..][i] && ws[1..][i] == w;
        assert keep[i + 1] && ws[i + 1] == w;
      }
      if i :| 0 <= i < |ws| && keep[i] && ws[i] == w && i > 0 {
        assert keep[1..][i - 1] && ws[1..][i - 1] == w;
      }
    }
  }

  /** The cached writes that agree with an image. */
  function Agreeing(ws: seq<Write>, image: seq<Block>): (keep: seq<bool>)
    requires forall w <- ws :: w.lba < |image|
  {
    seq(|ws|, i requires 0 <= i < |ws| => ws[i].block == image[ws[i].lba])
  }

  /** What a crash can leave: each block takes any of its possible contents, independently of the others. */
  lemma CrashIff(d: DiskState, image: seq<Block>)
    requires ValidDisk(d)
    ensures CrashImage(d, image)
       <==> |image| == |d.durable| && forall lba :: 0 <= lba < |image| ==> MayHold(d, lba, image[lba])
  {
    hide Apply, Kept;
    if CrashImage(d, image) {
      forall lba | 0 <= lba < |d.durable|
        ensures |image| == |d.durable| && MayHold(d, lba, image[lba])
      {
        CrashHolds(d, image, lba);
      }
    }
    if |image| == |d.durable| && forall lba :: 0 <= lba < |image| ==> MayHold(d, lba, image[lba]) {
      var keep := Agreeing(d.pending, image);
      var ws := Kept(d.pending, keep);
      forall lba | 0 <= lba < |image|
        ensures Apply(d.durable, ws)[lba] == image[lba]
      {
        AgreeingHolds(d, image, lba);
      }
      assert Apply(d.durable, ws) == image;
    }
  }

  lemma AgreeingHolds(d: DiskState, image: seq<Block>, lba: nat)
    requires ValidDisk(d) && |image| == |d.durable| && lba < |image| && MayHold(d, lba, image[lba])
    ensures Apply(d.durable, Kept(d.pending, Agreeing(d.pending, image)))[lba] == image[lba]
  {
    var keep := Agreeing(d.pending, image);
    var ws := Kept(d.pending, keep);
    forall w
      ensures w in ws <==> exists i :: 0 <= i < |d.pending| && keep[i] && d.pending[i] == w
    {
      KeptMember(d.pending, keep, w);
    }
    if Write(lba, image[lba]) in d.pending {
      var i :| 0 <= i < |d.pending| && d.pending[i] == Write(lba, image[lba]);
      assert keep[i];
    }
    if w :| w in ws && w.lba == lba {
      ApplyHit(d.durable, ws, w);
    } else {
      ApplyElsewhere(d.durable, ws, lba);
    }
  }

  lemma SettledIsDurable(d: DiskState, s: Snapshot, body: Bytes, hash: Hash)
    requires ValidDisk(d) && 1 + Blocks(|body|) <= |d.durable| && |body| < 0x1_0000_0000_0000_0000
    requires BodySettled(d, body)
    ensures CommitDurable(d, SuperblockOf(s, body, hash), body, hash)
  {
    hide ParseSuperblock, BodyFrom, ParseSnapshot, SuperblockOf, Apply, Kept, Disagrees;
    SuperblockReads(s, body, hash);
    forall image | CrashImage(d, image) && image[0] == SuperblockOf(s, body, hash)
      ensures Restored(image, hash) == ParseSnapshot(body)
    {
      forall lba | 1 <= lba <= Blocks(|body|)
        ensures !Disagrees(image[lba], lba - 1, body)
      {
        CrashHolds(d, image, lba);
      }
      CrashHolds(d, image, 0);
      Agreement(image, body);
    }
  }

  /**
   Exactly when the commit is durable. Once the new superblock may be on disk, every crash that
   keeps it restores the new fabric if and only if no body block can still hold anything else:
   that is what the flush between body and superblock is for, and its result is not checked.
   */
  lemma DurableIffSettled(d: DiskState, s: Snapshot, body: Bytes, hash: Hash)
    requires ValidDisk(d) && 1 + Blocks(|body|) <= |d.durable|
    requires CollisionFree(hash, body) && ParseSnapshot(body).Ok? && |body| < 0x1_0000_0000_0000_0000
    requires MayHold(d, 0, SuperblockOf(s, body, hash))
    ensures CommitDurable(d, SuperblockOf(s, body, hash), body, hash) <==> BodySettled(d, body)
  {
    hide ParseSuperblock, BodyFrom, ParseSnapshot, SuperblockOf, Apply, Kept, Disagrees;
    var sb := SuperblockOf(s, body, hash);
    SuperblockReads(s, body, hash);
    if BodySettled(d, body) {
      SettledIsDurable(d, s, body, hash);
    } else {
      var lba, block :| 1 <= lba <= Blocks(|body|) && MayHold(d, lba, block) && Disagrees(block, lba - 1, body);
      var image := d.durable[0 := sb][lba := block];
      CrashIff(d, image);
      Disagreement(image, lba - 1, body);
      assert Restored(image, hash) == Err(BadChecksum);
    }
  }

  // ----- what a flush that failed unnoticed can cost -----

  /** The writes of the body loop. */
  function BodyWrites(body: Bytes): (ws: seq<Write>)
    ensures |ws| == Blocks(|body|)
  {
    seq(Blocks(|body|), i requires 0 <= i < Blocks(|body|) => Write(1 + i, BodyBlocks(body)[i]))
  }

  /** The cache when neither the flush behind the body nor any before it has worked, and the superblock is written. */
  function Unflushed(durable: seq<Block>, s: Snapshot, hash: Hash): DiskState {
    DiskState(durable, BodyWrites(SnapshotBytes(s)) + [Write(0, SuperblockOf(s, SnapshotBytes(s), hash))])
  }

  /**
   The failing input: a disk whose first body block held something else. A crash can keep the new superblock
   and lose that block, and then neither the old fabric nor the new one is restored.
   */
  lemma FailedFlushCost(durable: seq<Block>, s: Snapshot, hash: Hash)
    requires 1 + Blocks(|SnapshotBytes(s)|) <= |durable| < 0x1_0000_0000 && |SnapshotBytes(s)| < 0x1_0000_0000_0000_0000
    requires SnapshotBytes(s) != [] && Disagrees(durable[1], 0, SnapshotBytes(s))
    requires CollisionFree(hash, SnapshotBytes(s))
    ensures var d, sb := Unflushed(durable, s, hash), SuperblockOf(s, SnapshotBytes(s), hash);
            ValidDisk(d) && exists image ::
              CrashImage(d, image) && image[0] == sb && Restored(image, hash) == Err(BadChecksum)
  {
    hide SnapshotBytes, SuperblockOf, BodyBlocks, ParseSuperblock, ParseSnapshot, BodyFrom, Disagrees, CrashImage;
    var body := SnapshotBytes(s);
    var d, sb := Unflushed(durable, s, hash), SuperblockOf(s, body, hash);
    var image := durable[0 := sb];
    assert Write(0, sb) in d.pending by { assert d.pending[|d.pending| - 1] == Write(0, sb); }
    CrashIff(d, image);
    SuperblockReads(s, body, hash);
    Disagreement(image, 0, body);
    assert CrashImage(d, image);
  }

  /** A blank disk and a fabric of one node will do: the body starts with the number of nodes. */
  lemma BlankDiskCost(n: nat, s: Snapshot, hash: Hash)
    requires |s.nodes| == 1 && CollisionFree(hash, SnapshotBytes(s))
    requires 1 + Blocks(|SnapshotBytes(s)|) <= n < 0x1_0000_0000 && |SnapshotBytes(s)| < 0x1_0000_0000_0000_0000
    ensures var d, sb := Unflushed(seq(n, _ => Pad([])), s, hash), SuperblockOf(s, SnapshotBytes(s), hash);
            ValidDisk(d) && exists image ::
              CrashImage(d, image) && image[0] == sb && Restored(image, hash) == Err(BadChecksum)
  {
    assert SnapshotBytes(s)[0] == Le(1, 4)[0];
    assert Pad([])[0] != SnapshotBytes(s)[0];
    FailedFlushCost(seq(n, _ => Pad([])), s, hash);
  }
}
