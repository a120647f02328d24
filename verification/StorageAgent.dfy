/**
 The storage agent: the disk's other writer. Its probe wanders over LBA 8..127, which is inside the
 snapshot body, and its write action puts back what a preceding read returned, whether or not that
 read succeeded.
 */
module StorageAgent {
  import opened Bytes
  import opened Codec
  import opened SnapshotStore
  import opened KernelDisk

  /** Actions 0 (identify), 3 (flush) and 4 (wait) issue no operation at all. */
  const ACT_READ := 1
  const ACT_WRITE := 2

  /** Neither reads nor any crash can tell the two states apart. */
  ghost predicate SameImages(d: DiskState, e: DiskState) {
    && ValidDisk(d) && ValidDisk(e) && View(e) == View(d)
    && forall lba, block :: 0 <= lba < |d.durable| ==> (MayHold(d, lba, block) <==> MayHold(e, lba, block))
  }

  /** e is d with some writes to the probed range cached on top. */
  ghost predicate ProbeWritesOnly(d: DiskState, e: DiskState) {
    && e.durable == d.durable && d.pending <= e.pending
    && forall k :: |d.pending| <= k < |e.pending| ==> 8 <= e.pending[k].lba < 128
  }

  class Agent {
    var probeLba: nat
    var bytesRead: nat
    var bytesWritten: nat

    ghost predicate Valid()
      reads this
    {
      8 <= probeLba < 128
    }

    constructor ()
      ensures Valid() && probeLba == 8
    {
      probeLba, bytesRead, bytesWritten := 8, 0, 0;
    }

    method AdvanceProbe()
      requires Valid()
      modifies this`probeLba
      ensures Valid()
      ensures probeLba == if old(probeLba) < 121 then old(probeLba) + 7 else 8
    {
      probeLba := (probeLba + 7) % 128;
      if probeLba < 8 {
        probeLba := 8;
      }
    }

    /** `intact` is false only when the read before a write failed. */
    method ExecuteAction(disk: Disk, action: nat) returns (ok: bool, ghost intact: bool)
      requires Valid() && disk.Valid()
      modifies this, disk
      ensures Valid() && disk.Valid() && old(disk.history) <= disk.history
      ensures forall k :: |old(disk.history)| <= k < |disk.history| ==>
                disk.history[k] == disk.State()
      ensures ProbeWritesOnly(old(disk.State()), disk.State())
      ensures intact ==> SameImages(old(disk.State()), disk.State())
    {
      ok, intact := true, true;
      ghost var d := disk.State();
      SameReflexive(d);
      if action == ACT_READ {
        var r, _ := disk.ReadBlock(probeLba, Pad([]));
        AdvanceProbe();
        bytesRead := bytesRead + BLOCK_SIZE;
        ok := r;
      } else if action == ACT_WRITE {
        var r, buf := disk.ReadBlock(probeLba, Pad([]));
        intact := r;
        var w := disk.WriteBlock(probeLba, buf);
        if intact {
          WriteBackSame(d, probeLba, buf);
        }
        AdvanceProbe();
        bytesWritten := bytesWritten + BLOCK_SIZE;
        ok := w;
      }
    }
  }

  lemma SameReflexive(d: DiskState)
    requires ValidDisk(d)
    ensures SameImages(d, d) && ProbeWritesOnly(d, d)
  {
  }

  /** Writing back what the cache returns adds no new possible content to the block. */
  lemma WriteBackSame(d: DiskState, lba: nat, block: Block)
    requires ValidDisk(d) && lba < |d.durable| && block == View(d)[lba]
    ensures SameImages(d, DiskState(d.durable, d.pending + [Write(lba, block)]))
  {
    hide Apply;
    var w := Write(lba, block);
    var e := DiskState(d.durable, d.pending + [w]);
    ViewWrite(d, w);
    ApplyHolds(d.durable, d.pending, lba);
    forall l, b | 0 <= l < |d.durable|
      ensures MayHold(d, l, b) <==> MayHold(e, l, b)
    {
      assert Write(l, b) in e.pending <==> Write(l, b) in d.pending || Write(l, b) == w;
    }
  }

  /** Indistinguishable states restore alike, now and after any crash. */
  lemma SameImagesRestoreAlike(d: DiskState, e: DiskState, hash: Hash)
    requires SameImages(d, e)
    ensures Restored(View(e), hash) == Restored(View(d), hash)
    ensures forall image :: CrashImage(e, image) <==> CrashImage(d, image)
  {
    hide Apply, Kept, Restored;
    forall image
      ensures CrashImage(e, image) <==> CrashImage(d, image)
    {
      CrashIff(d, image);
      CrashIff(e, image);
    }
  }

  /**
   Any run of actions. If every read before a write succeeded, every state the disk went through
   reads and crashes like the first; in any case nothing but LBA 8..127 was written.
   */
  method RunAgent(agent: Agent, disk: Disk, actions: seq<nat>) returns (ghost intact: bool)
    requires agent.Valid() && disk.Valid()
    modifies agent, disk
    ensures agent.Valid() && disk.Valid() && old(disk.history) <= disk.history
    ensures forall k :: |old(disk.history)| <= k < |disk.history| ==>
              && ProbeWritesOnly(old(disk.State()), disk.history[k])
              && (intact ==> SameImages(old(disk.State()), disk.history[k]))
    ensures ProbeWritesOnly(old(disk.State()), disk.State())
    ensures intact ==> SameImages(old(disk.State()), disk.State())
  {
    intact := true;
    ghost var d, start := disk.State(), |disk.history|;
    SameReflexive(d);
    for i := 0 to |actions|
      invariant agent.Valid() && disk.Valid() && old(disk.history) <= disk.history
      invariant ProbeWritesOnly(d, disk.State())
      invariant intact ==> SameImages(d, disk.State())
      invariant forall k :: start <= k < |disk.history| ==>
                  && ProbeWritesOnly(d, disk.history[k])
                  && (intact ==> SameImages(d, disk.history[k]))
    {
      ghost var e := disk.State();
      ghost var history := disk.history;
      var _, good := agent.ExecuteAction(disk, actions[i]);
      ProbeTransitive(d, e, disk.State());
      if intact && good {
        SameTransitive(d, e, disk.State());
      }
      intact := intact && good;
      assert forall k :: start <= k < |history| ==> disk.history[k] == history[k];
    }
  }

  lemma ProbeTransitive(d: DiskState, e: DiskState, f: DiskState)
    requires ProbeWritesOnly(d, e) && ProbeWritesOnly(e, f)
    ensures ProbeWritesOnly(d, f)
  {
  }

  lemma SameTransitive(d: DiskState, e: DiskState, f: DiskState)
    requires SameImages(d, e) && SameImages(e, f)
    ensures SameImages(d, f)
  {
  }

  /** Below the probed range the two states may hold the same. */
  lemma BelowTheProbe(d: DiskState, e: DiskState, lba: nat, block: Block)
    requires ValidDisk(d) && ValidDisk(e) && ProbeWritesOnly(d, e) && lba < |d.durable|
    ensures MayHold(d, lba, block) ==> MayHold(e, lba, block)
    ensures lba < 8 ==> (MayHold(d, lba, block) <==> MayHold(e, lba, block))
  {
    if k :| 0 <= k < |d.pending| && d.pending[k] == Write(lba, block) {
      assert e.pending[k] == Write(lba, block);
    }
    if k :| 0 <= k < |e.pending| && e.pending[k] == Write(lba, block) && k < |d.pending| {
      assert d.pending[k] == Write(lba, block);
    }
  }

  /** Restore looks at nothing behind the body. */
  lemma FirstBlocksDecide(image: seq<Block>, other: seq<Block>, hash: Hash)
    requires |image| == |other| && image != []
    requires forall lba :: 0 <= lba < |image| && lba < 8 ==> image[lba] == other[lba]
    requires ShortBody(image[0])
    ensures Restored(image, hash) == Restored(other, hash)
  {
    hide ParseSuperblock, ParseSnapshot;
    var sb := ParseSuperblock(image[0]);
    if sb.Ok? && 1 + Blocks(sb.value.bodyLen) <= |image| {
      var m := 1 + Blocks(sb.value.bodyLen);
      assert image[1..m] == other[1..m];
    }
  }

  /** The block is no superblock, or names a body of at most seven blocks. */
  predicate ShortBody(block: Block) {
    ParseSuperblock(block).Ok? ==> Blocks(ParseSuperblock(block).value.bodyLen) <= 7
  }

  lemma {:induction false} ViewBelowTheProbe(d: DiskState, e: DiskState, lba: nat)
    requires ValidDisk(d) && ValidDisk(e) && ProbeWritesOnly(d, e) && lba < 8 && lba < |d.durable|
    ensures View(e)[lba] == View(d)[lba]
    decreases |e.pending|
  {
    hide Apply;
    if |e.pending| == |d.pending| {
      assert e == d;
    } else {
      var n := |e.pending| - 1;
      var f := DiskState(e.durable, e.pending[..n]);
      assert e.pending == f.pending + [e.pending[n]];
      assert forall w <- f.pending :: w in e.pending;
      ViewBelowTheProbe(d, f, lba);
      ViewWrite(f, e.pending[n]);
    }
  }

  /**
   A body of at most seven blocks lies below the probed range: no agent run, failed reads included, changes
   what is restored, or what can be restored after a crash.
   */
  lemma ShortBodyOutOfReach(d: DiskState, e: DiskState, hash: Hash, r: Result<Snapshot>)
    requires ValidDisk(d) && ValidDisk(e) && ProbeWritesOnly(d, e)
    requires forall block: Block :: MayHold(d, 0, block) ==> ShortBody(block)
    ensures Restored(View(e), hash) == Restored(View(d), hash)
    ensures (exists image :: CrashImage(e, image) && Restored(image, hash) == r)
       <==> (exists image :: CrashImage(d, image) && Restored(image, hash) == r)
  {
    hide Apply, Restored, ShortBody, CrashImage, MayHold, ProbeWritesOnly, View;
    ViewMayHold(d, 0);
    SameLength(d, e);
    forall lba | 0 <= lba < |d.durable| && lba < 8
      ensures View(e)[lba] == View(d)[lba]
    {
      ViewBelowTheProbe(d, e, lba);
    }
    FirstBlocksDecide(View(d), View(e), hash);
    if image :| CrashImage(e, image) && Restored(image, hash) == r {
      CrashedBelow(d, e, hash, image);
    }
    if image :| CrashImage(d, image) && Restored(image, hash) == r {
      CrashIff(d, image);
      CrashIff(e, image);
      forall lba | 0 <= lba < |image| ensures MayHold(e, lba, image[lba]) {
        BelowTheProbe(d, e, lba, image[lba]);
      }
      assert CrashImage(e, image);
    }
  }

  lemma SameLength(d: DiskState, e: DiskState)
    requires ProbeWritesOnly(d, e)
    ensures |e.durable| == |d.durable|
  {
  }

  /** A crash image after the agent's run, with the probed range as it was. */
  lemma CrashedBelow(d: DiskState, e: DiskState, hash: Hash, image: seq<Block>)
    requires ValidDisk(d) && ValidDisk(e) && ProbeWritesOnly(d, e) && CrashImage(e, image)
    requires forall block: Block :: MayHold(d, 0, block) ==> ShortBody(block)
    ensures exists other :: CrashImage(d, other) && Restored(other, hash) == Restored(image, hash)
  {
    hide Apply, Kept, Restored, ShortBody, CrashImage;
    CrashIff(e, image);
    var n := |image|;
    var other: seq<Block> := seq(n, i requires 0 <= i < n => if i < 8 then image[i] else d.durable[i]);
    forall lba | 0 <= lba < n ensures MayHold(d, lba, other[lba]) {
      BelowTheProbe(d, e, lba, other[lba]);
    }
    CrashIff(d, other);
    FirstBlocksDecide(other, image, hash);
  }

  /** A body agrees with the blocks it was read from. */
  lemma BodyAgrees(image: seq<Block>, n: nat, lba: nat)
    requires 1 + Blocks(n) <= |image| && 1 <= lba <= Blocks(n)
    ensures !Disagrees(image[lba], lba - 1, BodyFrom(image, n))
  {
    var bs := image[1..1 + Blocks(n)];
    forall j | 0 <= j < 512 && 512 * (lba - 1) + j < n
      ensures image[lba][j] == BodyFrom(image, n)[512 * (lba - 1) + j]
    {
      FlatAt(bs, lba - 1, j);
    }
  }

  /** The length of the body an image's superblock names. */
  function BodyLen(image: seq<Block>): nat
    requires image != [] && ParseSuperblock(image[0]).Ok?
  {
    ParseSuperblock(image[0]).value.bodyLen
  }

  /** The block belongs to the body the image names, and the buffer disagrees with the body on it. */
  ghost predicate Spoils(image: seq<Block>, lba: nat, buf: Block)
    requires lba >= 1
  {
    && image != [] && ParseSuperblock(image[0]).Ok? && 1 + Blocks(BodyLen(image)) <= |image|
    && lba <= Blocks(BodyLen(image)) && Disagrees(buf, lba - 1, BodyFrom(image, BodyLen(image)))
  }

  /**
   One block behind the superblock overwritten: the snapshot's checksum fails if that spoils the body, and it
   restores as before if not.
   */
  lemma OverwrittenRestores(image: seq<Block>, lba: nat, buf: Block, hash: Hash)
    requires 1 <= lba < |image| && Restored(image, hash).Ok?
    requires CollisionFree(hash, BodyFrom(image, BodyLen(image)))
    ensures Restored(image[lba := buf], hash)
         == if Spoils(image, lba, buf) then Err(BadChecksum) else Restored(image, hash)
  {
    hide ParseSuperblock, ParseSnapshot, BodyFrom;
    var n := BodyLen(image);
    var body := BodyFrom(image, n);
    var other := image[lba := buf];
    if lba <= Blocks(n) && Disagrees(buf, lba - 1, body) {
      Disagreement(other, lba - 1, body);
    } else {
      forall l | 1 <= l <= Blocks(n)
        ensures !Disagrees(other[l], l - 1, body)
      {
        BodyAgrees(image, n, l);
      }
      Agreement(other, body);
    }
  }

  /**
   What a write after a failed read does. The kernel ignores the read's result and writes back whatever the
   buffer holds.
   */
  lemma UncheckedReadCost(d: DiskState, lba: nat, buf: Block, hash: Hash)
    requires ValidDisk(d) && 1 <= lba < |d.durable| && Restored(View(d), hash).Ok?
    requires CollisionFree(hash, BodyFrom(View(d), BodyLen(View(d))))
    ensures var e := DiskState(d.durable, d.pending + [Write(lba, buf)]);
            Restored(View(e), hash) == if Spoils(View(d), lba, buf) then Err(BadChecksum) else Restored(View(d), hash)
  {
    hide ParseSuperblock, ParseSnapshot, Apply, View, BodyFrom, Restored, CollisionFree;
    ViewWrite(d, Write(lba, buf));
    OverwrittenRestores(View(d), lba, buf, hash);
  }

  /** A crash keeps that write or not: it leaves what it could have left before, or that with the block overwritten. */
  lemma UncheckedCrashImages(d: DiskState, lba: nat, buf: Block, image: seq<Block>)
    requires ValidDisk(d) && lba < |d.durable|
    ensures CrashImage(DiskState(d.durable, d.pending + [Write(lba, buf)]), image)
       <==> exists was :: CrashImage(d, was) && lba < |was| && (image == was || image == was[lba := buf])
  {
    hide Apply, Kept, CrashImage;
    var e := DiskState(d.durable, d.pending + [Write(lba, buf)]);
    CrashIff(e, image);
    MoreToHold(d, lba, buf);
    if CrashImage(e, image) {
      var was := if MayHold(d, lba, image[lba]) then image else image[lba := d.durable[lba]];
      CrashIff(d, was);
    }
    if was :| CrashImage(d, was) && lba < |was| && (image == was || image == was[lba := buf]) {
      CrashIff(d, was);
    }
  }

  lemma MoreToHold(d: DiskState, lba: nat, buf: Block)
    requires ValidDisk(d) && lba < |d.durable|
    ensures forall l, block :: 0 <= l < |d.durable| ==>
              (MayHold(DiskState(d.durable, d.pending + [Write(lba, buf)]), l, block)
               <==> MayHold(d, l, block) || (l == lba && block == buf))
  {
  }

  /**
   So as long as every crash image before the write restored a fabric, one after it restores one of those, or
   fails its checksum; and it can fail exactly when the block belongs to the body of such an image and the buffer
   disagrees with it.
   */
  lemma UncheckedCrashCost(d: DiskState, lba: nat, buf: Block, hash: Hash)
    requires ValidDisk(d) && 1 <= lba < |d.durable|
    requires forall was :: CrashImage(d, was) ==> RestoresSafely(was, hash)
    ensures var e := DiskState(d.durable, d.pending + [Write(lba, buf)]);
            && (forall image :: CrashImage(e, image) ==>
                  Restored(image, hash) == Err(BadChecksum)
                  || exists was :: CrashImage(d, was) && Restored(image, hash) == Restored(was, hash))
            && ((exists image :: CrashImage(e, image) && Restored(image, hash) == Err(BadChecksum))
                <==> exists was :: CrashImage(d, was) && Spoils(was, lba, buf))
  {
    hide Apply, Kept, CrashImage, Restored, CollisionFree, BodyFrom, ParseSuperblock, Disagrees;
    var e := DiskState(d.durable, d.pending + [Write(lba, buf)]);
    forall image
      ensures CrashImage(e, image)
         <==> exists was :: CrashImage(d, was) && lba < |was| && (image == was || image == was[lba := buf])
    {
      UncheckedCrashImages(d, lba, buf, image);
    }
    forall was | CrashImage(d, was)
      ensures |was| == |d.durable| && RestoresSafely(was, hash)
      ensures Restored(was[lba := buf], hash) == if Spoils(was, lba, buf) then Err(BadChecksum) else Restored(was, hash)
      ensures CrashImage(e, was[lba := buf])
    {
      CrashIff(d, was);
      OverwrittenRestores(was, lba, buf, hash);
    }
  }

  /** The image restores a fabric, and no other body has its body's digest. */
  ghost predicate RestoresSafely(image: seq<Block>, hash: Hash) {
    && image != [] && Restored(image, hash).Ok?
    && CollisionFree(hash, BodyFrom(image, BodyLen(image)))
  }
}
