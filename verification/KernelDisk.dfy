/**
 The kernel's commit and restore, run over a disk with a volatile write cache.

 `Disk` stands for the substrate. Any operation may fail; a failed write may or may not have reached
 the cache. `history` is the sequence of states the device has been in, so that a contract can speak
 about a crash at every point of a run, and `failedFlushes` counts the flushes that did not work.
 */
module KernelDisk {
  import opened Bytes
  import opened Codec
  import opened CodecBuffers
  import opened SnapshotStore

  class Disk {
    var durable: seq<Block>
    var pending: seq<Write>
    ghost var history: seq<DiskState>
    ghost var failedFlushes: nat

    ghost function State(): DiskState
      reads this
    {
      DiskState(durable, pending)
    }

    ghost predicate Valid()
      reads this
    {
      && ValidDisk(State())
      && forall d <- history :: ValidDisk(d) && |d.durable| == |durable|
    }

    constructor (blocks: seq<Block>)
      requires 0 < |blocks| < 0x1_0000_0000
      ensures Valid() && durable == blocks && pending == [] && history == []
    {
      durable, pending, history, failedFlushes := blocks, [], [], 0;
    }

    /** An error leaves the write uncached, or cached all the same. */
    method WriteBlock(lba: nat, block: Block) returns (ok: bool)
      requires Valid()
      modifies this
      ensures Valid() && durable == old(durable) && failedFlushes == old(failedFlushes)
      ensures history == old(history) + [State()]
      ensures ok ==> lba < |durable|
      ensures pending == old(pending) || (lba < |durable| && pending == old(pending) + [Write(lba, block)])
      ensures ok ==> pending == old(pending) + [Write(lba, block)]
    {
      ok := false;
      if lba < |durable| {
        if * {
          ok := true;
          pending := pending + [Write(lba, block)];
        } else if * {
          pending := pending + [Write(lba, block)];
        }
      }
      history := history + [State()];
    }

    method Flush() returns (ok: bool)
      requires Valid()
      modifies this
      ensures Valid() && View(State()) == View(old(State()))
      ensures history == old(history) + [State()]
      ensures ok ==> durable == View(old(State())) && pending == []
      ensures !ok ==> durable == old(durable) && pending == old(pending)
      ensures failedFlushes == old(failedFlushes) + if ok then 0 else 1
    {
      ok := false;
      if * {
        ok := true;
        durable, pending := Apply(durable, pending), [];
      } else {
        failedFlushes := failedFlushes + 1;
      }
      history := history + [State()];
    }

    /** Power is lost: some of the cached writes are kept, in order, and the cache is empty afterwards. */
    method PowerCycle(keep: seq<bool>)
      requires Valid() && |keep| == |pending|
      modifies this
      ensures Valid() && pending == [] && CrashImage(old(State()), durable)
      ensures history == old(history) + [State()]
    {
      durable, pending := Apply(durable, Kept(pending, keep)), [];
      history := history + [State()];
    }

    /** A failed read leaves anything in the buffer. */
    method ReadBlock(lba: nat, buffer: Block) returns (ok: bool, block: Block)
      requires Valid()
      ensures ok ==> lba < |durable| && block == View(State())[lba]
    {
      ok, block := false, buffer;
      if lba < |durable| {
        if * {
          ok, block := true, Apply(durable, pending)[lba];
        }
      }
    }
  }

  /** A cached write changes what is read at its own block only. */
  lemma ViewWrite(d: DiskState, w: Write)
    requires ValidDisk(d) && w.lba < |d.durable|
    ensures View(DiskState(d.durable, d.pending + [w])) == View(d)[w.lba := w.block]
  {
    ApplyAppend(d.durable, d.pending, w);
  }

  lemma {:induction false} BodyBlockAt(body: Bytes, i: nat)
    requires 512 * i < |body|
    ensures i < Blocks(|body|)
    ensures BodyBlocks(body)[i] == Pad(body[512 * i..if |body| < 512 * i + 512 then |body| else 512 * i + 512])
    decreases i
  {
    if |body| > 512 {
      if i == 0 {
        assert body[..512] + seq(0, _ => 0) == body[..512];
      } else {
        var rest := body[512..];
        BodyBlockAt(rest, i - 1);
        var end := if |body| < 512 * i + 512 then |body| else 512 * i + 512;
        assert rest[512 * (i - 1)..end - 512] == body[512 * i..end];
      }
    } else {
      assert body[0..|body|] == body;
    }
  }

  /** Block 0 is out of play: it may hold only what it could hold before. */
  ghost predicate SuperblockUntouched(d: DiskState, before: DiskState)
    requires ValidDisk(d) && ValidDisk(before)
  {
    |d.durable| == |before.durable| && forall b: Block :: MayHold(d, 0, b) ==> MayHold(before, 0, b)
  }

  /** Block 0 may hold what it could hold before, or the new superblock. */
  ghost predicate SuperblockOrNew(d: DiskState, before: DiskState, sb: Block)
    requires ValidDisk(d) && ValidDisk(before)
  {
    |d.durable| == |before.durable| && forall b: Block :: MayHold(d, 0, b) ==> MayHold(before, 0, b) || b == sb
  }

  /** The cache agrees with the first n blocks of the body. */
  ghost predicate BodyWritten(d: DiskState, body: Bytes, n: nat)
    requires ValidDisk(d)
  {
    && n <= Blocks(|body|) && 1 + n <= |d.durable|
    && View(d)[1..1 + n] == BodyBlocks(body)[..n]
  }

  /** What is read back from a block is one of the contents it may have. */
  lemma ViewMayHold(d: DiskState, lba: nat)
    requires ValidDisk(d) && lba < |d.durable|
    ensures MayHold(d, lba, View(d)[lba])
  {
    ApplyHolds(d.durable, d.pending, lba);
  }

  /** The body has been flushed and only the superblock may be on its way. */
  ghost predicate BodyFlushed(d: DiskState, body: Bytes)
    requires ValidDisk(d)
  {
    && 1 + Blocks(|body|) <= |d.durable|
    && d.durable[1..1 + Blocks(|body|)] == BodyBlocks(body)
    && forall w <- d.pending :: w.lba == 0
  }

  lemma FlushedIsSettled(d: DiskState, body: Bytes)
    requires ValidDisk(d) && BodyFlushed(d, body)
    ensures BodySettled(d, body)
  {
    forall lba, block | 1 <= lba <= Blocks(|body|) && MayHold(d, lba, block)
      ensures !Disagrees(block, lba - 1, body)
    {
      assert block == d.durable[1..1 + Blocks(|body|)][lba - 1];
      FlatBlocks(body);
      forall j | 0 <= j < 512 && 512 * (lba - 1) + j < |body|
        ensures block[j] == body[512 * (lba - 1) + j]
      {
        FlatAt(BodyBlocks(body), lba - 1, j);
      }
    }
  }

  /** A committed superblock over its body restores the fabric the body encodes. */
  lemma CommittedRestores(image: seq<Block>, s: Snapshot, body: Bytes, hash: Hash)
    requires |body| < 0x1_0000_0000_0000_0000 && 1 + Blocks(|body|) <= |image|
    requires image[0] == SuperblockOf(s, body, hash)
    requires image[1..1 + Blocks(|body|)] == BodyBlocks(body)
    ensures Restored(image, hash) == ParseSnapshot(body)
  {
    hide ParseSuperblock, BodyFrom, ParseSnapshot, SuperblockOf, BodyBlocks;
    SuperblockReads(s, body, hash);
    BodyReads(image, body);
  }

  /** Every fabric the codec can hold comes back from the disk a commit leaves. */
  lemma DiskRoundTrip(s: Snapshot, hash: Hash)
    requires Encodable(s) && |SnapshotBytes(s)| < 0x1_0000_0000_0000_0000
    ensures Restored([SuperblockOf(s, SnapshotBytes(s), hash)] + BodyBlocks(SnapshotBytes(s)), hash) == Ok(s)
  {
    hide Encodable, SnapshotBytes, SuperblockOf, BodyBlocks, Restored, ParseSnapshot;
    var body := SnapshotBytes(s);
    RoundTrip(s, []);
    assert body + [] == body;
    CommittedRestores([SuperblockOf(s, body, hash)] + BodyBlocks(body), s, body, hash);
  }

  /** The next body block goes behind those already written. */
  lemma WriteExtends(d: DiskState, body: Bytes, i: nat)
    requires ValidDisk(d) && BodyWritten(d, body, i) && i < Blocks(|body|) && 1 + i < |d.durable|
    ensures ValidDisk(DiskState(d.durable, d.pending + [Write(1 + i, BodyBlocks(body)[i])]))
    ensures BodyWritten(DiskState(d.durable, d.pending + [Write(1 + i, BodyBlocks(body)[i])]), body, i + 1)
  {
    hide BodyBlocks, Apply, View;
    var block := BodyBlocks(body)[i];
    var e := DiskState(d.durable, d.pending + [Write(1 + i, block)]);
    ViewWrite(d, Write(1 + i, block));
    var was, now, bs := View(d), View(e), BodyBlocks(body);
    assert now == was[1 + i := block];
    var ours, theirs := now[1..1 + i + 1], bs[..i + 1];
    forall k | 0 <= k < |ours|
      ensures ours[k] == theirs[k]
    {
      if k < i { assert was[1..1 + i][k] == bs[..i][k]; }
    }
    assert ours == theirs;
  }

  /** From here on the cache never held more than this many writes beyond those it held before. */
  ghost predicate CacheBounded(history: seq<DiskState>, start: nat, held: nat) {
    forall k :: start <= k < |history| ==> |history[k].pending| <= held + FLUSH_EVERY_BLOCKS
  }

  /**
   The body loop: one block at a time from LBA 1, with a flush every 32 blocks whose result is ignored. As long as the
   flushes work, no more than 32 writes are on their way at any moment.
   */
  method WriteBody(body: Bytes, disk: Disk) returns (ok: bool)
    requires disk.Valid()
    modifies disk
    ensures disk.Valid() && |disk.durable| == |old(disk.durable)| && old(disk.history) <= disk.history
    ensures forall k :: |old(disk.history)| <= k < |disk.history| ==>
              SuperblockUntouched(disk.history[k], old(disk.State()))
    ensures SuperblockUntouched(disk.State(), old(disk.State()))
    ensures ok ==> BodyWritten(disk.State(), body, Blocks(|body|))
    ensures disk.failedFlushes >= old(disk.failedFlushes)
    ensures disk.failedFlushes == old(disk.failedFlushes) ==>
              && CacheBounded(disk.history, |old(disk.history)|, |old(disk.pending)|)
              && |disk.pending| <= |old(disk.pending)| + FLUSH_EVERY_BLOCKS
  {
    hide BodyBlocks, Apply;
    ghost var before, start := disk.State(), |disk.history|;
    var lba, i := SNAPSHOT_LBA, 0;
    while 512 * i < |body|
      invariant disk.Valid() && |disk.durable| == |before.durable| && old(disk.history) <= disk.history
      invariant forall k :: start <= k < |disk.history| ==> SuperblockUntouched(disk.history[k], before)
      invariant SuperblockUntouched(disk.State(), before)
      invariant lba == 1 + i && BodyWritten(disk.State(), body, i)
      invariant disk.failedFlushes >= old(disk.failedFlushes)
      invariant disk.failedFlushes == old(disk.failedFlushes) ==>
                  && CacheBounded(disk.history, start, |before.pending|)
                  && |disk.pending| <= |before.pending| + i % FLUSH_EVERY_BLOCKS
      decreases |body| - 512 * i
    {
      var end := if |body| < 512 * i + 512 then |body| else 512 * i + 512;
      var block := Pad(body[512 * i..end]);
      BodyBlockAt(body, i);
      ghost var d := disk.State();
      ok := disk.WriteBlock(lba, block);
      if !ok {
        return;
      }
      WriteExtends(d, body, i);
      lba, i := lba + 1, i + 1;
      if i % FLUSH_EVERY_BLOCKS == 0 {
        ViewMayHold(disk.State(), 0);
        var _ := disk.Flush();
      }
    }
    ok := true;
  }

  /**
   The commit: body, flush, superblock, flush, read back, on a disk in whatever state earlier commits and
   the storage agent left it. `mark` is where in the history the superblock write may have begun; `flushed`
   is whether the flush before it succeeded, which the kernel does not look at. The contract speaks about a
   crash at every point, including the early exits on a failed write. If no flush failed, no more than 32 writes
   were ever on their way, and after a commit that succeeded every crash restores the fabric.
   */
  method Persist(s: Snapshot, disk: Disk, hash: Hash)
      returns (r: Result<nat>, ghost mark: nat, ghost flushed: bool)
    requires disk.Valid()
    requires |SnapshotBytes(s)| < 0x1_0000_0000_0000_0000
    modifies disk
    ensures disk.Valid() && |disk.durable| == |old(disk.durable)| && old(disk.history) <= disk.history
    ensures |old(disk.history)| <= mark <= |disk.history|
    ensures r == Ok(|SnapshotBytes(s)|) || r == Err(Io)
    ensures r.Ok? ==> Restored(View(disk.State()), hash) == ParseSnapshot(SnapshotBytes(s))
    ensures forall k :: |old(disk.history)| <= k < mark ==>
              SuperblockUntouched(disk.history[k], old(disk.State()))
    ensures forall k :: |old(disk.history)| <= k < |disk.history| ==>
              SuperblockOrNew(disk.history[k], old(disk.State()), SuperblockOf(s, SnapshotBytes(s), hash))
    ensures SuperblockOrNew(disk.State(), old(disk.State()), SuperblockOf(s, SnapshotBytes(s), hash))
    ensures (forall w <- old(disk.pending) :: w.lba != 0)
            && Committed(old(disk.durable), hash) && CollisionFree(hash, SnapshotBytes(s)) ==>
              forall k :: |old(disk.history)| <= k < |disk.history| ==>
                CrashSafe(disk.history[k], old(disk.durable), SnapshotBytes(s), hash)
    ensures flushed ==> forall k :: mark <= k < |disk.history| ==>
              CommitDurable(disk.history[k], SuperblockOf(s, SnapshotBytes(s), hash), SnapshotBytes(s), hash)
    ensures disk.failedFlushes >= old(disk.failedFlushes)
    ensures disk.failedFlushes == old(disk.failedFlushes) ==>
              CacheBounded(disk.history, |old(disk.history)|, |old(disk.pending)|)
    ensures r.Ok? && disk.failedFlushes == old(disk.failedFlushes) ==>
              && flushed && disk.pending == []
              && forall image :: CrashImage(disk.State(), image) ==>
                   Restored(image, hash) == ParseSnapshot(SnapshotBytes(s))
  {
    hide SnapshotBytes, ParseSnapshot, SuperblockOf, BodyBlocks, Apply, View, Restored, CrashSafe, CommitDurable,
      MayHold, BodyWritten, BodyFlushed, CrashImage;
    ghost var before, start := disk.State(), |disk.history|;
    var body := EncodeFabric(s);
    ghost var sb := SuperblockOf(s, body, hash);
    var ok := WriteBody(body, disk);
    flushed, mark := false, |disk.history|;
    AllSafe(disk.history, start, before, s, body, hash);
    if !ok {
      return Err(Io), mark, flushed;
    }
    flushed := FlushBody(body, disk, before);
    mark := |disk.history|;
    var superblock := BuildSuperblock(s, |body|, hash(body));
    SuperblockIs(s, body, hash);
    ghost var d := disk.State();
    ok := WriteSuperblock(superblock, disk, before, body, flushed);
    AllSafe(disk.history, start, before, s, body, hash);
    AllDurable(disk.history, mark, s, body, hash, flushed);
    if !ok {
      return Err(Io), mark, flushed;
    }
    WrittenRestores(d, disk.State(), s, body, hash);
    if disk.pending == [] { NothingToLose(disk.State()); }
    r := Ok(|body|);
  }

  method FlushBody(body: Bytes, disk: Disk, ghost before: DiskState) returns (ok: bool)
    requires disk.Valid() && ValidDisk(before) && SuperblockUntouched(disk.State(), before)
    requires BodyWritten(disk.State(), body, Blocks(|body|))
    modifies disk
    ensures disk.Valid() && |disk.durable| == |old(disk.durable)|
    ensures disk.history == old(disk.history) + [disk.State()]
    ensures SuperblockUntouched(disk.State(), before)
    ensures BodyWritten(disk.State(), body, Blocks(|body|))
    ensures ok ==> BodyFlushed(disk.State(), body) && disk.pending == []
    ensures !ok ==> disk.pending == old(disk.pending)
    ensures disk.failedFlushes == old(disk.failedFlushes) + if ok then 0 else 1
  {
    hide BodyBlocks, Apply;
    ViewMayHold(disk.State(), 0);
    ok := disk.Flush();
    assert BodyBlocks(body)[..Blocks(|body|)] == BodyBlocks(body);
  }

  method WriteSuperblock(block: Block, disk: Disk, ghost before: DiskState, ghost body: Bytes, ghost flushed: bool)
      returns (ok: bool)
    requires disk.Valid() && ValidDisk(before) && SuperblockUntouched(disk.State(), before)
    requires flushed ==> BodyFlushed(disk.State(), body)
    modifies disk
    ensures disk.Valid() && |disk.durable| == |old(disk.durable)| && old(disk.history) <= disk.history
    ensures forall k :: |old(disk.history)| <= k < |disk.history| ==>
              && SuperblockOrNew(disk.history[k], before, block)
              && (flushed ==> BodyFlushed(disk.history[k], body))
    ensures SuperblockOrNew(disk.State(), before, block)
    ensures ok ==> View(disk.State()) == View(old(disk.State()))[0 := block]
    ensures disk.failedFlushes >= old(disk.failedFlushes)
    ensures forall k :: |old(disk.history)| <= k < |disk.history| ==>
              |disk.history[k].pending| <= |old(disk.pending)| + 1
    ensures ok && disk.failedFlushes == old(disk.failedFlushes) ==> disk.pending == []
  {
    hide BodyBlocks, Apply, View;
    ghost var d := disk.State();
    ok := disk.WriteBlock(SUPERBLOCK_LBA, block);
    if !ok {
      return;
    }
    ViewWrite(d, Write(0, block));
    ghost var d' := disk.State();
    if flushed {
      ApplyBody(d', body);
    }
    ViewMayHold(d', 0);
    var _ := disk.Flush();
    var _, _ := disk.ReadBlock(SUPERBLOCK_LBA, Pad([]));
  }

  /** With an empty cache a crash leaves what reads return. */
  lemma NothingToLose(d: DiskState)
    requires ValidDisk(d) && d.pending == []
    ensures forall image :: CrashImage(d, image) ==> image == View(d)
  {
  }

  lemma WrittenRestores(d: DiskState, d': DiskState, s: Snapshot, body: Bytes, hash: Hash)
    requires ValidDisk(d) && ValidDisk(d') && |body| < 0x1_0000_0000_0000_0000
    requires BodyWritten(d, body, Blocks(|body|))
    requires View(d') == View(d)[0 := SuperblockOf(s, body, hash)]
    ensures Restored(View(d'), hash) == ParseSnapshot(body)
  {
    hide BodyBlocks, SuperblockOf, View, Restored, ParseSnapshot;
    assert View(d')[1..1 + Blocks(|body|)] == View(d)[1..1 + Blocks(|body|)];
    assert BodyBlocks(body)[..Blocks(|body|)] == BodyBlocks(body);
    CommittedRestores(View(d'), s, body, hash);
  }

  lemma SuperblockIs(s: Snapshot, body: Bytes, hash: Hash)
    ensures Pad(SuperblockFields(s, |body|, hash(body))) == SuperblockOf(s, body, hash)
  {
  }

  /** Flushing cached superblock writes leaves the body blocks alone. */
  lemma ApplyBody(d: DiskState, body: Bytes)
    requires ValidDisk(d) && BodyFlushed(d, body)
    ensures View(d)[1..1 + Blocks(|body|)] == BodyBlocks(body)
  {
    hide Apply, BodyBlocks, Blocks;
    ViewElsewhere(d, 1, 1 + Blocks(|body|));
  }

  lemma ViewElsewhere(d: DiskState, from: nat, to: nat)
    requires ValidDisk(d) && 1 <= from <= to <= |d.durable| && forall w <- d.pending :: w.lba == 0
    ensures View(d)[from..to] == d.durable[from..to]
  {
    forall lba | from <= lba < to
      ensures View(d)[lba] == d.durable[lba]
    {
      ApplyElsewhere(d.durable, d.pending, lba);
    }
  }

  /** With no cached write to block 0 the old superblock is the only one, and old and new do not mix. */
  lemma AllSafe(history: seq<DiskState>, start: nat, before: DiskState, s: Snapshot, body: Bytes, hash: Hash)
    requires ValidDisk(before) && |body| < 0x1_0000_0000_0000_0000
    requires forall d <- history :: ValidDisk(d)
    requires forall k :: start <= k < |history| ==> SuperblockOrNew(history[k], before, SuperblockOf(s, body, hash))
    ensures (forall w <- before.pending :: w.lba != 0)
            && Committed(before.durable, hash) && CollisionFree(hash, body) ==>
              forall k :: start <= k < |history| ==> CrashSafe(history[k], before.durable, body, hash)
  {
    if (forall w <- before.pending :: w.lba != 0) && Committed(before.durable, hash) && CollisionFree(hash, body) {
      hide Committed, CollisionFree, CrashSafe, SuperblockOf;
      forall k | start <= k < |history|
        ensures CrashSafe(history[k], before.durable, body, hash)
      {
        NeverAMix(history[k], before.durable, s, body, hash);
      }
    }
  }

  /** A flushed body makes the commit durable, with no assumption on the hash. */
  lemma AllDurable(history: seq<DiskState>, mark: nat, s: Snapshot, body: Bytes, hash: Hash, flushed: bool)
    requires |body| < 0x1_0000_0000_0000_0000
    requires forall d <- history :: ValidDisk(d)
    requires flushed ==> forall k :: mark <= k < |history| ==> BodyFlushed(history[k], body)
    ensures flushed ==> forall k :: mark <= k < |history| ==>
              CommitDurable(history[k], SuperblockOf(s, body, hash), body, hash)
  {
    hide BodyFlushed, CommitDurable, SuperblockOf;
    if flushed {
      forall k | mark <= k < |history|
        ensures CommitDurable(history[k], SuperblockOf(s, body, hash), body, hash)
      {
        FlushedIsSettled(history[k], body);
        FlushedFits(history[k], body);
        SettledIsDurable(history[k], s, body, hash);
      }
    }
  }

  lemma FlushedFits(d: DiskState, body: Bytes)
    requires ValidDisk(d) && BodyFlushed(d, body)
    ensures 1 + Blocks(|body|) <= |d.durable|
  {
  }

  /** The superblock as the kernel assembles it: fields, digest, then zeros up to the block size. */
  method BuildSuperblock(s: Snapshot, bodyLen: nat, checksum: Bytes32) returns (block: Block)
    ensures block == Pad(SuperblockFields(s, bodyLen, checksum))
  {
    hide Le;
    var sb := new Writer();
    sb.PutInt(MAGIC, 8);
    sb.PutInt(VERSION, 4);
    sb.PutInt(s.lamport, 8);
    sb.PutInt(|s.nodes|, 4);
    sb.PutInt(|s.edges|, 4);
    sb.PutInt(bodyLen, 8);
    sb.PutRaw(checksum);
    assert sb.out == SuperblockFields(s, bodyLen, checksum);
    block := Pad(sb.out);
  }

  /** Restore: superblock first, then as many blocks as it names, into one buffer. */
  method Restore(disk: Disk, hash: Hash) returns (r: Result<Snapshot>)
    requires disk.Valid()
    ensures r == Err(Io) || r == Restored(View(disk.State()), hash)
  {
    hide ParseSuperblock, ParseSnapshot, Apply;
    ghost var image := View(disk.State());
    var ok, buf := disk.ReadBlock(SUPERBLOCK_LBA, Pad([]));
    if !ok {
      return Err(Io);
    }
    var sb :- ParseSuperblock(buf);
    var n := Blocks(sb.bodyLen);
    var body: Bytes := [];
    for i := 0 to n
      invariant 1 + i <= |image| && body == Flat(image[1..1 + i])
    {
      ok, buf := disk.ReadBlock(SNAPSHOT_LBA + i, Pad([]));
      if !ok {
        return Err(Io);
      }
      FlatAppend(image[1..1 + i], buf);
      assert image[1..1 + i + 1] == image[1..1 + i] + [buf];
      body := body + buf;
    }
    body := body[..sb.bodyLen];
    if hash(body) != sb.checksum {
      return Err(BadChecksum);
    }
    r := DecodeSnapshot(body);
  }

  lemma {:induction false} FlatAppend(bs: seq<Block>, b: Block)
    ensures Flat(bs + [b]) == Flat(bs) + b
  {
    if bs == [] {
      assert [b][1..] == [];
    } else {
      assert (bs + [b])[1..] == bs[1..] + [b];
      FlatAppend(bs[1..], b);
    }
  }
}
