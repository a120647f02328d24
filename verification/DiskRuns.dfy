/**
 The snapshot disk over its whole life: commits that succeed, fail or are cut short, the storage agent in
 between, and power losses after which everything goes on from what the crash left.
 */
module DiskRuns {
  import opened Bytes
  import opened Codec
  import opened SnapshotStore
  import opened KernelDisk
  import opened StorageAgent

  /** `Lose` says which cached writes survive; if it does not fit the cache, all are lost. */
  datatype Command = Commit(s: Snapshot) | Act(action: nat) | Lose(keep: seq<bool>)

  /** The bodies of the fabrics committed. */
  function Bodies(commands: seq<Command>): set<Bytes> {
    set c | c in commands && c.Commit? :: SnapshotBytes(c.s)
  }

  /** What block 0 may hold afterwards, it could hold before, or it names the new body. */
  lemma CommitNames(d: DiskState, e: DiskState, s: Snapshot, bodies: set<Bytes>, hash: Hash)
    requires ValidDisk(d) && ValidDisk(e) && HeadsName(d, bodies, hash)
    requires |SnapshotBytes(s)| < 0x1_0000_0000_0000_0000
    requires SuperblockOrNew(e, d, SuperblockOf(s, SnapshotBytes(s), hash))
    ensures HeadsName(e, bodies + {SnapshotBytes(s)}, hash)
  {
    hide ParseSuperblock, SuperblockOf, MayHold, SnapshotBytes;
    var body := SnapshotBytes(s);
    SuperblockReads(s, body, hash);
    forall b: Block | MayHold(e, 0, b) && ParseSuperblock(b).Ok?
      ensures NamesOne(ParseSuperblock(b).value.checksum, bodies + {body}, hash)
    {
      if MayHold(d, 0, b) {
        var was :| was in bodies && ParseSuperblock(b).value.checksum == hash(was);
        assert was in bodies + {body};
      } else {
        assert body in bodies + {body};
      }
    }
  }

  lemma AgentNames(d: DiskState, e: DiskState, bodies: set<Bytes>, hash: Hash)
    requires ValidDisk(d) && ValidDisk(e) && HeadsName(d, bodies, hash) && ProbeWritesOnly(d, e)
    ensures HeadsName(e, bodies, hash)
  {
    hide ParseSuperblock, MayHold, ProbeWritesOnly;
    forall b: Block ensures MayHold(d, 0, b) <==> MayHold(e, 0, b) {
      BelowTheProbe(d, e, 0, b);
    }
  }

  lemma CrashNames(d: DiskState, image: seq<Block>, bodies: set<Bytes>, hash: Hash)
    requires ValidDisk(d) && HeadsName(d, bodies, hash) && CrashImage(d, image)
    ensures |image| == |d.durable| && HeadsName(DiskState(image, []), bodies, hash)
  {
    hide ParseSuperblock, Apply, Kept, CrashImage;
    CrashHolds(d, image, 0);
  }

  lemma NamesMore(d: DiskState, bodies: set<Bytes>, more: set<Bytes>, hash: Hash)
    requires ValidDisk(d) && HeadsName(d, bodies, hash) && bodies <= more
    ensures HeadsName(d, more, hash)
  {
    hide ParseSuperblock, MayHold;
    forall b: Block | MayHold(d, 0, b) && ParseSuperblock(b).Ok?
      ensures NamesOne(ParseSuperblock(b).value.checksum, more, hash)
    {
      var body :| body in bodies && ParseSuperblock(b).value.checksum == hash(body);
      assert body in more;
    }
  }

  /** Any sequence of commits, agent actions and power losses: block 0 only ever names committed bodies. */
  method RunDisk(disk: Disk, agent: Agent, commands: seq<Command>, ghost before: set<Bytes>, hash: Hash)
    requires disk.Valid() && agent.Valid() && HeadsName(disk.State(), before, hash)
    requires forall c <- commands :: c.Commit? ==> |SnapshotBytes(c.s)| < 0x1_0000_0000_0000_0000
    modifies disk, agent
    ensures disk.Valid() && agent.Valid() && old(disk.history) <= disk.history
    ensures HeadsName(disk.State(), before + Bodies(commands), hash)
    ensures forall k :: |old(disk.history)| <= k < |disk.history| ==>
              HeadsName(disk.history[k], before + Bodies(commands), hash)
  {
    ghost var start := |disk.history|;
    ghost var all := before + Bodies(commands);
    hide HeadsName, SnapshotBytes, SuperblockOf, Apply, View, ProbeWritesOnly, CommitDurable, Restored, Bodies,
      SuperblockOrNew, SuperblockUntouched, CrashSafe, Committed, CollisionFree, CrashImage, SameImages;
    NamesMore(disk.State(), before, all, hash);
    for i := 0 to |commands|
      invariant disk.Valid() && agent.Valid() && old(disk.history) <= disk.history
      invariant HeadsName(disk.State(), all, hash)
      invariant forall k :: start <= k < |disk.history| ==> HeadsName(disk.history[k], all, hash)
    {
      ghost var d, history := disk.State(), disk.history;
      match commands[i]
      case Commit(s) =>
        var _, _, _ := Persist(s, disk, hash);
        BodyListed(commands, i);
        assert all + {SnapshotBytes(s)} == all;
        CommitNames(d, disk.State(), s, all, hash);
        forall k | |history| <= k < |disk.history| ensures HeadsName(disk.history[k], all, hash) {
          CommitNames(d, disk.history[k], s, all, hash);
        }
      case Act(action) =>
        var _, _ := agent.ExecuteAction(disk, action);
        AgentNames(d, disk.State(), all, hash);
      case Lose(keep) =>
        disk.PowerCycle(if |keep| == |disk.pending| then keep else seq(|disk.pending|, _ => false));
        CrashNames(d, disk.durable, all, hash);
      assert forall k :: start <= k < |history| ==> disk.history[k] == history[k];
    }
  }

  lemma BodyListed(commands: seq<Command>, i: nat)
    requires i < |commands| && commands[i].Commit?
    ensures SnapshotBytes(commands[i].s) in Bodies(commands)
  {
    hide SnapshotBytes;
  }

  /** Losing power without losing a write: what reads return is one of the things a crash can leave. */
  lemma ViewIsCrashImage(d: DiskState)
    requires ValidDisk(d)
    ensures CrashImage(d, View(d))
  {
    hide Apply, Kept, View, CrashImage;
    forall lba | 0 <= lba < |View(d)| ensures MayHold(d, lba, View(d)[lba]) {
      ViewMayHold(d, lba);
    }
    CrashIff(d, View(d));
  }

  /**
   What the encoding of the fabric decodes to; for a fabric within the length limits that is the fabric, and
   for no other is it.
   */
  ghost predicate ComesBackAs(s: Snapshot, r: Result<Snapshot>) {
    r == ParseSnapshot(SnapshotBytes(s)) && (r == Ok(s) <==> Encodable(s))
  }

  lemma DecodedComesBack(s: Snapshot)
    ensures ComesBackAs(s, ParseSnapshot(SnapshotBytes(s)))
  {
    hide ParseSnapshot, SnapshotBytes, Encodable;
    RoundTrip(s, []);
    assert SnapshotBytes(s) + [] == SnapshotBytes(s);
  }

  /** An error, or what exactly one of the fabrics committed comes back as. */
  ghost predicate OneOfThem(r: Result<Snapshot>, commands: seq<Command>) {
    r.Err? || exists s :: Commit(s) in commands && ComesBackAs(s, r)
  }

  lemma RestoresCommitted(d: DiskState, image: seq<Block>, commands: seq<Command>, hash: Hash)
    requires ValidDisk(d) && HeadsName(d, Bodies(commands), hash) && CrashImage(d, image)
    requires forall c <- commands :: c.Commit? ==> CollisionFree(hash, SnapshotBytes(c.s))
    ensures OneOfThem(Restored(image, hash), commands)
  {
    hide HeadsName, SnapshotBytes, CollisionFree, Encodable, CrashImage, Restored, ParseSnapshot;
    NeverAMixOfMany(d, Bodies(commands), hash, image);
    var r := Restored(image, hash);
    if r.Ok? {
      var body :| body in Bodies(commands) && r == ParseSnapshot(body);
      var c :| c in commands && c.Commit? && body == SnapshotBytes(c.s);
      DecodedComesBack(c.s);
      assert c == Commit(c.s);
    }
  }

  /**
   Crash safety of a whole life. A disk that starts blank and goes through any sequence of commits, finished
   or not, flushed or not, of agent actions, with or without failed reads, and of power losses: whenever the
   power is lost, and whatever part of the cache survives, restore returns an error or what exactly one of the
   fabrics that were committed comes back as: the fabric itself if its lengths fit.
   */
  method LifeOfADisk(blank: seq<Block>, commands: seq<Command>, hash: Hash) returns (disk: Disk, r: Result<Snapshot>)
    requires 0 < |blank| < 0x1_0000_0000 && ParseSuperblock(blank[0]).Err?
    requires forall c <- commands :: c.Commit? ==>
               CollisionFree(hash, SnapshotBytes(c.s)) && |SnapshotBytes(c.s)| < 0x1_0000_0000_0000_0000
    ensures disk.Valid()
    ensures forall k, image :: 0 <= k < |disk.history| && CrashImage(disk.history[k], image) ==>
              OneOfThem(Restored(image, hash), commands)
    ensures OneOfThem(r, commands)
  {
    hide SnapshotBytes, CollisionFree, Encodable, CrashImage, Restored, View, OneOfThem, ParseSuperblock;
    disk := new Disk(blank);
    var agent := new Agent();
    assert HeadsName(disk.State(), {}, hash);
    hide HeadsName;
    RunDisk(disk, agent, commands, {}, hash);
    assert {} + Bodies(commands) == Bodies(commands);
    forall k, image | 0 <= k < |disk.history| && CrashImage(disk.history[k], image)
      ensures OneOfThem(Restored(image, hash), commands)
    {
      RestoresCommitted(disk.history[k], image, commands, hash);
    }
    r := Restore(disk, hash);
    ViewIsCrashImage(disk.State());
    RestoresCommitted(disk.State(), View(disk.State()), commands, hash);
    assert OneOfThem(Err(Io), commands) by { ErrorIsAllowed(commands); }
  }

  lemma ErrorIsAllowed(commands: seq<Command>)
    ensures OneOfThem(Err(Io), commands)
  {
  }

  /**
   A commit that succeeded survives the agent: as long as its reads succeed, restore returns what the fabric
   comes back as or fails to read.
   */
  method CommitThenAgent(s: Snapshot, disk: Disk, agent: Agent, actions: seq<nat>, hash: Hash)
      returns (committed: Result<nat>, ghost intact: bool, r: Result<Snapshot>)
    requires disk.Valid() && agent.Valid() && |SnapshotBytes(s)| < 0x1_0000_0000_0000_0000
    modifies disk, agent
    ensures committed.Ok? && intact ==> ComesBackAs(s, r) || r == Err(Io)
  {
    hide SnapshotBytes, Encodable, Restored, View, ParseSnapshot, SuperblockOrNew, SuperblockUntouched, SuperblockOf,
      CrashSafe, CommitDurable, Committed, CollisionFree, ProbeWritesOnly, SameImages;
    var done, _, _ := Persist(s, disk, hash);
    committed := done;
    DecodedComesBack(s);
    ghost var d := disk.State();
    intact := RunAgent(agent, disk, actions);
    if intact {
      SameImagesRestoreAlike(d, disk.State(), hash);
    }
    r := Restore(disk, hash);
  }
}
