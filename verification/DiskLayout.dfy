/**
 The snapshot format byte by byte: where each field stands, with which constants, and what restore answers to any
 blocks whatever.
 */
module DiskLayout {
  import opened Bytes
  import opened Codec
  import opened SnapshotStore

  // ----- integers -----

  /** The number bytes stand for, the first one counting least. */
  lemma LittleEndian(s: Bytes)
    ensures |s| == 1 ==> FromLe(s) == s[0] as nat
    ensures |s| == 2 ==> FromLe(s) == s[0] as nat + 0x100 * s[1] as nat
    ensures |s| == 4 ==>
              FromLe(s) == s[0] as nat + 0x100 * s[1] as nat + 0x1_0000 * s[2] as nat + 0x100_0000 * s[3] as nat
  {
    if |s| > 0 { Peel(s); }
    if |s| > 1 { Peel(s[1..]); }
    if |s| == 4 {
      Peel(s[2..]);
      Peel(s[3..]);
      assert s[1..][1..] == s[2..] && s[2..][1..] == s[3..] && s[3..][1..] == [];
    } else if |s| == 2 {
      assert s[1..][1..] == [];
    }
  }

  lemma Peel(s: Bytes)
    requires s != []
    ensures FromLe(s) == s[0] as nat + 256 * FromLe(s[1..])
  {
  }

  /** An eight-byte number, from its halves. */
  lemma LittleEndianEight(s: Bytes)
    requires |s| == 8
    ensures FromLe(s) == FromLe(s[..4]) + 0x1_0000_0000 * FromLe(s[4..])
  {
    Peel(s);
    Peel(s[1..]);
    Peel(s[2..]);
    Peel(s[3..]);
    Peel(s[..4]);
    Peel(s[1..4]);
    Peel(s[2..4]);
    Peel(s[3..4]);
    assert s[1..][1..] == s[2..] && s[2..][1..] == s[3..] && s[3..][1..] == s[4..];
    assert s[..4][1..] == s[1..4] && s[1..4][1..] == s[2..4] && s[2..4][1..] == s[3..4] && s[3..4][1..] == [];
  }

  // ----- what restore answers -----

  const MAGIC_BYTES: Bytes := [0xDA, 0xEE, 0x9D, 0xC0, 0xAB, 0x0F, 0xEC, 0x00]
  const VERSION_BYTES: Bytes := [0x01, 0x00, 0x00, 0x00]

  lemma MagicValue()
    ensures FromLe(MAGIC_BYTES) == MAGIC && Le(MAGIC, 8) == MAGIC_BYTES
  {
    LittleEndianEight(MAGIC_BYTES);
    LittleEndian(MAGIC_BYTES[..4]);
    LittleEndian(MAGIC_BYTES[4..]);
    LeOfFromLe(MAGIC_BYTES);
    hide Le, FromLe;
  }

  lemma MagicIs(s: Bytes)
    requires |s| == 8
    ensures FromLe(s) == MAGIC <==> s == MAGIC_BYTES
  {
    MagicValue();
    LeOfFromLe(s);
    hide Le, FromLe;
  }

  lemma LeStep(v: nat, n: nat)
    requires n > 0
    ensures Le(v, n) == [(v % 256) as byte] + Le(v / 256, n - 1)
  {
  }

  lemma VersionIs(s: Bytes)
    requires |s| == 4
    ensures FromLe(s) == VERSION <==> s == VERSION_BYTES
  {
    LittleEndian(s);
    LittleEndian(VERSION_BYTES);
    LeOfFromLe(s);
    LeOfFromLe(VERSION_BYTES);
  }

  /** What block 0 says: the error, or the length and the digest it names. */
  lemma SuperblockIs(b: Block)
    ensures ParseSuperblock(b)
         == if b[0..8] != MAGIC_BYTES then Err(BadMagic)
            else if b[8..12] != VERSION_BYTES then Err(BadVersion)
            else Ok(Superblock(LengthIn(b), b[36..68]))
  {
    MagicIs(b[0..8]);
    VersionIs(b[8..12]);
    hide FromLe;
  }

  /** The length of the body, in bytes 28 to 35. */
  function LengthIn(b: Block): (n: U64)
  {
    Widths();
    FromLe(b[28..36])
  }

  /** The body of that length, byte by byte. */
  predicate IsBody(image: seq<Block>, body: Bytes)
    requires 1 + Blocks(|body|) <= |image|
  {
    forall k :: 0 <= k < |body| ==> body[k] == image[1 + k / 512][k % 512]
  }

  /**
   What restore answers to any blocks. BadMagic for another mark in the first eight bytes; BadVersion for anything but
   version 1 behind it; an I/O error for a body longer than the disk; BadChecksum for a body with another digest than
   the one in bytes 36 to 67; and else what the body decodes to.
   */
  lemma RestoredAnswers(image: seq<Block>, hash: Hash)
    requires image != []
    ensures var b := image[0];
            && (b[0..8] != MAGIC_BYTES ==> Restored(image, hash) == Err(BadMagic))
            && (b[0..8] == MAGIC_BYTES && b[8..12] != VERSION_BYTES ==> Restored(image, hash) == Err(BadVersion))
            && (b[0..8] == MAGIC_BYTES && b[8..12] == VERSION_BYTES ==>
                  var n := LengthIn(b);
                  if 1 + Blocks(n) > |image| then Restored(image, hash) == Err(Io)
                  else
                    forall body: Bytes :: |body| == n && IsBody(image, body) ==>
                      Restored(image, hash)
                        == if hash(body) != b[36..68] then Err(BadChecksum) else ParseSnapshot(body))
  {
    SuperblockIs(image[0]);
    hide ParseSuperblock, ParseSnapshot, LengthIn;
    var b := image[0];
    if b[0..8] == MAGIC_BYTES && b[8..12] == VERSION_BYTES && 1 + Blocks(LengthIn(b)) <= |image| {
      BodyIs(image, LengthIn(b));
      forall body: Bytes | |body| == LengthIn(b) && IsBody(image, body)
        ensures body == BodyFrom(image, LengthIn(b))
      {
      }
    }
  }

  lemma BodyIs(image: seq<Block>, n: nat)
    requires 1 + Blocks(n) <= |image|
    ensures IsBody(image, BodyFrom(image, n))
  {
    var bs := image[1..1 + Blocks(n)];
    forall k | 0 <= k < n
      ensures BodyFrom(image, n)[k] == image[1 + k / 512][k % 512]
    {
      FlatAt(bs, k / 512, k % 512);
      assert 512 * (k / 512) + k % 512 == k;
    }
  }

  // ----- where a node's fields stand -----

  /** The number the source gives each kind of content. */
  lemma TagsAre(k: NodeKind)
    ensures Tag(k) == (match k
                       case Genesis(_, _) => 0 case HwCpu(_, _) => 1 case HwCpuFeature(_) => 2
                       case HwMemoryRegion(_, _, _) => 3 case HwPciDevice(_, _, _, _, _, _, _, _) => 4
                       case HwAcpiTable(_, _, _) => 5 case HwFramebuffer(_, _, _, _) => 6
                       case HwStorage(_, _, _) => 7 case OperatorIntent(_, _) => 8
                       case FabricResponse(_, _) => 9 case SystemEvent(_, _) => 10
                       case LearnedDriver(_, _, _, _) => 11)
  {
  }

  /** Behind the header: identity, time, weight, tag, content. */
  lemma NodeLayout(n: Node)
    ensures var b := NodeBytes(n);
            && |b| == 45 + |KindBytes(n.kind)| && b[0..32] == n.id && FromLe(b[32..40]) == n.createdAt
            && b[40..44] == n.weight && b[44] as nat == Tag(n.kind) && b[45..] == KindBytes(n.kind)
  {
    Widths();
    FromLeOfLe(n.createdAt, 8);
    assert Le(Tag(n.kind), 1) == [Tag(n.kind) as byte] by { LeStep(Tag(n.kind), 1); }
    var b := NodeBytes(n);
    var time, tag, kind := Le(n.createdAt, 8), Le(Tag(n.kind), 1), KindBytes(n.kind);
    assert At(b, 0, n.id + (time + (n.weight + (tag + kind))));
    hide *;
    AtConcat(b, 0, n.id, time + (n.weight + (tag + kind)));
    AtConcat(b, 32, time, n.weight + (tag + kind));
    AtConcat(b, 40, n.weight, tag + kind);
    AtConcat(b, 44, tag, kind);
    AtEnds(b, n.id + (time + (n.weight + (tag + kind))), 45, kind);
    AtIs(b, 0, n.id);
    AtIs(b, 32, time);
    AtIs(b, 40, n.weight);
    AtIs(b, 44, tag);
  }

  lemma AtIs(b: Bytes, off: nat, x: Bytes)
    requires At(b, off, x)
    ensures off + |x| <= |b| && b[off..off + |x|] == x && (|x| > 0 ==> b[off] == x[0])
  {
    if |x| > 0 { assert b[off..off + |x|][0] == b[off]; }
  }

  /** What stands last reaches to the end. */
  lemma AtEnds(b: Bytes, all: Bytes, off: nat, x: Bytes)
    requires |b| == |all| == off + |x| && At(b, off, x)
    ensures b[off..] == x
  {
  }

  /** The header: how many nodes, how many edges, and the clock. */
  lemma HeaderLayout(s: Snapshot)
    requires |s.nodes| < 0x1_0000_0000 && |s.edges| < 0x1_0000_0000
    ensures var b := SnapshotBytes(s);
            && |b| >= 16 && FromLe(b[0..4]) == |s.nodes| && FromLe(b[4..8]) == |s.edges|
            && FromLe(b[8..16]) == s.lamport && b[16..] == NodesBytes(s.nodes) + EdgesBytes(s.edges)
  {
    Widths();
    FromLeOfLe(|s.nodes|, 4);
    FromLeOfLe(|s.edges|, 4);
    FromLeOfLe(s.lamport, 8);
    var b, h := SnapshotBytes(s), HeaderBytes(s);
    var x, y, z := Le(|s.nodes|, 4), Le(|s.edges|, 4), Le(s.lamport, 8);
    var body := NodesBytes(s.nodes) + EdgesBytes(s.edges);
    assert h == x + (y + z) && b == h + body && At(b, 0, h + body);
    hide *;
    AtConcat(b, 0, h, body);
    AtConcat(b, 0, x, y + z);
    AtConcat(b, 4, y, z);
    AtEnds(b, h + body, 16, body);
    AtIs(b, 0, x);
    AtIs(b, 4, y);
    AtIs(b, 8, z);
  }

  /** An edge: source, target, and 0 to 3 for contains, on bus, describes and causes. */
  lemma EdgeLayout(e: Edge)
    ensures var b := EdgeBytes(e);
            && b[0..32] == e.source && b[32..64] == e.target
            && b[64] as nat == (match e.kind case Contains => 0 case OnBus => 1 case Describes => 2 case Causes => 3)
  {
    LeStep(EdgeTag(e.kind), 1);
    var b := EdgeBytes(e);
    assert b[64] == Le(EdgeTag(e.kind), 1)[0];
  }

  /** A string: two bytes of length, then its bytes. */
  lemma StringLayout(s: Bytes)
    requires |s| < 0x1_0000
    ensures FromLe(StrBytes(s)[0..2]) == |s| && StrBytes(s)[2..] == s
  {
    Widths();
    FromLeOfLe(|s|, 2);
    assert StrBytes(s)[0..2] == Le(|s|, 2);
  }

  /** Seven fields behind one another, and what is left of the block. */
  lemma SevenFields(u: Bytes, v: Bytes, w: Bytes, x: Bytes, y: Bytes, z: Bytes, sum: Bytes, zeros: Bytes)
    requires |u| == 8 && |v| == 4 && |w| == 8 && |x| == 4 && |y| == 4 && |z| == 8 && |sum| == 32
    ensures var b := u + (v + (w + (x + (y + (z + sum))))) + zeros;
            && |b| == 68 + |zeros| && b[0..8] == u && b[8..12] == v && b[12..20] == w && b[20..24] == x
            && b[24..28] == y && b[28..36] == z && b[36..68] == sum && b[68..] == zeros
  {
    var f := u + (v + (w + (x + (y + (z + sum)))));
    var b := f + zeros;
    assert At(b, 0, f + zeros);
    hide *;
    AtConcat(b, 0, f, zeros);
    AtConcat(b, 0, u, v + (w + (x + (y + (z + sum)))));
    AtConcat(b, 8, v, w + (x + (y + (z + sum))));
    AtConcat(b, 12, w, x + (y + (z + sum)));
    AtConcat(b, 20, x, y + (z + sum));
    AtConcat(b, 24, y, z + sum);
    AtConcat(b, 28, z, sum);
    AtIs(b, 0, u);
    AtIs(b, 8, v);
    AtIs(b, 12, w);
    AtIs(b, 20, x);
    AtIs(b, 24, y);
    AtIs(b, 28, z);
    AtIs(b, 36, sum);
    AtEnds(b, f + zeros, 68, zeros);
  }

  /** The superblock a commit writes: the marks, the clock, the counts, the length, the digest, and zeros. */
  lemma SuperblockLayout(s: Snapshot, body: Bytes, hash: Hash)
    requires |body| < 0x1_0000_0000_0000_0000 && |s.nodes| < 0x1_0000_0000 && |s.edges| < 0x1_0000_0000
    ensures var b := SuperblockOf(s, body, hash);
            && b[0..8] == MAGIC_BYTES && b[8..12] == VERSION_BYTES && FromLe(b[12..20]) == s.lamport
            && FromLe(b[20..24]) == |s.nodes| && FromLe(b[24..28]) == |s.edges| && FromLe(b[28..36]) == |body|
            && b[36..68] == hash(body) && forall k :: 68 <= k < 512 ==> b[k] == 0
  {
    Widths();
    MagicValue();
    FromLeOfLe(s.lamport, 8);
    FromLeOfLe(|s.nodes|, 4);
    FromLeOfLe(|s.edges|, 4);
    FromLeOfLe(|body|, 8);
    FromLeOfLe(VERSION, 4);
    VersionIs(Le(VERSION, 4));
    var zeros: Bytes := seq(444, _ => 0);
    SevenFields(Le(MAGIC, 8), Le(VERSION, 4), Le(s.lamport, 8), Le(|s.nodes|, 4), Le(|s.edges|, 4), Le(|body|, 8),
      hash(body), zeros);
    hide Le, FromLe;
    var b := SuperblockOf(s, body, hash);
    forall k | 68 <= k < 512 ensures b[k] == 0 {
      assert b[k] == b[68..][k - 68];
    }
  }
}
