/**
 The encoder's output vector and the decoder's cursor, step by step as the kernel runs them.
 Each method is proved to append, or to read, exactly what the functions of Codec say.
 */
module CodecBuffers {
  import opened Bytes
  import opened Codec

  class Writer {
    var out: Bytes

    constructor ()
      ensures out == []
    {
      out := [];
    }

    method PutU8(v: U8)
      modifies this
      ensures out == old(out) + Le(v, 1)
    {
      out := out + [v as byte];
      assert Le(v, 1) == [v as byte] + Le(0, 0);
    }

    method PutInt(v: nat, width: nat)
      modifies this
      ensures out == old(out) + Le(v, width)
    {
      out := out + Le(v, width);
    }

    method PutRaw(s: Bytes)
      modifies this
      ensures out == old(out) + s
    {
      out := out + s;
    }

    method PutStr(s: Bytes)
      modifies this
      ensures out == old(out) + StrBytes(s)
    {
      PutInt(|s|, 2);
      PutRaw(s);
    }

    method EncodeKind(k: NodeKind)
      modifies this
      ensures out == old(out) + KindBytes(k)
    {
      hide Le, StrBytes;
      match k
      case Genesis(l, n) =>
        PutInt(l, 8);
        PutInt(n, 4);
      case HwCpu(v, n) =>
        PutStr(v);
        PutStr(n);
      case HwCpuFeature(n) =>
        PutStr(n);
      case HwPciDevice(_, _, _, _, _, _, _, _) =>
        EncodePci(k);
      case LearnedDriver(_, _, _, _) =>
        EncodeDriver(k);
      case HwFramebuffer(_, _, _, _) =>
        EncodeFramebuffer(k);
      case OperatorIntent(_, _) =>
        EncodeSpoken(k);
      case FabricResponse(_, _) =>
        EncodeSpoken(k);
      case SystemEvent(_, _) =>
        EncodeSpoken(k);
      case _ =>
        EncodeHardware(k);
    }

    method EncodeHardware(k: NodeKind)
      requires k.HwMemoryRegion? || k.HwAcpiTable? || k.HwStorage?
      modifies this
      ensures out == old(out) + KindBytes(k)
    {
      hide Le, StrBytes;
      match k
      case HwMemoryRegion(s, e, r) =>
        PutInt(s, 8);
        PutInt(e, 8);
        PutStr(r);
      case HwAcpiTable(s, a, l) =>
        PutRaw(s);
        PutInt(a, 8);
        PutInt(l, 4);
      case HwStorage(s, n, z) =>
        PutStr(s);
        PutInt(n, 8);
        PutInt(z, 4);
    }

    method EncodeFramebuffer(k: NodeKind)
      requires k.HwFramebuffer?
      modifies this
      ensures out == old(out) + KindBytes(k)
    {
      hide Le, StrBytes;
      PutInt(k.width, 4);
      PutInt(k.height, 4);
      PutU8(k.bytesPerPixel);
      PutStr(k.format);
    }

    method EncodeSpoken(k: NodeKind)
      requires k.OperatorIntent? || k.FabricResponse? || k.SystemEvent?
      modifies this
      ensures out == old(out) + KindBytes(k)
    {
      hide Le, StrBytes;
      match k
      case OperatorIntent(t, l) =>
        PutStr(t);
        PutInt(l, 8);
      case FabricResponse(t, l) =>
        PutStr(t);
        PutInt(l, 8);
      case SystemEvent(t, l) =>
        PutStr(t);
        PutInt(l, 8);
    }

    method EncodeDriver(k: NodeKind)
      requires k.LearnedDriver?
      modifies this
      ensures out == old(out) + KindBytes(k)
    {
      hide Le, StrBytes;
      PutStr(k.driver);
      PutInt(k.observations, 8);
      PutInt(k.avgSurprise, 4);
      PutInt(|k.params|, 4);
      PutRaw(k.params);
    }

    method EncodePci(k: NodeKind)
      requires k.HwPciDevice?
      modifies this
      ensures out == old(out) + KindBytes(k)
    {
      hide Le;
      PutU8(k.bus);
      PutU8(k.device);
      PutU8(k.fn);
      PutInt(k.vendorId, 2);
      PutInt(k.deviceId, 2);
      PutU8(k.class_);
      PutU8(k.subclass);
      PutU8(k.progIf);
    }

    method EncodeNode(n: Node)
      modifies this
      ensures out == old(out) + NodeBytes(n)
    {
      hide Le, KindBytes;
      PutRaw(n.id);
      PutInt(n.createdAt, 8);
      PutRaw(n.weight);
      PutU8(Tag(n.kind));
      EncodeKind(n.kind);
    }

    method EncodeSnapshot(s: Snapshot)
      modifies this
      ensures out == old(out) + SnapshotBytes(s)
    {
      hide Le, NodesBytes, EdgesBytes;
      PutInt(|s.nodes|, 4);
      PutInt(|s.edges|, 4);
      PutInt(s.lamport, 8);
      assert out == old(out) + HeaderBytes(s);
      hide HeaderBytes;
      EncodeNodes(s.nodes);
      EncodeEdges(s.edges);
    }

    method EncodeNodes(nodes: seq<Node>)
      modifies this
      ensures out == old(out) + NodesBytes(nodes)
    {
      hide NodeBytes;
      var start := out;
      for i := 0 to |nodes|
        invariant out + NodesBytes(nodes[i..]) == start + NodesBytes(nodes)
      {
        EncodeNode(nodes[i]);
        assert nodes[i..][1..] == nodes[i + 1..];
      }
      assert NodesBytes(nodes[|nodes|..]) == [];
      assert out + [] == out;
    }

    method EncodeEdges(edges: seq<Edge>)
      modifies this
      ensures out == old(out) + EdgesBytes(edges)
    {
      hide Le, EdgeBytes;
      var mid := out;
      for i := 0 to |edges|
        invariant out + EdgesBytes(edges[i..]) == mid + EdgesBytes(edges)
      {
        var e := edges[i];
        PutRaw(e.source);
        PutRaw(e.target);
        PutU8(EdgeTag(e.kind));
        EdgeAppended(e);
        assert edges[i..][1..] == edges[i + 1..];
      }
      assert EdgesBytes(edges[|edges|..]) == [];
      assert out + [] == out;
    }

    lemma EdgeAppended(e: Edge)
      ensures forall x: Bytes :: x + e.source + e.target + Le(EdgeTag(e.kind), 1) == x + EdgeBytes(e)
    {
    }
  }

  /** A reader's outcome with the offset it stopped at. */
  function Stopped<T>(r: Result<T>, off: nat): Result<(T, nat)> {
    match r
    case Ok(v) => Ok((v, off))
    case Err(e) => Err(e)
  }

  class Reader {
    const b: Bytes
    var off: nat

    constructor (b: Bytes)
      ensures this.b == b && off == 0
    {
      this.b := b;
      off := 0;
    }

    method ReadU8() returns (r: Result<U8>)
      modifies this`off
      ensures Stopped(r, off) == ParseU8(b, old(off))
    {
      if off + 1 > |b| {
        return Err(Truncated);
      }
      Widths();
      r := Ok(FromLe(b[off..off + 1]));
      off := off + 1;
    }

    method ReadU16() returns (r: Result<U16>)
      modifies this`off
      ensures Stopped(r, off) == ParseU16(b, old(off))
    {
      if off + 2 > |b| {
        return Err(Truncated);
      }
      Widths();
      r := Ok(FromLe(b[off..off + 2]));
      off := off + 2;
    }

    method ReadU32() returns (r: Result<U32>)
      modifies this`off
      ensures Stopped(r, off) == ParseU32(b, old(off))
    {
      if off + 4 > |b| {
        return Err(Truncated);
      }
      Widths();
      r := Ok(FromLe(b[off..off + 4]));
      off := off + 4;
    }

    method ReadU64() returns (r: Result<U64>)
      modifies this`off
      ensures Stopped(r, off) == ParseU64(b, old(off))
    {
      if off + 8 > |b| {
        return Err(Truncated);
      }
      Widths();
      r := Ok(FromLe(b[off..off + 8]));
      off := off + 8;
    }

    method ReadRaw(n: nat) returns (r: Result<Bytes>)
      modifies this`off
      ensures Stopped(r, off) == ParseRaw(b, old(off), n)
    {
      if off + n > |b| {
        return Err(Truncated);
      }
      r := Ok(b[off..off + n]);
      off := off + n;
    }

    method ReadStr() returns (r: Result<Bytes>)
      modifies this`off
      ensures Stopped(r, off) == ParseStr(b, old(off))
    {
      var len :- ReadU16();
      if off + len > |b| {
        return Err(Truncated);
      }
      var s := b[off..off + len];
      if !Utf8(s) {
        return Err(Unparseable);
      }
      off := off + len;
      r := Ok(s);
    }

    method DecodeKind(tag: U8) returns (r: Result<NodeKind>)
      modifies this`off
      ensures Stopped(r, off) == ParseKind(b, old(off), tag)
    {
      hide ParseU8, ParseU16, ParseU32, ParseU64, ParseRaw, ParseStr;
      match tag
      case 0 =>
        var l :- ReadU64();
        var n :- ReadU32();
        r := Ok(Genesis(l, n));
      case 1 =>
        var v :- ReadStr();
        var n :- ReadStr();
        r := Ok(HwCpu(v, n));
      case 2 =>
        var n :- ReadStr();
        r := Ok(HwCpuFeature(n));
      case 3 =>
        var s :- ReadU64();
        var e :- ReadU64();
        var t :- ReadStr();
        r := Ok(HwMemoryRegion(s, e, t));
      case 4 =>
        r := DecodePci();
      case 5 =>
        var s :- ReadRaw(4);
        var a :- ReadU64();
        var l :- ReadU32();
        r := Ok(HwAcpiTable(s, a, l));
      case 6 =>
        var w :- ReadU32();
        var h :- ReadU32();
        var p :- ReadU8();
        var f :- ReadStr();
        r := Ok(HwFramebuffer(w, h, p, f));
      case 7 =>
        var s :- ReadStr();
        var n :- ReadU64();
        var z :- ReadU32();
        r := Ok(HwStorage(s, n, z));
      case 8 =>
        var t :- ReadStr();
        var l :- ReadU64();
        r := Ok(OperatorIntent(t, l));
      case 9 =>
        var t :- ReadStr();
        var l :- ReadU64();
        r := Ok(FabricResponse(t, l));
      case 10 =>
        var t :- ReadStr();
        var l :- ReadU64();
        r := Ok(SystemEvent(t, l));
      case 11 =>
        var d :- ReadStr();
        var n :- ReadU64();
        var a :- ReadU32();
        var z :- ReadU32();
        var p :- ReadRaw(z);
        r := Ok(LearnedDriver(d, n, a, p));
      case _ =>
        r := Err(Unparseable);
    }

    method DecodePci() returns (r: Result<NodeKind>)
      modifies this`off
      ensures Stopped(r, off) == ParseKind(b, old(off), 4)
    {
      hide ParseU8, ParseU16;
      var bus :- ReadU8();
      var d :- ReadU8();
      var f :- ReadU8();
      var v :- ReadU16();
      var i :- ReadU16();
      var c :- ReadU8();
      var s :- ReadU8();
      var p :- ReadU8();
      r := Ok(HwPciDevice(bus, d, f, v, i, c, s, p));
    }

    method DecodeNode() returns (r: Result<Node>)
      modifies this`off
      ensures Stopped(r, off) == ParseNode(b, old(off))
    {
      hide ParseU8, ParseU64, ParseRaw, ParseKind;
      var id :- ReadRaw(32);
      var created :- ReadU64();
      var weight :- ReadRaw(4);
      var tag :- ReadU8();
      var kind :- DecodeKind(tag);
      r := Ok(Node(id, kind, created, weight));
    }

    method DecodeEdge() returns (r: Result<Edge>)
      modifies this`off
      ensures Stopped(r, off) == ParseEdge(b, old(off))
    {
      hide ParseU8, ParseRaw;
      var s :- ReadRaw(32);
      var t :- ReadRaw(32);
      var tag :- ReadU8();
      var kind :- EdgeKindOf(tag);
      r := Ok(Edge(s, t, kind));
    }
  }

  method DecodeSnapshot(body: Bytes) returns (r: Result<Snapshot>)
    ensures r == ParseSnapshot(body)
  {
    hide ParseU32, ParseU64, ParseNode, ParseEdge;
    var c := new Reader(body);
    var n :- c.ReadU32();
    var m :- c.ReadU32();
    var lamport :- c.ReadU64();
    var nodes: seq<Node> := [];
    var start := c.off;
    for i := 0 to n
      invariant ParseNodes(body, start, n, []) == ParseNodes(body, c.off, n - i, nodes)
    {
      var node :- c.DecodeNode();
      nodes := nodes + [node];
    }
    var edges: seq<Edge> := [];
    start := c.off;
    for i := 0 to m
      invariant ParseEdges(body, start, m, []) == ParseEdges(body, c.off, m - i, edges)
    {
      var edge :- c.DecodeEdge();
      edges := edges + [edge];
    }
    r := Ok(Snapshot(lamport, nodes, edges));
  }

  method EncodeFabric(s: Snapshot) returns (body: Bytes)
    ensures body == SnapshotBytes(s)
  {
    var w := new Writer();
    w.EncodeSnapshot(s);
    body := w.out;
  }
}
