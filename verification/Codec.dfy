/**
 The kernel's fabric snapshot codec: nodes, edges and the logical clock as one byte stream.

 The functions `...Bytes` and `Parse...` say what the encoder appends and what the decoder
 reads at an offset; the encoder's growing buffer and the decoder's cursor, which compute them,
 are the classes of CodecBuffers. The laws at the end relate the two directions.
 */
module Codec {
  import opened Bytes

  type Bytes4 = s: Bytes | |s| == 4 witness [0, 0, 0, 0]
  type Bytes32 = s: Bytes | |s| == 32 witness seq(32, _ => 0)

  /** A node's content. Text is held as its UTF-8 bytes. */
  datatype NodeKind =
    | Genesis(fabricLamport: U64, observed: U32)
    | HwCpu(vendor: Bytes, brand: Bytes)
    | HwCpuFeature(name: Bytes)
    | HwMemoryRegion(start: U64, end: U64, region: Bytes)
    | HwPciDevice(bus: U8, device: U8, fn: U8, vendorId: U16, deviceId: U16, class_: U8, subclass: U8, progIf: U8)
    | HwAcpiTable(signature: Bytes4, address: U64, length: U32)
    | HwFramebuffer(width: U32, height: U32, bytesPerPixel: U8, format: Bytes)
    | HwStorage(storage: Bytes, sectors: U64, sectorSize: U32)
    | OperatorIntent(text: Bytes, lamport: U64)
    | FabricResponse(text: Bytes, lamport: U64)
    | SystemEvent(text: Bytes, lamport: U64)
    | LearnedDriver(driver: Bytes, observations: U64, avgSurprise: U32, params: Bytes)

  /** `weight` keeps the four bytes of the f32 as they are. */
  datatype Node = Node(id: Bytes32, kind: NodeKind, createdAt: U64, weight: Bytes4)

  datatype EdgeKind = Contains | OnBus | Describes | Causes

  datatype Edge = Edge(source: Bytes32, target: Bytes32, kind: EdgeKind)

  /** The fabric's persistent state, both before encoding and after decoding. */
  datatype Snapshot = Snapshot(lamport: U64, nodes: seq<Node>, edges: seq<Edge>)

  datatype SnapshotError = Io | BadMagic | BadVersion | BadChecksum | Truncated | Unparseable

  datatype Result<+T> = Ok(value: T) | Err(error: SnapshotError) {
    predicate IsFailure() {
      Err?
    }

    function PropagateFailure<U>(): Result<U>
      requires Err?
    {
      Err(error)
    }

    function Extract(): T
      requires Ok?
    {
      value
    }
  }

  // ----- what the encoder appends -----

  /** The length is cast to u16: a string of 65536 bytes or more loses the high part of its length. */
  function StrBytes(s: Bytes): (r: Bytes)
    ensures |r| == 2 + |s|
  {
    Le(|s|, 2) + s
  }

  function Tag(k: NodeKind): (t: U8) {
    match k
    case Genesis(_, _) => 0
    case HwCpu(_, _) => 1
    case HwCpuFeature(_) => 2
    case HwMemoryRegion(_, _, _) => 3
    case HwPciDevice(_, _, _, _, _, _, _, _) => 4
    case HwAcpiTable(_, _, _) => 5
    case HwFramebuffer(_, _, _, _) => 6
    case HwStorage(_, _, _) => 7
    case OperatorIntent(_, _) => 8
    case FabricResponse(_, _) => 9
    case SystemEvent(_, _) => 10
    case LearnedDriver(_, _, _, _) => 11
  }

  function KindBytes(k: NodeKind): Bytes {
    match k
    case Genesis(l, o) => Le(l, 8) + Le(o, 4)
    case HwCpu(v, b) => StrBytes(v) + StrBytes(b)
    case HwCpuFeature(n) => StrBytes(n)
    case HwMemoryRegion(s, e, r) => Le(s, 8) + (Le(e, 8) + StrBytes(r))
    case HwPciDevice(b, d, f, v, i, c, s, p) =>
      Le(b, 1) + (Le(d, 1) + (Le(f, 1) + (Le(v, 2) + (Le(i, 2) + (Le(c, 1) + (Le(s, 1) + Le(p, 1)))))))
    case HwAcpiTable(s, a, l) => s + (Le(a, 8) + Le(l, 4))
    case HwFramebuffer(w, h, b, f) => Le(w, 4) + (Le(h, 4) + (Le(b, 1) + StrBytes(f)))
    case HwStorage(s, n, z) => StrBytes(s) + (Le(n, 8) + Le(z, 4))
    case OperatorIntent(t, l) => StrBytes(t) + Le(l, 8)
    case FabricResponse(t, l) => StrBytes(t) + Le(l, 8)
    case SystemEvent(t, l) => StrBytes(t) + Le(l, 8)
    case LearnedDriver(d, o, a, p) => StrBytes(d) + (Le(o, 8) + (Le(a, 4) + (Le(|p|, 4) + p)))
  }

  function NodeBytes(n: Node): Bytes {
    n.id + (Le(n.createdAt, 8) + (n.weight + (Le(Tag(n.kind), 1) + KindBytes(n.kind))))
  }

  function EdgeTag(k: EdgeKind): (t: U8) {
    match k
    case Contains => 0
    case OnBus => 1
    case Describes => 2
    case Causes => 3
  }

  function EdgeBytes(e: Edge): (r: Bytes)
    ensures |r| == 65
  {
    e.source + (e.target + Le(EdgeTag(e.kind), 1))
  }

  function NodesBytes(ns: seq<Node>): Bytes {
    if ns == [] then [] else NodeBytes(ns[0]) + NodesBytes(ns[1..])
  }

  function EdgesBytes(es: seq<Edge>): Bytes {
    if es == [] then [] else EdgeBytes(es[0]) + EdgesBytes(es[1..])
  }

  function HeaderBytes(s: Snapshot): Bytes {
    Le(|s.nodes|, 4) + (Le(|s.edges|, 4) + Le(s.lamport, 8))
  }

  function SnapshotBytes(s: Snapshot): Bytes {
    HeaderBytes(s) + (NodesBytes(s.nodes) + EdgesBytes(s.edges))
  }

  // ----- what the decoder reads at an offset -----

  function ParseLe(b: Bytes, off: nat, n: nat): (r: Result<(nat, nat)>)
    ensures r.Ok? ==> r.value.0 < Pow256(n) && r.value.1 == off + n <= |b|
  {
    if off + n > |b| then Err(Truncated) else Ok((FromLe(b[off..off + n]), off + n))
  }

  lemma Widths()
    ensures Pow256(1) == 0x100 && Pow256(2) == 0x1_0000
    ensures Pow256(4) == 0x1_0000_0000 && Pow256(8) == 0x1_0000_0000_0000_0000
  {
  }

  function ParseU8(b: Bytes, off: nat): (r: Result<(U8, nat)>)
    ensures r.Ok? ==> r.value.1 == off + 1 <= |b|
  {
    var (v, o) :- ParseLe(b, off, 1);
    Widths();
    Ok((v, o))
  }

  function ParseU16(b: Bytes, off: nat): (r: Result<(U16, nat)>)
    ensures r.Ok? ==> r.value.1 == off + 2 <= |b|
  {
    var (v, o) :- ParseLe(b, off, 2);
    Widths();
    Ok((v, o))
  }

  function ParseU32(b: Bytes, off: nat): (r: Result<(U32, nat)>)
    ensures r.Ok? ==> r.value.1 == off + 4 <= |b|
  {
    var (v, o) :- ParseLe(b, off, 4);
    Widths();
    Ok((v, o))
  }

  function ParseU64(b: Bytes, off: nat): (r: Result<(U64, nat)>)
    ensures r.Ok? ==> r.value.1 == off + 8 <= |b|
  {
    var (v, o) :- ParseLe(b, off, 8);
    Widths();
    Ok((v, o))
  }

  function ParseRaw(b: Bytes, off: nat, n: nat): (r: Result<(Bytes, nat)>)
    ensures r.Ok? ==> |r.value.0| == n && r.value.1 == off + n
  {
    if off + n > |b| then Err(Truncated) else Ok((b[off..off + n], off + n))
  }

  function ParseStr(b: Bytes, off: nat): (r: Result<(Bytes, nat)>)
    ensures r.Ok? ==> r.value.1 == off + 2 + |r.value.0|
  {
    var (n, o) :- ParseU16(b, off);
    var (s, o) :- ParseRaw(b, o, n);
    if Utf8(s) then Ok((s, o)) else Err(Unparseable)
  }

  function ParseKind(b: Bytes, off: nat, tag: U8): Result<(NodeKind, nat)> {
    match tag
    case 0 =>
      var (l, o) :- ParseU64(b, off);
      var (n, o) :- ParseU32(b, o);
      Ok((Genesis(l, n), o))
    case 1 =>
      var (v, o) :- ParseStr(b, off);
      var (n, o) :- ParseStr(b, o);
      Ok((HwCpu(v, n), o))
    case 2 =>
      var (n, o) :- ParseStr(b, off);
      Ok((HwCpuFeature(n), o))
    case 3 =>
      var (s, o) :- ParseU64(b, off);
      var (e, o) :- ParseU64(b, o);
      var (r, o) :- ParseStr(b, o);
      Ok((HwMemoryRegion(s, e, r), o))
    case 4 =>
      var (bus, o) :- ParseU8(b, off);
      var (d, o) :- ParseU8(b, o);
      var (f, o) :- ParseU8(b, o);
      var (v, o) :- ParseU16(b, o);
      var (i, o) :- ParseU16(b, o);
      var (c, o) :- ParseU8(b, o);
      var (s, o) :- ParseU8(b, o);
      var (p, o) :- ParseU8(b, o);
      Ok((HwPciDevice(bus, d, f, v, i, c, s, p), o))
    case 5 =>
      var (s, o) :- ParseRaw(b, off, 4);
      var (a, o) :- ParseU64(b, o);
      var (l, o) :- ParseU32(b, o);
      Ok((HwAcpiTable(s, a, l), o))
    case 6 =>
      var (w, o) :- ParseU32(b, off);
      var (h, o) :- ParseU32(b, o);
      var (p, o) :- ParseU8(b, o);
      var (f, o) :- ParseStr(b, o);
      Ok((HwFramebuffer(w, h, p, f), o))
    case 7 =>
      var (s, o) :- ParseStr(b, off);
      var (n, o) :- ParseU64(b, o);
      var (z, o) :- ParseU32(b, o);
      Ok((HwStorage(s, n, z), o))
    case 8 =>
      var (t, o) :- ParseStr(b, off);
      var (l, o) :- ParseU64(b, o);
      Ok((OperatorIntent(t, l), o))
    case 9 =>
      var (t, o) :- ParseStr(b, off);
      var (l, o) :- ParseU64(b, o);
      Ok((FabricResponse(t, l), o))
    case 10 =>
      var (t, o) :- ParseStr(b, off);
      var (l, o) :- ParseU64(b, o);
      Ok((SystemEvent(t, l), o))
    case 11 =>
      var (d, o) :- ParseStr(b, off);
      var (n, o) :- ParseU64(b, o);
      var (a, o) :- ParseU32(b, o);
      var (z, o) :- ParseU32(b, o);
      var (p, o) :- ParseRaw(b, o, z);
      Ok((LearnedDriver(d, n, a, p), o))
    case _ => Err(Unparseable)
  }

  function ParseNode(b: Bytes, off: nat): Result<(Node, nat)> {
    var (id, o) :- ParseRaw(b, off, 32);
    var (created, o) :- ParseU64(b, o);
    var (weight, o) :- ParseRaw(b, o, 4);
    var (tag, o) :- ParseU8(b, o);
    var (kind, o) :- ParseKind(b, o, tag);
    Ok((Node(id, kind, created, weight), o))
  }

  function EdgeKindOf(tag: U8): Result<EdgeKind> {
    match tag
    case 0 => Ok(Contains)
    case 1 => Ok(OnBus)
    case 2 => Ok(Describes)
    case 3 => Ok(Causes)
    case _ => Err(Unparseable)
  }

  function ParseEdge(b: Bytes, off: nat): (r: Result<(Edge, nat)>)
    ensures r.Ok? ==> r.value.1 == off + 65 <= |b|
  {
    var (s, o) :- ParseRaw(b, off, 32);
    var (t, o) :- ParseRaw(b, o, 32);
    var (g, o) :- ParseU8(b, o);
    var kind :- EdgeKindOf(g);
    Ok((Edge(s, t, kind), o))
  }

  /** The next `count` nodes from off, after those already read. */
  function ParseNodes(b: Bytes, off: nat, count: nat, read: seq<Node>): Result<(seq<Node>, nat)>
    decreases count
  {
    if count == 0 then Ok((read, off)) else
    var (n, o) :- ParseNode(b, off);
    ParseNodes(b, o, count - 1, read + [n])
  }

  function ParseEdges(b: Bytes, off: nat, count: nat, read: seq<Edge>): Result<(seq<Edge>, nat)>
    decreases count
  {
    if count == 0 then Ok((read, off)) else
    var (e, o) :- ParseEdge(b, off);
    ParseEdges(b, o, count - 1, read + [e])
  }

  function ParseSnapshot(b: Bytes): Result<Snapshot> {
    var (n, o) :- ParseU32(b, 0);
    var (m, o) :- ParseU32(b, o);
    var (lamport, o) :- ParseU64(b, o);
    var (nodes, o) :- ParseNodes(b, o, n, []);
    var (edges, o) :- ParseEdges(b, o, m, []);
    Ok(Snapshot(lamport, nodes, edges))
  }

  // ----- what can be encoded without loss -----

  predicate StrOk(s: Bytes) {
    |s| < 0x1_0000 && Utf8(s)
  }

  predicate KindOk(k: NodeKind) {
    match k
    case HwCpu(v, b) => StrOk(v) && StrOk(b)
    case HwCpuFeature(n) => StrOk(n)
    case HwMemoryRegion(_, _, r) => StrOk(r)
    case HwFramebuffer(_, _, _, f) => StrOk(f)
    case HwStorage(s, _, _) => StrOk(s)
    case OperatorIntent(t, _) => StrOk(t)
    case FabricResponse(t, _) => StrOk(t)
    case SystemEvent(t, _) => StrOk(t)
    case LearnedDriver(d, _, _, p) => StrOk(d) && |p| < 0x1_0000_0000
    case _ => true
  }

  /** Every length fits the field it is written to, and every string is UTF-8. */
  predicate Encodable(s: Snapshot) {
    && |s.nodes| < 0x1_0000_0000 && |s.edges| < 0x1_0000_0000
    && forall n <- s.nodes :: KindOk(n.kind)
  }

  // ----- the laws -----

  lemma U8At(b: Bytes, off: nat, v: U8)
    ensures At(b, off, Le(v, 1)) <==> ParseU8(b, off) == Ok((v, off + 1))
  {
    Widths();
    LeAt(b, off, 1, v);
  }

  lemma U16At(b: Bytes, off: nat, v: U16)
    ensures At(b, off, Le(v, 2)) <==> ParseU16(b, off) == Ok((v, off + 2))
  {
    Widths();
    LeAt(b, off, 2, v);
  }

  lemma U32At(b: Bytes, off: nat, v: U32)
    ensures At(b, off, Le(v, 4)) <==> ParseU32(b, off) == Ok((v, off + 4))
  {
    Widths();
    LeAt(b, off, 4, v);
  }

  lemma U64At(b: Bytes, off: nat, v: U64)
    ensures At(b, off, Le(v, 8)) <==> ParseU64(b, off) == Ok((v, off + 8))
  {
    Widths();
    LeAt(b, off, 8, v);
  }

  /** A string is read back at off exactly when it is encodable and its encoding stands there. */
  lemma StrAt(b: Bytes, off: nat, s: Bytes, o: nat)
    ensures ParseStr(b, off) == Ok((s, o)) <==> StrOk(s) && At(b, off, StrBytes(s)) && o == off + 2 + |s|
  {
    AtConcat(b, off, Le(|s|, 2), s);
    if |s| < 0x1_0000 {
      U16At(b, off, |s|);
    }
  }

  lemma RawAt(b: Bytes, off: nat, s: Bytes)
    ensures At(b, off, s) <==> ParseRaw(b, off, |s|) == Ok((s, off + |s|))
  {
  }

  /** k is read back at off, ending at o, exactly when it is encodable and its encoding stands there. */
  ghost predicate ReadsBack(b: Bytes, off: nat, k: NodeKind, o: nat) {
    ParseKind(b, off, Tag(k)) == Ok((k, o)) <==> KindOk(k) && At(b, off, KindBytes(k)) && o == off + |KindBytes(k)|
  }

  lemma KindAt(b: Bytes, off: nat, k: NodeKind, o: nat)
    ensures ReadsBack(b, off, k, o)
  {
    hide *;
    match k
    case Genesis(_, _) => GenesisAt(b, off, k, o);
    case HwCpu(_, _) => CpuAt(b, off, k, o);
    case HwCpuFeature(_) => FeatureAt(b, off, k, o);
    case HwMemoryRegion(_, _, _) => MemoryAt(b, off, k, o);
    case HwPciDevice(_, _, _, _, _, _, _, _) => PciAt(b, off, k, o);
    case HwAcpiTable(_, _, _) => AcpiAt(b, off, k, o);
    case HwFramebuffer(_, _, _, _) => FramebufferAt(b, off, k, o);
    case HwStorage(_, _, _) => StorageAt(b, off, k, o);
    case OperatorIntent(t, l) => TextAt(b, off, k, t, l, o);
    case FabricResponse(t, l) => TextAt(b, off, k, t, l, o);
    case SystemEvent(t, l) => TextAt(b, off, k, t, l, o);
    case LearnedDriver(_, _, _, _) => DriverAt(b, off, k, o);
  }

  lemma GenesisAt(b: Bytes, off: nat, k: NodeKind, o: nat)
    requires k.Genesis?
    ensures ReadsBack(b, off, k, o)
  {
    hide Le, FromLe, Utf8, ParseLe, ParseRaw, ParseStr, ParseU8, ParseU16, ParseU32, ParseU64, StrBytes, At;
    var Genesis(l, n) := k;
    AtConcat(b, off, Le(l, 8), Le(n, 4));
    U64At(b, off, l);
    U32At(b, off + 8, n);
  }

  lemma CpuAt(b: Bytes, off: nat, k: NodeKind, o: nat)
    requires k.HwCpu?
    ensures ReadsBack(b, off, k, o)
  {
    hide Le, FromLe, Utf8, ParseLe, ParseRaw, ParseStr, ParseU8, ParseU16, ParseU32, ParseU64, StrBytes, At;
    var HwCpu(v, n) := k;
    AtConcat(b, off, StrBytes(v), StrBytes(n));
    StrAt(b, off, v, off + 2 + |v|);
    StrAt(b, off + 2 + |v|, n, o);
  }

  lemma FeatureAt(b: Bytes, off: nat, k: NodeKind, o: nat)
    requires k.HwCpuFeature?
    ensures ReadsBack(b, off, k, o)
  {
    hide Le, FromLe, Utf8, ParseLe, ParseRaw, ParseStr, ParseU8, ParseU16, ParseU32, ParseU64, StrBytes, At;
    StrAt(b, off, k.name, o);
  }

  lemma MemoryAt(b: Bytes, off: nat, k: NodeKind, o: nat)
    requires k.HwMemoryRegion?
    ensures ReadsBack(b, off, k, o)
  {
    hide Le, FromLe, Utf8, ParseLe, ParseRaw, ParseStr, ParseU8, ParseU16, ParseU32, ParseU64, StrBytes, At;
    var HwMemoryRegion(s, e, r) := k;
    AtConcat(b, off, Le(s, 8), Le(e, 8) + StrBytes(r));
    AtConcat(b, off + 8, Le(e, 8), StrBytes(r));
    U64At(b, off, s);
    U64At(b, off + 8, e);
    StrAt(b, off + 16, r, o);
  }

  lemma PciAt(b: Bytes, off: nat, k: NodeKind, o: nat)
    requires k.HwPciDevice?
    ensures ReadsBack(b, off, k, o)
  {
    hide Le, FromLe, Utf8, ParseLe, ParseRaw, ParseStr, ParseU8, ParseU16, ParseU32, ParseU64, StrBytes, At;
    var HwPciDevice(bus, d, f, v, i, c, s, p) := k;
    var b7 := Le(s, 1) + Le(p, 1);
    var b6 := Le(c, 1) + b7;
    var b5 := Le(i, 2) + b6;
    var b4 := Le(v, 2) + b5;
    var b3 := Le(f, 1) + b4;
    var b2 := Le(d, 1) + b3;
    AtConcat(b, off, Le(bus, 1), b2);
    AtConcat(b, off + 1, Le(d, 1), b3);
    AtConcat(b, off + 2, Le(f, 1), b4);
    AtConcat(b, off + 3, Le(v, 2), b5);
    AtConcat(b, off + 5, Le(i, 2), b6);
    AtConcat(b, off + 7, Le(c, 1), b7);
    AtConcat(b, off + 8, Le(s, 1), Le(p, 1));
    U8At(b, off, bus);
    U8At(b, off + 1, d);
    U8At(b, off + 2, f);
    U16At(b, off + 3, v);
    U16At(b, off + 5, i);
    U8At(b, off + 7, c);
    U8At(b, off + 8, s);
    U8At(b, off + 9, p);
  }

  lemma AcpiAt(b: Bytes, off: nat, k: NodeKind, o: nat)
    requires k.HwAcpiTable?
    ensures ReadsBack(b, off, k, o)
  {
    hide Le, FromLe, Utf8, ParseLe, ParseRaw, ParseStr, ParseU8, ParseU16, ParseU32, ParseU64, StrBytes, At;
    var HwAcpiTable(s, a, l) := k;
    AtConcat(b, off, s, Le(a, 8) + Le(l, 4));
    AtConcat(b, off + 4, Le(a, 8), Le(l, 4));
    RawAt(b, off, s);
    U64At(b, off + 4, a);
    U32At(b, off + 12, l);
  }

  lemma FramebufferAt(b: Bytes, off: nat, k: NodeKind, o: nat)
    requires k.HwFramebuffer?
    ensures ReadsBack(b, off, k, o)
  {
    hide Le, FromLe, Utf8, ParseLe, ParseRaw, ParseStr, ParseU8, ParseU16, ParseU32, ParseU64, StrBytes, At;
    var HwFramebuffer(w, h, p, f) := k;
    AtConcat(b, off, Le(w, 4), Le(h, 4) + (Le(p, 1) + StrBytes(f)));
    AtConcat(b, off + 4, Le(h, 4), Le(p, 1) + StrBytes(f));
    AtConcat(b, off + 8, Le(p, 1), StrBytes(f));
    U32At(b, off, w);
    U32At(b, off + 4, h);
    U8At(b, off + 8, p);
    StrAt(b, off + 9, f, o);
  }

  lemma StorageAt(b: Bytes, off: nat, k: NodeKind, o: nat)
    requires k.HwStorage?
    ensures ReadsBack(b, off, k, o)
  {
    hide Le, FromLe, Utf8, ParseLe, ParseRaw, ParseStr, ParseU8, ParseU16, ParseU32, ParseU64, StrBytes, At;
    var HwStorage(s, n, z) := k;
    AtConcat(b, off, StrBytes(s), Le(n, 8) + Le(z, 4));
    AtConcat(b, off + 2 + |s|, Le(n, 8), Le(z, 4));
    StrAt(b, off, s, off + 2 + |s|);
    U64At(b, off + 2 + |s|, n);
    U32At(b, off + 10 + |s|, z);
  }

  lemma TextAt(b: Bytes, off: nat, k: NodeKind, t: Bytes, l: U64, o: nat)
    requires k == OperatorIntent(t, l) || k == FabricResponse(t, l) || k == SystemEvent(t, l)
    ensures ReadsBack(b, off, k, o)
  {
    hide Le, FromLe, Utf8, ParseLe, ParseRaw, ParseStr, ParseU8, ParseU16, ParseU32, ParseU64, StrBytes, At;
    AtConcat(b, off, StrBytes(t), Le(l, 8));
    StrAt(b, off, t, off + 2 + |t|);
    U64At(b, off + 2 + |t|, l);
  }

  lemma DriverAt(b: Bytes, off: nat, k: NodeKind, o: nat)
    requires k.LearnedDriver?
    ensures ReadsBack(b, off, k, o)
  {
    hide Le, FromLe, Utf8, ParseLe, ParseRaw, ParseStr, ParseU8, ParseU16, ParseU32, ParseU64, StrBytes, At;
    var LearnedDriver(d, n, a, p) := k;
    var b3 := Le(|p|, 4) + p;
    var b2 := Le(a, 4) + b3;
    var o1 := off + 2 + |d|;
    AtConcat(b, off, StrBytes(d), Le(n, 8) + b2);
    AtConcat(b, o1, Le(n, 8), b2);
    AtConcat(b, o1 + 8, Le(a, 4), b3);
    AtConcat(b, o1 + 12, Le(|p|, 4), p);
    StrAt(b, off, d, o1);
    U64At(b, o1, n);
    U32At(b, o1 + 8, a);
    RawAt(b, o1 + 16, p);
    if |p| < 0x1_0000_0000 {
      U32At(b, o1 + 12, |p|);
    }
  }

  /** No tag is read as the content of another. */
  lemma KindTag(b: Bytes, off: nat, tag: U8)
    ensures var r := ParseKind(b, off, tag); r.Ok? ==> Tag(r.value.0) == tag
  {
    hide ParseLe, ParseStr, ParseU8, ParseU16, ParseU32, ParseU64, ParseRaw;
  }

  /** The same for whole nodes: the encoding of a node delimits itself. */
  lemma NodeAt(b: Bytes, off: nat, n: Node, o: nat)
    ensures ParseNode(b, off) == Ok((n, o))
       <==> KindOk(n.kind) && At(b, off, NodeBytes(n)) && o == off + |NodeBytes(n)|
  {
    hide Le, FromLe, Utf8, ParseLe, ParseRaw, ParseStr, ParseU8, ParseU16, ParseU32, ParseU64, KindBytes, ParseKind, At;
    var b4 := Le(Tag(n.kind), 1) + KindBytes(n.kind);
    var b3 := n.weight + b4;
    var b2 := Le(n.createdAt, 8) + b3;
    AtConcat(b, off, n.id, b2);
    AtConcat(b, off + 32, Le(n.createdAt, 8), b3);
    AtConcat(b, off + 40, n.weight, b4);
    AtConcat(b, off + 44, Le(Tag(n.kind), 1), KindBytes(n.kind));
    RawAt(b, off, n.id);
    RawAt(b, off + 40, n.weight);
    U64At(b, off + 32, n.createdAt);
    U8At(b, off + 44, Tag(n.kind));
    KindAt(b, off + 45, n.kind, o);
    var g := ParseU8(b, off + 44);
    if g.Ok? {
      KindTag(b, off + 45, g.value.0);
    }
  }

  lemma EdgeAt(b: Bytes, off: nat, e: Edge, o: nat)
    ensures ParseEdge(b, off) == Ok((e, o)) <==> At(b, off, EdgeBytes(e)) && o == off + 65
  {
    hide Le, FromLe, Utf8, ParseLe, ParseRaw, ParseStr, ParseU8, ParseU16, ParseU32, ParseU64, At;
    AtConcat(b, off, e.source, e.target + Le(EdgeTag(e.kind), 1));
    AtConcat(b, off + 32, e.target, Le(EdgeTag(e.kind), 1));
    RawAt(b, off, e.source);
    RawAt(b, off + 32, e.target);
    U8At(b, off + 64, EdgeTag(e.kind));
  }

  /** The decoder's node loop, from any point of it on. */
  lemma {:induction false} NodesAt(b: Bytes, off: nat, read: seq<Node>, ns: seq<Node>, o: nat)
    requires off <= |b|
    ensures ParseNodes(b, off, |ns|, read) == Ok((read + ns, o))
       <==> (forall n <- ns :: KindOk(n.kind)) && At(b, off, NodesBytes(ns)) && o == off + |NodesBytes(ns)|
    decreases |ns|
  {
    hide Le, FromLe, Utf8, ParseLe, ParseNode, ParseEdge, NodeBytes, EdgeBytes;
    if ns == [] {
      assert read + ns == read;
    } else {
      var n, rest := ns[0], ns[1..];
      assert ns == [n] + rest;
      assert read + ns == (read + [n]) + rest;
      var o1 := off + |NodeBytes(n)|;
      NodeAt(b, off, n, o1);
      AtConcat(b, off, NodeBytes(n), NodesBytes(rest));
      if o1 <= |b| {
        NodesAt(b, o1, read + [n], rest, o);
      }
      var r := ParseNode(b, off);
      if r.Ok? {
        NodeAt(b, off, r.value.0, r.value.1);
        NodesKeep(b, r.value.1, |rest|, read + [r.value.0]);
        assert (read + ns)[|read|] == n && (read + [r.value.0])[|read|] == r.value.0;
      }
    }
  }

  /** The loop only appends to what it has read. */
  lemma {:induction false} NodesKeep(b: Bytes, off: nat, count: nat, read: seq<Node>)
    ensures var r := ParseNodes(b, off, count, read); r.Ok? ==> |r.value.0| == |read| + count && read <= r.value.0
    decreases count
  {
    hide Le, FromLe, Utf8, ParseLe, ParseNode, ParseEdge, NodeBytes, EdgeBytes;
    if count > 0 {
      var r := ParseNode(b, off);
      if r.Ok? {
        NodesKeep(b, r.value.1, count - 1, read + [r.value.0]);
      }
    }
  }

  lemma {:induction false} EdgesAt(b: Bytes, off: nat, read: seq<Edge>, es: seq<Edge>, o: nat)
    requires off <= |b|
    ensures ParseEdges(b, off, |es|, read) == Ok((read + es, o))
       <==> At(b, off, EdgesBytes(es)) && o == off + |EdgesBytes(es)|
    decreases |es|
  {
    hide Le, FromLe, Utf8, ParseLe, ParseNode, ParseEdge, NodeBytes, EdgeBytes;
    if es == [] {
      assert read + es == read;
    } else {
      var e, rest := es[0], es[1..];
      assert es == [e] + rest;
      assert read + es == (read + [e]) + rest;
      EdgeAt(b, off, e, off + 65);
      AtConcat(b, off, EdgeBytes(e), EdgesBytes(rest));
      if off + 65 <= |b| {
        EdgesAt(b, off + 65, read + [e], rest, o);
      }
      var r := ParseEdge(b, off);
      if r.Ok? {
        EdgeAt(b, off, r.value.0, r.value.1);
        EdgesKeep(b, r.value.1, |rest|, read + [r.value.0]);
        assert (read + es)[|read|] == e && (read + [r.value.0])[|read|] == r.value.0;
      }
    }
  }

  lemma {:induction false} EdgesKeep(b: Bytes, off: nat, count: nat, read: seq<Edge>)
    ensures var r := ParseEdges(b, off, count, read); r.Ok? ==> |r.value.0| == |read| + count && read <= r.value.0
    decreases count
  {
    hide Le, FromLe, Utf8, ParseLe, ParseNode, ParseEdge, NodeBytes, EdgeBytes;
    if count > 0 {
      var r := ParseEdge(b, off);
      if r.Ok? {
        EdgesKeep(b, r.value.1, count - 1, read + [r.value.0]);
      }
    }
  }

  /**
   The codec's law, in both directions at once: a byte string decodes to a fabric exactly when the
   fabric is within the length limits and its encoding is a prefix of the string. So the round trip
   is exact, decoding accepts no second encoding of a fabric, and trailing bytes are ignored.
   */
  lemma DecodesIff(b: Bytes, s: Snapshot)
    ensures ParseSnapshot(b) == Ok(s) <==> Encodable(s) && At(b, 0, SnapshotBytes(s))
  {
    hide Le, FromLe, Utf8, ParseLe, ParseU8, ParseU16, ParseU32, ParseU64, ParseNodes, ParseEdges, NodesBytes,
      EdgesBytes, At;
    var o2 := 16 + |NodesBytes(s.nodes)|;
    AtConcat(b, 0, HeaderBytes(s), NodesBytes(s.nodes) + EdgesBytes(s.edges));
    AtConcat(b, 16, NodesBytes(s.nodes), EdgesBytes(s.edges));
    HeaderAt(b, s);
    assert [] + s.nodes == s.nodes && [] + s.edges == s.edges;
    if 16 <= |b| {
      NodesAt(b, 16, [], s.nodes, o2);
    }
    if o2 <= |b| {
      EdgesAt(b, o2, [], s.edges, o2 + |EdgesBytes(s.edges)|);
    }
    var n, m := ParseU32(b, 0), ParseU32(b, 4);
    if n.Ok? && m.Ok? && ParseU64(b, 8).Ok? {
      NodesKeep(b, 16, n.value.0, []);
      var ns := ParseNodes(b, 16, n.value.0, []);
      if ns.Ok? && ns.value.0 == s.nodes {
        NodesAt(b, 16, [], s.nodes, ns.value.1);
        EdgesKeep(b, o2, m.value.0, []);
        var es := ParseEdges(b, o2, m.value.0, []);
        if es.Ok? && es.value.0 == s.edges {
          EdgesAt(b, o2, [], s.edges, es.value.1);
        }
      }
    }
  }

  lemma HeaderAt(b: Bytes, s: Snapshot)
    ensures At(b, 0, HeaderBytes(s)) && |s.nodes| < 0x1_0000_0000 && |s.edges| < 0x1_0000_0000
       <==> ParseU32(b, 0) == Ok((|s.nodes|, 4)) && ParseU32(b, 4) == Ok((|s.edges|, 8))
            && ParseU64(b, 8) == Ok((s.lamport, 16))
  {
    hide Le, FromLe, Utf8, ParseLe, ParseU8, ParseU16, ParseU32, ParseU64, At;
    AtConcat(b, 0, Le(|s.nodes|, 4), Le(|s.edges|, 4) + Le(s.lamport, 8));
    AtConcat(b, 4, Le(|s.edges|, 4), Le(s.lamport, 8));
    if |s.nodes| < 0x1_0000_0000 && |s.edges| < 0x1_0000_0000 {
      U32At(b, 0, |s.nodes|);
      U32At(b, 4, |s.edges|);
      U64At(b, 8, s.lamport);
    }
  }

  /**
   Whatever follows the encoding, a fabric comes back exactly when every length fits its field:
   an over-long string, blob or list is not merely rejected, it never comes back.
   */
  lemma RoundTrip(s: Snapshot, trailing: Bytes)
    ensures ParseSnapshot(SnapshotBytes(s) + trailing) == Ok(s) <==> Encodable(s)
  {
    var b := SnapshotBytes(s) + trailing;
    assert b[0..|SnapshotBytes(s)|] == SnapshotBytes(s);
    DecodesIff(b, s);
  }

  /** No two encodable fabrics share an encoding, and none's is a proper prefix of another's. */
  lemma EncodingPrefixFree(s: Snapshot, t: Snapshot)
    requires Encodable(s) && Encodable(t) && SnapshotBytes(s) <= SnapshotBytes(t)
    ensures s == t
  {
    DecodesIff(SnapshotBytes(t), s);
    DecodesIff(SnapshotBytes(t), t);
  }

  /** A length written to 16 bits is the length modulo 65536. */
  lemma Le16Wraps(v: nat)
    ensures Le(v, 2) == Le(v % 0x1_0000, 2)
  {
    assert v % 256 == v % 0x1_0000 % 256;
    assert v / 256 % 256 == v % 0x1_0000 / 256 % 256;
    assert Le(v / 256, 1) == [(v / 256 % 256) as byte] + Le(v / 256 / 256, 0);
    assert Le(v % 0x1_0000 / 256, 1) == [(v % 0x1_0000 / 256 % 256) as byte] + Le(v % 0x1_0000 / 256 / 256, 0);
  }

  lemma {:induction false} NodesBytesConcat(ms: seq<Node>, ns: seq<Node>)
    ensures NodesBytes(ms + ns) == NodesBytes(ms) + NodesBytes(ns)
  {
    hide NodeBytes;
    if ms == [] {
      assert ms + ns == ns;
    } else {
      NodesBytesConcat(ms[1..], ns);
      assert (ms + ns)[1..] == ms[1..] + ns && (ms + ns)[0] == ms[0];
      var first, rest, last := NodeBytes(ms[0]), NodesBytes(ms[1..]), NodesBytes(ns);
      assert NodesBytes(ms + ns) == first + (rest + last);
      hide NodesBytes;
      assert first + (rest + last) == first + rest + last;
    }
  }

  /** The fabric with one more node, which carries a text. */
  function WithText(s: Snapshot, id: Bytes32, at: U64, text: Bytes, weight: Bytes4): Snapshot {
    s.(nodes := s.nodes + [Node(id, HwCpuFeature(text), at, weight)])
  }

  /** Of a text only the length modulo 65536 is written, but all of its bytes. */
  lemma NodeBytesRunOver(id: Bytes32, at: U64, text: Bytes, weight: Bytes4)
    ensures var k := |text| % 0x1_0000;
            NodeBytes(Node(id, HwCpuFeature(text), at, weight))
              == NodeBytes(Node(id, HwCpuFeature(text[..k]), at, weight)) + text[k..]
  {
    var k := |text| % 0x1_0000;
    Le16Wraps(|text|);
    hide Le;
    assert text == text[..k] + text[k..];
    assert StrBytes(text) == StrBytes(text[..k]) + text[k..];
    hide StrBytes;
  }

  lemma TextBytesRunOver(s: Snapshot, id: Bytes32, at: U64, text: Bytes, weight: Bytes4)
    requires s.edges == []
    ensures var k := |text| % 0x1_0000;
            SnapshotBytes(WithText(s, id, at, text, weight))
              == SnapshotBytes(WithText(s, id, at, text[..k], weight)) + text[k..]
  {
    var k := |text| % 0x1_0000;
    NodeBytesRunOver(id, at, text, weight);
    hide NodeBytes, SnapshotBytes;
    LastNodeRunsOver(
      s, Node(id, HwCpuFeature(text), at, weight), Node(id, HwCpuFeature(text[..k]), at, weight), text[k..]);
  }

  lemma LastNodeRunsOver(s: Snapshot, n: Node, m: Node, rest: Bytes)
    requires s.edges == [] && NodeBytes(n) == NodeBytes(m) + rest
    ensures SnapshotBytes(s.(nodes := s.nodes + [n])) == SnapshotBytes(s.(nodes := s.nodes + [m])) + rest
  {
    SameHeader(s.(nodes := s.nodes + [n]), s.(nodes := s.nodes + [m]));
    SnapshotBytesOfLast(s, n);
    SnapshotBytesOfLast(s, m);
    hide *;
    Regroup(HeaderBytes(s.(nodes := s.nodes + [n])) + NodesBytes(s.nodes), NodeBytes(m), rest);
  }

  lemma Regroup(x: Bytes, y: Bytes, z: Bytes)
    ensures x + (y + z) == x + y + z
  {
  }

  lemma SnapshotBytesOfLast(s: Snapshot, n: Node)
    requires s.edges == []
    ensures SnapshotBytes(s.(nodes := s.nodes + [n]))
         == HeaderBytes(s.(nodes := s.nodes + [n])) + NodesBytes(s.nodes) + NodeBytes(n)
  {
    hide NodeBytes, HeaderBytes;
    assert NodesBytes([n]) == NodeBytes(n);
    NodesBytesConcat(s.nodes, [n]);
  }

  lemma SameHeader(s: Snapshot, t: Snapshot)
    requires |s.nodes| == |t.nodes| && |s.edges| == |t.edges| && s.lamport == t.lamport
    ensures HeaderBytes(s) == HeaderBytes(t)
  {
  }

  /**
   The text of the last node is cut silently: decoding succeeds, with the text shortened to its length modulo
   65536, as soon as what is left of it is UTF-8.
   */
  lemma LastTextIsCut(s: Snapshot, id: Bytes32, at: U64, text: Bytes, weight: Bytes4)
    requires Encodable(s) && s.edges == [] && |s.nodes| < 0xFFFF_FFFF && Utf8(text[..|text| % 0x1_0000])
    ensures ParseSnapshot(SnapshotBytes(WithText(s, id, at, text, weight)))
              == Ok(WithText(s, id, at, text[..|text| % 0x1_0000], weight))
  {
    hide SnapshotBytes, ParseSnapshot, Utf8;
    TextBytesRunOver(s, id, at, text, weight);
    RoundTrip(WithText(s, id, at, text[..|text| % 0x1_0000], weight), text[|text| % 0x1_0000..]);
  }

  /** The limit is real: a text of 65536 bytes is written with length 0, and comes back empty, without an error. */
  lemma OverlongText(id: Bytes32, weight: Bytes4)
    ensures var s := WithText(Snapshot(0, [], []), id, 0, seq(65536, _ => 65), weight);
            var t := WithText(Snapshot(0, [], []), id, 0, [], weight);
            ParseSnapshot(SnapshotBytes(s)) == Ok(t) && s != t
  {
    var text := seq(65536, _ => 65);
    assert text[..|text| % 0x1_0000] == [];
    LastTextIsCut(Snapshot(0, [], []), id, 0, text, weight);
    hide SnapshotBytes, ParseSnapshot;
    var s, t := WithText(Snapshot(0, [], []), id, 0, text, weight), WithText(Snapshot(0, [], []), id, 0, [], weight);
    assert s.nodes[0] != t.nodes[0];
  }
}
