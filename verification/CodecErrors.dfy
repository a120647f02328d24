/**
 Bytes that are no fabric: which error decoding answers. What has been read does not depend on what follows, so only
 Truncated can be mended by more bytes.
 */
module CodecErrors {
  import opened Bytes
  import opened Codec

  /** An answer that more bytes do not change. */
  predicate Final<T>(r: Result<T>) {
    r.Ok? || r.error != Truncated
  }

  lemma LeStays(b: Bytes, c: Bytes, off: nat, n: nat)
    requires b <= c && Final(ParseLe(b, off, n))
    ensures ParseLe(c, off, n) == ParseLe(b, off, n)
  {
    if off + n <= |b| { assert c[off..off + n] == b[off..off + n]; }
  }

  lemma IntsStay(b: Bytes, c: Bytes, off: nat)
    requires b <= c
    ensures Final(ParseU8(b, off)) ==> ParseU8(c, off) == ParseU8(b, off)
    ensures Final(ParseU16(b, off)) ==> ParseU16(c, off) == ParseU16(b, off)
    ensures Final(ParseU32(b, off)) ==> ParseU32(c, off) == ParseU32(b, off)
    ensures Final(ParseU64(b, off)) ==> ParseU64(c, off) == ParseU64(b, off)
  {
    hide ParseLe;
    if Final(ParseU8(b, off)) { LeStays(b, c, off, 1); }
    if Final(ParseU16(b, off)) { LeStays(b, c, off, 2); }
    if Final(ParseU32(b, off)) { LeStays(b, c, off, 4); }
    if Final(ParseU64(b, off)) { LeStays(b, c, off, 8); }
  }

  lemma RawStays(b: Bytes, c: Bytes, off: nat, n: nat)
    requires b <= c && Final(ParseRaw(b, off, n))
    ensures ParseRaw(c, off, n) == ParseRaw(b, off, n)
  {
    if off + n <= |b| { assert c[off..off + n] == b[off..off + n]; }
  }

  lemma StrStays(b: Bytes, c: Bytes, off: nat)
    requires b <= c && Final(ParseStr(b, off))
    ensures ParseStr(c, off) == ParseStr(b, off)
  {
    hide ParseRaw, ParseU16, Utf8;
    IntsStay(b, c, off);
    var n := ParseU16(b, off);
    if n.Ok? { RawStays(b, c, n.value.1, n.value.0); }
  }

  /** Readers of one field each, behind one another. */
  lemma FieldStays(b: Bytes, c: Bytes)
    requires b <= c
    ensures forall off :: Final(ParseU8(b, off)) ==> ParseU8(c, off) == ParseU8(b, off)
    ensures forall off :: Final(ParseU16(b, off)) ==> ParseU16(c, off) == ParseU16(b, off)
    ensures forall off :: Final(ParseU32(b, off)) ==> ParseU32(c, off) == ParseU32(b, off)
    ensures forall off :: Final(ParseU64(b, off)) ==> ParseU64(c, off) == ParseU64(b, off)
    ensures forall off :: Final(ParseStr(b, off)) ==> ParseStr(c, off) == ParseStr(b, off)
    ensures forall off, n :: Final(ParseRaw(b, off, n)) ==> ParseRaw(c, off, n) == ParseRaw(b, off, n)
  {
    hide ParseU8, ParseU16, ParseU32, ParseU64, ParseStr, ParseRaw;
    forall off: nat
      ensures Final(ParseU8(b, off)) ==> ParseU8(c, off) == ParseU8(b, off)
      ensures Final(ParseU16(b, off)) ==> ParseU16(c, off) == ParseU16(b, off)
      ensures Final(ParseU32(b, off)) ==> ParseU32(c, off) == ParseU32(b, off)
      ensures Final(ParseU64(b, off)) ==> ParseU64(c, off) == ParseU64(b, off)
      ensures Final(ParseStr(b, off)) ==> ParseStr(c, off) == ParseStr(b, off)
    {
      IntsStay(b, c, off);
      if Final(ParseStr(b, off)) { StrStays(b, c, off); }
    }
    forall off: nat, n: nat ensures Final(ParseRaw(b, off, n)) ==> ParseRaw(c, off, n) == ParseRaw(b, off, n) {
      if Final(ParseRaw(b, off, n)) { RawStays(b, c, off, n); }
    }
  }

  lemma HardwareStays(b: Bytes, c: Bytes, off: nat, tag: U8)
    requires b <= c && tag < 5 && Final(ParseKind(b, off, tag))
    ensures ParseKind(c, off, tag) == ParseKind(b, off, tag)
  {
    hide ParseU8, ParseU16, ParseU32, ParseU64, ParseStr, ParseRaw;
    FieldStays(b, c);
  }

  lemma OtherStays(b: Bytes, c: Bytes, off: nat, tag: U8)
    requires b <= c && tag >= 5 && Final(ParseKind(b, off, tag))
    ensures ParseKind(c, off, tag) == ParseKind(b, off, tag)
  {
    hide ParseU8, ParseU16, ParseU32, ParseU64, ParseStr, ParseRaw;
    FieldStays(b, c);
  }

  lemma KindStays(b: Bytes, c: Bytes, off: nat, tag: U8)
    requires b <= c && Final(ParseKind(b, off, tag))
    ensures ParseKind(c, off, tag) == ParseKind(b, off, tag)
  {
    hide ParseKind;
    if tag < 5 { HardwareStays(b, c, off, tag); } else { OtherStays(b, c, off, tag); }
  }

  lemma NodeStays(b: Bytes, c: Bytes, off: nat)
    requires b <= c && Final(ParseNode(b, off))
    ensures ParseNode(c, off) == ParseNode(b, off)
  {
    hide ParseU8, ParseU16, ParseU32, ParseU64, ParseStr, ParseRaw, ParseKind;
    FieldStays(b, c);
    forall o: nat, tag: U8 ensures Final(ParseKind(b, o, tag)) ==> ParseKind(c, o, tag) == ParseKind(b, o, tag) {
      if Final(ParseKind(b, o, tag)) { KindStays(b, c, o, tag); }
    }
  }

  lemma EdgeStays(b: Bytes, c: Bytes, off: nat)
    requires b <= c && Final(ParseEdge(b, off))
    ensures ParseEdge(c, off) == ParseEdge(b, off)
  {
    hide ParseU8, ParseRaw;
    FieldStays(b, c);
  }

  lemma {:induction false} NodesStay(b: Bytes, c: Bytes, off: nat, count: nat, read: seq<Node>)
    requires b <= c && Final(ParseNodes(b, off, count, read))
    ensures ParseNodes(c, off, count, read) == ParseNodes(b, off, count, read)
    decreases count
  {
    hide ParseNode;
    if count > 0 {
      NodeStays(b, c, off);
      var n := ParseNode(b, off);
      if n.Ok? { NodesStay(b, c, n.value.1, count - 1, read + [n.value.0]); }
    }
  }

  lemma {:induction false} EdgesStay(b: Bytes, c: Bytes, off: nat, count: nat, read: seq<Edge>)
    requires b <= c && Final(ParseEdges(b, off, count, read))
    ensures ParseEdges(c, off, count, read) == ParseEdges(b, off, count, read)
    decreases count
  {
    hide ParseEdge;
    if count > 0 {
      EdgeStays(b, c, off);
      var e := ParseEdge(b, off);
      if e.Ok? { EdgesStay(b, c, e.value.1, count - 1, read + [e.value.0]); }
    }
  }

  /** Bytes that decode, or do not for another reason than being too few, go on doing so whatever is put behind them. */
  lemma AnswerStays(b: Bytes, c: Bytes)
    requires b <= c && Final(ParseSnapshot(b))
    ensures ParseSnapshot(c) == ParseSnapshot(b)
  {
    hide ParseU32, ParseU64, ParseNodes, ParseEdges;
    FieldStays(b, c);
    var n, m, l := ParseU32(b, 0), ParseU32(b, 4), ParseU64(b, 8);
    if n.Ok? && m.Ok? && l.Ok? {
      var ns := ParseNodes(b, l.value.1, n.value.0, []);
      NodesStay(b, c, l.value.1, n.value.0, []);
      if ns.Ok? { EdgesStay(b, c, ns.value.1, m.value.0, []); }
    }
  }

  /** A fabric's encoding cut short anywhere is answered Truncated. */
  lemma CutShort(s: Snapshot, b: Bytes)
    requires Encodable(s) && b < SnapshotBytes(s)
    ensures ParseSnapshot(b) == Err(Truncated)
  {
    hide ParseSnapshot, Encodable, SnapshotBytes;
    var c := SnapshotBytes(s);
    DecodesIff(c, s);
    DecodesIff(b, s);
    if Final(ParseSnapshot(b)) { AnswerStays(b, c); }
  }

  /** A string whose bytes are all there is answered by whether they are UTF-8, and one that is cut off by Truncated. */
  lemma StringAnswer(b: Bytes, off: nat)
    requires off + 2 <= |b|
    ensures var n := b[off] as nat + 256 * b[off + 1] as nat;
            ParseStr(b, off)
              == if off + 2 + n > |b| then Err(Truncated)
                 else if Utf8(b[off + 2..off + 2 + n]) then Ok((b[off + 2..off + 2 + n], off + 2 + n))
                 else Err(Unparseable)
  {
    hide Utf8;
    var two := b[off..off + 2];
    assert two[1..][0] == b[off + 1] && two[1..][1..] == [];
    assert FromLe(two[1..]) == b[off + 1] as nat;
    assert FromLe(two) == b[off] as nat + 256 * b[off + 1] as nat;
  }

  /** Content under a tag of twelve or more, and an edge under one of four or more, is answered Unparseable. */
  lemma UnknownTag(b: Bytes, off: nat, tag: U8)
    ensures tag >= 12 ==> ParseKind(b, off, tag) == Err(Unparseable)
    ensures off + 65 <= |b| && b[off + 64] >= 4 ==> ParseEdge(b, off) == Err(Unparseable)
  {
    if off + 65 <= |b| {
      var one := b[off + 64..off + 65];
      assert one[0] == b[off + 64] && one[1..] == [];
      assert FromLe(one) == b[off + 64] as nat;
      assert off + 32 + 32 == off + 64;
    }
  }
}
