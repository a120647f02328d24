/** Conflict resolution between two concurrent versions of one node. */
module Conflicts {
  import opened Common
  import opened VectorClocks

  datatype ContextEdge = ContextEdge(target: LineageId, weight: real, kind: nat)

  datatype Distribution = Distribution(mean: real, variance: real, observations: nat)

  datatype Node = Node(
    id: LineageId,
    version: nat,
    hardViolation: bool,
    comprehension: Distribution,
    resolution: Distribution,
    verification: Distribution,
    context: seq<ContextEdge>,
    content: nat)

  datatype Conflict = Conflict(lineage: LineageId, local: Node, localClock: Clock, remote: Node, remoteClock: Clock)

  datatype Strategy = LastWriterWins | BranchAndSurface | CrdtMerge

  datatype Resolution = Resolved(winner: Node, strategy: Strategy) | Branched(branchA: Node, branchB: Node)

  function SelectStrategy(local: Node, remote: Node): Strategy {
    if local.hardViolation || remote.hardViolation then BranchAndSurface
    else if local.version == remote.version then CrdtMerge
    else LastWriterWins
  }

  function Observations(n: Node): nat {
    n.comprehension.observations + n.resolution.observations + n.verification.observations
  }

  function Weighted(a: real, b: real, n: nat, m: nat): real
    requires n + m > 0
  {
    a * (n as real / (n + m) as real) + b * (m as real / (n + m) as real)
  }

  function MergeConfidence(local: Node, remote: Node): Node {
    var n, m := Observations(local), Observations(remote);
    if n + m == 0 then local
    else
      local.(
        comprehension :=
          local.comprehension.(mean := Weighted(local.comprehension.mean, remote.comprehension.mean, n, m)),
        resolution := local.resolution.(mean := Weighted(local.resolution.mean, remote.resolution.mean, n, m)),
        verification := local.verification.(mean := Weighted(local.verification.mean, remote.verification.mean, n, m)))
  }

  function Targets(es: seq<ContextEdge>): set<LineageId> {
    set e | e in es :: e.target
  }

  /** Remote edges are added unless their target is already there, including by an earlier addition. */
  function MergeEdges(local: seq<ContextEdge>, remote: seq<ContextEdge>): seq<ContextEdge>
    decreases |remote|
  {
    if remote == [] then local
    else if remote[0].target in Targets(local) then MergeEdges(local, remote[1..])
    else MergeEdges(local + [remote[0]], remote[1..])
  }

  function Resolve(local: Node, remote: Node): Resolution {
    match SelectStrategy(local, remote)
    case LastWriterWins =>
      Resolved(if local.version > remote.version then local
               else if remote.version > local.version then remote
               else if local.id.uuid >= remote.id.uuid then local
               else remote,
               LastWriterWins)
    case BranchAndSurface => Branched(local, remote)
    case CrdtMerge =>
      Resolved(MergeConfidence(local, remote).(context := MergeEdges(local.context, remote.context)), CrdtMerge)
  }

  method ResolveConflict(c: Conflict) returns (r: Resolution)
    ensures r == Resolve(c.local, c.remote)
  {
    var strategy := SelectStrategy(c.local, c.remote);
    match strategy
    case LastWriterWins =>
      var winner := c.remote;
      if c.local.version > c.remote.version {
        winner := c.local;
      } else if c.remote.version <= c.local.version && c.local.id.uuid >= c.remote.id.uuid {
        winner := c.local;
      }
      r := Resolved(winner, LastWriterWins);
    case BranchAndSurface =>
      r := Branched(c.local, c.remote);
    case CrdtMerge =>
      var merged := MergeConfidence(c.local, c.remote);
      var edges := c.local.context;
      for i := 0 to |c.remote.context|
        invariant MergeEdges(edges, c.remote.context[i..]) == MergeEdges(c.local.context, c.remote.context)
      {
        var e := c.remote.context[i];
        assert c.remote.context[i..][1..] == c.remote.context[i + 1..];
        if e.target !in Targets(edges) {
          edges := edges + [e];
        }
      }
      assert c.remote.context[|c.remote.context|..] == [];
      r := Resolved(merged.(context := edges), CrdtMerge);
  }

  /** The add-wins set: no target is lost, the local edges stay as they are, and nothing is added twice. */
  lemma {:induction false} MergeEdgesUnion(local: seq<ContextEdge>, remote: seq<ContextEdge>)
    ensures local <= MergeEdges(local, remote)
    ensures Targets(MergeEdges(local, remote)) == Targets(local) + Targets(remote)
    ensures forall e <- MergeEdges(local, remote)[|local|..] :: e in remote && e.target !in Targets(local)
    ensures forall i, j :: |local| <= i < j < |MergeEdges(local, remote)| ==>
              MergeEdges(local, remote)[i].target != MergeEdges(local, remote)[j].target
    decreases |remote|
  {
    if remote != [] {
      var e, rest := remote[0], remote[1..];
      assert remote == [e] + rest;
      assert Targets(remote) == {e.target} + Targets(rest);
      if e.target in Targets(local) {
        MergeEdgesUnion(local, rest);
      } else {
        MergeEdgesUnion(local + [e], rest);
        assert Targets(local + [e]) == Targets(local) + {e.target};
        var m := MergeEdges(local + [e], rest);
        assert m[..|local|] == local && m[|local|] == e;
        assert m[|local|..] == [e] + m[|local + [e]|..];
      }
    } else {
      assert Targets(remote) == {};
    }
  }

  /** Both replicas pick the same winner of a last-writer conflict, and it is the newer version. */
  lemma LastWriterConverges(a: Node, b: Node)
    requires SelectStrategy(a, b) == LastWriterWins
    ensures Resolve(a, b) == Resolve(b, a)
    ensures Resolve(a, b).winner.version == Max(a.version, b.version)
  {
  }

  predicate SameMeans(a: Node, b: Node) {
    && a.comprehension.mean == b.comprehension.mean && a.resolution.mean == b.resolution.mean
    && a.verification.mean == b.verification.mean
  }

  /** A merged mean lies between the two it merges. */
  lemma WeightedBetween(a: real, b: real, n: nat, m: nat)
    requires n + m > 0 && a <= b
    ensures a <= Weighted(a, b, n, m) <= b
  {
    var p, q := n as real / (n + m) as real, m as real / (n + m) as real;
    assert p + q == 1.0 by {
      assert n as real + m as real == (n + m) as real;
    }
    assert a * p + b * q == a + (b - a) * q == b - (b - a) * p;
    assert p >= 0.0 && q >= 0.0;
    ProductNonnegative(b - a, q);
    ProductNonnegative(b - a, p);
  }

  lemma ProductNonnegative(x: real, y: real)
    requires x >= 0.0 && y >= 0.0
    ensures x * y >= 0.0
  {
  }

  // ----- what a structural merge leaves -----

  lemma DifferenceStays(a: real, b: real, n: nat, m: nat)
    requires n + m > 0
    ensures Weighted(a, b, n, m) == a <==> m == 0 || a == b
    ensures Weighted(a, b, n, m) == b <==> n == 0 || a == b
    ensures Weighted(a, b, n, m) == Weighted(b, a, m, n)
  {
    var p, q := n as real / (n + m) as real, m as real / (n + m) as real;
    assert p + q == 1.0 by {
      assert n as real + m as real == (n + m) as real;
    }
    assert q == 0.0 <==> m == 0;
    assert p == 0.0 <==> n == 0;
    assert Weighted(a, b, n, m) - a == (b - a) * q;
    assert Weighted(a, b, n, m) - b == (a - b) * p;
    ZeroProduct(b - a, q);
    ZeroProduct(a - b, p);
  }

  lemma ZeroProduct(x: real, y: real)
    ensures x * y == 0.0 <==> x == 0.0 || y == 0.0
  {
  }

  /** The second list is the first with edges to new targets behind it. */
  predicate Extends(es: seq<ContextEdge>, fs: seq<ContextEdge>) {
    es <= fs && forall i, j :: 0 <= i < j < |fs| && |es| <= j ==> fs[i].target != fs[j].target
  }

  lemma {:induction false} MergeNothingNew(es: seq<ContextEdge>, fs: seq<ContextEdge>)
    ensures MergeEdges(es, fs) == es <==> Targets(fs) <= Targets(es)
    decreases |fs|
  {
    MergeEdgesUnion(es, fs);
    if Targets(fs) <= Targets(es) && fs != [] {
      assert fs[0] in fs && fs[0].target in Targets(fs);
      assert Targets(fs[1..]) <= Targets(fs);
      MergeNothingNew(es, fs[1..]);
    }
  }

  /** Merging passes over what is there already. */
  lemma {:induction false} MergeSkips(es: seq<ContextEdge>, fs: seq<ContextEdge>, gs: seq<ContextEdge>)
    requires Targets(fs) <= Targets(es)
    ensures MergeEdges(es, fs + gs) == MergeEdges(es, gs)
    decreases |fs|
  {
    if fs == [] {
      assert fs + gs == gs;
    } else {
      assert fs[0] in fs && fs[0].target in Targets(fs);
      assert Targets(fs[1..]) <= Targets(fs);
      assert (fs + gs)[1..] == fs[1..] + gs;
      MergeSkips(es, fs[1..], gs);
    }
  }

  lemma {:induction false} MergeAppends(es: seq<ContextEdge>, gs: seq<ContextEdge>)
    requires Extends(es, es + gs)
    ensures MergeEdges(es, gs) == es + gs
    decreases |gs|
  {
    if gs == [] {
    } else {
      var all := es + gs;
      forall e | e in es ensures e.target != gs[0].target {
        var i :| 0 <= i < |es| && es[i] == e;
        assert all[i] == e && all[|es|] == gs[0];
      }
      assert (es + [gs[0]]) + gs[1..] == all;
      MergeAppends(es + [gs[0]], gs[1..]);
    }
  }

  /** The remote context is the outcome exactly when it extends the local one. */
  lemma MergeTakesRemote(es: seq<ContextEdge>, fs: seq<ContextEdge>)
    ensures MergeEdges(es, fs) == fs <==> Extends(es, fs)
  {
    if MergeEdges(es, fs) == fs { TailTargetsNew(es, fs); }
    if Extends(es, fs) {
      var gs := fs[|es|..];
      assert fs == es + gs;
      MergeSkips(es, es, gs);
      MergeAppends(es, gs);
    }
  }

  lemma TailTargetsNew(es: seq<ContextEdge>, fs: seq<ContextEdge>)
    requires MergeEdges(es, fs) == fs
    ensures Extends(es, fs)
  {
    MergeEdgesUnion(es, fs);
    forall i, j | 0 <= i < j < |fs| && |es| <= j
      ensures fs[i].target != fs[j].target
    {
      if i < |es| {
        assert fs[j] == fs[|es|..][j - |es|];
        assert fs[i] in es;
      }
    }
  }

  /** A weighted sum, times the total weight. */
  lemma WeightedIs(a: real, b: real, n: nat, m: nat)
    requires n + m > 0
    ensures (n + m) as real * Weighted(a, b, n, m) == n as real * a + m as real * b
  {
    var k, p, q := (n + m) as real, n as real / (n + m) as real, m as real / (n + m) as real;
    assert k * p == n as real && k * q == m as real;
    assert k * (a * p + b * q) == a * (k * p) + b * (k * q);
  }

  /**
   Each mean of a structural merge is the mean over all observations of both versions: weighted by how many
   there were on each side, comprehension, resolution and verification counted together. With none it stays
   the local one.
   */
  lemma MergedMeans(local: Node, remote: Node)
    requires !local.hardViolation && !remote.hardViolation && local.version == remote.version
    ensures var n := local.comprehension.observations + local.resolution.observations
                     + local.verification.observations;
            var m := remote.comprehension.observations + remote.resolution.observations
                     + remote.verification.observations;
            var w := Settlement(local, remote);
            && (n + m) as real * w.comprehension.mean
               == n as real * local.comprehension.mean + m as real * remote.comprehension.mean
            && (n + m) as real * w.resolution.mean
               == n as real * local.resolution.mean + m as real * remote.resolution.mean
            && (n + m) as real * w.verification.mean
               == n as real * local.verification.mean + m as real * remote.verification.mean
            && (n + m == 0 ==> SameMeans(w, local))
  {
    hide Weighted, MergeEdges;
    var n, m := Observations(local), Observations(remote);
    if n + m > 0 {
      WeightedIs(local.comprehension.mean, remote.comprehension.mean, n, m);
      WeightedIs(local.resolution.mean, remote.resolution.mean, n, m);
      WeightedIs(local.verification.mean, remote.verification.mean, n, m);
    } else {
      assert n == 0 && m == 0 && Settlement(local, remote) == local.(context := Settlement(local, remote).context);
    }
  }

  /**
   Which of the rules applies, and what else the outcome is: with a hard violation on either side both versions,
   local first; with different versions the later one; with the same version the local node but for means and
   context.
   */
  lemma ResolutionIs(local: Node, remote: Node)
    ensures local.hardViolation || remote.hardViolation ==> Resolve(local, remote) == Branched(local, remote)
    ensures !local.hardViolation && !remote.hardViolation && local.version != remote.version ==>
              Resolve(local, remote)
                == Resolved(if local.version > remote.version then local else remote, LastWriterWins)
    ensures !local.hardViolation && !remote.hardViolation && local.version == remote.version ==>
              var w := Settlement(local, remote);
              && Resolve(local, remote) == Resolved(w, CrdtMerge)
              && SameRecord(w, local) && local.context <= w.context
  {
    MergedRecord(local, remote);
    MergeEdgesUnion(local.context, remote.context);
    hide MergeEdges, MergeConfidence;
  }

  /** Nothing but the means and the context tells the two versions apart. */
  predicate SameRecord(a: Node, b: Node) {
    && a.id == b.id && a.version == b.version && a.hardViolation == b.hardViolation && a.content == b.content
    && SameCounts(a.comprehension, b.comprehension) && SameCounts(a.resolution, b.resolution)
    && SameCounts(a.verification, b.verification)
  }

  predicate SameCounts(d: Distribution, e: Distribution) {
    d.variance == e.variance && d.observations == e.observations
  }

  lemma MergedRecord(a: Node, b: Node)
    ensures SameRecord(MergeConfidence(a, b), a) && MergeConfidence(a, b).context == a.context
    ensures SameMeans(MergeConfidence(a, b), a) <==> Observations(b) == 0 || SameMeans(a, b)
    ensures SameMeans(MergeConfidence(a, b), MergeConfidence(b, a))
       <==> Observations(a) + Observations(b) > 0 || SameMeans(a, b)
    ensures SameMeans(MergeConfidence(a, b), b) <==> (Observations(a) == 0 && Observations(b) > 0) || SameMeans(a, b)
  {
    hide Weighted, Observations;
    var n, m := Observations(a), Observations(b);
    if n + m > 0 {
      DifferenceStays(a.comprehension.mean, b.comprehension.mean, n, m);
      DifferenceStays(a.resolution.mean, b.resolution.mean, n, m);
      DifferenceStays(a.verification.mean, b.verification.mean, n, m);
    }
  }

  lemma SameNode(a: Node, b: Node)
    ensures a == b <==> SameRecord(a, b) && SameMeans(a, b) && a.context == b.context
  {
  }

  /**
   Both replicas of a structural merge reach the same set of targets. They agree on the means exactly when
   somebody has observed something, or they agreed before: with no observations each side keeps its own. They
   end with the same node exactly when, besides, nothing but means and context differed and one context
   extends the other: content, counts, variances, and weight and kind towards a shared target stay local.
   */
  lemma StructuralMergeConverges(a: Node, b: Node)
    requires SelectStrategy(a, b) == CrdtMerge
    ensures var x, y := Resolve(a, b).winner, Resolve(b, a).winner;
            && Targets(x.context) == Targets(y.context)
            && (SameMeans(x, y) <==> Observations(a) + Observations(b) > 0 || SameMeans(a, b))
            && (x == y <==>
                 && SameRecord(a, b) && (Observations(a) + Observations(b) > 0 || SameMeans(a, b))
                 && (Extends(a.context, b.context) || Extends(b.context, a.context)))
  {
    MergeEdgesUnion(a.context, b.context);
    MergeEdgesUnion(b.context, a.context);
    hide MergeEdges, MergeConfidence, SameRecord, SameMeans, Extends, Observations, Targets;
    MergedRecord(a, b);
    MergedRecord(b, a);
    SameContexts(a.context, b.context);
    var x, y := Resolve(a, b).winner, Resolve(b, a).winner;
    SameNode(x, y);
    WithContext(MergeConfidence(a, b), MergeEdges(a.context, b.context), a);
    WithContext(MergeConfidence(b, a), MergeEdges(b.context, a.context), b);
    RecordsMatch(x, y, a, b);
    MeansMatch(x, y, MergeConfidence(a, b), MergeConfidence(b, a));
  }

  lemma WithContext(n: Node, context: seq<ContextEdge>, a: Node)
    requires SameRecord(n, a)
    ensures SameRecord(n.(context := context), a) && SameMeans(n.(context := context), n)
  {
  }

  lemma RecordsMatch(x: Node, y: Node, a: Node, b: Node)
    requires SameRecord(x, a) && SameRecord(y, b)
    ensures SameRecord(x, y) <==> SameRecord(a, b)
  {
  }

  lemma MeansMatch(x: Node, y: Node, a: Node, b: Node)
    requires SameMeans(x, a) && SameMeans(y, b)
    ensures SameMeans(x, y) <==> SameMeans(a, b)
  {
  }

  lemma SameContexts(es: seq<ContextEdge>, fs: seq<ContextEdge>)
    ensures MergeEdges(es, fs) == MergeEdges(fs, es) <==> Extends(es, fs) || Extends(fs, es)
  {
    MergeTakesRemote(es, fs);
    MergeTakesRemote(fs, es);
    MergeNothingNew(es, fs);
    MergeNothingNew(fs, es);
    MergeEdgesUnion(es, fs);
    MergeEdgesUnion(fs, es);
    PrefixTargets(es, fs);
    PrefixTargets(fs, es);
    assert Extends(es, fs) ==> es <= fs;
    assert Extends(fs, es) ==> fs <= es;
    hide MergeEdges, Extends, Targets;
    if MergeEdges(es, fs) == MergeEdges(fs, es) {
      var m := MergeEdges(es, fs);
      assert es == m[..|es|] && fs == m[..|fs|];
      if |es| <= |fs| {
        assert es == fs[..|es|];
      } else {
        assert fs == es[..|fs|];
      }
    }
  }

  lemma PrefixTargets(es: seq<ContextEdge>, fs: seq<ContextEdge>)
    ensures es <= fs ==> Targets(es) <= Targets(fs)
  {
    if es <= fs {
      forall e | e in es ensures e in fs {
        var i :| 0 <= i < |es| && es[i] == e;
        assert fs[i] == e;
      }
    }
  }

  // ----- whose version stays -----

  predicate Branching(local: Node, remote: Node) {
    local.hardViolation || remote.hardViolation
  }

  /** The local version survives: the newer one, or one a merge has nothing to add to. */
  predicate LocalStays(local: Node, remote: Node) {
    if Branching(local, remote) then remote == local
    else if local.version != remote.version then local.version > remote.version
    else
      && Targets(remote.context) <= Targets(local.context)
      && (Observations(remote) == 0 || SameMeans(local, remote))
  }

  /** The remote version is taken as it is: branched, newer, or an extension of the local one. */
  predicate RemoteTaken(local: Node, remote: Node) {
    if Branching(local, remote) then true
    else if local.version != remote.version then remote.version > local.version
    else SameRecord(local, remote) && SameMeans(local, remote) && Extends(local.context, remote.context)
  }

  /** The version a resolved conflict puts in place. */
  function Settlement(local: Node, remote: Node): Node {
    match Resolve(local, remote)
    case Resolved(winner, _) => winner
    case Branched(_, b) => b
  }

  /** Resolution stays within the lineage, and leaves one of the two versions untouched exactly in these cases. */
  lemma SettlementIs(local: Node, remote: Node)
    requires local.id == remote.id
    ensures Settlement(local, remote) == local <==> LocalStays(local, remote)
    ensures Settlement(local, remote) == remote <==> RemoteTaken(local, remote)
    ensures Settlement(local, remote).id == local.id
  {
    if SelectStrategy(local, remote) == CrdtMerge {
      MergeSettlementIs(local, remote);
    }
  }

  lemma MergeSettlementIs(local: Node, remote: Node)
    requires local.id == remote.id && SelectStrategy(local, remote) == CrdtMerge
    ensures Settlement(local, remote) == local <==> LocalStays(local, remote)
    ensures Settlement(local, remote) == remote <==> RemoteTaken(local, remote)
    ensures Settlement(local, remote).id == local.id
  {
    hide MergeEdges, MergeConfidence, SameRecord, SameMeans, Extends, Targets, Observations;
    var c, m := MergeConfidence(local, remote), Settlement(local, remote);
    MergedRecord(local, remote);
    WithContext(c, MergeEdges(local.context, remote.context), local);
    MergeNothingNew(local.context, remote.context);
    MergeTakesRemote(local.context, remote.context);
    SameNode(m, local);
    SameNode(m, remote);
    SameNode(remote, remote);
    SameNode(local, local);
    RecordsMatch(m, remote, local, remote);
    MeansMatch(m, remote, c, remote);
    MeansMatch(m, local, c, local);
    CountsMatch(local, remote);
    SameIds(m, local);
  }

  lemma SameIds(a: Node, b: Node)
    requires SameRecord(a, b)
    ensures a.id == b.id
  {
  }

  lemma CountsMatch(a: Node, b: Node)
    ensures SameRecord(a, b) ==> Observations(a) == Observations(b)
  {
  }
}
