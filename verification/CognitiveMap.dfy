/** The cognitive map's anomaly clusters: built online, one observation at a time, per region. */
module CognitiveMap {
  import opened Common

  datatype Anomaly = Anomaly(at: nat, node: LineageId, specialization: Specialization, isDamage: bool)

  datatype Cluster = Cluster(
    startedAt: nat,
    lastObservedAt: nat,
    nodes: seq<LineageId>,
    specializations: seq<Specialization>,
    damageCount: nat)

  predicate Open(c: Cluster, now: nat, window: nat) {
    Elapsed(c.lastObservedAt, now) <= window
  }

  /** The last cluster the anomaly can still extend. */
  function LastOpen(cs: seq<Cluster>, now: nat, window: nat): (r: Option<nat>)
    ensures r.Some? ==> r.value < |cs| && Open(cs[r.value], now, window)
    ensures forall i :: 0 <= i < |cs| && (r == None || r.value < i) ==> !Open(cs[i], now, window)
  {
    if cs == [] then None
    else if Open(cs[|cs| - 1], now, window) then Some(|cs| - 1)
    else LastOpen(cs[..|cs| - 1], now, window)
  }

  function Extended(c: Cluster, a: Anomaly): Cluster {
    Cluster(c.startedAt, a.at, c.nodes + [a.node],
      if a.specialization in c.specializations then c.specializations else c.specializations + [a.specialization],
      if a.isDamage then c.damageCount + 1 else c.damageCount)
  }

  function Fresh(a: Anomaly): Cluster {
    Cluster(a.at, a.at, [a.node], [a.specialization], if a.isDamage then 1 else 0)
  }

  function Record(cs: seq<Cluster>, a: Anomaly, window: nat): seq<Cluster> {
    match LastOpen(cs, a.at, window)
    case Some(i) => cs[i := Extended(cs[i], a)]
    case None => cs + [Fresh(a)]
  }

  function ClustersAt(regions: map<Region, seq<Cluster>>, region: Region): seq<Cluster> {
    if region in regions then regions[region] else []
  }

  class AnomalyMap {
    const clusterWindow: nat
    var regions: map<Region, seq<Cluster>>

    constructor (clusterWindow: nat)
      ensures this.clusterWindow == clusterWindow && regions == map[]
    {
      this.clusterWindow := clusterWindow;
      regions := map[];
    }

    method RecordAnomaly(region: Region, a: Anomaly)
      modifies this
      ensures regions == old(regions)[region := Record(ClustersAt(old(regions), region), a, clusterWindow)]
    {
      var clusters := ClustersAt(regions, region);
      var i := |clusters|;
      while i > 0 && !Open(clusters[i - 1], a.at, clusterWindow)
        invariant 0 <= i <= |clusters|
        invariant forall j :: i <= j < |clusters| ==> !Open(clusters[j], a.at, clusterWindow)
      {
        i := i - 1;
      }
      if i > 0 {
        var c := clusters[i - 1];
        c := c.(lastObservedAt := a.at, nodes := c.nodes + [a.node]);
        if a.specialization !in c.specializations {
          c := c.(specializations := c.specializations + [a.specialization]);
        }
        if a.isDamage {
          c := c.(damageCount := c.damageCount + 1);
        }
        clusters := clusters[i - 1 := c];
      } else {
        clusters := clusters + [Cluster(a.at, a.at, [a.node], [a.specialization], if a.isDamage then 1 else 0)];
      }
      regions := regions[region := clusters];
    }
  }

  // ----- the batch reference -----

  /** The index of the first anomaly that comes more than a window after the one before it. */
  function FirstCut(es: seq<Anomaly>, window: nat): (k: nat)
    requires es != []
    ensures 1 <= k <= |es|
    ensures k < |es| ==> es[k].at - es[k - 1].at > window
  {
    if |es| == 1 || es[1].at - es[0].at > window then 1 else FirstCut(es[1..], window) + 1
  }

  /** The whole sequence of anomalies, cut at every gap longer than the window. */
  function Cut(es: seq<Anomaly>, window: nat): seq<seq<Anomaly>>
    decreases |es|
  {
    if es == [] then []
    else
      var k := FirstCut(es, window);
      [es[..k]] + Cut(es[k..], window)
  }

  function Nodes(es: seq<Anomaly>): seq<LineageId> {
    if es == [] then [] else Nodes(es[..|es| - 1]) + [es[|es| - 1].node]
  }

  /** Each specialization once, in order of first appearance. */
  function FirstSeen(es: seq<Anomaly>): seq<Specialization> {
    if es == [] then []
    else
      var seen, s := FirstSeen(es[..|es| - 1]), es[|es| - 1].specialization;
      if s in seen then seen else seen + [s]
  }

  function DamageCount(es: seq<Anomaly>): nat {
    if es == [] then 0 else DamageCount(es[..|es| - 1]) + if es[|es| - 1].isDamage then 1 else 0
  }

  function Summary(es: seq<Anomaly>): Cluster {
    if es == [] then Cluster(0, 0, [], [], 0)
    else Cluster(es[0].at, es[|es| - 1].at, Nodes(es), FirstSeen(es), DamageCount(es))
  }

  function Summaries(segments: seq<seq<Anomaly>>): (cs: seq<Cluster>)
    ensures |cs| == |segments| && forall i :: 0 <= i < |cs| ==> cs[i] == Summary(segments[i])
  {
    if segments == [] then [] else [Summary(segments[0])] + Summaries(segments[1..])
  }

  function Flatten(segments: seq<seq<Anomaly>>): seq<Anomaly> {
    if segments == [] then [] else segments[0] + Flatten(segments[1..])
  }

  // ----- what a summary says -----

  function Damaged(es: seq<Anomaly>): set<nat> {
    set i | 0 <= i < |es| && es[i].isDamage
  }

  lemma {:induction false} NodesAt(es: seq<Anomaly>)
    ensures |Nodes(es)| == |es| && forall i :: 0 <= i < |es| ==> Nodes(es)[i] == es[i].node
  {
    if es != [] { NodesAt(es[..|es| - 1]); }
  }

  lemma {:induction false} DamageIs(es: seq<Anomaly>)
    ensures DamageCount(es) == |Damaged(es)|
  {
    if es == [] {
      assert Damaged(es) == {};
    } else {
      var n := |es| - 1;
      DamageIs(es[..n]);
      assert Damaged(es) == Damaged(es[..n]) + if es[n].isDamage then {n} else {};
    }
  }

  /** The specialization is seen among the first n. */
  ghost predicate SeenBefore(es: seq<Anomaly>, s: Specialization, n: nat) {
    exists i :: 0 <= i < n && i < |es| && es[i].specialization == s
  }

  /** The specializations seen, each once, and none before one that was seen earlier. */
  ghost predicate InFirstOrder(es: seq<Anomaly>, seen: seq<Specialization>) {
    && (forall k, l :: 0 <= k < l < |seen| ==> seen[k] != seen[l])
    && (forall s :: s in seen <==> SeenBefore(es, s, |es|))
    && (forall k, l, j :: 0 <= k < l < |seen| && 0 <= j < |es| && es[j].specialization == seen[l] ==>
          SeenBefore(es, seen[k], j))
  }

  lemma {:induction false} FirstSeenInOrder(es: seq<Anomaly>)
    ensures InFirstOrder(es, FirstSeen(es))
  {
    if es != [] {
      var most, a := es[..|es| - 1], es[|es| - 1];
      FirstSeenInOrder(most);
      assert most + [a] == es;
      OneMoreSeen(most, a, FirstSeen(most));
    }
  }

  lemma OneMoreSeen(es: seq<Anomaly>, a: Anomaly, seen: seq<Specialization>)
    requires InFirstOrder(es, seen)
    ensures InFirstOrder(es + [a], if a.specialization in seen then seen else seen + [a.specialization])
  {
    var all, s := es + [a], a.specialization;
    var more := if s in seen then seen else seen + [s];
    forall x, n: nat | n <= |es| ensures SeenBefore(all, x, n) <==> SeenBefore(es, x, n) {
      SeenAlike(es, a, x, n);
    }
    forall x ensures SeenBefore(all, x, |all|) <==> SeenBefore(es, x, |es|) || x == s {
      SeenAtEnd(es, a, x);
    }
    hide SeenBefore;
    forall k, l, j | 0 <= k < l < |more| && 0 <= j < |all| && all[j].specialization == more[l]
      ensures SeenBefore(all, more[k], j)
    {
      assert more[k] == seen[k];
      if j < |es| {
        assert es[j] == all[j];
        SeenAt(es, j);
      }
    }
  }

  lemma SeenAt(es: seq<Anomaly>, j: nat)
    requires j < |es|
    ensures SeenBefore(es, es[j].specialization, |es|)
  {
  }

  lemma SeenAlike(es: seq<Anomaly>, a: Anomaly, x: Specialization, n: nat)
    requires n <= |es|
    ensures SeenBefore(es + [a], x, n) <==> SeenBefore(es, x, n)
  {
    var all := es + [a];
    if i :| 0 <= i < n && i < |es| && es[i].specialization == x { assert all[i].specialization == x; }
  }

  lemma SeenAtEnd(es: seq<Anomaly>, a: Anomaly, x: Specialization)
    ensures SeenBefore(es + [a], x, |es| + 1) <==> SeenBefore(es, x, |es|) || x == a.specialization
  {
    var all := es + [a];
    assert all[|es|] == a;
    if i :| 0 <= i < |es| && es[i].specialization == x { assert all[i].specialization == x; }
  }

  /**
   What a cluster says of the anomalies in it: when the first and the last came, their nodes in order, the
   specializations in the order they were seen first, and how many saw damage.
   */
  lemma SummaryIs(es: seq<Anomaly>)
    requires es != []
    ensures var c := Summary(es);
            && c.startedAt == es[0].at && c.lastObservedAt == es[|es| - 1].at
            && |c.nodes| == |es| && (forall i :: 0 <= i < |es| ==> c.nodes[i] == es[i].node)
            && InFirstOrder(es, c.specializations) && c.damageCount == |Damaged(es)|
  {
    NodesAt(es);
    FirstSeenInOrder(es);
    DamageIs(es);
    hide InFirstOrder, Damaged, DamageCount, FirstSeen, Nodes;
  }

  predicate Together(es: seq<Anomaly>, window: nat) {
    forall i :: 1 <= i < |es| ==> es[i].at - es[i - 1].at <= window
  }

  predicate Apart(es: seq<Anomaly>, next: seq<Anomaly>, window: nat) {
    es != [] && next != [] && next[0].at - es[|es| - 1].at > window
  }

  predicate IsSegmentation(segments: seq<seq<Anomaly>>, window: nat) {
    segments != [] ==>
      && segments[0] != [] && Together(segments[0], window)
      && (|segments| > 1 ==> Apart(segments[0], segments[1], window))
      && IsSegmentation(segments[1..], window)
  }

  lemma {:induction false} FirstCutTogether(es: seq<Anomaly>, window: nat)
    requires es != []
    ensures Together(es[..FirstCut(es, window)], window)
  {
    var k := FirstCut(es, window);
    if k > 1 {
      FirstCutTogether(es[1..], window);
      var head, rest := es[..k], es[1..][..k - 1];
      assert forall i :: 1 <= i < |head| ==> head[i] == rest[i - 1];
      forall i | 1 <= i < |head| ensures head[i].at - head[i - 1].at <= window {
        if i > 1 { assert rest[i - 1].at - rest[i - 2].at <= window; }
      }
    }
  }

  /** The pieces are non-empty, in order make up the sequence, and are cut at the long gaps and only there. */
  lemma CutIsSegmentation(es: seq<Anomaly>, window: nat)
    ensures IsSegmentation(Cut(es, window), window) && Flatten(Cut(es, window)) == es
  {
    CutAtGaps(es, window);
    CutFlattens(es, window);
  }

  /** A segmentation of the rest, behind a first segment that holds together and ends at a gap. */
  lemma SegmentsAfter(first: seq<Anomaly>, more: seq<seq<Anomaly>>, window: nat)
    requires first != [] && Together(first, window) && IsSegmentation(more, window)
    requires more != [] ==> Apart(first, more[0], window)
    ensures IsSegmentation([first] + more, window)
  {
    hide Together, Apart;
    assert ([first] + more)[1..] == more;
  }

  lemma {:induction false} CutAtGaps(es: seq<Anomaly>, window: nat)
    ensures IsSegmentation(Cut(es, window), window)
    ensures es == [] ==> Cut(es, window) == []
    ensures es != [] ==> Cut(es, window) != [] && Cut(es, window)[0] != [] && Cut(es, window)[0][0] == es[0]
    decreases |es|
  {
    if es == [] {
    } else {
      var k := FirstCut(es, window);
      var first, rest := es[..k], es[k..];
      CutAt(es, k, window);
      FirstCutTogether(es, window);
      GapAfter(es, window);
      CutAtGaps(rest, window);
      hide Together, FirstCut, Cut, IsSegmentation, Apart;
      var more := Cut(rest, window);
      if more != [] { StillApart(first, rest, more[0], window); }
      SegmentsAfter(first, more, window);
    }
  }

  lemma GapAfter(es: seq<Anomaly>, window: nat)
    requires es != []
    ensures var k := FirstCut(es, window); k < |es| ==> Apart(es[..k], es[k..], window)
  {
  }

  /** Only the first of what follows counts. */
  lemma StillApart(first: seq<Anomaly>, rest: seq<Anomaly>, next: seq<Anomaly>, window: nat)
    requires rest != [] && Apart(first, rest, window) && next != [] && next[0] == rest[0]
    ensures Apart(first, next, window)
  {
  }

  lemma {:induction false} CutFlattens(es: seq<Anomaly>, window: nat)
    ensures Flatten(Cut(es, window)) == es
    decreases |es|
  {
    if es == [] {
    } else {
      var k := FirstCut(es, window);
      CutAt(es, k, window);
      hide FirstCut, Cut;
      CutFlattens(es[k..], window);
      FlattenFirst(es[..k], Cut(es[k..], window));
      assert es[..k] + es[k..] == es;
    }
  }

  lemma FlattenFirst(first: seq<Anomaly>, more: seq<seq<Anomaly>>)
    ensures Flatten([first] + more) == first + Flatten(more)
  {
    assert ([first] + more)[1..] == more;
  }

  // ----- online is batch -----

  ghost predicate InOrder(es: seq<Anomaly>) {
    forall i, j :: 0 <= i < j < |es| ==> es[i].at <= es[j].at
  }

  function Online(es: seq<Anomaly>, window: nat): seq<Cluster> {
    if es == [] then [] else Record(Online(es[..|es| - 1], window), es[|es| - 1], window)
  }

  lemma {:induction false} FirstCutSnoc(es: seq<Anomaly>, a: Anomaly, window: nat)
    requires es != []
    ensures var k := FirstCut(es, window);
            FirstCut(es + [a], window)
              == if k == |es| && a.at - es[|es| - 1].at <= window then k + 1 else k
  {
    if |es| == 1 {
      assert (es + [a])[1..] == [a];
    } else if es[1].at - es[0].at <= window {
      FirstCutSnoc(es[1..], a, window);
      assert (es + [a])[1..] == es[1..] + [a];
    }
  }

  /** One more anomaly goes to the last segment, or starts one. */
  function Appended(segments: seq<seq<Anomaly>>, a: Anomaly, gap: bool): seq<seq<Anomaly>> {
    if segments == [] then [[a]]
    else if |segments| > 1 then [segments[0]] + Appended(segments[1..], a, gap)
    else if gap then [segments[0], [a]]
    else [segments[0] + [a]]
  }

  lemma CutWhole(es: seq<Anomaly>, window: nat)
    requires es != [] && FirstCut(es, window) == |es|
    ensures Cut(es, window) == [es]
  {
    assert es[..|es|] == es && Cut(es[|es|..], window) == [];
  }

  lemma CutAt(es: seq<Anomaly>, k: nat, window: nat)
    requires es != [] && FirstCut(es, window) == k
    ensures Cut(es, window) == [es[..k]] + Cut(es[k..], window)
  {
  }

  lemma AppendedAfter(first: seq<Anomaly>, more: seq<seq<Anomaly>>, a: Anomaly, gap: bool)
    requires more != []
    ensures Appended([first] + more, a, gap) == [first] + Appended(more, a, gap)
  {
  }

  lemma CutSnocWhole(es: seq<Anomaly>, a: Anomaly, window: nat)
    requires es != [] && FirstCut(es, window) == |es|
    ensures Cut(es + [a], window) == Appended([es], a, a.at - es[|es| - 1].at > window)
  {
    var k, all := |es|, es + [a];
    FirstCutSnoc(es, a, window);
    hide Cut, FirstCut;
    if a.at - es[k - 1].at > window {
      CutAt(all, k, window);
      CutWhole([a], window) by { assert FirstCut([a], window) == 1; }
      assert all[..k] == es && all[k..] == [a];
    } else {
      CutWhole(all, window);
    }
  }

  lemma CutSnocLater(es: seq<Anomaly>, k: nat, a: Anomaly, window: nat)
    requires es != [] && k == FirstCut(es, window) < |es|
    ensures Cut(es + [a], window) == [es[..k]] + Cut(es[k..] + [a], window)
  {
    var all := es + [a];
    FirstCutSnoc(es, a, window);
    hide Cut, FirstCut;
    CutAt(all, k, window);
    assert all[..k] == es[..k] && all[k..] == es[k..] + [a];
  }

  lemma {:induction false} CutSnoc(es: seq<Anomaly>, a: Anomaly, window: nat)
    requires es != []
    ensures Cut(es, window) != []
    ensures Cut(es + [a], window) == Appended(Cut(es, window), a, a.at - es[|es| - 1].at > window)
    decreases |es|
  {
    var k := FirstCut(es, window);
    hide Cut, FirstCut, Appended;
    if k < |es| {
      CutSnoc(es[k..], a, window);
      CutSnocLater(es, k, a, window);
      CutAt(es, k, window);
      AppendedAfter(es[..k], Cut(es[k..], window), a, a.at - es[|es| - 1].at > window);
    } else {
      CutWhole(es, window);
      CutSnocWhole(es, a, window);
    }
  }

  lemma {:induction false} SegmentsEndBy(es: seq<Anomaly>, window: nat, now: nat)
    requires forall i :: 0 <= i < |es| ==> es[i].at <= now
    ensures forall i :: 0 <= i < |Cut(es, window)| ==> Summary(Cut(es, window)[i]).lastObservedAt <= now
    decreases |es|
  {
    if es != [] {
      var k := FirstCut(es, window);
      SegmentsEndBy(es[k..], window, now);
      assert Cut(es, window)[1..] == Cut(es[k..], window);
    }
  }

  lemma {:induction false} LastEndsAtEnd(es: seq<Anomaly>, window: nat)
    requires es != []
    ensures var cut := Cut(es, window);
            cut != [] && cut[|cut| - 1] != [] && Summary(cut[|cut| - 1]).lastObservedAt == es[|es| - 1].at
    decreases |es|
  {
    var k := FirstCut(es, window);
    if k < |es| { LastEndsAtEnd(es[k..], window); }
  }

  lemma SummaryOn(es: seq<Anomaly>, a: Anomaly)
    ensures Summary(es + [a]) == if es == [] then Fresh(a) else Extended(Summary(es), a)
  {
    assert (es + [a])[..|es|] == es;
    if es == [] {
      assert es + [a] == [a];
      assert [a][..0] == [] && FirstSeen([a]) == [a.specialization] && Nodes([a]) == [a.node];
      assert DamageCount([a]) == if a.isDamage then 1 else 0;
    }
  }

  /** How the summaries change when the segments do. */
  lemma {:induction false} SummariesAppended(cut: seq<seq<Anomaly>>, a: Anomaly, gap: bool)
    requires cut != [] && cut[|cut| - 1] != []
    ensures var cs, last := Summaries(cut), |cut| - 1;
            Summaries(Appended(cut, a, gap)) == if gap then cs + [Fresh(a)] else cs[last := Extended(cs[last], a)]
  {
    hide Summary, Extended, Fresh;
    if |cut| > 1 {
      SummariesAppended(cut[1..], a, gap);
    } else {
      SummaryOn([], a);
      assert [] + [a] == [a];
      SummaryOn(cut[0], a);
    }
  }

  /** When the last cluster was seen last, it is the one to extend or none is. */
  lemma RecordAtEnd(cs: seq<Cluster>, a: Anomaly, window: nat)
    requires cs != [] && cs[|cs| - 1].lastObservedAt <= a.at
    requires forall i :: 0 <= i < |cs| ==> cs[i].lastObservedAt <= cs[|cs| - 1].lastObservedAt
    ensures var last := |cs| - 1;
            Record(cs, a, window)
              == if a.at - cs[last].lastObservedAt > window then cs + [Fresh(a)] else cs[last := Extended(cs[last], a)]
  {
    hide Extended, Fresh;
    var last := |cs| - 1;
    assert Open(cs[last], a.at, window) <==> a.at - cs[last].lastObservedAt <= window;
    if a.at - cs[last].lastObservedAt > window {
      assert forall i :: 0 <= i < |cs| ==> !Open(cs[i], a.at, window);
    }
  }

  lemma FirstRecord(a: Anomaly, window: nat)
    ensures Record([], a, window) == Summaries(Cut([a], window))
  {
    assert [] + [a] == [a];
    CutWhole([a], window);
    SummaryOn([], a);
    assert Summaries([[a]]) == [Fresh(a)];
  }

  /** In time order only the last cluster can be extended, and it is when the gap is within the window. */
  lemma RecordOnSummaries(es: seq<Anomaly>, a: Anomaly, window: nat)
    requires InOrder(es + [a])
    ensures Record(Summaries(Cut(es, window)), a, window) == Summaries(Cut(es + [a], window))
  {
    if es == [] {
      assert [] + [a] == [a];
      FirstRecord(a, window);
    } else {
      BeforeAnd(es, a);
      hide InOrder, Cut, Record, Extended, Fresh, FirstCut, Appended;
      CutSnoc(es, a, window);
      SegmentsEndBy(es, window, es[|es| - 1].at);
      LastEndsAtEnd(es, window);
      hide Summary;
      SummariesAppended(Cut(es, window), a, a.at - es[|es| - 1].at > window);
      RecordAtEnd(Summaries(Cut(es, window)), a, window);
    }
  }

  lemma BeforeAnd(es: seq<Anomaly>, a: Anomaly)
    requires es != [] && InOrder(es + [a])
    ensures forall i :: 0 <= i < |es| ==> es[i].at <= es[|es| - 1].at <= a.at
    ensures InOrder(es)
  {
    var all := es + [a];
    assert forall i :: 0 <= i < |es| ==> all[i] == es[i];
    assert all[|es|] == a;
  }

  /** The clusters built one anomaly at a time are the batch segments, each summed up. */
  lemma {:induction false} OnlineIsBatch(es: seq<Anomaly>, window: nat)
    requires InOrder(es)
    ensures Online(es, window) == Summaries(Cut(es, window))
  {
    if es == [] {
    } else {
      var most := es[..|es| - 1];
      assert most + [es[|es| - 1]] == es;
      if most != [] { BeforeAnd(most, es[|es| - 1]); }
      hide InOrder, Record, Cut;
      OnlineIsBatch(most, window);
      RecordOnSummaries(most, es[|es| - 1], window);
    }
  }

  // ----- several regions -----

  function After(es: seq<(Region, Anomaly)>, window: nat): map<Region, seq<Cluster>> {
    if es == [] then map[]
    else
      var regions, (r, a) := After(es[..|es| - 1], window), es[|es| - 1];
      regions[r := Record(ClustersAt(regions, r), a, window)]
  }

  function Only(es: seq<(Region, Anomaly)>, region: Region): seq<Anomaly> {
    if es == [] then []
    else Only(es[..|es| - 1], region) + if es[|es| - 1].0 == region then [es[|es| - 1].1] else []
  }

  /** However calls on other regions are interleaved, a region's clusters are those of its own anomalies. */
  lemma RegionIsBatch(es: seq<(Region, Anomaly)>, window: nat, region: Region)
    requires InOrder(Only(es, region))
    ensures ClustersAt(After(es, window), region) == Summaries(Cut(Only(es, region), window))
  {
    RegionIsOnline(es, window, region);
    OnlineIsBatch(Only(es, region), window);
  }

  lemma {:induction false} RegionIsOnline(es: seq<(Region, Anomaly)>, window: nat, region: Region)
    ensures ClustersAt(After(es, window), region) == Online(Only(es, region), window)
  {
    if es == [] {
    } else {
      var most := es[..|es| - 1];
      RegionIsOnline(most, window, region);
      if es[|es| - 1].0 == region {
        var own := Only(es, region);
        assert own[..|own| - 1] == Only(most, region);
      } else {
        assert Only(es, region) == Only(most, region);
      }
    }
  }
}
