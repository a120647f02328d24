/** Bounded undirected traversal of the fabric along edges of the given kinds. */
module Traversal {
  import opened Common
  import opened FabricGraph
  import opened FabricStore

  predicate Linking(es: seq<Edge>, v: LineageId, kinds: seq<Kind>) {
    exists e <- es :: e.target == v && e.kind in kinds
  }

  /** u and v are joined by an edge of one of the kinds, in either direction. */
  predicate Adjacent(g: Graph, kinds: seq<Kind>, u: LineageId, v: LineageId) {
    Linking(Out(g, u), v, kinds) || Linking(Out(g, v), u, kinds)
  }

  /** Spelled out: an edge is listed under one of them, leads to the other, and is of one of the kinds. */
  lemma AdjacentIs(g: Graph, kinds: seq<Kind>, u: LineageId, v: LineageId)
    ensures Adjacent(g, kinds, u, v) <==>
              || (u in g.edges && exists i, j :: 0 <= i < |g.edges[u]| && 0 <= j < |kinds|
                                                && g.edges[u][i].target == v && g.edges[u][i].kind == kinds[j])
              || (v in g.edges && exists i, j :: 0 <= i < |g.edges[v]| && 0 <= j < |kinds|
                                                && g.edges[v][i].target == u && g.edges[v][i].kind == kinds[j])
  {
  }

  function Neighbours(g: Graph, kinds: seq<Kind>, u: LineageId): set<LineageId> {
    set v | v in g.nodes && Adjacent(g, kinds, u, v)
  }

  function NeighboursOf(g: Graph, kinds: seq<Kind>, us: set<LineageId>): set<LineageId> {
    set u, v | u in us && v in Neighbours(g, kinds, u) :: v
  }

  /** The nodes at distance at most n from start. */
  function Ball(g: Graph, kinds: seq<Kind>, start: LineageId, n: nat): set<LineageId> {
    if n == 0 then {start}
    else Ball(g, kinds, start, n - 1) + NeighboursOf(g, kinds, Ball(g, kinds, start, n - 1))
  }

  /** A walk along edges of the kinds, from either end of each edge. */
  predicate IsWalk(g: Graph, kinds: seq<Kind>, p: seq<LineageId>) {
    && p != []
    && (|p| > 1 ==>
          var last := |p| - 1;
          p[last] in g.nodes && Adjacent(g, kinds, p[last - 1], p[last]) && IsWalk(g, kinds, p[..last]))
  }

  ghost predicate WalkTo(g: Graph, kinds: seq<Kind>, start: LineageId, n: nat, v: LineageId, p: seq<LineageId>) {
    IsWalk(g, kinds, p) && |p| <= n + 1 && p[0] == start && p[|p| - 1] == v
  }

  lemma WalkOn(g: Graph, kinds: seq<Kind>, start: LineageId, n: nat, u: LineageId, v: LineageId, p: seq<LineageId>)
    requires WalkTo(g, kinds, start, n, u, p) && v in Neighbours(g, kinds, u)
    ensures WalkTo(g, kinds, start, n + 1, v, p + [v])
  {
    hide Adjacent;
    assert (p + [v])[..|p|] == p;
  }

  lemma StayPut(g: Graph, kinds: seq<Kind>, start: LineageId)
    ensures WalkTo(g, kinds, start, 0, start, [start])
  {
  }

  lemma {:induction false} BallHasWalks(g: Graph, kinds: seq<Kind>, start: LineageId, n: nat, v: LineageId)
    requires v in Ball(g, kinds, start, n)
    ensures exists p :: WalkTo(g, kinds, start, n, v, p)
  {
    hide IsWalk, Adjacent, Neighbours;
    if n == 0 {
      StayPut(g, kinds, start);
    } else if v in Ball(g, kinds, start, n - 1) {
      BallHasWalks(g, kinds, start, n - 1, v);
      var p :| WalkTo(g, kinds, start, n - 1, v, p);
      assert WalkTo(g, kinds, start, n, v, p);
    } else {
      var u :| u in Ball(g, kinds, start, n - 1) && v in Neighbours(g, kinds, u);
      hide Ball, NeighboursOf;
      BallHasWalks(g, kinds, start, n - 1, u);
      var p :| WalkTo(g, kinds, start, n - 1, u, p);
      WalkOn(g, kinds, start, n - 1, u, v, p);
    }
  }

  lemma {:induction false} WalksStayInBall(
    g: Graph, kinds: seq<Kind>, start: LineageId, n: nat, v: LineageId, p: seq<LineageId>)
    requires WalkTo(g, kinds, start, n, v, p)
    ensures v in Ball(g, kinds, start, n)
  {
    hide Adjacent;
    if |p| > 1 {
      var q := p[..|p| - 1];
      var u := q[|q| - 1];
      WalksStayInBall(g, kinds, start, n - 1, u, q);
      assert v in Neighbours(g, kinds, u);
    } else if n > 0 {
      WalksStayInBall(g, kinds, start, n - 1, v, p);
    }
  }

  /** Being within distance n means there is a walk of at most n edges. */
  lemma BallIsWalks(g: Graph, kinds: seq<Kind>, start: LineageId, n: nat, v: LineageId)
    ensures v in Ball(g, kinds, start, n) <==> exists p :: WalkTo(g, kinds, start, n, v, p)
  {
    if v in Ball(g, kinds, start, n) { BallHasWalks(g, kinds, start, n, v); }
    if p :| WalkTo(g, kinds, start, n, v, p) { WalksStayInBall(g, kinds, start, n, v, p); }
  }

  /** One more level: only the newest level has neighbours that are not in the ball yet. */
  lemma NextLevel(g: Graph, kinds: seq<Kind>, start: LineageId, d: nat, frontier: set<LineageId>)
    requires frontier == if d == 0 then {start} else Ball(g, kinds, start, d) - Ball(g, kinds, start, d - 1)
    ensures Ball(g, kinds, start, d + 1) == Ball(g, kinds, start, d) + NeighboursOf(g, kinds, frontier)
  {
    hide Neighbours;
    if d > 0 {
      var b := Ball(g, kinds, start, d);
      var before := Ball(g, kinds, start, d - 1);
      assert NeighboursOf(g, kinds, b) <= NeighboursOf(g, kinds, frontier) + NeighboursOf(g, kinds, before);
    }
  }

  /** Once a level is empty the ball has stopped growing. */
  lemma {:induction false} Saturated(g: Graph, kinds: seq<Kind>, start: LineageId, d: nat, n: nat)
    requires d <= n && Ball(g, kinds, start, d + 1) == Ball(g, kinds, start, d)
    ensures Ball(g, kinds, start, n) == Ball(g, kinds, start, d)
    decreases n
  {
    if d < n {
      Saturated(g, kinds, start, d, n - 1);
    }
  }

  lemma {:induction false} BallGrows(g: Graph, kinds: seq<Kind>, start: LineageId, m: nat, n: nat)
    requires m <= n
    ensures Ball(g, kinds, start, m) <= Ball(g, kinds, start, n)
    decreases n
  {
    if m < n {
      BallGrows(g, kinds, start, m, n - 1);
    }
  }

  function Elements(s: seq<LineageId>): set<LineageId> {
    set x | x in s
  }

  ghost predicate NoRepeats(s: seq<LineageId>) {
    forall i, j :: 0 <= i < j < |s| ==> s[i] != s[j]
  }

  /** Nothing later is strictly nearer to the start. */
  ghost predicate NearestFirst(g: Graph, kinds: seq<Kind>, start: LineageId, s: seq<LineageId>) {
    forall i, j, n: nat :: 0 <= i < j < |s| && s[j] in Ball(g, kinds, start, n) ==> s[i] in Ball(g, kinds, start, n)
  }

  /** `found` are the members of `us` that had not been visited, each once. */
  ghost predicate Found(visited: set<LineageId>, us: set<LineageId>, found: seq<LineageId>) {
    NoRepeats(found) && Elements(found) == us - visited
  }

  lemma FoundMore(visited: set<LineageId>, us: set<LineageId>, found: seq<LineageId>, v: LineageId)
    requires Found(visited, us, found)
    ensures v !in visited + Elements(found) ==> Found(visited, us + {v}, found + [v])
    ensures v in visited + Elements(found) ==> Found(visited, us + {v}, found)
  {
    assert Elements(found + [v]) == Elements(found) + {v};
  }

  lemma FoundNone(visited: set<LineageId>)
    ensures Found(visited, {}, [])
  {
  }

  /** The unvisited nodes one edge away from cur: forward edges first, then back references. */
  method Expand(f: Fabric, kinds: seq<Kind>, cur: LineageId, visited: set<LineageId>) returns (found: seq<LineageId>)
    requires Coherent(f.State())
    ensures Found(visited, Neighbours(f.State(), kinds, cur), found)
  {
    FoundNone(visited);
    hide Coherent, CountTo, Found, Neighbours;
    ghost var g := f.State();
    var out := if cur in f.edges then f.edges[cur] else [];
    found := [];
    ghost var us: set<LineageId> := {};
    for i := 0 to |out|
      invariant Found(visited, us, found)
      invariant us == set e | e in out[..i] && e.kind in kinds :: e.target
    {
      var e := out[i];
      assert out[..i + 1] == out[..i] + [e];
      if e.kind in kinds {
        FoundMore(visited, us, found, e.target);
        us := us + {e.target};
        if e.target !in visited && e.target !in found {
          found := found + [e.target];
        }
      }
    }
    ghost var forward := us;
    assert out[..|out|] == out;
    var sources := if cur in f.reverseEdges then f.reverseEdges[cur] else [];
    for i := 0 to |sources|
      invariant Found(visited, us, found)
      invariant us == forward + set s | s in sources[..i] && Linking(Out(g, s), cur, kinds)
    {
      var s := sources[i];
      assert sources[..i + 1] == sources[..i] + [s];
      var matches := Linking(if s in f.edges then f.edges[s] else [], cur, kinds);
      if matches {
        FoundMore(visited, us, found, s);
        us := us + {s};
        if s !in visited && s !in found {
          found := found + [s];
        }
      }
    }
    assert sources[..|sources|] == sources;
    NeighboursListed(g, kinds, cur);
    assert us == Neighbours(g, kinds, cur);
  }

  /** In a coherent fabric the forward list and the reverse index together show every neighbour. */
  lemma NeighboursListed(g: Graph, kinds: seq<Kind>, cur: LineageId)
    requires Coherent(g)
    ensures Neighbours(g, kinds, cur)
         == (set e | e in Out(g, cur) && e.kind in kinds :: e.target)
            + (set s | s in In(g, cur) && Linking(Out(g, s), cur, kinds))
  {
    forall v
      ensures v in In(g, cur) <==> CountTo(Out(g, v), cur) > 0
    {
      assert CountTo(Out(g, v), cur) == multiset(In(g, cur))[v];
    }
    forall v | Linking(Out(g, v), cur, kinds)
      ensures v in In(g, cur) && v in g.nodes
    {
      CountMember(Out(g, v), cur);
    }
  }

  /**
   `traverse`: exactly the nodes at distance 1 to maxDepth, each once, nearest first, without the start.
   */
  method Traverse(f: Fabric, start: LineageId, kinds: seq<Kind>, maxDepth: nat) returns (order: seq<LineageId>)
    requires Coherent(f.State())
    ensures NoRepeats(order) && Elements(order) == Ball(f.State(), kinds, start, maxDepth) - {start}
    ensures NearestFirst(f.State(), kinds, start, order)
  {
    hide Coherent, Neighbours, NeighboursOf;
    ghost var g := f.State();
    order := [];
    if maxDepth == 0 {
      return;
    }
    var visited, frontier := {start}, [start];
    for d := 0 to maxDepth
      invariant NoRepeats(order) && Elements(order) == visited - {start}
      invariant visited == Ball(g, kinds, start, d)
      invariant Elements(frontier) == if d == 0 then {start} else visited - Ball(g, kinds, start, d - 1)
      invariant NearestFirst(g, kinds, start, order)
    {
      NextLevel(g, kinds, start, d, Elements(frontier));
      if frontier == [] {
        assert Elements(frontier) == {};
        NoNeighbours(g, kinds);
        Saturated(g, kinds, start, d, maxDepth);
        break;
      }
      BallGrows(g, kinds, start, 0, d);
      var next := Level(f, kinds, visited, frontier);
      OrderExtends(g, kinds, start, d, order, next);
      order := order + next;
      visited := visited + Elements(next);
      frontier := next;
    }
  }

  lemma NoNeighbours(g: Graph, kinds: seq<Kind>)
    ensures NeighboursOf(g, kinds, {}) == {}
  {
  }

  /** The next level, node by node of the frontier. */
  method Level(f: Fabric, kinds: seq<Kind>, visited: set<LineageId>, frontier: seq<LineageId>)
    returns (next: seq<LineageId>)
    requires Coherent(f.State())
    ensures Found(visited, NeighboursOf(f.State(), kinds, Elements(frontier)), next)
  {
    hide Coherent, Neighbours;
    ghost var g := f.State();
    next := [];
    for i := 0 to |frontier|
      invariant Found(visited, NeighboursOf(g, kinds, Elements(frontier[..i])), next)
    {
      var found := Expand(f, kinds, frontier[i], visited + Elements(next));
      assert frontier[..i + 1] == frontier[..i] + [frontier[i]];
      ghost var before, now := Elements(frontier[..i]), Elements(frontier[..i + 1]);
      assert now == before + {frontier[i]};
      assert NeighboursOf(g, kinds, now) == NeighboursOf(g, kinds, before) + Neighbours(g, kinds, frontier[i]);
      FoundJoin(visited, NeighboursOf(g, kinds, before), next, Neighbours(g, kinds, frontier[i]), found);
      next := next + found;
    }
    assert frontier[..|frontier|] == frontier;
  }

  lemma JoinNoRepeats(a: seq<LineageId>, b: seq<LineageId>)
    requires NoRepeats(a) && NoRepeats(b) && Elements(a) !! Elements(b)
    ensures NoRepeats(a + b) && Elements(a + b) == Elements(a) + Elements(b)
  {
    var s := a + b;
    forall i, j | 0 <= i < j < |s|
      ensures s[i] != s[j]
    {
      if i < |a| <= j {
        assert s[i] in Elements(a) && s[j] in Elements(b);
      }
    }
  }

  lemma FoundJoin(
    visited: set<LineageId>, us: set<LineageId>, found: seq<LineageId>, us': set<LineageId>, found': seq<LineageId>)
    requires Found(visited, us, found) && Found(visited + Elements(found), us', found')
    ensures Found(visited, us + us', found + found')
  {
    JoinNoRepeats(found, found');
  }

  /** A new level goes after everything nearer. */
  lemma OrderExtends(g: Graph, kinds: seq<Kind>, start: LineageId, d: nat, order: seq<LineageId>, next: seq<LineageId>)
    requires NoRepeats(order) && Elements(order) == Ball(g, kinds, start, d) - {start}
    requires start in Ball(g, kinds, start, d)
    requires NearestFirst(g, kinds, start, order) && NoRepeats(next)
    requires Elements(next) == Ball(g, kinds, start, d + 1) - Ball(g, kinds, start, d)
    ensures NoRepeats(order + next) && Elements(order + next) == Ball(g, kinds, start, d + 1) - {start}
    ensures NearestFirst(g, kinds, start, order + next)
  {
    hide Ball;
    BallGrows(g, kinds, start, d, d + 1);
    JoinNoRepeats(order, next);
    var s := order + next;
    forall i, j, n: nat | 0 <= i < j < |s| && s[j] in Ball(g, kinds, start, n)
      ensures s[i] in Ball(g, kinds, start, n)
    {
      assert s[i] in Elements(s) && s[j] in Elements(s);
      if j < |order| {
        assert s[j] == order[j] && s[i] == order[i];
      } else {
        assert s[j] in Elements(next);
        if n <= d {
          BallGrows(g, kinds, start, n, d);
        } else {
          BallGrows(g, kinds, start, d + 1, n);
        }
      }
    }
  }
}
