/** Adding up degrees: sums over finite sets of nodes, and the handshake law of a coherent fabric. */
module Degrees {
  import opened Common
  import opened FabricGraph

  type Weight = LineageId -> nat
  type Matrix = (LineageId, LineageId) -> nat

  ghost function Sum(keys: set<LineageId>, f: Weight): nat {
    if keys == {} then 0 else var x :| x in keys; f(x) + Sum(keys - {x}, f)
  }

  ghost function Unit(x: LineageId): Weight {
    y => if y == x then 1 else 0
  }

  ghost function Plus(f: Weight, h: Weight): Weight {
    x => f(x) + h(x)
  }

  ghost function Row(m: Matrix, s: LineageId): Weight {
    t => m(s, t)
  }

  ghost function Column(m: Matrix, t: LineageId): Weight {
    s => m(s, t)
  }

  ghost function RowSums(m: Matrix, cols: set<LineageId>): Weight {
    s => Sum(cols, Row(m, s))
  }

  ghost function ColumnSums(m: Matrix, rows: set<LineageId>): Weight {
    t => Sum(rows, Column(m, t))
  }

  /** The sum does not depend on the order the keys are taken in. */
  lemma {:induction false} SumTake(keys: set<LineageId>, f: Weight, x: LineageId)
    requires x in keys
    ensures Sum(keys, f) == f(x) + Sum(keys - {x}, f)
    decreases |keys|
  {
    var y :| y in keys && Sum(keys, f) == f(y) + Sum(keys - {y}, f);
    if y != x {
      SumTake(keys - {y}, f, x);
      SumTake(keys - {x}, f, y);
      assert keys - {y} - {x} == keys - {x} - {y};
    }
  }

  lemma {:induction false} SumSame(keys: set<LineageId>, f: Weight, h: Weight)
    requires forall x <- keys :: f(x) == h(x)
    ensures Sum(keys, f) == Sum(keys, h)
    decreases |keys|
  {
    if keys != {} {
      var x :| x in keys;
      SumTake(keys, f, x);
      SumTake(keys, h, x);
      SumSame(keys - {x}, f, h);
    }
  }

  lemma {:induction false} SumPlus(keys: set<LineageId>, f: Weight, h: Weight)
    ensures Sum(keys, Plus(f, h)) == Sum(keys, f) + Sum(keys, h)
    decreases |keys|
  {
    if keys != {} {
      var x :| x in keys;
      SumTake(keys, f, x);
      SumTake(keys, h, x);
      SumTake(keys, Plus(f, h), x);
      SumPlus(keys - {x}, f, h);
    }
  }

  lemma {:induction false} SumZero(keys: set<LineageId>, f: Weight)
    requires forall x <- keys :: f(x) == 0
    ensures Sum(keys, f) == 0
    decreases |keys|
  {
    if keys != {} {
      var x :| x in keys;
      SumTake(keys, f, x);
      SumZero(keys - {x}, f);
    }
  }

  lemma {:induction false} SumExtend(keys: set<LineageId>, more: set<LineageId>, f: Weight)
    requires keys <= more && forall x <- more - keys :: f(x) == 0
    ensures Sum(keys, f) == Sum(more, f)
    decreases |more|
  {
    if more - keys != {} {
      var x :| x in more - keys;
      SumTake(more, f, x);
      SumExtend(keys, more - {x}, f);
    } else {
      assert keys == more;
    }
  }

  lemma SumUnit(keys: set<LineageId>, x: LineageId)
    requires x in keys
    ensures Sum(keys, Unit(x)) == 1
  {
    SumTake(keys, Unit(x), x);
    SumZero(keys - {x}, Unit(x));
  }

  /** Adding row by row or column by column gives the same total. */
  lemma {:induction false} SumSwap(rows: set<LineageId>, cols: set<LineageId>, m: Matrix)
    ensures Sum(rows, RowSums(m, cols)) == Sum(cols, ColumnSums(m, rows))
    decreases |rows|
  {
    if rows == {} {
      SumZero(cols, ColumnSums(m, rows));
    } else {
      var x :| x in rows;
      var rest := rows - {x};
      SumTake(rows, RowSums(m, cols), x);
      SumSwap(rest, cols, m);
      SumPlus(cols, Row(m, x), ColumnSums(m, rest));
      forall t | t in cols
        ensures ColumnSums(m, rows)(t) == Plus(Row(m, x), ColumnSums(m, rest))(t)
      {
        SumTake(rows, Column(m, t), x);
      }
      SumSame(cols, ColumnSums(m, rows), Plus(Row(m, x), ColumnSums(m, rest)));
    }
  }

  ghost function CountOf(es: seq<Edge>): Weight {
    t => CountTo(es, t)
  }

  ghost function OccurrencesOf(ids: seq<LineageId>): Weight {
    s => multiset(ids)[s]
  }

  ghost function OutDegree(g: Graph): Weight {
    s => |Out(g, s)|
  }

  ghost function InDegree(g: Graph): Weight {
    t => |In(g, t)|
  }

  ghost function Adjacency(g: Graph): Matrix {
    (s, t) => CountTo(Out(g, s), t)
  }

  /** A list's edges, counted target by target. */
  lemma {:induction false} CountTotal(es: seq<Edge>, ts: set<LineageId>)
    requires forall e <- es :: e.target in ts
    ensures Sum(ts, CountOf(es)) == |es|
    decreases |es|
  {
    if es == [] {
      SumZero(ts, CountOf(es));
    } else {
      var rest := CountOf(es[1..]);
      CountTotal(es[1..], ts);
      SumUnit(ts, es[0].target);
      SumPlus(ts, Unit(es[0].target), rest);
      SumSame(ts, CountOf(es), Plus(Unit(es[0].target), rest));
    }
  }

  lemma {:induction false} OccurrenceTotal(ids: seq<LineageId>, ss: set<LineageId>)
    requires forall s <- ids :: s in ss
    ensures Sum(ss, OccurrencesOf(ids)) == |ids|
    decreases |ids|
  {
    if ids == [] {
      SumZero(ss, OccurrencesOf(ids));
    } else {
      var rest := OccurrencesOf(ids[1..]);
      assert ids == [ids[0]] + ids[1..];
      OccurrenceTotal(ids[1..], ss);
      SumUnit(ss, ids[0]);
      SumPlus(ss, Unit(ids[0]), rest);
      SumSame(ss, OccurrencesOf(ids), Plus(Unit(ids[0]), rest));
    }
  }

  /** What `edge_count` returns: the lengths of all edge lists. */
  ghost function EdgeCount(g: Graph): nat {
    Sum(g.edges.Keys, OutDegree(g))
  }

  /** Only nodes have edges, so the sum over nodes is the sum over lists. */
  lemma OutDegreesAreEdges(g: Graph)
    requires NoDangling(g)
    ensures Sum(g.nodes.Keys, OutDegree(g)) == EdgeCount(g)
  {
    var all := g.nodes.Keys + g.edges.Keys;
    assert forall s <- all - g.nodes.Keys :: Out(g, s) == [];
    SumExtend(g.nodes.Keys, all, OutDegree(g));
    SumExtend(g.edges.Keys, all, OutDegree(g));
  }

  lemma SourcesAreNodes(g: Graph, t: LineageId)
    requires ReverseExact(g) && NoDangling(g)
    ensures forall s <- In(g, t) :: s in g.nodes
  {
    forall s | s in In(g, t)
      ensures s in g.nodes
    {
      assert CountTo(Out(g, s), t) == multiset(In(g, t))[s];
      assert Out(g, s) != [];
    }
  }

  /** Handshake: the out-degrees and the in-degrees of the nodes both add up to the edge count. */
  lemma DegreesBalance(g: Graph)
    requires Coherent(g)
    ensures Sum(g.nodes.Keys, OutDegree(g)) == EdgeCount(g)
    ensures Sum(g.nodes.Keys, InDegree(g)) == EdgeCount(g)
  {
    hide Sum, CountTo, ContextExact, IndexSound;
    var ids, m := g.nodes.Keys, Adjacency(g);
    OutDegreesAreEdges(g);
    forall s | s in ids
      ensures RowSums(m, ids)(s) == OutDegree(g)(s)
    {
      CountTotal(Out(g, s), ids);
      SumSame(ids, Row(m, s), CountOf(Out(g, s)));
    }
    SumSame(ids, RowSums(m, ids), OutDegree(g));
    forall t | t in ids
      ensures ColumnSums(m, ids)(t) == InDegree(g)(t)
    {
      SourcesAreNodes(g, t);
      OccurrenceTotal(In(g, t), ids);
      forall s | s in ids
        ensures Column(m, t)(s) == OccurrencesOf(In(g, t))(s)
      {
        assert CountTo(Out(g, s), t) == multiset(In(g, t))[s];
      }
      SumSame(ids, Column(m, t), OccurrencesOf(In(g, t)));
    }
    SumSame(ids, ColumnSums(m, ids), InDegree(g));
    SumSwap(ids, ids, m);
  }
}
