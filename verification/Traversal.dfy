/**
 Chaining `Query<Edge>` calls against eager loading. A chain starts from the rows
 of one query and goes from edge to edge, each step filtered by the predicates of
 the builder that it reaches; the leaves of the matching `With<Edge>` tree are
 the same rows.
 */
module Traversal {
  import opened Storage
  import opened Query
  import opened NestedLoops
  import opened Extents

  /** One step: the edge and the builder that it leads to, as configured so far. */
  datatype Hop = Hop(edge: Edge, query: Query)

  // ----- The chain ------------------------------------------------------------

  /** Two rows are neighbours when the edge's foreign key says so. */
  predicate Related(e: Edge, r: Row, x: Row) {
    if e.kind.List? then Fk(x, e.column) == Some(IdOf(r)) else Fk(r, e.column) == Some(IdOf(x))
  }

  /** The rows that one step reaches, each once: a builder with a path selects
      distinct rows. */
  ghost function Step(db: Database, from: set<Row>, h: Hop): set<Row> {
    set x | x in db.Rows(h.query.table) && AllHold(h.query.predicates, db, x)
            && exists r :: r in from && Related(h.edge, r, x)
  }

  ghost function Reached(db: Database, from: set<Row>, hops: seq<Hop>): set<Row>
    decreases hops
  {
    if hops == [] then from else Reached(db, Step(db, from, hops[0]), hops[1..])
  }

  ghost function RowSet(rows: seq<Row>): set<Row> {
    set r | r in rows
  }

  ghost function RowIds(rows: set<Row>): set<int> {
    set r | r in rows :: IdOf(r)
  }

  // ----- The eager loads ------------------------------------------------------

  /** The builder tree that loads the same edges eagerly. */
  function WithPath(q: Query, hops: seq<Hop>): Query
    decreases hops
  {
    if hops == [] then q else q.(loads := q.loads[Plain(hops[0].edge) := WithPath(hops[0].query, hops[1..])])
  }

  /** The nodes at the end of a path of edges, as their IDs. */
  ghost function LeafIds(t: Tree, hops: seq<Hop>): set<int>
    decreases hops, 0
  {
    if hops == [] then {IdOf(t.row)}
    else
      var k := Plain(hops[0].edge);
      if k in t.one then LeafIds(t.one[k], hops[1..])
      else if k in t.many then AllLeafIds(t.many[k], hops[1..])
      else {}
  }

  ghost function AllLeafIds(ts: seq<Tree>, hops: seq<Hop>): set<int>
    decreases hops, 1, |ts|
  {
    if ts == [] then {} else LeafIds(ts[0], hops) + AllLeafIds(ts[1..], hops)
  }

  ghost predicate GoodHops(s: Schema, t: Table, hops: seq<Hop>)
    decreases hops
  {
    hops != [] ==>
      && hops[0].edge in s.EdgesOf(t) && hops[0].query.table == hops[0].edge.target
      && GoodQuery(s, hops[0].query) && NoWindow(hops[0].query) && UnwindowedChildren(hops[0].query)
      && GoodHops(s, hops[0].edge.target, hops[1..])
  }

  lemma {:induction false} WithPathGood(s: Schema, q: Query, hops: seq<Hop>)
    requires GoodQuery(s, q) && UnwindowedChildren(q) && GoodHops(s, q.table, hops)
    ensures GoodQuery(s, WithPath(q, hops)) && UnwindowedChildren(WithPath(q, hops))
    decreases hops
  {
    if hops == [] {
    } else {
      WithPathGood(s, hops[0].query, hops[1..]);
    }
  }

  // ----- Both reach the same rows ---------------------------------------------

  lemma {:induction false} ReachedUnion(db: Database, a: set<Row>, b: set<Row>, hops: seq<Hop>)
    ensures Reached(db, a + b, hops) == Reached(db, a, hops) + Reached(db, b, hops)
    decreases hops
  {
    if hops == [] {
    } else {
      assert Step(db, a + b, hops[0]) == Step(db, a, hops[0]) + Step(db, b, hops[0]);
      ReachedUnion(db, Step(db, a, hops[0]), Step(db, b, hops[0]), hops[1..]);
    }
  }

  lemma {:induction false} ReachedNothing(db: Database, hops: seq<Hop>)
    ensures Reached(db, {}, hops) == {}
    decreases hops
  {
    if hops == [] {
    } else {
      assert Step(db, {}, hops[0]) == {};
      ReachedNothing(db, hops[1..]);
    }
  }

  /** The children of one row are the rows of one step from it. */
  lemma ListStep(db: Database, h: Hop, c: Query, r: Row)
    requires h.edge.kind.List? && SameButLoads(h.query, c)
    ensures RowSet(Children(db, c, h.edge.column, IdOf(r))) == Step(db, {r}, h)
  {
    SelectedMembers(db, c, RowRefersTo(h.edge.column, IdOf(r)));
  }

  lemma UniqueStep(db: Database, h: Hop, c: Query, r: Row)
    requires WellFormed(db) && h.edge.kind.Unique? && SameButLoads(h.query, c)
    ensures var target := Target(db, c, Fk(r, h.edge.column));
            Step(db, {r}, h) == if target.None? then {} else {target.value}
  {
    hide Selected, AllHold, IdOf, Fk;
    var fk, target := Fk(r, h.edge.column), Target(db, c, Fk(r, h.edge.column));
    if fk.Some? {
      var rows := Selected(db, c, HasId(fk.value));
      SelectedMembers(db, c, HasId(fk.value));
      DistinctRows(db.Rows(c.table));
      forall x ensures x in Step(db, {r}, h) <==> x in rows {
      }
      if rows != [] {
        assert rows[0] in rows;
        assert Step(db, {r}, h) == {target.value};
      }
    }
  }

  /** A step's builder before and after more eager loads are added to it. */
  predicate SameButLoads(q: Query, c: Query) {
    c == q.(loads := c.loads) && NoWindow(q)
  }

  lemma WithPathRows(q: Query, hops: seq<Hop>)
    ensures WithPath(q, hops) == q.(loads := WithPath(q, hops).loads)
  {
  }

  /** What the node of a row holds for the first edge of the path. */
  lemma PathNode(db: Database, q: Query, force: Option<Column>, hops: seq<Hop>, r: Row)
    requires hops != []
    ensures var k, n := Plain(hops[0].edge), RowTree(db, WithPath(q, hops), force, r);
            var c := WithPath(hops[0].query, hops[1..]);
            if k.edge.kind.List? then
              && k !in n.one && k in n.many
              && n.many[k] == RowTrees(db, c, Some(k.edge.column), Children(db, c, k.edge.column, IdOf(r)))
            else
              var target := Target(db, c, Fk(r, k.edge.column));
              k !in n.many && (k in n.one <==> target.Some?)
                  && (target.Some? ==> n.one[k] == RowTree(db, c, None, target.value))
  {
    hide Children, Target, Columns;
    var k, w := Plain(hops[0].edge), WithPath(q, hops);
    assert k in w.loads && w.loads[k] == WithPath(hops[0].query, hops[1..]);
    assert k in RowMany(db, w, r) <==> k.edge.kind.List?;
  }

  lemma {:induction false} LeavesAreReached(db: Database, q: Query, force: Option<Column>, hops: seq<Hop>, r: Row)
    requires WellFormed(db) && GoodQuery(db.schema, q) && UnwindowedChildren(q) && GoodHops(db.schema, q.table, hops)
    ensures LeafIds(RowTree(db, WithPath(q, hops), force, r), hops) == RowIds(Reached(db, {r}, hops))
    decreases hops, 0
  {
    hide RowTree, Children, Target, WellFormed, WithPath, AllLeafIds, Step;
    if hops == [] {
      LeafOfNoPath(db, q, force, r);
    } else {
      var h := hops[0];
      var c := WithPath(h.query, hops[1..]);
      WithPathRows(h.query, hops[1..]);
      PathNode(db, q, force, hops, r);
      if h.edge.kind.List? {
        ListStep(db, h, c, r);
        AllLeavesAreReached(db, h.query, Some(h.edge.column), hops[1..], Children(db, c, h.edge.column, IdOf(r)));
      } else {
        var target := Target(db, c, Fk(r, h.edge.column));
        UniqueStep(db, h, c, r);
        if target.Some? {
          LeavesAreReached(db, h.query, None, hops[1..], target.value);
        } else {
          ReachedNothing(db, hops[1..]);
        }
      }
    }
  }

  lemma LeafOfNoPath(db: Database, q: Query, force: Option<Column>, r: Row)
    requires GoodQuery(db.schema, q)
    ensures LeafIds(RowTree(db, WithPath(q, []), force, r), []) == RowIds(Reached(db, {r}, []))
  {
    hide RowOne, RowMany, Columns;
    JoinColumns(db, q, force, r);
    assert RowIds({r}) == {IdOf(r)};
  }

  lemma {:induction false} AllLeavesAreReached(db: Database, q: Query, force: Option<Column>, hops: seq<Hop>,
                                               rows: seq<Row>)
    requires WellFormed(db) && GoodQuery(db.schema, q) && UnwindowedChildren(q) && GoodHops(db.schema, q.table, hops)
    ensures AllLeafIds(RowTrees(db, WithPath(q, hops), force, rows), hops) == RowIds(Reached(db, RowSet(rows), hops))
    decreases hops, 1, |rows|
  {
    hide RowTree, WithPath, LeafIds, Reached;
    var w := WithPath(q, hops);
    if rows == [] {
      assert RowSet(rows) == {};
      ReachedNothing(db, hops);
      assert RowIds({}) == {};
    } else {
      assert RowTrees(db, w, force, rows)[1..] == RowTrees(db, w, force, rows[1..]);
      LeavesAreReached(db, q, force, hops, rows[0]);
      AllLeavesAreReached(db, q, force, hops, rows[1..]);
      assert RowSet(rows) == {rows[0]} + RowSet(rows[1..]);
      ReachedUnion(db, {rows[0]}, RowSet(rows[1..]), hops);
      IdsOfUnion(Reached(db, {rows[0]}, hops), Reached(db, RowSet(rows[1..]), hops));
    }
  }

  lemma IdsOfUnion(a: set<Row>, b: set<Row>)
    ensures RowIds(a + b) == RowIds(a) + RowIds(b)
  {
  }

  /** Main theorem: a chain of traversals reaches exactly the rows at the leaves of
      the eager loads along the same edges, however many edges there are. */
  lemma ChainIsEagerLoading(db: Database, q: Query, hops: seq<Hop>)
    requires WellFormed(db) && GoodQuery(db.schema, q) && UnwindowedChildren(q) && GoodHops(db.schema, q.table, hops)
    ensures AllLeafIds(Batched(db, WithPath(q, hops), Top), hops)
         == RowIds(Reached(db, RowSet(Matching(db, SpecOf(db.schema, q))), hops))
  {
    hide Matching, RowTree;
    var w := WithPath(q, hops);
    WithPathGood(db.schema, q, hops);
    WithPathRows(q, hops);
    UnwindowedFits(w, RootExtent(w));
    BatchedIsNested(db, w);
    assert Matching(db, SpecOf(db.schema, w)) == Matching(db, SpecOf(db.schema, q)) by {
      MatchingSame(db, q, w);
    }
    AllLeavesAreReached(db, q, None, hops, Matching(db, SpecOf(db.schema, q)));
  }

  lemma MatchingSame(db: Database, q: Query, w: Query)
    requires w == q.(loads := w.loads)
    ensures Matching(db, SpecOf(db.schema, w)) == Matching(db, SpecOf(db.schema, q))
  {
  }
}
