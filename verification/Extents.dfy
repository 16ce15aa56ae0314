/**
 How many nodes can share one batched query, told from a builder tree alone. A limit
 bounds the nodes of a builder; a unique edge finds no more targets than it has nodes
 to start from, and a unique edge that goes back over the foreign key of a list finds
 no more than the list had parents. `BatchedIsNested` holds wherever each window
 treats so many rows as it treats each alone (`Fits`).
 */
module Extents {
  import opened Storage
  import opened Query
  import opened NestedLoops

  /** What is known of the IDs of the nodes that a builder finds: how many they are at
      most, and whether, as rows of a table, they refer to the IDs of their parents. */
  datatype Extent = Extent(size: Option<nat>, origin: Origin)

  datatype Origin = Free | ListOf(table: Table, column: Column, parents: Extent)

  function Least(a: Option<nat>, b: Option<nat>): Option<nat> {
    if a.None? then b else if b.None? then a else if a.value <= b.value then a else b
  }

  /** The rows that a loader's query has before its window. */
  function Asked(t: Table, k: LoadKey, e: Extent): Extent {
    if k.edge.column == ID then e
    else if k.edge.kind.List? then
      Extent(if e.size == Some(0) then Some(0) else None, ListOf(k.edge.target, k.edge.column, e))
    else if e.origin.ListOf? && e.origin.table == t && e.origin.column == k.edge.column then
      Extent(Least(e.size, e.origin.parents.size), e.origin.parents.origin)
    else Extent(e.size, Free)
  }

  /** The size of a list once a builder's window is cut out of it. */
  function CutSize(q: Query, n: nat): nat {
    var rest := if OrZero(q.offset) <= 0 then n else if OrZero(q.offset) <= n then n - OrZero(q.offset) else 0;
    if 0 < OrZero(q.limit) < rest then OrZero(q.limit) else rest
  }

  function CutTo(q: Query, size: Option<nat>): Option<nat> {
    if size.Some? then Some(CutSize(q, size.value))
    else if OrZero(q.limit) > 0 then Some(OrZero(q.limit)) else None
  }

  function Below(t: Table, k: LoadKey, c: Query, e: Extent): Extent {
    Asked(t, k, e).(size := CutTo(c, Asked(t, k, e).size))
  }

  /** The window of a child is harmless below so many parents. */
  predicate Allows(t: Table, k: LoadKey, c: Query, e: Extent) {
    || NoWindow(c)
    || (!OneToOne(k) && e.size.Some? && e.size.value <= 1)
    || (OneToOne(k) && Asked(t, k, e).size.Some? && Asked(t, k, e).size.value <= Tolerance(c))
  }

  /** The windows of all children, at any depth, are harmless. */
  ghost predicate Fits(q: Query, e: Extent)
    decreases q
  {
    forall k :: k in q.loads ==>
      Allows(q.table, k, q.loads[k], e) && Fits(q.loads[k], Below(q.table, k, q.loads[k], e))
  }

  function RootExtent(q: Query): Extent {
    Extent(CutTo(q, None), Free)
  }

  lemma {:induction false} UnwindowedFits(q: Query, e: Extent)
    requires UnwindowedChildren(q)
    ensures Fits(q, e)
    decreases q
  {
    forall k | k in q.loads {
      UnwindowedFits(q.loads[k], Below(q.table, k, q.loads[k], e));
    }
  }

  /** Nothing is known to be bounded. */
  predicate Unbounded(e: Extent) {
    e.size.None? && (e.origin.ListOf? ==> Unbounded(e.origin.parents))
  }

  /** Where nothing is bounded, only trees without windows fit. */
  lemma {:induction false} UnboundedFits(q: Query, e: Extent)
    requires Unbounded(e)
    ensures Fits(q, e) <==> UnwindowedChildren(q)
    decreases q
  {
    forall k | k in q.loads
      ensures Allows(q.table, k, q.loads[k], e) <==> NoWindow(q.loads[k])
      ensures NoWindow(q.loads[k]) ==>
                (Fits(q.loads[k], Below(q.table, k, q.loads[k], e)) <==> UnwindowedChildren(q.loads[k]))
    {
      if NoWindow(q.loads[k]) {
        UnboundedFits(q.loads[k], Below(q.table, k, q.loads[k], e));
      }
    }
  }

  // ----- What an extent says of a run -----------------------------------------

  function IdSet(rows: seq<Row>): set<int> {
    set r | r in rows :: IdOf(r)
  }

  ghost predicate Referred(db: Database, t: Table, c: Column, ids: set<int>, parents: set<int>) {
    forall r :: r in db.Rows(t) && IdOf(r) in ids && Fk(r, c).Some? ==> Fk(r, c).value in parents
  }

  ghost predicate Within(db: Database, e: Extent, ids: set<int>)
    decreases e
  {
    && (e.size.Some? ==> |ids| <= e.size.value)
    && (e.origin.ListOf? ==>
         exists up :: Referred(db, e.origin.table, e.origin.column, ids, up) && Within(db, e.origin.parents, up))
  }

  lemma FewerIds(fewer: set<int>, ids: set<int>)
    requires fewer <= ids
    ensures |fewer| <= |ids|
  {
    assert ids == fewer + (ids - fewer);
  }

  lemma WithinFewer(db: Database, e: Extent, ids: set<int>, fewer: set<int>)
    requires Within(db, e, ids) && fewer <= ids
    ensures Within(db, e, fewer)
  {
    FewerIds(fewer, ids);
    if e.origin.ListOf? {
      var up :| Referred(db, e.origin.table, e.origin.column, ids, up) && Within(db, e.origin.parents, up);
      assert Referred(db, e.origin.table, e.origin.column, fewer, up);
    }
  }

  lemma {:induction false} DistinctCount(rows: seq<Row>)
    requires DistinctIds(rows)
    ensures |IdSet(rows)| == |rows|
  {
    if rows == [] {
    } else {
      var last := |rows| - 1;
      DistinctCount(rows[..last]);
      assert rows == rows[..last] + [rows[last]];
      assert IdSet(rows) == IdSet(rows[..last]) + {IdOf(rows[last])};
      forall r | r in rows[..last] ensures IdOf(r) != IdOf(rows[last]) {
      }
    }
  }

  /** What the loaders read of a node is what its full row has. */
  lemma NodeFull(db: Database, q: Query, link: Link, i: nat)
    requires GoodQuery(db.schema, q) && i < |NodesOf(db, q, link)|
    ensures |NodesOf(db, q, link)| == |Matching(db, SpecOf(db.schema, Attach(q, link)))|
    ensures var n, r := NodesOf(db, q, link)[i], Matching(db, SpecOf(db.schema, Attach(q, link)))[i];
            && IdOf(n) == IdOf(r)
            && forall k :: k in q.loads && k.edge.kind.Unique? ==> Fk(n, k.edge.column) == Fk(r, k.edge.column)
  {
    hide Matching;
    JoinColumns(db, q, ForceOf(link), Matching(db, SpecOf(db.schema, Attach(q, link)))[i]);
  }

  lemma MatchingMembers(db: Database, q: Query, link: Link)
    ensures forall r :: r in Matching(db, SpecOf(db.schema, Attach(q, link))) ==> r in db.Rows(q.table)
  {
    var q' := Attach(q, link);
    var all := Filter(Arrange(db, q'.order, db.Rows(q'.table)), Satisfying(db, q'.predicates));
    ArrangedRows(db, q');
    FilterMembers(Arrange(db, q'.order, db.Rows(q'.table)), Satisfying(db, q'.predicates));
    WindowedMembers(q', all);
  }

  lemma SelectedDistinct(db: Database, q: Query, keep: Row -> bool)
    requires WellFormed(db)
    ensures DistinctIds(Selected(db, q, keep))
  {
    ArrangedDistinct(db, q.order, db.Rows(q.table));
    FilterDistinct(Arrange(db, q.order, db.Rows(q.table)), Choosing(db, q, keep));
  }

  /** The rows that a loader asks for, before its window. */
  function AskedRows(db: Database, c: Query, k: LoadKey, nodes: seq<Row>): seq<Row> {
    Selected(db, c, Linking(LinkFor(k, nodes)))
  }

  lemma AskedIds(db: Database, c: Query, k: LoadKey, nodes: seq<Row>, r: Row)
    requires WellFormed(db) && r in AskedRows(db, c, k, nodes)
    ensures r in db.Rows(c.table)
    ensures k.edge.kind.List? ==> Fk(r, k.edge.column).Some? && Fk(r, k.edge.column).value in IdSet(nodes)
    ensures k.edge.kind.Unique? ==> IdOf(r) in ForeignKeys(nodes, k.edge.column)
  {
    hide Selected, ForeignKeys;
    SelectedMembers(db, c, Linking(LinkFor(k, nodes)));
    if k.edge.kind.List? {
      var i :| 0 <= i < |nodes| && Ids(nodes)[i] == Fk(r, k.edge.column).value;
      assert nodes[i] in nodes;
    }
  }

  lemma IdIsKey(r: Row)
    ensures Fk(r, ID).Some? ==> Fk(r, ID).value == IdOf(r)
  {
  }

  lemma {:induction false} FewKeys(rows: seq<Row>, c: Column)
    ensures |ForeignKeys(rows, c)| <= |rows|
  {
    if rows == [] {
    } else {
      FewKeys(rows[..|rows| - 1], c);
    }
  }

  lemma KeySet(rows: seq<Row>, c: Column, ids: set<int>)
    requires forall id :: id in ids ==> id in ForeignKeys(rows, c)
    ensures |ids| <= |rows|
  {
    hide ForeignKeys;
    var keys := ForeignKeys(rows, c);
    FewKeys(rows, c);
    var all := set v | v in keys;
    SeqSet(keys);
    assert forall id :: id in ids ==> id in all;
    FewerIds(ids, all);
  }

  lemma {:induction false} SeqSet(s: seq<int>)
    ensures |set v | v in s| <= |s|
  {
    if s == [] {
      assert (set v | v in s) == {};
    } else {
      var last := |s| - 1;
      SeqSet(s[..last]);
      assert (set v | v in s) == (set v | v in s[..last]) + {s[last]};
    }
  }

  // ----- Extents hold in every run --------------------------------------------

  lemma AskedDistinct(db: Database, c: Query, k: LoadKey, nodes: seq<Row>)
    requires WellFormed(db)
    ensures |IdSet(AskedRows(db, c, k, nodes))| == |AskedRows(db, c, k, nodes)|
  {
    hide Selected, Linking;
    SelectedDistinct(db, c, Linking(LinkFor(k, nodes)));
    DistinctCount(AskedRows(db, c, k, nodes));
  }

  lemma NodesCount(db: Database, q: Query, link: Link)
    requires WellFormed(db)
    ensures |IdSet(NodesOf(db, q, link))| == |NodesOf(db, q, link)|
  {
    hide NodeColumns, QueryNodes;
    IdKept(db.schema, Attach(q, link));
    NodesDistinct(db, SpecOf(db.schema, Attach(q, link)));
    DistinctCount(NodesOf(db, q, link));
  }

  /** What a loader asks for stays within the extent that the tree foretells. */
  lemma AskedWithin(db: Database, q: Query, link: Link, e: Extent, k: LoadKey)
    requires WellFormed(db) && GoodQuery(db.schema, q) && k in q.loads
    requires Within(db, e, IdSet(NodesOf(db, q, link)))
    ensures Within(db, Asked(q.table, k, e), IdSet(AskedRows(db, q.loads[k], k, NodesOf(db, q, link))))
  {
    hide Selected, NodesOf, Within, AskedRows;
    var c, nodes := q.loads[k], NodesOf(db, q, link);
    if k.edge.column == ID {
      SameIdsAsked(db, c, k, nodes);
      WithinFewer(db, e, IdSet(nodes), IdSet(AskedRows(db, c, k, nodes)));
    } else if k.edge.kind.List? {
      assert GoodKey(db.schema, q.table, k);
      ListWithin(db, c, k, nodes, e);
    } else {
      UniqueWithin(db, q, link, e, k);
    }
  }

  lemma SameIdsAsked(db: Database, c: Query, k: LoadKey, nodes: seq<Row>)
    requires WellFormed(db) && k.edge.column == ID
    ensures IdSet(AskedRows(db, c, k, nodes)) <= IdSet(nodes)
  {
    hide AskedRows, ForeignKeys;
    ForeignKeysExact(nodes, ID);
    forall r | r in AskedRows(db, c, k, nodes) ensures IdOf(r) in IdSet(nodes) {
      AskedIds(db, c, k, nodes, r);
      if k.edge.kind.Unique? {
        var i :| 0 <= i < |nodes| && Fk(nodes[i], ID) == Some(IdOf(r));
        assert nodes[i] in nodes;
      }
    }
  }

  lemma ListWithin(db: Database, c: Query, k: LoadKey, nodes: seq<Row>, e: Extent)
    requires WellFormed(db) && k.edge.kind.List? && c.table == k.edge.target && Within(db, e, IdSet(nodes))
    ensures var size := if e.size == Some(0) then Some(0) else None;
            Within(db, Extent(size, ListOf(c.table, k.edge.column, e)), IdSet(AskedRows(db, c, k, nodes)))
  {
    hide AskedRows;
    var rows := AskedRows(db, c, k, nodes);
    forall r | r in rows {
      AskedIds(db, c, k, nodes, r);
    }
    DistinctRows(db.Rows(c.table));
    forall r | r in db.Rows(c.table) && IdOf(r) in IdSet(rows) && Fk(r, k.edge.column).Some?
      ensures Fk(r, k.edge.column).value in IdSet(nodes)
    {
      var r' :| r' in rows && IdOf(r') == IdOf(r);
      AskedIds(db, c, k, nodes, r');
    }
    assert Referred(db, c.table, k.edge.column, IdSet(rows), IdSet(nodes));
    if e.size == Some(0) {
      assert rows == [] by {
        if rows != [] {
          AskedIds(db, c, k, nodes, rows[0]);
        }
      }
      assert IdSet(rows) == {};
    }
  }

  lemma UniqueWithin(db: Database, q: Query, link: Link, e: Extent, k: LoadKey)
    requires WellFormed(db) && GoodQuery(db.schema, q) && k in q.loads && k.edge.kind.Unique? && k.edge.column != ID
    requires Within(db, e, IdSet(NodesOf(db, q, link)))
    ensures Within(db, Asked(q.table, k, e), IdSet(AskedRows(db, q.loads[k], k, NodesOf(db, q, link))))
  {
    hide NodesOf, AskedRows, ForeignKeys;
    var c, nodes := q.loads[k], NodesOf(db, q, link);
    var ids := IdSet(AskedRows(db, c, k, nodes));
    forall r | r in AskedRows(db, c, k, nodes) ensures IdOf(r) in ForeignKeys(nodes, k.edge.column) {
      AskedIds(db, c, k, nodes, r);
    }
    KeySet(nodes, k.edge.column, ids);
    NodesCount(db, q, link);
    if e.origin.ListOf? && e.origin.table == q.table && e.origin.column == k.edge.column {
      var up :| Referred(db, e.origin.table, e.origin.column, IdSet(nodes), up) && Within(db, e.origin.parents, up);
      KeysReferred(db, q, link, k, up);
      assert ids <= up;
      WithinFewer(db, e.origin.parents, up, ids);
    }
  }

  lemma KeysReferred(db: Database, q: Query, link: Link, k: LoadKey, up: set<int>)
    requires WellFormed(db) && GoodQuery(db.schema, q) && k in q.loads && k.edge.kind.Unique?
    requires Referred(db, q.table, k.edge.column, IdSet(NodesOf(db, q, link)), up)
    ensures forall v :: v in ForeignKeys(NodesOf(db, q, link), k.edge.column) ==> v in up
  {
    hide NodesOf, ForeignKeys, Matching;
    var nodes := NodesOf(db, q, link);
    ForeignKeysExact(nodes, k.edge.column);
    MatchingMembers(db, q, link);
    forall v | v in ForeignKeys(nodes, k.edge.column) ensures v in up {
      var i :| 0 <= i < |nodes| && Fk(nodes[i], k.edge.column) == Some(v);
      NodeFull(db, q, link, i);
      var r := Matching(db, SpecOf(db.schema, Attach(q, link)))[i];
      assert nodes[i] in nodes && r in db.Rows(q.table) && IdOf(r) in IdSet(nodes) && Fk(r, k.edge.column) == Some(v);
    }
  }

  lemma WindowCut(q: Query, rows: seq<Row>)
    ensures |Windowed(q, rows)| == CutSize(q, |rows|)
  {
  }

  lemma CutLess(q: Query, n: nat, size: Option<nat>)
    requires size.Some? ==> n <= size.value
    ensures CutTo(q, size).Some? ==> CutSize(q, n) <= CutTo(q, size).value
  {
  }

  lemma CutIds(db: Database, q: Query, link: Link)
    requires GoodQuery(db.schema, q) && !link.Top?
    ensures IdSet(NodesOf(db, q, link)) == IdSet(Windowed(q, Selected(db, q, Linking(link))))
    ensures |NodesOf(db, q, link)| == |Windowed(q, Selected(db, q, Linking(link)))|
    ensures IdSet(NodesOf(db, q, link)) <= IdSet(Selected(db, q, Linking(link)))
  {
    hide NodesOf, Selected, Windowed, Matching, Linking;
    var nodes, full := NodesOf(db, q, link), Matching(db, SpecOf(db.schema, Attach(q, link)));
    LinkedRows(db, q, link);
    WindowedMembers(q, Selected(db, q, Linking(link)));
    assert |nodes| == |full| by {
      NodesAreFull(db, q, link);
    }
    forall i | 0 <= i < |nodes| ensures IdOf(nodes[i]) == IdOf(full[i]) {
      NodeFull(db, q, link, i);
    }
    SameIdSet(nodes, full);
  }

  lemma NodesAreFull(db: Database, q: Query, link: Link)
    ensures |NodesOf(db, q, link)| == |Matching(db, SpecOf(db.schema, Attach(q, link)))|
  {
  }

  lemma SameIdSet(a: seq<Row>, b: seq<Row>)
    requires |a| == |b| && forall i :: 0 <= i < |a| ==> IdOf(a[i]) == IdOf(b[i])
    ensures IdSet(a) == IdSet(b)
  {
    forall r | r in a ensures IdOf(r) in IdSet(b) {
      var i :| 0 <= i < |a| && a[i] == r;
      assert b[i] in b;
    }
    forall r | r in b ensures IdOf(r) in IdSet(a) {
      var i :| 0 <= i < |b| && b[i] == r;
      assert a[i] in a;
    }
  }

  /** So do the nodes of a child. */
  lemma BelowWithin(db: Database, q: Query, link: Link, e: Extent, k: LoadKey)
    requires WellFormed(db) && GoodQuery(db.schema, q) && k in q.loads
    requires Within(db, e, IdSet(NodesOf(db, q, link)))
    ensures Within(db, Below(q.table, k, q.loads[k], e),
                   IdSet(NodesOf(db, q.loads[k], LinkFor(k, NodesOf(db, q, link)))))
  {
    hide NodesOf, Selected, Windowed, Matching, Linking, Asked, CutTo, CutSize;
    var c, link' := q.loads[k], LinkFor(k, NodesOf(db, q, link));
    var rows, nodes := AskedRows(db, c, k, NodesOf(db, q, link)), NodesOf(db, c, link');
    var a := Asked(q.table, k, e);
    AskedWithin(db, q, link, e, k);
    CutIds(db, c, link');
    AskedDistinct(db, c, k, NodesOf(db, q, link));
    NodesCount(db, c, link');
    WindowCut(c, rows);
    CutLess(c, |rows|, a.size);
    WithinFewer(db, a, IdSet(rows), IdSet(nodes));
  }

  lemma DividesIf(db: Database, q: Query, link: Link, e: Extent, k: LoadKey)
    requires WellFormed(db) && GoodQuery(db.schema, q) && k in q.loads
    requires Within(db, e, IdSet(NodesOf(db, q, link))) && Allows(q.table, k, q.loads[k], e)
    ensures Divides(db, q.loads[k], k, NodesOf(db, q, link))
  {
    hide NodesOf, Selected, Asked, Linking;
    AskedWithin(db, q, link, e, k);
    AskedDistinct(db, q.loads[k], k, NodesOf(db, q, link));
    NodesCount(db, q, link);
  }

  // ----- Batching refines nested loops ----------------------------------------

  /** Main theorem: the batched run of a builder, linked to its parents or not,
      returns the nested-loop node of each of its rows, in order. */
  lemma {:induction false} BatchedIsNestedAt(db: Database, q: Query, link: Link, e: Extent)
    requires WellFormed(db) && GoodQuery(db.schema, q) && Fits(q, e) && Within(db, e, IdSet(NodesOf(db, q, link)))
    ensures Batched(db, q, link) == RowTrees(db, q, ForceOf(link), Matching(db, SpecOf(db.schema, Attach(q, link))))
    decreases q, 1
  {
    hide Matching, Window, Divides, Within, Fits;
    var rows, full := NodesOf(db, q, link), Matching(db, SpecOf(db.schema, Attach(q, link)));
    NeighboursAreNested(db, q, link, e);
    assert NodeColumns(db.schema, Attach(q, link)) == Columns(db, q, ForceOf(link));
    JoinAllIsRowTrees(db, q, ForceOf(link), rows, Neighbours(db, q, rows), full);
  }

  lemma {:induction false} NeighboursAreNested(db: Database, q: Query, link: Link, e: Extent)
    requires WellFormed(db) && GoodQuery(db.schema, q) && Fits(q, e) && Within(db, e, IdSet(NodesOf(db, q, link)))
    ensures NeighboursNested(db, q, NodesOf(db, q, link), Neighbours(db, q, NodesOf(db, q, link)))
    ensures AllDivide(db, q, NodesOf(db, q, link))
    decreases q, 0
  {
    hide NodesOf, Matching, Within, Allows, Below, Divides;
    var rows := NodesOf(db, q, link);
    forall k | k in q.loads
      ensures Divides(db, q.loads[k], k, rows)
      ensures var c := q.loads[k];
              Neighbours(db, q, rows)[k] == RowTrees(db, c, ForceOf(LinkFor(k, rows)),
                                                     Matching(db, SpecOf(db.schema, Attach(c, LinkFor(k, rows)))))
    {
      DividesIf(db, q, link, e, k);
      BelowWithin(db, q, link, e, k);
      BatchedIsNestedAt(db, q.loads[k], LinkFor(k, rows), Below(q.table, k, q.loads[k], e));
    }
  }

  /** One `IN` query per edge and a hash join mean nested loops, whenever every window
      treats so many rows as can share its query as it treats each alone. */
  lemma BatchedIsNested(db: Database, q: Query)
    requires WellFormed(db) && GoodQuery(db.schema, q) && Fits(q, RootExtent(q))
    ensures Batched(db, q, Top) == Nested(db, q)
  {
    hide Filter, Batched, NodeColumns, NodesOf;
    RootWithin(db, q);
    BatchedIsNestedAt(db, q, Top, RootExtent(q));
  }

  lemma RootWithin(db: Database, q: Query)
    requires WellFormed(db)
    ensures Within(db, RootExtent(q), IdSet(NodesOf(db, q, Top)))
  {
    hide Filter, NodeColumns;
    NodesCount(db, q, Top);
  }
}
