/**
 The meaning that batched eager loading has to have: for each node, look its
 neighbours up one node at a time. `BatchedIsNested` proves that one `IN` query
 per edge followed by a hash join computes just that.
 */
module NestedLoops {
  import opened Storage
  import opened Query

  // ----- The nested-loop semantics --------------------------------------------

  function Choosing(db: Database, q: Query, keep: Row -> bool): Row -> bool {
    r => AllHold(q.predicates, db, r) && keep(r)
  }

  /** The rows of a child query that satisfy one more condition, in its order. */
  function Selected(db: Database, q: Query, keep: Row -> bool): seq<Row> {
    Filter(Arrange(db, q.order, db.Rows(q.table)), Choosing(db, q, keep))
  }

  function RowRefersTo(c: Column, id: int): Row -> bool {
    r => Fk(r, c) == Some(id)
  }

  function HasId(id: int): Row -> bool {
    r => IdOf(r) == id
  }

  /** The condition that an `IN` list of a loader states. */
  function InList(c: Column, ids: seq<int>): Row -> bool {
    r => Fk(r, c).Some? && Fk(r, c).value in ids
  }

  function Windowed(q: Query, rows: seq<Row>): seq<Row> {
    Window(rows, OrZero(q.limit), OrZero(q.offset))
  }

  /** The rows of the child query that refer to the given parent. */
  function Children(db: Database, q: Query, c: Column, parent: int): seq<Row> {
    Windowed(q, Selected(db, q, RowRefersTo(c, parent)))
  }

  /** The row of the child query that a foreign key names, if it is visible. */
  function Target(db: Database, q: Query, fk: Option<int>): Option<Row> {
    if fk.None? then None
    else
      var rows := Windowed(q, Selected(db, q, HasId(fk.value)));
      if rows == [] then None else Some(rows[0])
  }

  function Forced(q: Query, force: Option<Column>): Query {
    if force.Some? then q.(fields := ForceField(q.fields, force.value)) else q
  }

  function Columns(db: Database, q: Query, force: Option<Column>): Projection {
    NodeColumns(db.schema, Forced(q, force))
  }

  /** The node that a full row stands for in a query, found by nested loops. */
  function RowTree(db: Database, q: Query, force: Option<Column>, r: Row): Tree
    decreases q, 1
  {
    Tree(Project(r, Columns(db, q, force)), PlainKeys(q), RowOne(db, q, r), RowMany(db, q, r))
  }

  function RowOne(db: Database, q: Query, r: Row): map<LoadKey, Tree>
    decreases q, 0
  {
    map k | k in q.loads && k.edge.kind.Unique? && Target(db, q.loads[k], Fk(r, k.edge.column)).Some? ::
      RowTree(db, q.loads[k], None, Target(db, q.loads[k], Fk(r, k.edge.column)).value)
  }

  function RowMany(db: Database, q: Query, r: Row): map<LoadKey, seq<Tree>>
    decreases q, 0
  {
    map k | k in q.loads && k.edge.kind.List? ::
      RowTrees(db, q.loads[k], Some(k.edge.column), Children(db, q.loads[k], k.edge.column, IdOf(r)))
  }

  function RowTrees(db: Database, q: Query, force: Option<Column>, rows: seq<Row>): (ts: seq<Tree>)
    ensures |ts| == |rows|
    decreases q, 2
  {
    seq(|rows|, i requires 0 <= i < |rows| => RowTree(db, q, force, rows[i]))
  }

  function Nested(db: Database, q: Query): seq<Tree> {
    RowTrees(db, q, None, Matching(db, SpecOf(db.schema, q)))
  }

  // ----- When batching is allowed ---------------------------------------------

  predicate NoWindow(q: Query) {
    OrZero(q.limit) <= 0 && OrZero(q.offset) <= 0
  }

  /** Builders whose own predicates are the program's closures. */
  predicate OnlyTests(q: Query) {
    forall i :: 0 <= i < |q.predicates| ==> q.predicates[i].Test?
  }

  /** No eager-load child, at any depth, has a limit or an offset. */
  ghost predicate UnwindowedChildren(q: Query) {
    forall k :: k in q.loads ==> NoWindow(q.loads[k]) && UnwindowedChildren(q.loads[k])
  }

  /** Edges that lead from a node to one other node at most. */
  predicate OneToOne(k: LoadKey) {
    k.edge.kind.Unique? || k.edge.column == ID
  }

  /** Up to so many rows a window treats together as it treats each of them alone: an
      offset skips them all, a limit none. */
  function Tolerance(q: Query): int {
    if OrZero(q.offset) > 0 then OrZero(q.offset) else OrZero(q.limit)
  }

  /** The child's window gives every parent what it would give this parent alone, though
      they share its query. */
  ghost predicate Divides(db: Database, c: Query, k: LoadKey, rows: seq<Row>) {
    || NoWindow(c)
    || (!OneToOne(k) && |rows| <= 1)
    || (OneToOne(k) && |Selected(db, c, Linking(LinkFor(k, rows)))| <= Tolerance(c))
  }

  ghost predicate AllDivide(db: Database, q: Query, rows: seq<Row>) {
    forall k :: k in q.loads ==> Divides(db, q.loads[k], k, rows)
  }

  // ----- Filters --------------------------------------------------------------

  function RowTreeOf(db: Database, q: Query, force: Option<Column>): Row -> Tree {
    r => RowTree(db, q, force, r)
  }

  lemma FilterTrees(db: Database, q: Query, force: Option<Column>, rows: seq<Row>, p: Row -> bool, t: Tree -> bool)
    requires forall r :: r in rows ==> t(RowTree(db, q, force, r)) == p(r)
    ensures Filter(RowTrees(db, q, force, rows), t) == RowTrees(db, q, force, Filter(rows, p))
  {
    FilterMap(rows, RowTrees(db, q, force, rows), RowTreeOf(db, q, force), p, t);
  }

  lemma AllHoldAppend(ps: seq<Predicate>, p: Predicate, db: Database, r: Row)
    ensures AllHold(ps + [p], db, r) <==> AllHold(ps, db, r) && p.Holds(db, r)
  {
    if AllHold(ps + [p], db, r) {
      forall i | 0 <= i < |ps| ensures ps[i].Holds(db, r) {
        assert (ps + [p])[i] == ps[i];
      }
      assert (ps + [p])[|ps|] == p;
    }
  }

  // ----- Rows -----------------------------------------------------------------

  /** The rows a query can select are those of its table. */
  lemma ArrangedRows(db: Database, q: Query)
    ensures forall r :: r in Arrange(db, q.order, db.Rows(q.table)) <==> r in db.Rows(q.table)
  {
    var rows := db.Rows(q.table);
    forall r ensures r in Arrange(db, q.order, rows) <==> r in rows {
      assert r in multiset(Arrange(db, q.order, rows)) <==> r in multiset(rows);
    }
  }

  lemma SelectedMembers(db: Database, q: Query, keep: Row -> bool)
    ensures forall r :: r in Selected(db, q, keep) <==> r in db.Rows(q.table) && AllHold(q.predicates, db, r) && keep(r)
  {
    ArrangedRows(db, q);
    FilterMembers(Arrange(db, q.order, db.Rows(q.table)), Choosing(db, q, keep));
  }

  /** A row that a query selects is determined by its ID. */
  lemma SelectedById(db: Database, q: Query, keep: Row -> bool, x: Row, y: Row)
    requires WellFormed(db) && x in Selected(db, q, keep) && y in Selected(db, q, keep) && IdOf(x) == IdOf(y)
    ensures x == y
  {
    SelectedMembers(db, q, keep);
    DistinctRows(db.Rows(q.table));
  }

  /** The condition that the loader's predicate states. */
  function Linking(link: Link): Row -> bool
    requires !link.Top?
  {
    if link.ById? then InList(ID, link.ids) else InList(link.column, link.ids)
  }

  /** The rows behind a child that was linked to its parents. */
  lemma LinkedRows(db: Database, q: Query, link: Link)
    requires !link.Top?
    ensures Matching(db, SpecOf(db.schema, Attach(q, link))) == Windowed(q, Selected(db, q, Linking(link)))
  {
    var keep := Linking(link);
    var q' := Attach(q, link);
    var p := q'.predicates[|q.predicates|];
    var arranged := Arrange(db, q.order, db.Rows(q.table));
    forall r | r in arranged
      ensures Satisfying(db, q'.predicates)(r) == Choosing(db, q, keep)(r)
    {
      AllHoldAppend(q.predicates, p, db, r);
    }
    FilterAgree(arranged, Satisfying(db, q'.predicates), Choosing(db, q, keep));
  }

  /** Conditions that agree on the table select the same rows. */
  lemma SelectedSame(db: Database, q: Query, p: Row -> bool, p': Row -> bool)
    requires forall r :: r in db.Rows(q.table) ==> p(r) == p'(r)
    ensures Selected(db, q, p) == Selected(db, q, p')
  {
    ArrangedRows(db, q);
    FilterAgree(Arrange(db, q.order, db.Rows(q.table)), Choosing(db, q, p), Choosing(db, q, p'));
  }

  lemma WindowedMembers(q: Query, rows: seq<Row>)
    ensures forall r :: r in Windowed(q, rows) ==> r in rows
  {
    forall i | 0 <= i < |Windowed(q, rows)| {
      WindowFrom(rows, OrZero(q.limit), OrZero(q.offset), i);
    }
  }

  lemma SelectedTwice(db: Database, q: Query, p: Row -> bool, p': Row -> bool)
    requires forall r :: r in db.Rows(q.table) && p'(r) ==> p(r)
    ensures Filter(Selected(db, q, p), p') == Selected(db, q, p')
  {
    ArrangedRows(db, q);
    FilterTwice(Arrange(db, q.order, db.Rows(q.table)), Choosing(db, q, p), p', Choosing(db, q, p'));
  }

  // ----- Columns --------------------------------------------------------------

  /** The columns that a join reads are always there. */
  lemma JoinColumns(db: Database, q: Query, force: Option<Column>, r: Row)
    requires GoodQuery(db.schema, q)
    ensures IdOf(Project(r, Columns(db, q, force))) == IdOf(r)
    ensures force.Some? ==> Fk(Project(r, Columns(db, q, force)), force.value) == Fk(r, force.value)
    ensures forall k :: k in q.loads && k.edge.kind.Unique? ==>
              Fk(Project(r, Columns(db, q, force)), k.edge.column) == Fk(r, k.edge.column)
  {
    var f := Forced(q, force);
    ProjectKeeps(db.schema, f, r, ID);
    if force.Some? {
      ProjectKeeps(db.schema, f, r, force.value);
    }
    forall k | k in q.loads && k.edge.kind.Unique?
      ensures Fk(Project(r, Columns(db, q, force)), k.edge.column) == Fk(r, k.edge.column)
    {
      assert k == Plain(k.edge);
      ProjectKeeps(db.schema, f, r, k.edge.column);
    }
  }

  // ----- Batching refines nested loops ----------------------------------------

  function ForceOf(link: Link): Option<Column> {
    if link.ByForeignKey? then Some(link.column) else None
  }

  function Found(db: Database, c: Query, fk: Option<int>): Option<Tree> {
    var r := Target(db, c, fk);
    if r.None? then None else Some(RowTree(db, c, None, r.value))
  }

  /** What one batched child query returned, given that it means nested loops,
      splits over the parents: each gets exactly its own children. */
  lemma ListSplits(db: Database, c: Query, col: Column, ids: seq<int>, id: int)
    requires WellFormed(db) && GoodQuery(db.schema, c) && id in ids
    requires NoWindow(c) || |ids| == 1 || (col == ID && |Selected(db, c, InList(col, ids))| <= Tolerance(c))
    ensures var full := Matching(db, SpecOf(db.schema, Attach(c, ByForeignKey(col, ids))));
            Referring(RowTrees(db, c, Some(col), full), col, id) == RowTrees(db, c, Some(col), Children(db, c, col, id))
  {
    hide Matching, RowTree, NodeColumns, Selected, Window;
    LinkedRows(db, c, ByForeignKey(col, ids));
    ChildrenSplit(db, c, col, ids, id);
    var rows := Windowed(c, Selected(db, c, InList(col, ids)));
    forall r | r in rows ensures RefersTo(col, id)(RowTree(db, c, Some(col), r)) == RowRefersTo(col, id)(r) {
      JoinColumns(db, c, Some(col), r);
      TreeRow(db, c, Some(col), r);
    }
    FilterTrees(db, c, Some(col), rows, RowRefersTo(col, id), RefersTo(col, id));
  }

  lemma TreeRow(db: Database, q: Query, force: Option<Column>, r: Row)
    ensures RowTree(db, q, force, r).row == Project(r, Columns(db, q, force))
  {
  }

  lemma Tolerated(q: Query, rows: seq<Row>)
    requires |rows| <= Tolerance(q)
    ensures Windowed(q, rows) == if OrZero(q.offset) > 0 then [] else rows
  {
  }

  lemma ChildrenSplit(db: Database, c: Query, col: Column, ids: seq<int>, id: int)
    requires id in ids
    requires NoWindow(c) || |ids| == 1 || |Selected(db, c, InList(col, ids))| <= Tolerance(c)
    ensures Filter(Windowed(c, Selected(db, c, InList(col, ids))), RowRefersTo(col, id)) == Children(db, c, col, id)
  {
    hide Filter, Selected;
    var shared, own := Selected(db, c, InList(col, ids)), Selected(db, c, RowRefersTo(col, id));
    SelectedTwice(db, c, InList(col, ids), RowRefersTo(col, id));
    if NoWindow(c) {
    } else if |shared| <= Tolerance(c) {
      FilterShorter(shared, RowRefersTo(col, id));
      FilterShorter([], RowRefersTo(col, id));
      Tolerated(c, shared);
      Tolerated(c, own);
    } else {
      hide Window;
      assert ids == [id];
      SelectedSame(db, c, InList(col, ids), RowRefersTo(col, id));
      WindowedMembers(c, own);
      SelectedMembers(db, c, RowRefersTo(col, id));
      FilterAll(Children(db, c, col, id), RowRefersTo(col, id));
    }
  }

  /** The target of a foreign key is the one row with that ID among the rows
      that the batched query returns. */
  lemma TargetRow(db: Database, c: Query, ids: seq<int>, id: int)
    requires WellFormed(db) && id in ids
    requires NoWindow(c) || |Selected(db, c, InList(ID, ids))| <= Tolerance(c)
    ensures var target, rows := Target(db, c, Some(id)), Windowed(c, Selected(db, c, InList(ID, ids)));
            && (target.None? ==> forall r :: r in rows ==> IdOf(r) != id)
            && (target.Some? ==>
                 && target.value in rows && IdOf(target.value) == id
                 && forall r :: r in rows && IdOf(r) == id ==> r == target.value)
  {
    hide Filter, Selected, Window;
    var rows, found := Windowed(c, Selected(db, c, InList(ID, ids))), Windowed(c, Selected(db, c, HasId(id)));
    TargetAmong(db, c, ids, id);
    if found != [] {
      assert found[0] in found;
      forall r | r in rows && IdOf(r) == id ensures r == found[0] {
        SelectedById(db, c, HasId(id), r, found[0]);
      }
    }
  }

  lemma TargetAmong(db: Database, c: Query, ids: seq<int>, id: int)
    requires WellFormed(db) && id in ids
    requires NoWindow(c) || |Selected(db, c, InList(ID, ids))| <= Tolerance(c)
    ensures var rows := Windowed(c, Selected(db, c, InList(ID, ids)));
            forall r :: r in rows && IdOf(r) == id <==> r in Windowed(c, Selected(db, c, HasId(id)))
    ensures forall r :: r in Windowed(c, Selected(db, c, HasId(id))) ==> r in Selected(db, c, HasId(id))
  {
    hide Filter, Selected;
    var shared, own := Selected(db, c, InList(ID, ids)), Selected(db, c, HasId(id));
    WindowedMembers(c, own);
    SelectedMembers(db, c, HasId(id));
    SelectedMembers(db, c, InList(ID, ids));
    forall r | r in db.Rows(c.table) ensures Fk(r, ID) == Some(IdOf(r)) {
      assert FullRow(db.schema, c.table, r);
    }
    if NoWindow(c) {
    } else {
      hide Window;
      SelectedTwice(db, c, InList(ID, ids), HasId(id));
      FilterShorter(shared, HasId(id));
      Tolerated(c, shared);
      Tolerated(c, own);
    }
  }

  lemma RowTreeIds(db: Database, c: Query, rows: seq<Row>)
    requires GoodQuery(db.schema, c)
    ensures forall i :: 0 <= i < |rows| ==> IdOf(RowTrees(db, c, None, rows)[i].row) == IdOf(rows[i])
  {
    forall i | 0 <= i < |rows| ensures IdOf(RowTrees(db, c, None, rows)[i].row) == IdOf(rows[i]) {
      JoinColumns(db, c, None, rows[i]);
    }
  }

  lemma {:induction false} LastWithIdIs(ts: seq<Tree>, id: int)
    ensures LastWithId(ts, id).None? ==> forall i :: 0 <= i < |ts| ==> IdOf(ts[i].row) != id
    ensures LastWithId(ts, id).Some? ==>
              exists i :: 0 <= i < |ts| && IdOf(ts[i].row) == id && LastWithId(ts, id) == Some(ts[i])
  {
    if ts == [] || IdOf(ts[|ts| - 1].row) == id {
    } else {
      LastWithIdIs(ts[..|ts| - 1], id);
    }
  }

  /** Likewise each parent gets exactly the target of its own foreign key. */
  lemma TargetFound(db: Database, c: Query, ids: seq<int>, id: int)
    requires WellFormed(db) && GoodQuery(db.schema, c) && id in ids
    requires NoWindow(c) || |Selected(db, c, InList(ID, ids))| <= Tolerance(c)
    ensures LastWithId(RowTrees(db, c, None, Matching(db, SpecOf(db.schema, Attach(c, ById(ids))))), id)
         == Found(db, c, Some(id))
  {
    hide Matching, RowTree, NodeColumns, Selected, Window, Target;
    LinkedRows(db, c, ById(ids));
    var rows := Windowed(c, Selected(db, c, InList(ID, ids)));
    var ts := RowTrees(db, c, None, rows);
    TargetRow(db, c, ids, id);
    RowTreeIds(db, c, rows);
    LastWithIdIs(ts, id);
    if Target(db, c, Some(id)).Some? {
      var i :| 0 <= i < |rows| && rows[i] == Target(db, c, Some(id)).value;
      assert IdOf(ts[i].row) == id;
    }
    if LastWithId(ts, id).Some? {
      var i :| 0 <= i < |ts| && IdOf(ts[i].row) == id && LastWithId(ts, id) == Some(ts[i]);
      assert rows[i] in rows;
    }
  }

  lemma ListJoined(db: Database, c: Query, k: LoadKey, rows: seq<Row>, r: Row)
    requires WellFormed(db) && GoodQuery(db.schema, c) && Divides(db, c, k, rows) && k.edge.kind.List?
    requires exists i :: 0 <= i < |rows| && IdOf(rows[i]) == IdOf(r)
    ensures var full := Matching(db, SpecOf(db.schema, Attach(c, LinkFor(k, rows))));
            Referring(RowTrees(db, c, Some(k.edge.column), full), k.edge.column, IdOf(r)) ==
              RowTrees(db, c, Some(k.edge.column), Children(db, c, k.edge.column, IdOf(r)))
  {
    var i :| 0 <= i < |rows| && IdOf(rows[i]) == IdOf(r);
    assert Ids(rows)[i] == IdOf(r);
    ListSplits(db, c, k.edge.column, Ids(rows), IdOf(r));
  }

  lemma UniqueJoined(db: Database, c: Query, k: LoadKey, rows: seq<Row>, r: Row)
    requires WellFormed(db) && GoodQuery(db.schema, c) && Divides(db, c, k, rows) && k.edge.kind.Unique?
    requires r in rows
    ensures Neighbour(r, k, RowTrees(db, c, None, Matching(db, SpecOf(db.schema, Attach(c, LinkFor(k, rows))))))
         == Found(db, c, Fk(r, k.edge.column))
  {
    if Fk(r, k.edge.column).Some? {
      ForeignKeysExact(rows, k.edge.column);
      TargetFound(db, c, ForeignKeys(rows, k.edge.column), Fk(r, k.edge.column).value);
    }
  }

  /** The neighbours of every edge, when each child run means nested loops. */
  ghost predicate NeighboursNested(db: Database, q: Query, rows: seq<Row>, nb: map<LoadKey, seq<Tree>>) {
    && nb.Keys == q.loads.Keys
    && forall k :: k in nb ==>
         nb[k] == RowTrees(db, q.loads[k], ForceOf(LinkFor(k, rows)),
                           Matching(db, SpecOf(db.schema, Attach(q.loads[k], LinkFor(k, rows)))))
  }

  lemma ManyAgree(db: Database, q: Query, rows: seq<Row>, nb: map<LoadKey, seq<Tree>>, i: nat, r: Row)
    requires WellFormed(db) && GoodQuery(db.schema, q) && AllDivide(db, q, rows) && NeighboursNested(db, q, rows, nb)
    requires i < |rows| && IdOf(rows[i]) == IdOf(r)
    ensures JoinedMany(rows[i], nb) == RowMany(db, q, r)
  {
    var t := JoinedMany(rows[i], nb);
    var u := RowMany(db, q, r);
    forall k | k in t ensures k in u && t[k] == u[k] {
      ListJoined(db, q.loads[k], k, rows, r);
    }
    MapsEqual(t, u);
  }

  lemma OneAgreesAt(db: Database, q: Query, rows: seq<Row>, nb: map<LoadKey, seq<Tree>>, p: Row, r: Row,
                    k: LoadKey)
    requires WellFormed(db) && GoodQuery(db.schema, q) && AllDivide(db, q, rows) && NeighboursNested(db, q, rows, nb)
    requires p in rows && k in q.loads && k.edge.kind.Unique? && Fk(p, k.edge.column) == Fk(r, k.edge.column)
    ensures k in JoinedOne(p, nb) <==> k in RowOne(db, q, r)
    ensures k in RowOne(db, q, r) ==> JoinedOne(p, nb)[k] == RowOne(db, q, r)[k]
  {
    UniqueJoined(db, q.loads[k], k, rows, p);
    assert Neighbour(p, k, nb[k]) == Found(db, q.loads[k], Fk(r, k.edge.column));
  }

  lemma OneAgrees(db: Database, q: Query, rows: seq<Row>, nb: map<LoadKey, seq<Tree>>, p: Row, r: Row)
    requires WellFormed(db) && GoodQuery(db.schema, q) && AllDivide(db, q, rows) && NeighboursNested(db, q, rows, nb)
    requires p in rows
    requires forall k :: k in q.loads && k.edge.kind.Unique? ==> Fk(p, k.edge.column) == Fk(r, k.edge.column)
    ensures JoinedOne(p, nb) == RowOne(db, q, r)
  {
    var t, u := JoinedOne(p, nb), RowOne(db, q, r);
    forall k | k in t ensures k in u && t[k] == u[k] {
      OneAgreesAt(db, q, rows, nb, p, r, k);
    }
    forall k | k in u ensures k in t {
      OneAgreesAt(db, q, rows, nb, p, r, k);
    }
    MapsEqual(t, u);
  }

  lemma JoinedIsRowTree(db: Database, q: Query, force: Option<Column>, rows: seq<Row>,
                        nb: map<LoadKey, seq<Tree>>, i: nat, r: Row)
    requires WellFormed(db) && GoodQuery(db.schema, q) && AllDivide(db, q, rows) && NeighboursNested(db, q, rows, nb)
    requires i < |rows| && rows[i] == Project(r, Columns(db, q, force))
    ensures Joined(rows[i], PlainKeys(q), nb) == RowTree(db, q, force, r)
  {
    JoinColumns(db, q, force, r);
    ManyAgree(db, q, rows, nb, i, r);
    OneAgrees(db, q, rows, nb, rows[i], r);
  }

  lemma JoinAllIsRowTrees(db: Database, q: Query, force: Option<Column>, rows: seq<Row>,
                          nb: map<LoadKey, seq<Tree>>, full: seq<Row>)
    requires WellFormed(db) && GoodQuery(db.schema, q) && AllDivide(db, q, rows) && NeighboursNested(db, q, rows, nb)
    requires |rows| == |full| && forall i :: 0 <= i < |rows| ==> rows[i] == Project(full[i], Columns(db, q, force))
    ensures JoinAll(rows, PlainKeys(q), nb) == RowTrees(db, q, force, full)
  {
    forall i | 0 <= i < |rows| ensures Joined(rows[i], PlainKeys(q), nb) == RowTree(db, q, force, full[i]) {
      JoinedIsRowTree(db, q, force, rows, nb, i, full[i]);
    }
  }
}
