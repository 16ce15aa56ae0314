/**
 Compiler correctness for field collection. `Interp` is the direct reading of a
 selection over the database; `Read` is what the resolvers read from the nodes
 of a run. `ReadbackExact` says exactly for which builder trees the two agree on
 every database.
 */
module Readback {
  import opened Storage
  import opened Query
  import opened NestedLoops
  import opened Selection

  /** A response: `Elsewhere` marks a field that this type does not resolve. */
  datatype Value =
    | Scalar(cell: Cell) | Object(fields: map<string, Value>) | Absent | Items(items: seq<Value>) | Elsewhere

  // ----- The direct reading ---------------------------------------------------

  function Interp(db: Database, t: Table, sel: seq<Field>, r: Row): map<string, Value>
    decreases sel, 0
  {
    if sel == [] then map[]
    else
      var f := sel[|sel| - 1];
      Interp(db, t, sel[..|sel| - 1], r)[f.alias := InterpField(db, t, f, r)]
  }

  function InterpField(db: Database, t: Table, f: Field, r: Row): Value
    decreases f, 1
  {
    match Classify(db.schema, t, f.name)
    case ColumnCase(c) => Scalar(if c in r then r[c] else Null)
    case Meta => if f.name == "id" then Scalar(Int(IdOf(r))) else Scalar(Text(t))
    case Unknown => Elsewhere
    case EdgeCase(e) =>
      if e.kind.Unique? then
        var target := Target(db, Fresh(e.target), Fk(r, e.column));
        if target.None? then Absent else Object(Interp(db, e.target, f.sub, target.value))
      else
        var rows := Children(db, Fresh(e.target), e.column, IdOf(r));
        Items(seq(|rows|, i requires 0 <= i < |rows| => Object(Interp(db, e.target, f.sub, rows[i]))))
  }

  // ----- Reading the nodes ----------------------------------------------------

  /** A node that a resolver fetches by itself: all columns, nothing loaded. */
  function Bare(r: Row): Tree {
    Tree(r, {}, map[], map[])
  }

  function RowOf(db: Database, t: Table, id: int): Option<Row> {
    var rows := Filter(db.Rows(t), HasId(id));
    if rows == [] then None else Some(rows[0])
  }

  function Read(db: Database, t: Table, sel: seq<Field>, n: Tree): map<string, Value>
    decreases sel, 0
  {
    if sel == [] then map[]
    else
      var f := sel[|sel| - 1];
      Read(db, t, sel[..|sel| - 1], n)[f.alias := ReadField(db, t, f, n)]
  }

  /** A column that was not selected reads as the zero value. An edge is read
      from the node if it was loaded; if not, the resolver queries it, starting
      from the node's ID. */
  function ReadField(db: Database, t: Table, f: Field, n: Tree): Value
    decreases f, 1
  {
    match Classify(db.schema, t, f.name)
    case ColumnCase(c) => Scalar(if c in n.row then n.row[c] else Null)
    case Meta => if f.name == "id" then Scalar(Int(IdOf(n.row))) else Scalar(Text(t))
    case Unknown => Elsewhere
    case EdgeCase(e) =>
      var k := KeyOf(e, f.alias);
      if e.kind.Unique? then
        if k in n.one then Object(Read(db, e.target, f.sub, n.one[k]))
        else if k in n.loadedTypes then Absent
        else
          var r := RowOf(db, t, IdOf(n.row));
          var target := if r.None? then None else Target(db, Fresh(e.target), Fk(r.value, e.column));
          if target.None? then Absent else Object(Read(db, e.target, f.sub, Bare(target.value)))
      else
        var ns := if k in n.many then n.many[k] else Bares(Children(db, Fresh(e.target), e.column, IdOf(n.row)));
        Items(seq(|ns|, i requires 0 <= i < |ns| => Object(Read(db, e.target, f.sub, ns[i]))))
  }

  function Bares(rows: seq<Row>): seq<Tree> {
    seq(|rows|, i requires 0 <= i < |rows| => Bare(rows[i]))
  }

  // ----- Which builder trees carry a selection --------------------------------

  ghost predicate Covers(s: Schema, q: Query, force: Option<Column>, sel: seq<Field>)
    decreases sel, 0
  {
    forall i :: 0 <= i < |sel| ==> CoversField(s, q, force, sel[i])
  }

  /** The field is selected, or its edge is loaded by a builder that in turn
      carries the field's own selection, or its edge is not loaded at all. */
  ghost predicate CoversField(s: Schema, q: Query, force: Option<Column>, f: Field)
    decreases f, 1
  {
    match Classify(s, q.table, f.name)
    case ColumnCase(c) => Keeps(s, Forced(q, force), c)
    case Meta => true
    case Unknown => true
    case EdgeCase(e) =>
      var k := KeyOf(e, f.alias);
      k in q.loads ==> Covers(s, q.loads[k], if e.kind.Unique? then None else Some(e.column), f.sub)
  }

  /** Builders as field collection makes them: the eager loads have no
      predicates, orders or windows of their own. */
  ghost predicate PlainLoads(q: Query)
    decreases q
  {
    forall k :: k in q.loads ==> IsPlain(q.loads[k]) && PlainLoads(q.loads[k])
  }

  ghost predicate IsPlain(q: Query) {
    q.predicates == [] && q.order == [] && q.limit == None && q.offset == None
  }

  ghost predicate DistinctAliases(sel: seq<Field>)
    decreases sel
  {
    && (forall i, j :: 0 <= i < j < |sel| ==> sel[i].alias != sel[j].alias)
    && (forall i :: 0 <= i < |sel| ==> DistinctAliases(sel[i].sub))
  }

  // ----- Rows -----------------------------------------------------------------

  lemma FreshRows(db: Database, t: Table, keep: Row -> bool)
    ensures forall r :: r in Selected(db, Fresh(t), keep) <==> r in db.Rows(t) && keep(r)
  {
    SelectedMembers(db, Fresh(t), keep);
  }

  lemma RowOfIs(db: Database, t: Table, r: Row)
    requires WellFormed(db) && r in db.Rows(t)
    ensures RowOf(db, t, IdOf(r)) == Some(r)
  {
    FilterMembers(db.Rows(t), HasId(IdOf(r)));
    DistinctRows(db.Rows(t));
    var rows := Filter(db.Rows(t), HasId(IdOf(r)));
    assert rows[0] in rows;
  }

  lemma TargetInTable(db: Database, t: Table, fk: Option<int>)
    ensures Target(db, Fresh(t), fk).Some? ==> Target(db, Fresh(t), fk).value in db.Rows(t)
  {
    if fk.Some? {
      FreshRows(db, t, HasId(fk.value));
    }
  }

  lemma ChildrenInTable(db: Database, t: Table, c: Column, id: int)
    ensures forall i :: 0 <= i < |Children(db, Fresh(t), c, id)| ==> Children(db, Fresh(t), c, id)[i] in db.Rows(t)
  {
    FreshRows(db, t, RowRefersTo(c, id));
  }

  lemma PlainSelects(db: Database, q: Query, keep: Row -> bool)
    requires IsPlain(q)
    ensures Selected(db, q, keep) == Selected(db, Fresh(q.table), keep)
  {
    var arranged := Arrange(db, [], db.Rows(q.table));
    FilterAgree(arranged, Choosing(db, q, keep), Choosing(db, Fresh(q.table), keep));
  }

  // ----- Field by field -------------------------------------------------------

  lemma {:induction false} FieldsAgree(db: Database, t: Table, sel: seq<Field>, n: Tree, r: Row)
    requires forall i :: 0 <= i < |sel| ==> ReadField(db, t, sel[i], n) == InterpField(db, t, sel[i], r)
    ensures Read(db, t, sel, n) == Interp(db, t, sel, r)
  {
    if sel == [] {
    } else {
      FieldsAgree(db, t, sel[..|sel| - 1], n, r);
    }
  }

  /** With one entry per response key, each key answers its own field. */
  lemma {:induction false} FieldAnswers(db: Database, t: Table, sel: seq<Field>, n: Tree, r: Row, i: nat)
    requires i < |sel| && forall j, k :: 0 <= j < k < |sel| ==> sel[j].alias != sel[k].alias
    ensures sel[i].alias in Read(db, t, sel, n) && Read(db, t, sel, n)[sel[i].alias] == ReadField(db, t, sel[i], n)
    ensures sel[i].alias in Interp(db, t, sel, r)
    ensures Interp(db, t, sel, r)[sel[i].alias] == InterpField(db, t, sel[i], r)
  {
    if i == |sel| - 1 {
    } else {
      FieldAnswers(db, t, sel[..|sel| - 1], n, r, i);
    }
  }

  /** A field that is no edge reads as its column, the ID or the type's name, on both
      sides; any other name is not resolved here. */
  lemma ScalarReads(db: Database, t: Table, f: Field, n: Tree, r: Row)
    requires forall e :: e in db.schema.EdgesOf(t) ==> e.name != f.name
    ensures var fields := if t in db.schema.fields then db.schema.fields[t] else map[];
            if f.name in fields then
              var c := fields[f.name];
              && InterpField(db, t, f, r) == Scalar(if c in r then r[c] else Null)
              && ReadField(db, t, f, n) == Scalar(if c in n.row then n.row[c] else Null)
            else if f.name == "id" then
              InterpField(db, t, f, r) == Scalar(Int(IdOf(r))) && ReadField(db, t, f, n) == Scalar(Int(IdOf(n.row)))
            else if f.name == "__typename" then
              InterpField(db, t, f, r) == Scalar(Text(t)) == ReadField(db, t, f, n)
            else InterpField(db, t, f, r) == Elsewhere == ReadField(db, t, f, n)
  {
    hide Read, Interp;
    FoundEdge(db.schema.EdgesOf(t), f.name);
  }

  lemma {:induction false} ArrangedByNothing(db: Database, rows: seq<Row>)
    ensures Arrange(db, [], rows) == rows
  {
    if rows == [] {
    } else {
      ArrangedByNothing(db, rows[1..]);
    }
  }

  /** An edge's direct reading, told from the rows of the two tables: the row that a foreign
      key names, or all rows that refer to the node, in table order. */
  lemma EdgeInterp(db: Database, t: Table, f: Field, r: Row, e: Edge)
    requires WellFormed(db) && NamesEdge(db.schema, t, f.name, e)
    ensures e.kind.Unique? ==>
              && (forall x :: x in db.Rows(e.target) && Fk(r, e.column) == Some(IdOf(x)) ==>
                   InterpField(db, t, f, r) == Object(Interp(db, e.target, f.sub, x)))
              && ((forall x :: x in db.Rows(e.target) ==> Fk(r, e.column) != Some(IdOf(x))) ==>
                   InterpField(db, t, f, r) == Absent)
    ensures e.kind.List? ==>
              var rows, v := Filter(db.Rows(e.target), RowRefersTo(e.column, IdOf(r))), InterpField(db, t, f, r);
              && v.Items? && |v.items| == |rows|
              && forall i :: 0 <= i < |rows| ==> v.items[i] == Object(Interp(db, e.target, f.sub, rows[i]))
  {
    hide Interp, Classify, WellFormed;
    ClassifyIs(db.schema, t, f.name);
    if e.kind.Unique? {
      TargetIs(db, e.target, Fk(r, e.column));
    } else {
      ArrangedByNothing(db, db.Rows(e.target));
      FilterAgree(db.Rows(e.target), Choosing(db, Fresh(e.target), RowRefersTo(e.column, IdOf(r))),
                  RowRefersTo(e.column, IdOf(r)));
    }
  }

  /** A foreign key leads to the one row that has it as its ID. */
  lemma TargetIs(db: Database, t: Table, fk: Option<int>)
    requires WellFormed(db)
    ensures forall x :: x in db.Rows(t) && fk == Some(IdOf(x)) ==> Target(db, Fresh(t), fk) == Some(x)
    ensures (forall x :: x in db.Rows(t) ==> fk != Some(IdOf(x))) ==> Target(db, Fresh(t), fk) == None
  {
    hide Selected;
    if fk.Some? {
      var rows := Selected(db, Fresh(t), HasId(fk.value));
      FreshRows(db, t, HasId(fk.value));
      DistinctRows(db.Rows(t));
      if rows != [] {
        assert rows[0] in rows;
      }
    }
  }

  // ----- Nodes that the resolvers fetch ---------------------------------------

  lemma {:induction false} BareReads(db: Database, t: Table, sel: seq<Field>, r: Row)
    requires WellFormed(db) && r in db.Rows(t)
    ensures Read(db, t, sel, Bare(r)) == Interp(db, t, sel, r)
    decreases sel, 0
  {
    forall i | 0 <= i < |sel| ensures ReadField(db, t, sel[i], Bare(r)) == InterpField(db, t, sel[i], r) {
      BareReadsField(db, t, sel[i], r);
    }
    FieldsAgree(db, t, sel, Bare(r), r);
  }

  lemma {:induction false} BareReadsField(db: Database, t: Table, f: Field, r: Row)
    requires WellFormed(db) && r in db.Rows(t)
    ensures ReadField(db, t, f, Bare(r)) == InterpField(db, t, f, r)
    decreases f, 1
  {
    hide Classify, WellFormed, Children, Target, RowTree;
    var c := Classify(db.schema, t, f.name);
    if c.EdgeCase? {
      RowOfIs(db, t, r);
      TargetInTable(db, c.edge.target, Fk(r, c.edge.column));
      ChildrenInTable(db, c.edge.target, c.edge.column, IdOf(r));
      if c.edge.kind.Unique? {
        var target := Target(db, Fresh(c.edge.target), Fk(r, c.edge.column));
        if target.Some? {
          BareReads(db, c.edge.target, f.sub, target.value);
        }
      } else {
        var rows := Children(db, Fresh(c.edge.target), c.edge.column, IdOf(r));
        forall i | 0 <= i < |rows| {
          BareReads(db, c.edge.target, f.sub, rows[i]);
        }
      }
    }
  }

  // ----- A covered selection reads back ---------------------------------------

  /** The facts of a node that its resolvers see. */
  lemma NodeFacts(db: Database, q: Query, force: Option<Column>, r: Row)
    requires WellFormed(db) && GoodQuery(db.schema, q) && r in db.Rows(q.table)
    ensures var n := RowTree(db, q, force, r);
            && n.row == Project(r, Columns(db, q, force)) && n.loadedTypes == PlainKeys(q)
            && IdOf(n.row) == IdOf(r) && RowOf(db, q.table, IdOf(n.row)) == Some(r)
  {
    hide RowOne, RowMany, Columns;
    JoinColumns(db, q, force, r);
    RowOfIs(db, q.table, r);
  }

  /** An eagerly loaded unique edge of a node. */
  lemma NodeOne(db: Database, q: Query, force: Option<Column>, r: Row, k: LoadKey)
    requires WellFormed(db) && GoodQuery(db.schema, q) && PlainLoads(q) && k in q.loads && k.edge.kind.Unique?
    ensures var n, target := RowTree(db, q, force, r), Target(db, Fresh(k.edge.target), Fk(r, k.edge.column));
            && (k in n.one <==> target.Some?)
            && (k in n.one ==>
                 n.one[k] == RowTree(db, q.loads[k], None, target.value) && target.value in db.Rows(k.edge.target))
  {
    hide RowMany, Columns;
    if Fk(r, k.edge.column).Some? {
      PlainSelects(db, q.loads[k], HasId(Fk(r, k.edge.column).value));
    }
    TargetInTable(db, k.edge.target, Fk(r, k.edge.column));
    assert Target(db, q.loads[k], Fk(r, k.edge.column)) == Target(db, Fresh(k.edge.target), Fk(r, k.edge.column));
  }

  /** An eagerly loaded list edge of a node. */
  lemma NodeMany(db: Database, q: Query, force: Option<Column>, r: Row, k: LoadKey)
    requires WellFormed(db) && GoodQuery(db.schema, q) && PlainLoads(q) && k in q.loads && k.edge.kind.List?
    ensures var n, rows := RowTree(db, q, force, r), Children(db, Fresh(k.edge.target), k.edge.column, IdOf(r));
            && k in n.many && n.many[k] == RowTrees(db, q.loads[k], Some(k.edge.column), rows)
            && forall i :: 0 <= i < |rows| ==> rows[i] in db.Rows(k.edge.target)
  {
    hide RowOne, Columns;
    PlainSelects(db, q.loads[k], RowRefersTo(k.edge.column, IdOf(r)));
    ChildrenInTable(db, k.edge.target, k.edge.column, IdOf(r));
  }

  lemma {:induction false} CoveredReads(db: Database, q: Query, force: Option<Column>, sel: seq<Field>, r: Row)
    requires WellFormed(db) && GoodQuery(db.schema, q) && PlainLoads(q) && r in db.Rows(q.table)
    requires Covers(db.schema, q, force, sel)
    ensures Read(db, q.table, sel, RowTree(db, q, force, r)) == Interp(db, q.table, sel, r)
    decreases sel, 0
  {
    hide RowTree;
    forall i | 0 <= i < |sel|
      ensures ReadField(db, q.table, sel[i], RowTree(db, q, force, r)) == InterpField(db, q.table, sel[i], r)
    {
      CoveredReadsField(db, q, force, sel[i], r);
    }
    FieldsAgree(db, q.table, sel, RowTree(db, q, force, r), r);
  }

  lemma {:induction false} CoveredReadsField(db: Database, q: Query, force: Option<Column>, f: Field, r: Row)
    requires WellFormed(db) && GoodQuery(db.schema, q) && PlainLoads(q) && r in db.Rows(q.table)
    requires CoversField(db.schema, q, force, f)
    ensures ReadField(db, q.table, f, RowTree(db, q, force, r)) == InterpField(db, q.table, f, r)
    decreases f, 2
  {
    hide RowTree, Classify, Read, Interp, WellFormed, GoodQuery, PlainLoads;
    NodeFacts(db, q, force, r);
    match Classify(db.schema, q.table, f.name) {
      case ColumnCase(c) =>
        ProjectKeeps(db.schema, Forced(q, force), r, c);
      case Meta =>
      case Unknown =>
      case EdgeCase(e) =>
        var k := KeyOf(e, f.alias);
        if k in q.loads {
          CoveredReadsEdge(db, q, force, f, r, k);
        } else {
          NotLoaded(db, q, force, r, k);
          BareReadsField(db, q.table, f, r);
        }
    }
  }

  lemma {:induction false} CoveredReadsEdge(db: Database, q: Query, force: Option<Column>, f: Field, r: Row, k: LoadKey)
    requires WellFormed(db) && GoodQuery(db.schema, q) && PlainLoads(q) && r in db.Rows(q.table)
    requires Classify(db.schema, q.table, f.name) == EdgeCase(k.edge) && k == KeyOf(k.edge, f.alias) && k in q.loads
    requires CoversField(db.schema, q, force, f)
    ensures ReadField(db, q.table, f, RowTree(db, q, force, r)) == InterpField(db, q.table, f, r)
    decreases f, 1
  {
    hide RowTree, Classify, Read, Interp, WellFormed;
    NodeFacts(db, q, force, r);
    if k.edge.kind.Unique? {
      NodeOne(db, q, force, r, k);
      var target := Target(db, Fresh(k.edge.target), Fk(r, k.edge.column));
      if target.Some? {
        CoveredReads(db, q.loads[k], None, f.sub, target.value);
      }
    } else {
      NodeMany(db, q, force, r, k);
      var rows := Children(db, Fresh(k.edge.target), k.edge.column, IdOf(r));
      forall i | 0 <= i < |rows| {
        CoveredReads(db, q.loads[k], Some(k.edge.column), f.sub, rows[i]);
      }
    }
  }

  lemma NotLoaded(db: Database, q: Query, force: Option<Column>, r: Row, k: LoadKey)
    requires k !in q.loads
    ensures var n := RowTree(db, q, force, r); k !in n.one && k !in n.many && k !in n.loadedTypes
  {
  }

  // ----- An uncovered selection does not --------------------------------------

  function Ones(cols: set<Column>): Row {
    map c | c in cols :: Int(1)
  }

  /** One row in every table, each cell of it a one: every edge leads somewhere
      and every column has a value to lose. */
  function Everything(s: Schema): Database {
    Database(s, map t | t in s.columns :: [Ones(s.columns[t])], (i, r) => true, (i, a, b) => false)
  }

  lemma EverythingWellFormed(s: Schema)
    requires s.Valid()
    ensures WellFormed(Everything(s))
  {
    var db := Everything(s);
    forall t | t in db.tables ensures DistinctIds(db.tables[t]) && forall r :: r in db.tables[t] ==> FullRow(s, t, r) {
      assert ID in s.columns[t];
    }
  }

  lemma FindEdgeIn(edges: seq<Edge>, name: string)
    ensures FindEdge(edges, name).Some? ==> FindEdge(edges, name).value in edges
  {
  }

  lemma ClassifiedEdge(s: Schema, t: Table, name: string)
    ensures Classify(s, t, name).EdgeCase? ==> Classify(s, t, name).edge in s.EdgesOf(t)
  {
    FindEdgeIn(s.EdgesOf(t), name);
  }

  lemma EverythingSelects(s: Schema, t: Table, keep: Row -> bool)
    requires t in s.columns && keep(Ones(s.columns[t]))
    ensures Selected(Everything(s), Fresh(t), keep) == [Ones(s.columns[t])]
  {
    var db := Everything(s);
    assert db.Rows(t) == [Ones(s.columns[t])];
    assert Arrange(db, [], db.Rows(t)) == db.Rows(t);
    FilterAppend([], Ones(s.columns[t]), Choosing(db, Fresh(t), keep));
    assert [] + [Ones(s.columns[t])] == [Ones(s.columns[t])];
  }

  lemma EverythingLeads(s: Schema, t: Table, e: Edge)
    requires s.Valid() && t in s.columns && e in s.EdgesOf(t)
    ensures e.target in s.columns
    ensures var r, target := Ones(s.columns[t]), Ones(s.columns[e.target]);
            && r in Everything(s).Rows(t) && target in Everything(s).Rows(e.target)
            && (e.kind.Unique? ==> Target(Everything(s), Fresh(e.target), Fk(r, e.column)) == Some(target))
            && (e.kind.List? ==> Children(Everything(s), Fresh(e.target), e.column, IdOf(r)) == [target])
  {
    assert s.ValidEdge(t, e);
    EverythingSelects(s, e.target, HasId(1));
    if e.kind.List? {
      EverythingSelects(s, e.target, RowRefersTo(e.column, 1));
    }
  }

  lemma {:induction false} UncoveredDiffers(s: Schema, q: Query, force: Option<Column>, sel: seq<Field>)
    requires s.Valid() && GoodQuery(s, q) && PlainLoads(q) && q.table in s.columns && DistinctAliases(sel)
    requires !Covers(s, q, force, sel)
    ensures var db, r := Everything(s), Ones(s.columns[q.table]);
            Read(db, q.table, sel, RowTree(db, q, force, r)) != Interp(db, q.table, sel, r)
    decreases sel, 0
  {
    hide RowTree;
    var db, r := Everything(s), Ones(s.columns[q.table]);
    var i :| 0 <= i < |sel| && !CoversField(s, q, force, sel[i]);
    UncoveredFieldDiffers(s, q, force, sel[i]);
    FieldAnswers(db, q.table, sel, RowTree(db, q, force, r), r, i);
  }

  lemma {:induction false} UncoveredFieldDiffers(s: Schema, q: Query, force: Option<Column>, f: Field)
    requires s.Valid() && GoodQuery(s, q) && PlainLoads(q) && q.table in s.columns && DistinctAliases(f.sub)
    requires !CoversField(s, q, force, f)
    ensures var db, r := Everything(s), Ones(s.columns[q.table]);
            ReadField(db, q.table, f, RowTree(db, q, force, r)) != InterpField(db, q.table, f, r)
    decreases f, 2
  {
    hide RowTree, Read, Interp, WellFormed, GoodQuery, PlainLoads;
    var db, r := Everything(s), Ones(s.columns[q.table]);
    EverythingWellFormed(s);
    ClassifiedEdge(s, q.table, f.name);
    assert r in db.Rows(q.table);
    NodeFacts(db, q, force, r);
    match Classify(s, q.table, f.name) {
      case ColumnCase(c) =>
        ProjectKeeps(s, Forced(q, force), r, c);
        assert s.ValidColumn(q.table, c);
      case EdgeCase(e) =>
        UncoveredEdgeDiffers(s, q, force, f, KeyOf(e, f.alias));
      case Meta =>
      case Unknown =>
    }
  }

  lemma {:induction false} UncoveredEdgeDiffers(s: Schema, q: Query, force: Option<Column>, f: Field, k: LoadKey)
    requires s.Valid() && GoodQuery(s, q) && PlainLoads(q) && q.table in s.columns && DistinctAliases(f.sub)
    requires Classify(s, q.table, f.name) == EdgeCase(k.edge) && k == KeyOf(k.edge, f.alias)
    requires !CoversField(s, q, force, f)
    ensures var db, r := Everything(s), Ones(s.columns[q.table]);
            ReadField(db, q.table, f, RowTree(db, q, force, r)) != InterpField(db, q.table, f, r)
    decreases f, 1
  {
    hide RowTree, Read, Interp, Classify, WellFormed;
    var db, r := Everything(s), Ones(s.columns[q.table]);
    EverythingWellFormed(s);
    ClassifiedEdge(s, q.table, f.name);
    EverythingLeads(s, q.table, k.edge);
    var target := Ones(s.columns[k.edge.target]);
    if k.edge.kind.Unique? {
      NodeOne(db, q, force, r, k);
      UncoveredDiffers(s, q.loads[k], None, f.sub);
    } else {
      NodeMany(db, q, force, r, k);
      UncoveredDiffers(s, q.loads[k], Some(k.edge.column), f.sub);
      FirstItemDiffers(db, q, f, RowTree(db, q, force, r), r, k, target);
    }
  }

  /** When the first neighbours differ, the lists do. */
  lemma FirstItemDiffers(db: Database, q: Query, f: Field, n: Tree, r: Row, k: LoadKey, target: Row)
    requires Classify(db.schema, q.table, f.name) == EdgeCase(k.edge) && k == KeyOf(k.edge, f.alias)
             && k.edge.kind.List?
    requires k in q.loads && Children(db, Fresh(k.edge.target), k.edge.column, IdOf(r)) == [target]
    requires k in n.many && n.many[k] == RowTrees(db, q.loads[k], Some(k.edge.column), [target])
    requires Read(db, k.edge.target, f.sub, RowTree(db, q.loads[k], Some(k.edge.column), target))
          != Interp(db, k.edge.target, f.sub, target)
    ensures ReadField(db, q.table, f, n) != InterpField(db, q.table, f, r)
  {
    hide RowTree, Read, Interp, Classify;
    assert n.many[k][0] == RowTree(db, q.loads[k], Some(k.edge.column), target);
    assert ReadField(db, q.table, f, n).items[0] == Object(Read(db, k.edge.target, f.sub, n.many[k][0]));
    assert InterpField(db, q.table, f, r).items[0] == Object(Interp(db, k.edge.target, f.sub, target));
  }

  /** A selection reads back from a builder tree on every database if and only if
      the tree covers it. */
  ghost predicate ReadsBack(s: Schema, q: Query, sel: seq<Field>) {
    forall db: Database, r :: WellFormed(db) && db.schema == s && r in db.Rows(q.table) ==>
      Read(db, q.table, sel, RowTree(db, q, None, r)) == Interp(db, q.table, sel, r)
  }

  lemma ReadbackExact(s: Schema, q: Query, sel: seq<Field>)
    requires s.Valid() && GoodQuery(s, q) && PlainLoads(q) && q.table in s.columns && DistinctAliases(sel)
    ensures ReadsBack(s, q, sel) <==> Covers(s, q, None, sel)
  {
    if Covers(s, q, None, sel) {
      forall db: Database, r | WellFormed(db) && db.schema == s && r in db.Rows(q.table)
        ensures Read(db, q.table, sel, RowTree(db, q, None, r)) == Interp(db, q.table, sel, r)
      {
        CoveredReads(db, q, None, sel, r);
      }
    } else {
      EverythingWellFormed(s);
      UncoveredDiffers(s, q, None, sel);
      assert Ones(s.columns[q.table]) in Everything(s).Rows(q.table);
    }
  }
}
