/**
 What the nodes of a run report about their edges (`*OrErr`, `Named*`), and what
 becomes of the neighbours that the batched queries returned.
 */
module EdgeStatus {
  import opened Storage
  import opened Query
  import opened NestedLoops
  import opened Extents

  datatype EdgeResult<+T> = Loaded(value: T) | NotFound | NotLoaded

  function UniqueOrErr(n: Tree, e: Edge): EdgeResult<Tree> {
    if Plain(e) in n.one then Loaded(n.one[Plain(e)])
    else if Plain(e) in n.loadedTypes then NotFound
    else NotLoaded
  }

  function ListOrErr(n: Tree, e: Edge): EdgeResult<seq<Tree>> {
    if Plain(e) in n.loadedTypes then Loaded(if Plain(e) in n.many then n.many[Plain(e)] else [])
    else NotLoaded
  }

  function NamedOrErr(n: Tree, e: Edge, alias: string): EdgeResult<seq<Tree>> {
    if Named(e, alias) in n.many then Loaded(n.many[Named(e, alias)]) else NotLoaded
  }

  /** The target of a foreign key is visible when the child query selects it. */
  ghost predicate Visible(db: Database, c: Query, id: int) {
    exists x :: x in db.Rows(c.table) && IdOf(x) == id && AllHold(c.predicates, db, x)
  }

  lemma NodeJoined(db: Database, q: Query, link: Link, i: nat)
    requires i < |NodesOf(db, q, link)|
    ensures Batched(db, q, link)[i].row == NodesOf(db, q, link)[i]
    ensures Batched(db, q, link)[i].loadedTypes == PlainKeys(q)
    ensures Batched(db, q, link)[i].one == JoinedOne(NodesOf(db, q, link)[i], Neighbours(db, q, NodesOf(db, q, link)))
    ensures Batched(db, q, link)[i].many == JoinedMany(NodesOf(db, q, link)[i], Neighbours(db, q, NodesOf(db, q, link)))
  {
    hide NodesOf, Joined, JoinedOne, JoinedMany, Neighbours;
    assert Batched(db, q, link)[i]
           == Joined(NodesOf(db, q, link)[i], PlainKeys(q), Neighbours(db, q, NodesOf(db, q, link)));
    JoinedFields(NodesOf(db, q, link)[i], PlainKeys(q), Neighbours(db, q, NodesOf(db, q, link)));
  }

  lemma JoinedFields(r: Row, loaded: set<LoadKey>, nb: map<LoadKey, seq<Tree>>)
    ensures Joined(r, loaded, nb) == Tree(r, loaded, JoinedOne(r, nb), JoinedMany(r, nb))
  {
  }

  lemma ChildIds(db: Database, c: Query, link: Link, i: nat)
    requires i < |Batched(db, c, link)|
    ensures |Batched(db, c, link)| == |Matching(db, SpecOf(db.schema, Attach(c, link)))|
    ensures IdOf(Batched(db, c, link)[i].row) == IdOf(Matching(db, SpecOf(db.schema, Attach(c, link)))[i])
  {
    hide Matching, NodeColumns, Joined;
    var full := Matching(db, SpecOf(db.schema, Attach(c, link)))[i];
    NodeJoined(db, c, link, i);
    ProjectKeeps(db.schema, Attach(c, link), full, ID);
    assert NodesOf(db, c, link)[i] == Project(full, NodeColumns(db.schema, Attach(c, link)));
  }

  lemma VisibleRows(db: Database, c: Query, ids: seq<int>, id: int)
    requires WellFormed(db) && NoWindow(c) && id in ids
    ensures Visible(db, c, id) <==>
              exists x :: x in Matching(db, SpecOf(db.schema, Attach(c, ById(ids)))) && IdOf(x) == id
  {
    hide Matching;
    LinkedRows(db, c, ById(ids));
    SelectedMembers(db, c, InList(ID, ids));
    if x :| x in db.Rows(c.table) && IdOf(x) == id && AllHold(c.predicates, db, x) {
      assert FullRow(db.schema, c.table, x);
    }
  }

  /** An ID is found among the nodes of a child run if and only if its query
      returned a row with that ID. */
  lemma FoundInRows(db: Database, c: Query, link: Link, id: int)
    ensures LastWithId(Batched(db, c, link), id).Some?
            <==> exists x :: x in Matching(db, SpecOf(db.schema, Attach(c, link))) && IdOf(x) == id
  {
    hide Batched, Matching, LastWithId;
    var ts, full := Batched(db, c, link), Matching(db, SpecOf(db.schema, Attach(c, link)));
    LastWithIdIs(ts, id);
    forall i | 0 <= i < |ts| {
      ChildIds(db, c, link, i);
    }
    if LastWithId(ts, id).Some? {
      var i :| 0 <= i < |ts| && IdOf(ts[i].row) == id;
      assert full[i] in full;
    }
    if x :| x in full && IdOf(x) == id {
      FoundAt(db, c, link, x);
    }
  }

  /** A child query without a window finds an ID that it was asked for if and
      only if its target is visible. */
  lemma FoundIfVisible(db: Database, c: Query, ids: seq<int>, id: int)
    requires WellFormed(db) && NoWindow(c) && id in ids
    ensures LastWithId(Batched(db, c, ById(ids)), id).Some? <==> Visible(db, c, id)
  {
    hide Batched, Matching, LastWithId, Visible;
    VisibleRows(db, c, ids, id);
    FoundInRows(db, c, ById(ids), id);
  }

  /** A node of a run is the one that its ID finds. */
  lemma OnlyWithId(db: Database, c: Query, link: Link, x: nat)
    requires WellFormed(db) && x < |Batched(db, c, link)|
    ensures LastWithId(Batched(db, c, link), IdOf(Batched(db, c, link)[x].row)) == Some(Batched(db, c, link)[x])
  {
    hide NodeColumns, Batched, Matching, QueryNodes, LastWithId;
    var ts, rows := Batched(db, c, link), NodesOf(db, c, link);
    IdKept(db.schema, Attach(c, link));
    NodesDistinct(db, SpecOf(db.schema, Attach(c, link)));
    forall i | 0 <= i < |ts| ensures ts[i].row == rows[i] {
      NodeJoined(db, c, link, i);
    }
    LastWithIdIs(ts, IdOf(ts[x].row));
  }

  lemma FoundAt(db: Database, c: Query, link: Link, x: Row)
    requires x in Matching(db, SpecOf(db.schema, Attach(c, link)))
    ensures exists i :: 0 <= i < |Batched(db, c, link)| && IdOf(Batched(db, c, link)[i].row) == IdOf(x)
  {
    hide Matching, NodeColumns, Joined;
    var full := Matching(db, SpecOf(db.schema, Attach(c, link)));
    var i :| 0 <= i < |full| && full[i] == x;
    assert |Batched(db, c, link)| == |full|;
    ChildIds(db, c, link, i);
  }

  /** The status of a unique edge is exact: not loaded if and only if it was not
      requested; not found if and only if it was requested and the foreign key is
      NULL or its target invisible; otherwise the target itself, with everything
      below it if no child has a window. */
  lemma UniqueStatus(db: Database, q: Query, e: Edge, i: nat)
    requires WellFormed(db) && GoodQuery(db.schema, q) && e.kind.Unique? && i < |Batched(db, q, Top)|
    requires Plain(e) in q.loads ==> NoWindow(q.loads[Plain(e)])
    ensures |Batched(db, q, Top)| == |Matching(db, SpecOf(db.schema, q))|
    ensures var result := UniqueOrErr(Batched(db, q, Top)[i], e);
            var fk := Fk(Matching(db, SpecOf(db.schema, q))[i], e.column);
            && (result.NotLoaded? <==> Plain(e) !in q.loads)
            && (result.NotFound? <==> Plain(e) in q.loads && (fk.None? || !Visible(db, q.loads[Plain(e)], fk.value)))
            && (result.Loaded? ==> fk == Some(IdOf(result.value.row)))
            && (result.Loaded? && UnwindowedChildren(q) ==>
                 IsTarget(db, q.loads[Plain(e)], fk.value, result.value))
  {
    hide Matching, JoinedMany, Batched, Visible, WellFormed, LastWithId, NodeColumns, IsTarget;
    var r, rows, k := Matching(db, SpecOf(db.schema, q))[i], NodesOf(db, q, Top), Plain(e);
    NodeJoined(db, q, Top, i);
    assert rows[i] == Project(r, Columns(db, q, None));
    JoinColumns(db, q, None, r);
    if k in q.loads {
      UniqueFound(db, q.loads[k], k, rows, i);
      LastIsNamed(Batched(db, q.loads[k], LinkFor(k, rows)), Fk(rows[i], e.column));
      if UnwindowedChildren(q) {
        NodeIs(db, q, i);
        TargetNode(db, q, k, r);
      }
    }
  }

  /** The node is that of the visible row with the ID, in the child's own right. */
  ghost predicate IsTarget(db: Database, c: Query, id: int, n: Tree) {
    exists x :: x in db.Rows(c.table) && IdOf(x) == id && AllHold(c.predicates, db, x) && n == RowTree(db, c, None, x)
  }

  lemma TargetNode(db: Database, q: Query, k: LoadKey, r: Row)
    requires k in q.loads && k.edge.kind.Unique?
    ensures var n, fk := RowTree(db, q, None, r), Fk(r, k.edge.column);
            k in n.one ==> fk.Some? && IsTarget(db, q.loads[k], fk.value, n.one[k])
  {
    hide RowMany, Columns, Windowed, Selected;
    var c, fk := q.loads[k], Fk(r, k.edge.column);
    if fk.Some? {
      var rows := Selected(db, c, HasId(fk.value));
      SelectedMembers(db, c, HasId(fk.value));
      WindowedMembers(c, rows);
      if Target(db, c, fk).Some? {
        assert Target(db, c, fk).value in Windowed(c, rows);
      }
    }
  }

  lemma UniqueFound(db: Database, c: Query, k: LoadKey, rows: seq<Row>, i: nat)
    requires WellFormed(db) && NoWindow(c) && k.edge.kind.Unique? && i < |rows|
    ensures var fk := Fk(rows[i], k.edge.column);
            fk.Some? ==> (LastWithId(Batched(db, c, LinkFor(k, rows)), fk.value).Some? <==> Visible(db, c, fk.value))
  {
    hide Batched, Visible, LastWithId;
    ForeignKeysExact(rows, k.edge.column);
    if Fk(rows[i], k.edge.column).Some? {
      FoundIfVisible(db, c, ForeignKeys(rows, k.edge.column), Fk(rows[i], k.edge.column).value);
    }
  }

  lemma LastIsNamed(ts: seq<Tree>, fk: Option<int>)
    ensures fk.Some? && LastWithId(ts, fk.value).Some? ==> IdOf(LastWithId(ts, fk.value).value.row) == fk.value
  {
    if fk.Some? {
      LastWithIdIs(ts, fk.value);
    }
  }

  lemma NodeIs(db: Database, q: Query, i: nat)
    requires WellFormed(db) && GoodQuery(db.schema, q) && UnwindowedChildren(q) && i < |Batched(db, q, Top)|
    ensures |Batched(db, q, Top)| == |Matching(db, SpecOf(db.schema, q))|
    ensures Batched(db, q, Top)[i] == RowTree(db, q, None, Matching(db, SpecOf(db.schema, q))[i])
  {
    hide Matching, RowTree;
    UnwindowedFits(q, RootExtent(q));
    BatchedIsNested(db, q);
  }

  /** A list edge reports an error only when it was not requested. A requested one
      holds the node's children: what the batched query found for it, which is
      the child query's own answer for that node if no child has a window. */
  lemma ListStatus(db: Database, q: Query, e: Edge, i: nat)
    requires WellFormed(db) && GoodQuery(db.schema, q) && e.kind.List? && i < |Batched(db, q, Top)|
    ensures |Batched(db, q, Top)| == |Matching(db, SpecOf(db.schema, q))|
    ensures var result, r := ListOrErr(Batched(db, q, Top)[i], e), Matching(db, SpecOf(db.schema, q))[i];
            if Plain(e) !in q.loads then result.NotLoaded?
            else var c := q.loads[Plain(e)];
              && result.Loaded?
              && (forall t :: t in result.value ==> Fk(t.row, e.column) == Some(IdOf(r)))
              && (UnwindowedChildren(q) ==>
                    result.value == RowTrees(db, c, Some(e.column), Children(db, c, e.column, IdOf(r))))
  {
    ListHolds(db, q, Plain(e), i);
  }

  lemma ListHolds(db: Database, q: Query, k: LoadKey, i: nat)
    requires WellFormed(db) && GoodQuery(db.schema, q) && k.edge.kind.List? && i < |Batched(db, q, Top)|
    ensures |Batched(db, q, Top)| == |Matching(db, SpecOf(db.schema, q))|
    ensures var n, r := Batched(db, q, Top)[i], Matching(db, SpecOf(db.schema, q))[i];
            && (k in n.many <==> k in q.loads) && n.loadedTypes == PlainKeys(q)
            && (k in q.loads ==>
                 && (forall t :: t in n.many[k] ==> Fk(t.row, k.edge.column) == Some(IdOf(r)))
                 && (UnwindowedChildren(q) ==>
                      n.many[k] == RowTrees(db, q.loads[k], Some(k.edge.column),
                                            Children(db, q.loads[k], k.edge.column, IdOf(r)))))
  {
    hide Matching, JoinedOne, Batched, RowTrees, WellFormed, Children, Filter;
    NodeJoined(db, q, Top, i);
    ChildIds(db, q, Top, i);
    if k in q.loads {
      var found := Batched(db, q.loads[k], LinkFor(k, NodesOf(db, q, Top)));
      FilterMembers(found, RefersTo(k.edge.column, IdOf(NodesOf(db, q, Top)[i])));
      if UnwindowedChildren(q) {
        NodeIs(db, q, i);
      }
    }
  }

  // ----- Named loads ----------------------------------------------------------

  /** An alias reports its own list, and only if it was loaded. */
  lemma NamedStatus(db: Database, q: Query, e: Edge, alias: string, i: nat)
    requires WellFormed(db) && GoodQuery(db.schema, q) && e.kind.List? && i < |Batched(db, q, Top)|
    ensures |Batched(db, q, Top)| == |Matching(db, SpecOf(db.schema, q))|
    ensures var result, r := NamedOrErr(Batched(db, q, Top)[i], e, alias), Matching(db, SpecOf(db.schema, q))[i];
            if Named(e, alias) !in q.loads then result.NotLoaded?
            else var c := q.loads[Named(e, alias)];
              && result.Loaded?
              && (forall t :: t in result.value ==> Fk(t.row, e.column) == Some(IdOf(r)))
              && (UnwindowedChildren(q) ==>
                    result.value == RowTrees(db, c, Some(e.column), Children(db, c, e.column, IdOf(r))))
  {
    ListHolds(db, q, Named(e, alias), i);
  }

  /** Loading one more alias leaves every other edge of every node as it was. */
  lemma NamedIndependent(db: Database, q: Query, k: LoadKey, c: Query, i: nat)
    requires k.Named? && k.edge.kind.List? && k !in q.loads
    requires i < |Batched(db, q, Top)|
    ensures var more := Batched(db, q.(loads := q.loads[k := c]), Top);
            && |more| == |Batched(db, q, Top)|
            && more[i].row == Batched(db, q, Top)[i].row
            && more[i].loadedTypes == Batched(db, q, Top)[i].loadedTypes
            && more[i].one == Batched(db, q, Top)[i].one
            && k in more[i].many && more[i].many - {k} == Batched(db, q, Top)[i].many
  {
    hide NodesOf, JoinedOne, JoinedMany, Neighbours;
    var q' := q.(loads := q.loads[k := c]);
    SameRows(db, q, q');
    assert PlainKeys(q') == PlainKeys(q);
    NamedJoined(db, q, k, c, NodesOf(db, q, Top), NodesOf(db, q, Top)[i]);
  }

  lemma NamedJoined(db: Database, q: Query, k: LoadKey, c: Query, rows: seq<Row>, r: Row)
    requires k.edge.kind.List? && k !in q.loads
    ensures var nb, nb' := Neighbours(db, q, rows), Neighbours(db, q.(loads := q.loads[k := c]), rows);
            && JoinedOne(r, nb') == JoinedOne(r, nb)
            && k in JoinedMany(r, nb') && JoinedMany(r, nb') - {k} == JoinedMany(r, nb)
  {
    var nb, nb' := Neighbours(db, q, rows), Neighbours(db, q.(loads := q.loads[k := c]), rows);
    NamedNeighbours(db, q, k, c, rows);
    JoinedMore(r, nb, k, nb'[k]);
  }

  lemma NamedNeighbours(db: Database, q: Query, k: LoadKey, c: Query, rows: seq<Row>)
    requires k !in q.loads
    ensures var nb, nb' := Neighbours(db, q, rows), Neighbours(db, q.(loads := q.loads[k := c]), rows);
            k !in nb && k in nb' && nb' == nb[k := nb'[k]]
  {
    var nb, nb' := Neighbours(db, q, rows), Neighbours(db, q.(loads := q.loads[k := c]), rows);
    MapsEqual(nb', nb[k := nb'[k]]);
  }

  lemma JoinedMore(r: Row, nb: map<LoadKey, seq<Tree>>, k: LoadKey, ts: seq<Tree>)
    requires k.edge.kind.List? && k !in nb
    ensures JoinedOne(r, nb[k := ts]) == JoinedOne(r, nb)
    ensures k in JoinedMany(r, nb[k := ts]) && JoinedMany(r, nb[k := ts]) - {k} == JoinedMany(r, nb)
  {
    hide Filter, LastWithId;
    JoinStep(r, {}, nb, k, ts);
    MapsEqual(JoinedMany(r, nb[k := ts]) - {k}, JoinedMany(r, nb));
  }

  lemma SameRows(db: Database, q: Query, q': Query)
    requires q' == q.(loads := q'.loads)
    requires forall e :: Plain(e) in q.loads <==> Plain(e) in q'.loads
    ensures NodesOf(db, q', Top) == NodesOf(db, q, Top)
  {
    SameForeignKeys(db.schema, q, q');
  }

  lemma SameForeignKeys(s: Schema, q: Query, q': Query)
    requires q'.table == q.table && q'.fields == q.fields
    requires forall e :: Plain(e) in q.loads <==> Plain(e) in q'.loads
    ensures NodeColumns(s, q') == NodeColumns(s, q)
  {
    ForeignKeysOfPlain([ID] + WithoutID(q.fields), s.EdgesOf(q.table), q.loads.Keys, q'.loads.Keys);
  }

  // ----- Nothing is lost or duplicated ----------------------------------------

  /** The lists of all nodes, one after the other. */
  function Gathered(rows: seq<Row>, ts: seq<Tree>, c: Column): seq<Tree> {
    if rows == [] then [] else Referring(ts, c, IdOf(rows[0])) + Gathered(rows[1..], ts, c)
  }

  function RefersElsewhere(c: Column, id: int): Tree -> bool {
    (t: Tree) => Fk(t.row, c) != Some(id)
  }

  lemma {:induction false} FilterSplits(ts: seq<Tree>, c: Column, id: int)
    ensures multiset(Filter(ts, RefersTo(c, id))) + multiset(Filter(ts, RefersElsewhere(c, id))) == multiset(ts)
  {
    if ts == [] {
    } else {
      FilterSplits(ts[1..], c, id);
      assert ts == [ts[0]] + ts[1..];
    }
  }

  lemma {:induction false} GatheredElsewhere(rows: seq<Row>, ts: seq<Tree>, c: Column, id: int)
    requires forall i :: 0 <= i < |rows| ==> IdOf(rows[i]) != id
    ensures Gathered(rows, Filter(ts, RefersElsewhere(c, id)), c) == Gathered(rows, ts, c)
  {
    if rows == [] {
    } else {
      FilterTwice(ts, RefersElsewhere(c, id), RefersTo(c, IdOf(rows[0])), RefersTo(c, IdOf(rows[0])));
      GatheredElsewhere(rows[1..], ts, c, id);
    }
  }

  ghost predicate RefersToAny(n: Tree, c: Column, rows: seq<Row>) {
    exists j :: 0 <= j < |rows| && Fk(n.row, c) == Some(IdOf(rows[j]))
  }

  /** Conservation: when the nodes have distinct IDs and every neighbour refers to
      one of them, handing the neighbours out loses and duplicates nothing. */
  lemma {:induction false} NothingLost(rows: seq<Row>, ts: seq<Tree>, c: Column)
    requires DistinctIds(rows)
    requires forall i :: 0 <= i < |ts| ==> RefersToAny(ts[i], c, rows)
    ensures multiset(Gathered(rows, ts, c)) == multiset(ts) && |Gathered(rows, ts, c)| == |ts|
    decreases rows
  {
    if rows == [] {
      assert ts == [];
    } else {
      var id := IdOf(rows[0]);
      var rest := Filter(ts, RefersElsewhere(c, id));
      FilterMembers(ts, RefersElsewhere(c, id));
      forall i | 0 <= i < |rest| ensures RefersToAny(rest[i], c, rows[1..]) {
        assert rest[i] in rest;
        var i' :| 0 <= i' < |ts| && ts[i'] == rest[i];
        var j :| 0 <= j < |rows| && Fk(ts[i'].row, c) == Some(IdOf(rows[j]));
        assert rows[1..][j - 1] == rows[j];
      }
      NothingLost(rows[1..], rest, c);
      GatheredElsewhere(rows[1..], ts, c, id);
      FilterSplits(ts, c, id);
      SameSize(Gathered(rows, ts, c), ts);
    }
  }

  lemma SameSize<T>(a: seq<T>, b: seq<T>)
    requires multiset(a) == multiset(b)
    ensures |a| == |b|
  {
    assert |multiset(a)| == |a| && |multiset(b)| == |b|;
  }

  function ListIn(n: Tree, k: LoadKey): seq<Tree> {
    if k in n.many then n.many[k] else []
  }

  /** The lists of a run, put together, are what the batched query returned. */
  lemma RunLosesNothing(db: Database, q: Query, k: LoadKey)
    requires WellFormed(db) && GoodQuery(db.schema, q) && k in q.loads && k.edge.kind.List?
    ensures var rows, ts := NodesOf(db, q, Top), Batched(db, q, Top);
            var found := Batched(db, q.loads[k], LinkFor(k, rows));
            && (forall i :: 0 <= i < |rows| ==> ListIn(ts[i], k) == Referring(found, k.edge.column, IdOf(rows[i])))
            && multiset(Gathered(rows, found, k.edge.column)) == multiset(found)
            && |Gathered(rows, found, k.edge.column)| == |found|
  {
    hide Matching, NodeColumns, Referring, Gathered, Batched, QueryNodes, RefersToAny;
    var rows := NodesOf(db, q, Top);
    var found := Batched(db, q.loads[k], LinkFor(k, rows));
    FoundRefer(db, q.loads[k], k, rows, found);
    IdKept(db.schema, q);
    NodesDistinct(db, SpecOf(db.schema, q));
    forall i | 0 <= i < |rows| {
      NodeJoined(db, q, Top, i);
    }
    NothingLost(rows, found, k.edge.column);
  }

  lemma FoundRefer(db: Database, c: Query, k: LoadKey, rows: seq<Row>, found: seq<Tree>)
    requires k.edge.kind.List? && found == Batched(db, c, LinkFor(k, rows))
    ensures forall i :: 0 <= i < |found| ==> RefersToAny(found[i], k.edge.column, rows)
  {
    hide NodesOf, Batched;
    forall i | 0 <= i < |found| ensures RefersToAny(found[i], k.edge.column, rows) {
      LinkedTrees(db, c, LinkFor(k, rows), i);
      var j :| 0 <= j < |rows| && Fk(found[i].row, k.edge.column).value == Ids(rows)[j];
    }
  }
}
