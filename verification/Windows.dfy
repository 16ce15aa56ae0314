/**
 A limit or an offset on an eager-load child cuts across the parents, because all
 parents share one batched query. `WindowExact` shows that a builder tree means
 nested loops on every database exactly when each of its windows treats so many rows
 as can share its query as it treats each alone.
 */
module Windows {
  import opened Storage
  import opened Query
  import opened NestedLoops
  import opened Extents
  import opened Forest
  import opened Reach
  import EdgeStatus

  // ----- What a node holds for an edge ----------------------------------------

  /** The neighbours of a node over an edge, of either kind. */
  function EdgeNodes(n: Tree, k: LoadKey): seq<Tree> {
    if k.edge.kind.List? then EdgeStatus.ListIn(n, k) else if k in n.one then [n.one[k]] else []
  }

  /** The neighbours that a loader hands to a row out of those it loaded. */
  function HandedTo(r: Row, k: LoadKey, ts: seq<Tree>): seq<Tree> {
    if k.edge.kind.List? then Referring(ts, k.edge.column, IdOf(r))
    else if Neighbour(r, k, ts).Some? then [Neighbour(r, k, ts).value] else []
  }

  /** The rows of its neighbours, found for this one row. */
  function Wanted(db: Database, c: Query, k: LoadKey, r: Row): seq<Row> {
    if k.edge.kind.List? then Children(db, c, k.edge.column, IdOf(r))
    else if Target(db, c, Fk(r, k.edge.column)).Some? then [Target(db, c, Fk(r, k.edge.column)).value] else []
  }

  lemma BatchedHolds(db: Database, q: Query, link: Link, k: LoadKey, i: nat)
    requires k in q.loads && i < |Batched(db, q, link)|
    ensures EdgeNodes(Batched(db, q, link)[i], k)
         == HandedTo(NodesOf(db, q, link)[i], k, Batched(db, q.loads[k], LinkFor(k, NodesOf(db, q, link))))
  {
    hide NodesOf, Referring, Neighbour, Batched;
    EdgeStatus.NodeJoined(db, q, link, i);
    assert k in Neighbours(db, q, NodesOf(db, q, link));
  }

  lemma NestedHolds(db: Database, q: Query, force: Option<Column>, r: Row, k: LoadKey)
    requires k in q.loads
    ensures EdgeNodes(RowTree(db, q, force, r), k)
         == RowTrees(db, q.loads[k], ForceOf(LinkFor(k, [])), Wanted(db, q.loads[k], k, r))
  {
    hide Children, Target, Columns;
    var n := RowTree(db, q, force, r);
    if k.edge.kind.List? {
      assert k in RowMany(db, q, r);
    } else {
      assert k in RowOne(db, q, r) <==> Target(db, q.loads[k], Fk(r, k.edge.column)).Some?;
    }
  }

  /** A run that does not mean nested loops. */
  ghost predicate Differs(db: Database, q: Query, link: Link) {
    Batched(db, q, link) != RowTrees(db, q, ForceOf(link), Matching(db, SpecOf(db.schema, Attach(q, link))))
  }

  /** A run differs where one of its nodes is handed something else than it wants. */
  lemma NodeDiffers(db: Database, q: Query, link: Link, k: LoadKey, i: nat)
    requires GoodQuery(db.schema, q) && k in q.loads && i < |NodesOf(db, q, link)|
    requires var nodes, c := NodesOf(db, q, link), q.loads[k];
             HandedTo(nodes[i], k, Batched(db, c, LinkFor(k, nodes)))
             != RowTrees(db, c, ForceOf(LinkFor(k, nodes)), Wanted(db, c, k, nodes[i]))
    ensures Differs(db, q, link)
  {
    hide NodesOf, Matching, HandedTo, RowTree, Children, Target, Batched, EdgeNodes;
    var full := Matching(db, SpecOf(db.schema, Attach(q, link)));
    NodeFull(db, q, link, i);
    CountNodes(db, q, link);
    BatchedHolds(db, q, link, k, i);
    NestedHolds(db, q, ForceOf(link), full[i], k);
    assert Wanted(db, q.loads[k], k, full[i]) == Wanted(db, q.loads[k], k, NodesOf(db, q, link)[i]);
    assert ForceOf(LinkFor(k, [])) == ForceOf(LinkFor(k, NodesOf(db, q, link)));
    var right := RowTrees(db, q, ForceOf(link), full);
    assert right[i] == RowTree(db, q, ForceOf(link), full[i]);
    assert EdgeNodes(Batched(db, q, link)[i], k) != EdgeNodes(right[i], k);
  }

  lemma CountNodes(db: Database, q: Query, link: Link)
    ensures |Batched(db, q, link)| == |NodesOf(db, q, link)|
    ensures |NodesOf(db, q, link)| == |Matching(db, SpecOf(db.schema, Attach(q, link)))|
  {
    hide Matching;
  }

  // ----- One-to-one edges -----------------------------------------------------

  /** The parent that asked for a row. */
  lemma AskingParent(db: Database, c: Query, k: LoadKey, nodes: seq<Row>, y: Row) returns (i: nat)
    requires WellFormed(db) && OneToOne(k) && y in AskedRows(db, c, k, nodes)
    ensures i < |nodes|
    ensures if k.edge.kind.List? then k.edge.column == ID && IdOf(nodes[i]) == IdOf(y)
            else Fk(nodes[i], k.edge.column) == Some(IdOf(y))
  {
    hide AskedRows, ForeignKeys;
    AskedIds(db, c, k, nodes, y);
    if k.edge.kind.List? {
      IdIsKey(y);
      var n :| n in nodes && IdOf(n) == IdOf(y);
      i :| 0 <= i < |nodes| && nodes[i] == n;
    } else {
      ForeignKeysExact(nodes, k.edge.column);
      i :| 0 <= i < |nodes| && Fk(nodes[i], k.edge.column) == Some(IdOf(y));
    }
  }

  lemma OnlyRow(rows: seq<Row>, y: Row)
    requires DistinctIds(rows) && y in rows && forall r :: r in rows ==> IdOf(r) == IdOf(y)
    ensures rows == [y]
  {
    assert |rows| > 1 ==> IdOf(rows[0]) != IdOf(rows[1]);
    forall j | 0 <= j < |rows| ensures IdOf(rows[j]) == IdOf(y) {
      assert rows[j] in rows;
    }
    assert |rows| == 1;
  }

  /** What one parent wants over a one-to-one edge. */
  lemma WantedOne(db: Database, c: Query, k: LoadKey, n: Row, y: Row)
    requires WellFormed(db) && OneToOne(k) && y in db.Rows(c.table) && AllHold(c.predicates, db, y)
    requires if k.edge.kind.List? then k.edge.column == ID && IdOf(n) == IdOf(y)
             else Fk(n, k.edge.column) == Some(IdOf(y))
    ensures Wanted(db, c, k, n) == Windowed(c, [y])
  {
    hide Selected, AllHold;
    var keep := if k.edge.kind.List? then RowRefersTo(ID, IdOf(y)) else HasId(IdOf(y));
    var own := Selected(db, c, keep);
    SelectedMembers(db, c, keep);
    SelectedDistinct(db, c, keep);
    forall r | r in db.Rows(c.table) ensures Fk(r, ID) == Some(IdOf(r)) {
      assert FullRow(db.schema, c.table, r);
    }
    OnlyRow(own, y);
  }

  /** A one-to-one loader hands a parent something if and only if its answer has the row. */
  lemma HandedOne(db: Database, c: Query, k: LoadKey, nodes: seq<Row>, i: nat, y: Row)
    requires WellFormed(db) && OneToOne(k) && i < |nodes|
    requires if k.edge.kind.List? then k.edge.column == ID && IdOf(nodes[i]) == IdOf(y)
             else Fk(nodes[i], k.edge.column) == Some(IdOf(y))
    ensures HandedTo(nodes[i], k, Batched(db, c, LinkFor(k, nodes))) != []
            <==> exists x :: x in Windowed(c, AskedRows(db, c, k, nodes)) && IdOf(x) == IdOf(y)
  {
    hide Selected, Windowed, Matching, LastWithId, Batched, ForeignKeys, Linking;
    var link := LinkFor(k, nodes);
    LinkedRows(db, c, link);
    EdgeStatus.FoundInRows(db, c, link, IdOf(y));
    if k.edge.kind.List? {
      ReferringById(db, c, link, IdOf(y));
    }
  }

  lemma ReferringById(db: Database, c: Query, link: Link, id: int)
    requires WellFormed(db)
    ensures Referring(Batched(db, c, link), ID, id) != [] <==> LastWithId(Batched(db, c, link), id).Some?
  {
    hide Batched, Matching, LastWithId;
    var ts := Batched(db, c, link);
    forall j | 0 <= j < |ts| ensures Fk(ts[j].row, ID) == Some(IdOf(ts[j].row)) {
      NodeId(db, c, link, j);
    }
    LastWithIdIs(ts, id);
    FilterMembers(ts, RefersTo(ID, id));
    if Referring(ts, ID, id) != [] {
      assert Referring(ts, ID, id)[0] in Referring(ts, ID, id);
    }
    if LastWithId(ts, id).Some? {
      var j :| 0 <= j < |ts| && IdOf(ts[j].row) == id;
      assert ts[j] in ts;
    }
  }

  lemma NodeId(db: Database, c: Query, link: Link, j: nat)
    requires WellFormed(db) && j < |Batched(db, c, link)|
    ensures Fk(Batched(db, c, link)[j].row, ID) == Some(IdOf(Batched(db, c, link)[j].row))
  {
    hide Batched, Matching, NodeColumns;
    CountNodes(db, c, link);
    EdgeStatus.NodeJoined(db, c, link, j);
    var r := Matching(db, SpecOf(db.schema, Attach(c, link)))[j];
    MatchingMembers(db, c, link);
    assert r in Matching(db, SpecOf(db.schema, Attach(c, link)));
    assert FullRow(db.schema, c.table, r);
    ProjectKeeps(db.schema, Attach(c, link), r, ID);
    assert NodesOf(db, c, link)[j] == Project(r, NodeColumns(db.schema, Attach(c, link)));
  }

  /** The row that a window takes from its parent, or leaves to a parent that alone would
      not see it. */
  function Displaced(c: Query, rows: seq<Row>): Row
    requires !NoWindow(c) && |rows| > Tolerance(c)
  {
    rows[Tolerance(c)]
  }

  lemma DisplacedIs(c: Query, rows: seq<Row>)
    requires !NoWindow(c) && |rows| > Tolerance(c) && DistinctIds(rows)
    ensures var y := Displaced(c, rows);
            && y in rows && Windowed(c, [y]) == (if OrZero(c.offset) > 0 then [] else [y])
            && ((exists x :: x in Windowed(c, rows) && IdOf(x) == IdOf(y)) <==> OrZero(c.offset) > 0)
  {
    var y, w := Displaced(c, rows), Windowed(c, rows);
    if OrZero(c.offset) > 0 {
      assert w[0] == y && y in w;
    } else {
      assert w == rows[..Tolerance(c)];
      forall x | x in w ensures IdOf(x) != IdOf(y) {
        var j :| 0 <= j < |w| && w[j] == x;
        assert rows[j] == x;
      }
    }
  }

  /** More rows than a window tolerates make a one-to-one edge differ. */
  lemma OneToOneDiffers(db: Database, q: Query, link: Link, k: LoadKey)
    requires WellFormed(db) && GoodQuery(db.schema, q) && k in q.loads && OneToOne(k) && !NoWindow(q.loads[k])
    requires |AskedRows(db, q.loads[k], k, NodesOf(db, q, link))| > Tolerance(q.loads[k])
    ensures Differs(db, q, link)
  {
    hide NodesOf, Selected, HandedTo, Wanted, Windowed, Batched, Differs, Linking;
    var c, nodes := q.loads[k], NodesOf(db, q, link);
    var rows := AskedRows(db, c, k, nodes);
    var y := Displaced(c, rows);
    SelectedDistinct(db, c, Linking(LinkFor(k, nodes)));
    SelectedMembers(db, c, Linking(LinkFor(k, nodes)));
    DisplacedIs(c, rows);
    var i := AskingParent(db, c, k, nodes, y);
    WantedOne(db, c, k, nodes[i], y);
    HandedOne(db, c, k, nodes, i, y);
    NodeDiffers(db, q, link, k, i);
  }

  // ----- Lists ----------------------------------------------------------------

  lemma {:induction false} TwoParts(rows: seq<Row>, p: Row -> bool, p': Row -> bool)
    requires forall r :: r in rows ==> !(p(r) && p'(r))
    ensures |Filter(rows, p)| + |Filter(rows, p')| <= |rows|
  {
    if rows == [] {
    } else {
      TwoParts(rows[1..], p, p');
    }
  }

  /** A shared window cannot leave two parents what their own windows would. */
  lemma SharedLess(c: Query, rows: seq<Row>, p: Row -> bool, p': Row -> bool, m: nat)
    requires !NoWindow(c) && SmallWindow(c, m) && (forall r :: r in rows ==> !(p(r) && p'(r)))
    requires |Filter(rows, p)| >= 2 * m && |Filter(rows, p')| >= 2 * m
    ensures |Filter(Windowed(c, rows), p)| != CutSize(c, |Filter(rows, p)|)
         || |Filter(Windowed(c, rows), p')| != CutSize(c, |Filter(rows, p')|)
  {
    hide Filter;
    var w := Windowed(c, rows);
    WindowedMembers(c, rows);
    TwoParts(w, p, p');
    FilterShorter(rows, p);
    if OrZero(c.limit) > 0 {
    } else {
      var o := OrZero(c.offset);
      assert rows == rows[..o] + w;
      FilterSum(rows[..o], w, p);
      FilterSum(rows[..o], w, p');
      TwoParts(rows[..o], p, p');
    }
  }

  /** A node is handed as many neighbours as the answer has rows for it. */
  lemma ListLength(db: Database, c: Query, col: Column, ids: seq<int>, id: int)
    ensures |Referring(Batched(db, c, ByForeignKey(col, ids)), col, id)|
         == |Filter(Windowed(c, Selected(db, c, InList(col, ids))), RowRefersTo(col, id))|
  {
    hide Matching, NodeColumns, Neighbours, Selected, Windowed;
    var c' := Attach(c, ByForeignKey(col, ids));
    var full, ts := Matching(db, SpecOf(db.schema, c')), Batched(db, c, ByForeignKey(col, ids));
    LinkedRows(db, c, ByForeignKey(col, ids));
    forall i | 0 <= i < |full| ensures Fk(ts[i].row, col) == Fk(full[i], col) {
      ProjectKeeps(db.schema, c', full[i], col);
    }
    SameLength(full, ts, col, id);
  }

  lemma {:induction false} SameLength(rows: seq<Row>, ts: seq<Tree>, col: Column, id: int)
    requires |rows| == |ts| && forall i :: 0 <= i < |ts| ==> Fk(ts[i].row, col) == Fk(rows[i], col)
    ensures |Referring(ts, col, id)| == |Filter(rows, RowRefersTo(col, id))|
  {
    if ts == [] {
    } else {
      SameLength(rows[1..], ts[1..], col, id);
    }
  }

  /** What a parent is handed of a list, and what it wants of it. */
  lemma ListSides(db: Database, c: Query, k: LoadKey, nodes: seq<Row>, i: nat)
    requires k.edge.kind.List? && i < |nodes|
    ensures var rows, keep := AskedRows(db, c, k, nodes), RowRefersTo(k.edge.column, IdOf(nodes[i]));
            && |HandedTo(nodes[i], k, Batched(db, c, LinkFor(k, nodes)))| == |Filter(Windowed(c, rows), keep)|
            && Filter(rows, keep) == Selected(db, c, keep)
            && |Wanted(db, c, k, nodes[i])| == CutSize(c, |Filter(rows, keep)|)
  {
    hide Selected, Filter, Windowed, Batched;
    var keep := RowRefersTo(k.edge.column, IdOf(nodes[i]));
    ListLength(db, c, k.edge.column, Ids(nodes), IdOf(nodes[i]));
    assert Ids(nodes)[i] == IdOf(nodes[i]);
    SelectedTwice(db, c, InList(k.edge.column, Ids(nodes)), keep);
    WindowCut(c, Selected(db, c, keep));
  }

  /** Two parents with many children each make a list edge with a window differ. */
  lemma ListDiffers(db: Database, q: Query, link: Link, k: LoadKey, i: nat, j: nat, m: nat)
    requires GoodQuery(db.schema, q) && k in q.loads && k.edge.kind.List? && !NoWindow(q.loads[k])
    requires SmallWindow(q.loads[k], m) && i < |NodesOf(db, q, link)| && j < |NodesOf(db, q, link)|
    requires IdOf(NodesOf(db, q, link)[i]) != IdOf(NodesOf(db, q, link)[j])
    requires |Selected(db, q.loads[k], RowRefersTo(k.edge.column, IdOf(NodesOf(db, q, link)[i])))| >= 2 * m
    requires |Selected(db, q.loads[k], RowRefersTo(k.edge.column, IdOf(NodesOf(db, q, link)[j])))| >= 2 * m
    ensures Differs(db, q, link)
  {
    hide NodesOf, Selected, HandedTo, Wanted, Windowed, Batched, Differs, Filter, RowTree, Linking;
    var c, nodes, col := q.loads[k], NodesOf(db, q, link), k.edge.column;
    var rows := AskedRows(db, c, k, nodes);
    ListSides(db, c, k, nodes, i);
    ListSides(db, c, k, nodes, j);
    SharedLess(c, rows, RowRefersTo(col, IdOf(nodes[i])), RowRefersTo(col, IdOf(nodes[j])), m);
    if |HandedTo(nodes[i], k, Batched(db, c, LinkFor(k, nodes)))| != |Wanted(db, c, k, nodes[i])| {
      NodeDiffers(db, q, link, k, i);
    } else {
      NodeDiffers(db, q, link, k, j);
    }
  }

  // ----- A difference below ---------------------------------------------------

  lemma {:induction false} FilteredApart(a: seq<Tree>, b: seq<Tree>, p: Tree -> bool, x: nat)
    requires |a| == |b| && x < |a| && a[x] != b[x] && p(a[x])
    requires forall i :: 0 <= i < |a| ==> p(a[i]) == p(b[i])
    ensures Filter(a, p) != Filter(b, p)
  {
    if x == 0 {
      assert Filter(a, p)[0] == a[0] && Filter(b, p)[0] == b[0];
    } else {
      FilteredApart(a[1..], b[1..], p, x - 1);
      FilteredSame(a, b, p);
    }
  }

  lemma FilteredSame(a: seq<Tree>, b: seq<Tree>, p: Tree -> bool)
    requires a != [] && b != [] && p(a[0]) == p(b[0]) && Filter(a[1..], p) != Filter(b[1..], p)
    ensures Filter(a, p) != Filter(b, p)
  {
    if p(a[0]) {
      assert Filter(a, p)[1..] == Filter(a[1..], p) && Filter(b, p)[1..] == Filter(b[1..], p);
    }
  }

  /** Trees with the same rows, one of them other than the other: the parent that one is
      tied to is handed something else. */
  lemma HandedApart(n: Row, k: LoadKey, a: seq<Tree>, b: seq<Tree>, x: nat)
    requires |a| == |b| && x < |a| && a[x] != b[x] && forall i :: 0 <= i < |a| ==> a[i].row == b[i].row
    requires if k.edge.kind.List? then Fk(a[x].row, k.edge.column) == Some(IdOf(n))
             else Fk(n, k.edge.column) == Some(IdOf(a[x].row))
    requires forall i, j :: 0 <= i < j < |a| ==> IdOf(a[i].row) != IdOf(a[j].row)
    ensures HandedTo(n, k, a) != HandedTo(n, k, b)
  {
    hide Filter;
    if k.edge.kind.List? {
      FilteredApart(a, b, RefersTo(k.edge.column, IdOf(n)), x);
    } else {
      LastAt(a, x);
      LastAt(b, x);
    }
  }

  lemma LastAt(ts: seq<Tree>, x: nat)
    requires x < |ts| && forall i, j :: 0 <= i < j < |ts| ==> IdOf(ts[i].row) != IdOf(ts[j].row)
    ensures LastWithId(ts, IdOf(ts[x].row)) == Some(ts[x])
  {
    LastWithIdIs(ts, IdOf(ts[x].row));
  }

  /** What nested loops find for one parent is what it would be handed of them all. */
  lemma WantedHanded(db: Database, q: Query, k: LoadKey, nodes: seq<Row>, i: nat)
    requires WellFormed(db) && GoodQuery(db.schema, q) && k in q.loads && i < |nodes|
    requires Divides(db, q.loads[k], k, nodes)
    ensures var c, link := q.loads[k], LinkFor(k, nodes);
            HandedTo(nodes[i], k, RowTrees(db, c, ForceOf(link), Matching(db, SpecOf(db.schema, Attach(c, link))))) ==
              RowTrees(db, c, ForceOf(link), Wanted(db, c, k, nodes[i]))
  {
    hide Matching, Children, Target, Divides, Referring, Neighbour, RowTree, ForeignKeys;
    var c := q.loads[k];
    if k.edge.kind.List? {
      ListJoined(db, c, k, nodes, nodes[i]);
    } else {
      UniqueJoined(db, c, k, nodes, nodes[i]);
    }
  }

  lemma ChildRows(db: Database, c: Query, link: Link)
    requires WellFormed(db)
    ensures var full := Matching(db, SpecOf(db.schema, Attach(c, link)));
            var ts, us := Batched(db, c, link), RowTrees(db, c, ForceOf(link), full);
            && |ts| == |us|
            && (forall i :: 0 <= i < |ts| ==> ts[i].row == us[i].row)
            && forall i, j :: 0 <= i < j < |ts| ==> IdOf(ts[i].row) != IdOf(ts[j].row)
  {
    hide Matching, Batched, NodeColumns, RowTree, QueryNodes;
    var full := Matching(db, SpecOf(db.schema, Attach(c, link)));
    var ts, us := Batched(db, c, link), RowTrees(db, c, ForceOf(link), full);
    CountNodes(db, c, link);
    forall i | 0 <= i < |ts| ensures ts[i].row == us[i].row && ts[i].row == NodesOf(db, c, link)[i] {
      EdgeStatus.NodeJoined(db, c, link, i);
      TreeRow(db, c, ForceOf(link), full[i]);
      assert us[i] == RowTree(db, c, ForceOf(link), full[i]);
      NodeProjected(db, c, link, i);
    }
    IdKept(db.schema, Attach(c, link));
    NodesDistinct(db, SpecOf(db.schema, Attach(c, link)));
  }

  lemma NodeProjected(db: Database, q: Query, link: Link, i: nat)
    requires i < |Matching(db, SpecOf(db.schema, Attach(q, link)))|
    ensures |NodesOf(db, q, link)| == |Matching(db, SpecOf(db.schema, Attach(q, link)))|
    ensures NodesOf(db, q, link)[i]
         == Project(Matching(db, SpecOf(db.schema, Attach(q, link)))[i], Columns(db, q, ForceOf(link)))
  {
    hide Matching;
  }

  /** A run differs if one of its child runs does, where the window is harmless. */
  lemma DiffersBelow(db: Database, q: Query, link: Link, k: LoadKey)
    requires WellFormed(db) && GoodQuery(db.schema, q) && k in q.loads
    requires Divides(db, q.loads[k], k, NodesOf(db, q, link))
    requires Differs(db, q.loads[k], LinkFor(k, NodesOf(db, q, link)))
    ensures Differs(db, q, link)
  {
    hide NodesOf, Matching, HandedTo, Wanted, Batched, RowTree, Divides, ForeignKeys;
    var c, nodes := q.loads[k], NodesOf(db, q, link);
    var link' := LinkFor(k, nodes);
    var full := Matching(db, SpecOf(db.schema, Attach(c, link')));
    var ts, us := Batched(db, c, link'), RowTrees(db, c, ForceOf(link'), full);
    ChildRows(db, c, link');
    var x :| 0 <= x < |ts| && ts[x] != us[x];
    var i := TreeParent(db, c, k, nodes, x);
    HandedApart(nodes[i], k, ts, us, x);
    WantedHanded(db, q, k, nodes, i);
    NodeDiffers(db, q, link, k, i);
  }

  lemma TreeParent(db: Database, c: Query, k: LoadKey, nodes: seq<Row>, x: nat) returns (i: nat)
    requires x < |Batched(db, c, LinkFor(k, nodes))|
    ensures i < |nodes|
    ensures var t := Batched(db, c, LinkFor(k, nodes))[x];
            if k.edge.kind.List? then Fk(t.row, k.edge.column) == Some(IdOf(nodes[i]))
            else Fk(nodes[i], k.edge.column) == Some(IdOf(t.row))
  {
    hide Batched, ForeignKeys;
    var t := Batched(db, c, LinkFor(k, nodes))[x];
    LinkedTrees(db, c, LinkFor(k, nodes), x);
    if k.edge.kind.List? {
      i :| 0 <= i < |nodes| && Ids(nodes)[i] == Fk(t.row, k.edge.column).value;
    } else {
      ForeignKeysExact(nodes, k.edge.column);
      i :| 0 <= i < |nodes| && Fk(nodes[i], k.edge.column) == Some(IdOf(t.row));
    }
  }

  // ----- A window that does not fit shows -------------------------------------

  /** Some window does not fit, below windows that do, and none on the way is larger than
      `m` or deeper than `d`. */
  ghost predicate Misfits(q: Query, e: Extent, d: nat, m: nat)
    decreases q, 0
  {
    m >= 2 && exists k :: k in q.loads && MisfitsAt(q.table, k, q.loads[k], e, d, m)
  }

  ghost predicate MisfitsAt(t: Table, k: LoadKey, c: Query, e: Extent, d: nat, m: nat)
    decreases c, 1
  {
    && SmallWindow(c, m) && Tolerance(c) < m
    && (Allows(t, k, c, e) ==> d > 0 && Below(t, k, c, e).size != Some(0) && Misfits(c, Below(t, k, c, e), d - 1, m))
  }

  lemma {:induction false} MisfitsMore(q: Query, e: Extent, d: nat, m: nat, more: nat)
    requires Misfits(q, e, d, m) && m <= more
    ensures Misfits(q, e, d, more)
    decreases q
  {
    hide Allows, Below;
    var k :| k in q.loads && MisfitsAt(q.table, k, q.loads[k], e, d, m);
    if !Allows(q.table, k, q.loads[k], e) {
    } else {
      MisfitsMore(q.loads[k], Below(q.table, k, q.loads[k], e), d - 1, m, more);
    }
    assert MisfitsAt(q.table, k, q.loads[k], e, d, more);
  }

  /** No window is too small for no nodes. */
  lemma {:induction false} NothingMisfits(q: Query, e: Extent)
    requires e.size == Some(0)
    ensures Fits(q, e)
    decreases q
  {
    forall k | k in q.loads
      ensures Allows(q.table, k, q.loads[k], e) && Fits(q.loads[k], Below(q.table, k, q.loads[k], e))
    {
      NothingMisfits(q.loads[k], Below(q.table, k, q.loads[k], e));
    }
  }

  function RoomFor(c: Query): nat {
    AtLeastZero(OrZero(c.limit)) + AtLeastZero(OrZero(c.offset)) + 2
  }

  lemma {:induction false} SomeMisfit(q: Query, e: Extent) returns (d: nat, m: nat)
    requires !Fits(q, e)
    ensures Misfits(q, e, d, m)
    decreases q
  {
    hide Allows, Below;
    var k :| k in q.loads && !(Allows(q.table, k, q.loads[k], e) && Fits(q.loads[k], Below(q.table, k, q.loads[k], e)));
    var c, below := q.loads[k], Below(q.table, k, q.loads[k], e);
    if Allows(q.table, k, c, e) {
      d, m := SomeMisfit(c, below);
      if below.size == Some(0) {
        NothingMisfits(c, below);
      }
      MisfitsMore(c, below, d, m, m + RoomFor(c));
      d, m := d + 1, m + RoomFor(c);
    } else {
      d, m := 0, RoomFor(c);
    }
    assert MisfitsAt(q.table, k, c, e, d, m);
  }

  function Room(f: Shape, top: nat, d: nat): (n: nat)
    requires f.Valid() && top >= 1
    ensures n >= LastChild(f, top)
    decreases d
  {
    if d == 0 then LastChild(f, top) else Room(f, LastChild(f, top), d - 1)
  }

  /** A one-to-one edge that does not fit. */
  lemma OneToOneShows(g: Ground, q: Query, link: Link, e: Extent, top: nat, ids: seq<int>, k: LoadKey)
    requires RealRun(g, q, link, e, top, ids) && k in q.loads && g.f.Valid() && LastChild(g.f, top) <= g.n
    requires OneToOne(k) && !Allows(q.table, k, q.loads[k], e) && Tolerance(q.loads[k]) < g.m
    ensures Differs(g.Db(), q, link)
  {
    hide *;
    RealRunIs(g, q, link, e, top, ids);
    GroundIs(g);
    MisfitOne(q.table, k, q.loads[k], e, g.m);
    var next := AskedReached(g, q, link, e, top, ids, k);
    RealBounds(g.f, g.m, LastChild(g.f, top), Asked(q.table, k, e), next);
    var rows := AskedRows(g.Db(), q.loads[k], k, NodesOf(g.Db(), q, link));
    ManyIn(next, IdSet(rows));
    AskedDistinct(g.Db(), q.loads[k], k, NodesOf(g.Db(), q, link));
    OneToOneDiffers(g.Db(), q, link, k);
  }

  lemma MisfitOne(t: Table, k: LoadKey, c: Query, e: Extent, m: nat)
    requires !Allows(t, k, c, e) && Tolerance(c) < m
    ensures !NoWindow(c) && e.size != Some(0)
    ensures OneToOne(k) ==> SizeOf(Asked(t, k, e).size, m) > Tolerance(c)
    ensures !OneToOne(k) ==> k.edge.kind.List? && k.edge.column != ID && (e.size.Some? ==> e.size.value >= 2)
  {
  }

  lemma NodeWith(nodes: seq<Row>, id: int) returns (i: nat)
    requires id in IdSet(nodes)
    ensures i < |nodes| && IdOf(nodes[i]) == id
  {
    var r :| r in nodes && IdOf(r) == id;
    i :| 0 <= i < |nodes| && nodes[i] == r;
  }

  lemma ManyOf(g: Ground, q: Query, k: LoadKey, x: int, top: nat)
    requires g.Valid() && GoodQuery(g.s, q) && TestsThroughout(q) && k in q.loads
    requires k.edge.kind.List? && k.edge.column != ID
    requires 1 <= x <= top && LastChild(g.f, top) <= g.n
    ensures |Selected(g.Db(), q.loads[k], RowRefersTo(k.edge.column, x))| >= 2 * g.m
  {
    hide Grove, Selected, Child, PlaceOf, TestsThroughout;
    var c := q.loads[k];
    TiedColumns(g.s, q, k);
    GroundIs(g);
    ChildBefore(g.f, x, top, PlaceOf(g.f.pairs, (c.table, k.edge.column)), g.f.fan);
    ManyChildren(g, c, k.edge.column, x);
  }

  /** A list edge that does not fit. */
  lemma ListShows(g: Ground, q: Query, link: Link, e: Extent, top: nat, ids: seq<int>, k: LoadKey)
    requires RealRun(g, q, link, e, top, ids) && k in q.loads && g.f.Valid() && LastChild(g.f, top) <= g.n
    requires !OneToOne(k) && !Allows(q.table, k, q.loads[k], e) && g.m >= 2
    requires Tolerance(q.loads[k]) < g.m && SmallWindow(q.loads[k], g.m)
    ensures Differs(g.Db(), q, link)
  {
    hide *;
    RealRunIs(g, q, link, e, top, ids);
    GroundIs(g);
    MisfitOne(q.table, k, q.loads[k], e, g.m);
    RealBounds(g.f, g.m, top, e, ids);
    AtLeastTwo(e.size, g.m);
    var i := NodeWith(NodesOf(g.Db(), q, link), ids[0]);
    var j := NodeWith(NodesOf(g.Db(), q, link), ids[1]);
    ManyOf(g, q, k, ids[0], top);
    ManyOf(g, q, k, ids[1], top);
    ListDiffers(g.Db(), q, link, k, i, j, g.m);
  }

  lemma AtLeastTwo(size: Option<nat>, m: nat)
    requires m >= 2 && (size.Some? ==> size.value >= 2)
    ensures SizeOf(size, m) >= 2
  {
  }

  /** A window that does not fit shows on the forest, however deep it is. */
  lemma {:induction false} MisfitShows(g: Ground, q: Query, link: Link, e: Extent, top: nat, ids: seq<int>, d: nat)
    requires RealRun(g, q, link, e, top, ids) && g.f.Valid() && top >= 1 && Room(g.f, top, d) <= g.n
    requires Misfits(q, e, d, g.m)
    ensures Differs(g.Db(), q, link)
    decreases q
  {
    hide RealRun, Allows, Below, Differs, Grove, LastChild, NodesOf, OneToOne, Tolerance, SmallWindow;
    var k :| k in q.loads && MisfitsAt(q.table, k, q.loads[k], e, d, g.m);
    if Allows(q.table, k, q.loads[k], e) {
      var next := BelowReached(g, q, link, e, top, ids, k);
      var link' := LinkFor(k, NodesOf(g.Db(), q, link));
      MisfitShows(g, q.loads[k], link', Below(q.table, k, q.loads[k], e), LastChild(g.f, top), next, d - 1);
      UpFrom(g, q, link, e, top, ids, k);
    } else if OneToOne(k) {
      OneToOneShows(g, q, link, e, top, ids, k);
    } else {
      ListShows(g, q, link, e, top, ids, k);
    }
  }

  lemma UpFrom(g: Ground, q: Query, link: Link, e: Extent, top: nat, ids: seq<int>, k: LoadKey)
    requires RealRun(g, q, link, e, top, ids) && k in q.loads && g.f.Valid() && Allows(q.table, k, q.loads[k], e)
    requires Differs(g.Db(), q.loads[k], LinkFor(k, NodesOf(g.Db(), q, link)))
    ensures Differs(g.Db(), q, link)
  {
    hide *;
    RealRunIs(g, q, link, e, top, ids);
    GroundIs(g);
    DividesIf(g.Db(), q, link, e, k);
    DiffersBelow(g.Db(), q, link, k);
  }

  // ----- When windows are harmless --------------------------------------------

  lemma NestedDiffers(db: Database, q: Query)
    ensures Differs(db, q, Top) <==> Batched(db, q, Top) != Nested(db, q)
  {
    hide Matching, RowTree;
  }

  /** A forest with room for a builder tree. */
  lemma SomeGround(s: Schema, q: Query, m: nat, d: nat) returns (g: Ground)
    requires s.Valid() && q.table in s.columns && m >= 1
    ensures g.Valid() && g.f.Valid() && g.s == s && g.m == m
    ensures AtLeastZero(OrZero(q.offset)) + SizeOf(CutTo(q, None), m) <= g.f.roots <= g.n
    ensures g.f.roots >= 1 && Room(g.f, g.f.roots, d) <= g.n
  {
    hide LastChild, CutTo;
    var roots := AtLeastZero(OrZero(q.offset)) + SizeOf(CutTo(q, None), m) + 1;
    var f := SomeShape(s, q.table, roots, m);
    g := Ground(s, f, Room(f, roots, d), m);
    assert g.Valid();
  }

  /** A database on which a window that does not fit shows. */
  lemma MisfitWitness(s: Schema, q: Query) returns (db: Database)
    requires s.Valid() && GoodQuery(s, q) && q.table in s.columns && TestsThroughout(q) && !Fits(q, RootExtent(q))
    ensures WellFormed(db) && db.schema == s && Batched(db, q, Top) != Nested(db, q)
  {
    hide Batched, Nested, WellFormed, Grove, RealRun, Misfits, Fits, Differs, GoodQuery, TestsThroughout;
    var d, least := SomeMisfit(q, RootExtent(q));
    var m := least + AtLeastZero(OrZero(q.limit)) + 1;
    MisfitsMore(q, RootExtent(q), d, least, m);
    var g := SomeGround(s, q, m, d);
    RootReached(g, q);
    MisfitShows(g, q, Top, RootExtent(q), g.f.roots, FirstIds(q, SizeOf(CutTo(q, None), m)), d);
    db := g.Db();
    GroundIs(g);
    NestedDiffers(db, q);
  }

  /** Main theorem: eager loading means nested loops on every database if and only if
      every window in the builder tree, at any depth, treats so many rows as can share
      its query as it treats each of them alone. */
  lemma WindowExact(s: Schema, q: Query)
    requires s.Valid() && GoodQuery(s, q) && q.table in s.columns && TestsThroughout(q)
    ensures (forall db :: WellFormed(db) && db.schema == s ==> Batched(db, q, Top) == Nested(db, q))
            <==> Fits(q, RootExtent(q))
  {
    hide Batched, Nested, WellFormed, Fits;
    if Fits(q, RootExtent(q)) {
      forall db | WellFormed(db) && db.schema == s ensures Batched(db, q, Top) == Nested(db, q) {
        BatchedIsNested(db, q);
      }
    } else {
      var db := MisfitWitness(s, q);
    }
  }

  /** Under a root without a limit only trees without windows fit. */
  lemma UnlimitedExact(s: Schema, q: Query)
    requires s.Valid() && GoodQuery(s, q) && q.table in s.columns && TestsThroughout(q) && OrZero(q.limit) <= 0
    ensures (forall db :: WellFormed(db) && db.schema == s ==> Batched(db, q, Top) == Nested(db, q))
            <==> UnwindowedChildren(q)
  {
    hide Batched, Nested, WellFormed, Fits;
    WindowExact(s, q);
    UnboundedFits(q, RootExtent(q));
  }
}
