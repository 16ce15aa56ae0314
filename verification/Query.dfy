/**
 The value of a query builder tree and of the node tree that running it
 returns, together with what one run computes (`Batched`), when it succeeds
 (`Succeeds`) and what it leaves behind in the builders (`After`).
 */
module Query {
  import opened Storage

  /** The edges a builder loads eagerly: the `with<Edge>` field of an edge, or an
      entry of its `withNamed<Edge>` map, which exists for list edges only. */
  datatype LoadKey = Plain(edge: Edge) | Named(edge: Edge, alias: string)

  datatype Query = Query(table: Table, predicates: seq<Predicate>, order: seq<OrderTerm>,
                         limit: Option<int>, offset: Option<int>, fields: seq<Column>,
                         loads: map<LoadKey, Query>)

  /** A node with its edges: which plain edges were requested, the unique
      neighbours that were found, and the lists, named or not. */
  datatype Tree = Tree(row: Row, loadedTypes: set<LoadKey>,
                       one: map<LoadKey, Tree>, many: map<LoadKey, seq<Tree>>)

  ghost predicate GoodKey(s: Schema, t: Table, k: LoadKey) {
    k.edge in s.EdgesOf(t) && (k.Named? ==> k.edge.kind.List?)
  }

  /** Eager loads follow the schema's edges. */
  ghost predicate GoodQuery(s: Schema, q: Query) {
    forall k :: k in q.loads ==> GoodKey(s, q.table, k) && q.loads[k].table == k.edge.target && GoodQuery(s, q.loads[k])
  }

  // ----- The specification of one query ---------------------------------------

  function OrZero(o: Option<int>): int {
    if o.Some? then o.value else 0
  }

  function AddOnce(cols: seq<Column>, c: Column): seq<Column> {
    if c in cols then cols else cols + [c]
  }

  /** The foreign keys of the unique edges that are loaded eagerly, added once
      each in the order of the edges. */
  function AddForeignKeys(cols: seq<Column>, edges: seq<Edge>, loaded: set<LoadKey>): seq<Column> {
    if edges == [] then cols
    else
      var rest := AddForeignKeys(cols, edges[..|edges| - 1], loaded);
      var e := edges[|edges| - 1];
      if e.kind.Unique? && Plain(e) in loaded then AddOnce(rest, e.column) else rest
  }

  function IsNotID(): Column -> bool {
    c => c != ID
  }

  function WithoutID(fields: seq<Column>): seq<Column> {
    Filter(fields, IsNotID())
  }

  function NodeColumns(s: Schema, q: Query): Projection {
    if q.fields == [] then AllColumns
    else OnlyColumns(AddForeignKeys([ID] + WithoutID(q.fields), s.EdgesOf(q.table), q.loads.Keys))
  }

  function SpecOf(s: Schema, q: Query): Spec {
    Spec(q.table, NodeColumns(s, q), q.predicates, q.order, OrZero(q.limit), OrZero(q.offset))
  }

  // ----- Eager loading --------------------------------------------------------

  /** What a loader adds to a child builder before running it: nothing at the
      root, the parents' IDs for a list edge (whose foreign key it also forces
      into the selected fields), the parents' foreign keys for a unique one. */
  datatype Link = Top | ByForeignKey(column: Column, ids: seq<int>) | ById(ids: seq<int>)

  function ForceField(fields: seq<Column>, c: Column): seq<Column> {
    if fields == [] then fields else AddOnce(fields, c)
  }

  function Attach(q: Query, link: Link): Query {
    match link
    case Top => q
    case ByForeignKey(c, ids) =>
      q.(predicates := q.predicates + [InInts(c, ids)], fields := ForceField(q.fields, c))
    case ById(ids) =>
      q.(predicates := q.predicates + [InInts(ID, ids)])
  }

  function Ids(rows: seq<Row>): (ids: seq<int>)
    ensures |ids| == |rows|
    ensures forall i :: 0 <= i < |rows| ==> ids[i] == IdOf(rows[i])
  {
    seq(|rows|, i requires 0 <= i < |rows| => IdOf(rows[i]))
  }

  /** The non-nil foreign keys of the nodes, each once, in order of first use. */
  function ForeignKeys(rows: seq<Row>, c: Column): seq<int> {
    if rows == [] then []
    else
      var rest := ForeignKeys(rows[..|rows| - 1], c);
      var last := rows[|rows| - 1];
      if Fk(last, c).Some? && Fk(last, c).value !in rest then rest + [Fk(last, c).value] else rest
  }

  /** The list that a unique loader sends has no duplicates and covers exactly
      the foreign keys that are set. */
  lemma {:induction false} ForeignKeysExact(rows: seq<Row>, c: Column)
    ensures forall v :: v in ForeignKeys(rows, c) <==> exists i :: 0 <= i < |rows| && Fk(rows[i], c) == Some(v)
    ensures forall i, j :: 0 <= i < j < |ForeignKeys(rows, c)| ==> ForeignKeys(rows, c)[i] != ForeignKeys(rows, c)[j]
  {
    if rows == [] {
    } else {
      var last := |rows| - 1;
      ForeignKeysExact(rows[..last], c);
      forall v | v in ForeignKeys(rows, c) ensures exists i :: 0 <= i < |rows| && Fk(rows[i], c) == Some(v) {
        if v in ForeignKeys(rows[..last], c) {
          var i :| 0 <= i < last && Fk(rows[..last][i], c) == Some(v);
          assert Fk(rows[i], c) == Some(v);
        }
      }
      forall i | 0 <= i < |rows| && Fk(rows[i], c).Some? ensures Fk(rows[i], c).value in ForeignKeys(rows, c) {
        if i < last {
          assert rows[..last][i] == rows[i];
        }
      }
    }
  }

  function LinkFor(k: LoadKey, rows: seq<Row>): Link {
    if k.edge.kind.List? then ByForeignKey(k.edge.column, Ids(rows))
    else ById(ForeignKeys(rows, k.edge.column))
  }

  /** A unique loader returns early when no node has the foreign key. */
  predicate Skipped(k: LoadKey, rows: seq<Row>) {
    k.edge.kind.Unique? && ForeignKeys(rows, k.edge.column) == []
  }

  function LastWithId(ts: seq<Tree>, id: int): Option<Tree> {
    if ts == [] then None
    else
      var last := ts[|ts| - 1];
      if IdOf(last.row) == id then Some(last) else LastWithId(ts[..|ts| - 1], id)
  }

  function RefersTo(c: Column, id: int): Tree -> bool {
    (t: Tree) => Fk(t.row, c) == Some(id)
  }

  function Referring(ts: seq<Tree>, c: Column, id: int): seq<Tree> {
    Filter(ts, RefersTo(c, id))
  }

  /** The neighbour of a row over a unique edge, among the nodes loaded for it. */
  function Neighbour(r: Row, k: LoadKey, ts: seq<Tree>): Option<Tree> {
    var fk := Fk(r, k.edge.column);
    if fk.Some? then LastWithId(ts, fk.value) else None
  }

  function JoinedOne(r: Row, nb: map<LoadKey, seq<Tree>>): map<LoadKey, Tree> {
    map k | k in nb && k.edge.kind.Unique? && Neighbour(r, k, nb[k]).Some? :: Neighbour(r, k, nb[k]).value
  }

  function JoinedMany(r: Row, nb: map<LoadKey, seq<Tree>>): map<LoadKey, seq<Tree>> {
    map k | k in nb && k.edge.kind.List? :: Referring(nb[k], k.edge.column, IdOf(r))
  }

  /** The node of a row once the neighbours of the edges in `nb` are joined. */
  function Joined(r: Row, loaded: set<LoadKey>, nb: map<LoadKey, seq<Tree>>): Tree {
    Tree(r, loaded, JoinedOne(r, nb), JoinedMany(r, nb))
  }

  /** What a loader does to one node: a list loader sets the list of its edge, a
      unique loader sets the edge if it found the neighbour. */
  function WithList(t: Tree, k: LoadKey, children: seq<Tree>): Tree {
    t.(many := t.many[k := children])
  }

  function WithOne(t: Tree, k: LoadKey, found: Option<Tree>): Tree {
    if found.None? then t else t.(one := t.one[k := found.value])
  }

  function WithEdge(t: Tree, k: LoadKey, ts: seq<Tree>): Tree {
    if k.edge.kind.List? then WithList(t, k, Referring(ts, k.edge.column, IdOf(t.row)))
    else WithOne(t, k, Neighbour(t.row, k, ts))
  }

  lemma JoinStep(r: Row, loaded: set<LoadKey>, nb: map<LoadKey, seq<Tree>>, k: LoadKey, ts: seq<Tree>)
    requires k !in nb
    ensures Joined(r, loaded, nb).row == r
    ensures Joined(r, loaded, nb[k := ts]) == WithEdge(Joined(r, loaded, nb), k, ts)
  {
    MapsEqual(JoinedMany(r, nb[k := ts]),
              if k.edge.kind.List? then JoinedMany(r, nb)[k := Referring(ts, k.edge.column, IdOf(r))]
                  else JoinedMany(r, nb));
    MapsEqual(JoinedOne(r, nb[k := ts]),
              if k.edge.kind.Unique? && Neighbour(r, k, ts).Some? then JoinedOne(r, nb)[k := Neighbour(r, k, ts).value]
              else JoinedOne(r, nb));
  }

  function JoinAll(rows: seq<Row>, loaded: set<LoadKey>, nb: map<LoadKey, seq<Tree>>): (ts: seq<Tree>)
    ensures |ts| == |rows|
  {
    seq(|rows|, i requires 0 <= i < |rows| => Joined(rows[i], loaded, nb))
  }

  function PlainKeys(q: Query): set<LoadKey> {
    set k | k in q.loads && k.Plain?
  }

  function NodesOf(db: Database, q: Query, link: Link): seq<Row> {
    QueryNodes(db, SpecOf(db.schema, Attach(q, link)))
  }

  /** One run: a query for the nodes, then one query for each eager load, over
      all nodes at once, joined to the nodes by foreign key. */
  function Batched(db: Database, q: Query, link: Link): (ts: seq<Tree>)
    ensures |ts| == |NodesOf(db, q, link)|
    decreases q, 1
  {
    JoinAll(NodesOf(db, q, link), PlainKeys(q), Neighbours(db, q, NodesOf(db, q, link)))
  }

  function Neighbours(db: Database, q: Query, rows: seq<Row>): map<LoadKey, seq<Tree>>
    decreases q, 0
  {
    map k | k in q.loads :: Batched(db, q.loads[k], LinkFor(k, rows))
  }

  /** A run fails exactly when a builder that it reaches selects an unknown
      column. */
  ghost predicate Succeeds(db: Database, q: Query, link: Link)
    decreases q, 0
  {
    && (forall f :: f in q.fields ==> db.schema.ValidColumn(q.table, f))
    && (NodesOf(db, q, link) != [] ==> forall k :: k in q.loads ==> Runs(db, q.loads[k], k, NodesOf(db, q, link)))
  }

  ghost predicate Runs(db: Database, c: Query, k: LoadKey, rows: seq<Row>)
    decreases c, 1
  {
    Skipped(k, rows) || Succeeds(db, c, LinkFor(k, rows))
  }

  /** The builder tree after a successful run. */
  function After(db: Database, q: Query, link: Link): Query
    decreases q, 0
  {
    if NodesOf(db, q, link) == [] then Attach(q, link)
    else Attach(q, link).(loads := map k | k in q.loads :: Ran(db, q.loads[k], k, NodesOf(db, q, link)))
  }

  /** The child builder of one eager load after it was loaded for the nodes. */
  function Ran(db: Database, c: Query, k: LoadKey, rows: seq<Row>): Query
    decreases c, 1
  {
    if Skipped(k, rows) then c else After(db, c, LinkFor(k, rows))
  }

  // ----- What a clone keeps ---------------------------------------------------

  /** The builder tree without its named loads, at every depth. */
  function Unnamed(q: Query): Query
    decreases q
  {
    q.(loads := map k | k in q.loads && k.Plain? :: Unnamed(q.loads[k]))
  }

  // ----- What a loader can rely on --------------------------------------------

  lemma {:induction false} ForeignKeysAdded(cols: seq<Column>, edges: seq<Edge>, loaded: set<LoadKey>)
    ensures forall c :: c in AddForeignKeys(cols, edges, loaded) <==>
              c in cols || exists e :: e in edges && e.kind.Unique? && Plain(e) in loaded && e.column == c
  {
    if edges == [] {
    } else {
      var last := |edges| - 1;
      assert edges == edges[..last] + [edges[last]];
      ForeignKeysAdded(cols, edges[..last], loaded);
    }
  }

  lemma {:induction false} ForeignKeysOfPlain(cols: seq<Column>, edges: seq<Edge>, a: set<LoadKey>, b: set<LoadKey>)
    requires forall e :: Plain(e) in a <==> Plain(e) in b
    ensures AddForeignKeys(cols, edges, a) == AddForeignKeys(cols, edges, b)
  {
    if edges == [] {
    } else {
      ForeignKeysOfPlain(cols, edges[..|edges| - 1], a, b);
    }
  }

  lemma IdKept(s: Schema, q: Query)
    ensures NodeColumns(s, q).OnlyColumns? ==> ID in NodeColumns(s, q).columns
  {
    ForeignKeysAdded([ID] + WithoutID(q.fields), s.EdgesOf(q.table), q.loads.Keys);
  }

  /** A column survives the projection of a builder exactly when it is selected,
      or the ID, or the foreign key of an eagerly loaded unique edge. */
  ghost predicate Keeps(s: Schema, q: Query, c: Column) {
    || q.fields == []
    || c == ID
    || c in q.fields
    || exists e :: e in s.EdgesOf(q.table) && e.kind.Unique? && Plain(e) in q.loads && e.column == c
  }

  lemma ProjectKeeps(s: Schema, q: Query, r: Row, c: Column)
    ensures c in Project(r, NodeColumns(s, q)) <==> c in r && Keeps(s, q, c)
    ensures c in Project(r, NodeColumns(s, q)) ==> Project(r, NodeColumns(s, q))[c] == r[c]
  {
    if q.fields != [] {
      FilterMembers(q.fields, IsNotID());
      ForeignKeysAdded([ID] + WithoutID(q.fields), s.EdgesOf(q.table), q.loads.Keys);
    }
  }

  /** Every row of a linked child has a foreign key (or an ID) among those that
      its parents asked for: the loaders' error branches are never taken. */
  lemma LinkedNodes(db: Database, q: Query, link: Link, i: nat)
    requires i < |NodesOf(db, q, link)|
    ensures var r := NodesOf(db, q, link)[i];
            && (link.ByForeignKey? ==> Fk(r, link.column).Some? && Fk(r, link.column).value in link.ids)
            && (link.ById? ==> IdOf(r) in link.ids)
  {
    var q' := Attach(q, link);
    var spec := SpecOf(db.schema, q');
    var full := Matching(db, spec)[i];
    FilterMembers(Arrange(db, spec.order, db.Rows(spec.table)), Satisfying(db, spec.predicates));
    WindowFrom(Filter(Arrange(db, spec.order, db.Rows(spec.table)), Satisfying(db, spec.predicates)),
               spec.limit, spec.offset, i);
    assert AllHold(q'.predicates, db, full);
    if !link.Top? {
      assert q'.predicates[|q.predicates|].Holds(db, full);
      ProjectKeeps(db.schema, q', full, if link.ById? then ID else link.column);
    }
  }

  lemma LinkedTrees(db: Database, q: Query, link: Link, i: nat)
    requires i < |Batched(db, q, link)|
    ensures var r := Batched(db, q, link)[i].row;
            && (link.ByForeignKey? ==> Fk(r, link.column).Some? && Fk(r, link.column).value in link.ids)
            && (link.ById? ==> IdOf(r) in link.ids)
  {
    hide NodesOf, JoinedOne, JoinedMany, Neighbours;
    LinkedNodes(db, q, link, i);
    assert Batched(db, q, link)[i].row == NodesOf(db, q, link)[i];
  }

  lemma WindowFrom<T>(s: seq<T>, limit: int, offset: int, i: nat)
    requires i < |Window(s, limit, offset)|
    ensures Window(s, limit, offset)[i] in s
  {
  }
}
