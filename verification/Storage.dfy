/**
 The database as the query runtime sees it: tables of rows, the edges between
 tables, and the one contract of the storage engine that everything above
 relies on (`QueryNodes`).
 */
module Storage {

  type Table = string
  type Column = string

  const ID: Column := "id"

  // ----- Schema ---------------------------------------------------------------

  /** A unique edge keeps its foreign key on its own table (M2O); a list edge
      keeps it on the target table (O2M). */
  datatype EdgeKind = Unique | List

  datatype Edge = Edge(name: string, kind: EdgeKind, target: Table, column: Column)

  datatype Schema = Schema(columns: map<Table, set<Column>>,
                           edges: map<Table, seq<Edge>>,
                           fields: map<Table, map<string, Column>>)
  {
    function EdgesOf(t: Table): seq<Edge> {
      if t in edges then edges[t] else []
    }

    predicate ValidColumn(t: Table, c: Column) {
      t in columns && c in columns[t]
    }

    /** Every table has an ID, every edge leads to a table of the schema, and
        every foreign key is a column of the table that holds it. */
    ghost predicate Valid() {
      && (forall t :: t in columns ==> ID in columns[t])
      && (forall t :: t in edges ==> t in columns && forall e :: e in edges[t] ==> ValidEdge(t, e))
      && (forall t, i, j :: t in edges && 0 <= i < j < |edges[t]| ==> edges[t][i].name != edges[t][j].name)
      && (forall t, f :: t in fields && f in fields[t] ==> ValidColumn(t, fields[t][f]))
    }

    ghost predicate ValidEdge(t: Table, e: Edge) {
      && e.target in columns
      && ValidColumn(if e.kind.Unique? then t else e.target, e.column)
    }
  }

  // ----- Rows -----------------------------------------------------------------

  datatype Cell = Null | Int(n: int) | Text(s: string)

  type Row = map<Column, Cell>

  datatype Option<+T> = None | Some(value: T)

  /** The closures that a program passes to `Where` and `Order` are named by
      numbers; what each of them does is given along with the tables. */
  datatype Database = Database(schema: Schema, tables: map<Table, seq<Row>>,
                               test: (nat, Row) -> bool, before: (nat, Row, Row) -> bool)
  {
    function Rows(t: Table): seq<Row> {
      if t in tables then tables[t] else []
    }
  }

  /** The ID field of a node: zero when no integer was scanned into it. */
  function IdOf(r: Row): int {
    if ID in r && r[ID].Int? then r[ID].n else 0
  }

  /** A foreign-key field of a node: nil when the column is NULL or was not
      selected. */
  function Fk(r: Row, c: Column): Option<int> {
    if c in r && r[c].Int? then Some(r[c].n) else None
  }

  ghost predicate DistinctIds(rows: seq<Row>) {
    forall i, j :: 0 <= i < j < |rows| ==> IdOf(rows[i]) != IdOf(rows[j])
  }

  ghost predicate FullRow(s: Schema, t: Table, r: Row) {
    t in s.columns && r.Keys == s.columns[t] && ID in r && r[ID].Int?
  }

  /** What the tables' declarations guarantee: rows have exactly the declared
      columns and the ID is a primary key. */
  ghost predicate WellFormed(db: Database) {
    && db.schema.Valid()
    && forall t :: t in db.tables ==>
         && DistinctIds(db.tables[t])
         && forall r :: r in db.tables[t] ==> FullRow(db.schema, t, r)
  }

  // ----- Predicates and orders ------------------------------------------------

  /** A predicate is either any test of a row (the builder's own `Where`) or one
      of the `IN` lists that the loaders add. */
  datatype Predicate = Test(closure: nat) | InInts(column: Column, ids: seq<int>)
  {
    predicate Holds(db: Database, r: Row) {
      match this
      case Test(closure) => db.test(closure, r)
      case InInts(c, ids) => Fk(r, c).Some? && Fk(r, c).value in ids
    }
  }

  predicate AllHold(ps: seq<Predicate>, db: Database, r: Row) {
    forall i :: 0 <= i < |ps| ==> ps[i].Holds(db, r)
  }

  /** An order term says when one row comes strictly before another. */
  datatype OrderTerm = OrderTerm(closure: nat)

  predicate Precedes(db: Database, order: seq<OrderTerm>, a: Row, b: Row) {
    if order == [] then false
    else if db.before(order[0].closure, a, b) then true
    else if db.before(order[0].closure, b, a) then false
    else Precedes(db, order[1..], a, b)
  }

  function Insert(db: Database, order: seq<OrderTerm>, x: Row, rows: seq<Row>): (s: seq<Row>)
    ensures multiset(s) == multiset(rows) + multiset{x}
  {
    if rows == [] || !Precedes(db, order, rows[0], x) then [x] + rows
    else
      assert rows == [rows[0]] + rows[1..];
      [rows[0]] + Insert(db, order, x, rows[1..])
  }

  /** Stable sort: rows that no term separates stay in table order. */
  function Arrange(db: Database, order: seq<OrderTerm>, rows: seq<Row>): (s: seq<Row>)
    ensures multiset(s) == multiset(rows)
  {
    if rows == [] then []
    else
      assert rows == [rows[0]] + rows[1..];
      Insert(db, order, rows[0], Arrange(db, order, rows[1..]))
  }

  // ----- What an order does ---------------------------------------------------

  /** An order term that compares as values do: strictly, and ties are transitive. */
  ghost predicate StrictWeak(db: Database, term: OrderTerm) {
    && (forall a, b :: db.before(term.closure, a, b) ==> !db.before(term.closure, b, a))
    && (forall a, b, c :: !db.before(term.closure, a, b) && !db.before(term.closure, b, c) ==>
          !db.before(term.closure, a, c))
  }

  ghost predicate AllStrictWeak(db: Database, order: seq<OrderTerm>) {
    forall i :: 0 <= i < |order| ==> StrictWeak(db, order[i])
  }

  predicate Separates(db: Database, term: OrderTerm, a: Row, b: Row) {
    db.before(term.closure, a, b) || db.before(term.closure, b, a)
  }

  /** No term separates the rows. */
  predicate Tied(db: Database, order: seq<OrderTerm>, a: Row, b: Row) {
    forall i :: 0 <= i < |order| ==> !Separates(db, order[i], a, b)
  }

  /** The first term that separates the rows puts `a` first. */
  predicate Decides(db: Database, order: seq<OrderTerm>, a: Row, b: Row) {
    exists i :: 0 <= i < |order| && Tied(db, order[..i], a, b) && db.before(order[i].closure, a, b)
  }

  function TiedWith(db: Database, order: seq<OrderTerm>, x: Row): Row -> bool {
    r => Tied(db, order, x, r)
  }

  lemma {:induction false} PrecedesIs(db: Database, order: seq<OrderTerm>, a: Row, b: Row)
    ensures Precedes(db, order, a, b) <==> Decides(db, order, a, b)
    ensures !Precedes(db, order, a, b) && !Precedes(db, order, b, a) <==> Tied(db, order, a, b)
  {
    if order == [] {
    } else {
      var rest := order[1..];
      PrecedesIs(db, rest, a, b);
      TiedFirst(db, order, a, b);
      if Separates(db, order[0], a, b) {
        assert order[..0] == [];
        if db.before(order[0].closure, a, b) {
          assert Tied(db, order[..0], a, b);
        }
        forall i | 0 < i < |order| ensures !Tied(db, order[..i], a, b) {
          TiedFirst(db, order[..i], a, b);
        }
      } else {
        DecidesRest(db, order, a, b);
        DecidesRest(db, order, b, a);
      }
    }
  }

  lemma TiedFirst(db: Database, order: seq<OrderTerm>, a: Row, b: Row)
    requires order != []
    ensures Tied(db, order, a, b) <==> !Separates(db, order[0], a, b) && Tied(db, order[1..], a, b)
  {
    if !Separates(db, order[0], a, b) && Tied(db, order[1..], a, b) {
      forall i | 0 <= i < |order| ensures !Separates(db, order[i], a, b) {
        assert i > 0 ==> order[i] == order[1..][i - 1];
      }
    }
  }

  /** A first term that ties the rows leaves the decision to the others. */
  lemma DecidesRest(db: Database, order: seq<OrderTerm>, a: Row, b: Row)
    requires order != [] && !Separates(db, order[0], a, b)
    ensures Decides(db, order, a, b) <==> Decides(db, order[1..], a, b)
  {
    var rest := order[1..];
    if i :| 0 <= i < |order| && Tied(db, order[..i], a, b) && db.before(order[i].closure, a, b) {
      TiedFirst(db, order[..i], a, b);
      assert order[..i][1..] == rest[..i - 1] && rest[i - 1] == order[i];
    }
    if i :| 0 <= i < |rest| && Tied(db, rest[..i], a, b) && db.before(rest[i].closure, a, b) {
      TiedFirst(db, order[..i + 1], a, b);
      assert order[..i + 1][1..] == rest[..i] && rest[i] == order[i + 1];
    }
  }

  lemma {:induction false} PrecedesStrictly(db: Database, order: seq<OrderTerm>, a: Row, b: Row, c: Row)
    requires AllStrictWeak(db, order)
    ensures Precedes(db, order, a, b) ==> !Precedes(db, order, b, a)
    ensures !Precedes(db, order, a, b) && !Precedes(db, order, b, c) ==> !Precedes(db, order, a, c)
  {
    if order == [] {
    } else {
      assert StrictWeak(db, order[0]);
      PrecedesStrictly(db, order[1..], a, b, c);
    }
  }

  ghost predicate InOrder(db: Database, order: seq<OrderTerm>, rows: seq<Row>) {
    forall i, j :: 0 <= i < j < |rows| ==> !Precedes(db, order, rows[j], rows[i])
  }

  lemma {:induction false} InsertInOrder(db: Database, order: seq<OrderTerm>, x: Row, rows: seq<Row>)
    requires AllStrictWeak(db, order) && InOrder(db, order, rows)
    ensures InOrder(db, order, Insert(db, order, x, rows))
  {
    var s := Insert(db, order, x, rows);
    if rows == [] {
    } else if !Precedes(db, order, rows[0], x) {
      forall j | 0 <= j < |rows| ensures !Precedes(db, order, rows[j], x) {
        PrecedesStrictly(db, order, rows[j], rows[0], x);
      }
    } else {
      InsertInOrder(db, order, x, rows[1..]);
      PrecedesStrictly(db, order, rows[0], x, x);
      forall j | 1 <= j < |s| ensures !Precedes(db, order, s[j], s[0]) {
        assert s[j] in multiset(s[1..]);
        assert s[j] == x || s[j] in rows[1..];
      }
    }
  }

  lemma NotBothTied(db: Database, order: seq<OrderTerm>, x: Row, y: Row, z: Row)
    requires AllStrictWeak(db, order) && Precedes(db, order, y, x)
    ensures !Tied(db, order, z, x) || !Tied(db, order, z, y)
  {
    hide Tied, Precedes, Decides;
    PrecedesIs(db, order, z, x);
    PrecedesIs(db, order, z, y);
    PrecedesStrictly(db, order, y, z, x);
  }

  lemma {:induction false} InsertKeepsTies(db: Database, order: seq<OrderTerm>, x: Row, rows: seq<Row>, z: Row)
    requires AllStrictWeak(db, order)
    ensures Filter(Insert(db, order, x, rows), TiedWith(db, order, z))
         == Filter([x], TiedWith(db, order, z)) + Filter(rows, TiedWith(db, order, z))
  {
    hide Tied, Precedes, AllStrictWeak, Filter;
    var ties := TiedWith(db, order, z);
    if rows == [] || !Precedes(db, order, rows[0], x) {
      FilterSum([x], rows, ties);
    } else {
      InsertKeepsTies(db, order, x, rows[1..], z);
      NotBothTied(db, order, x, rows[0], z);
      FilterPast(x, rows[0], rows[1..], Insert(db, order, x, rows[1..]), ties);
      assert rows == [rows[0]] + rows[1..];
    }
  }

  /** An element may be moved past another one that the filter does not keep along with it. */
  lemma FilterPast<T(!new)>(x: T, y: T, rest: seq<T>, more: seq<T>, keep: T -> bool)
    requires !keep(x) || !keep(y)
    requires Filter(more, keep) == Filter([x], keep) + Filter(rest, keep)
    ensures Filter([y] + more, keep) == Filter([x], keep) + Filter([y] + rest, keep)
  {
    FilterSum([y], rest, keep);
    FilterSum([y], more, keep);
  }

  /** Sorting by terms that compare as values do: no row comes after one that it precedes,
      by the first term that separates them, and rows that no term separates stay in
      table order. */
  lemma {:induction false} ArrangeSorts(db: Database, order: seq<OrderTerm>, rows: seq<Row>)
    requires AllStrictWeak(db, order)
    ensures var s := Arrange(db, order, rows);
            && (forall i, j :: 0 <= i < j < |s| ==> !Decides(db, order, s[j], s[i]))
            && (forall z :: Filter(s, TiedWith(db, order, z)) == Filter(rows, TiedWith(db, order, z)))
  {
    var s := Arrange(db, order, rows);
    ArrangeInOrder(db, order, rows);
    forall i, j | 0 <= i < j < |s| ensures !Decides(db, order, s[j], s[i]) {
      PrecedesIs(db, order, s[j], s[i]);
    }
    forall z ensures Filter(s, TiedWith(db, order, z)) == Filter(rows, TiedWith(db, order, z)) {
      ArrangeKeepsTies(db, order, rows, z);
    }
  }

  lemma {:induction false} ArrangeInOrder(db: Database, order: seq<OrderTerm>, rows: seq<Row>)
    requires AllStrictWeak(db, order)
    ensures InOrder(db, order, Arrange(db, order, rows))
  {
    if rows == [] {
    } else {
      ArrangeInOrder(db, order, rows[1..]);
      InsertInOrder(db, order, rows[0], Arrange(db, order, rows[1..]));
    }
  }

  lemma {:induction false} ArrangeKeepsTies(db: Database, order: seq<OrderTerm>, rows: seq<Row>, z: Row)
    requires AllStrictWeak(db, order)
    ensures Filter(Arrange(db, order, rows), TiedWith(db, order, z)) == Filter(rows, TiedWith(db, order, z))
  {
    hide Tied, Precedes, AllStrictWeak;
    if rows == [] {
    } else {
      ArrangeKeepsTies(db, order, rows[1..], z);
      InsertKeepsTies(db, order, rows[0], Arrange(db, order, rows[1..]), z);
      FilterSum([rows[0]], rows[1..], TiedWith(db, order, z));
      assert rows == [rows[0]] + rows[1..];
    }
  }

  function Filter<T(!new)>(s: seq<T>, keep: T -> bool): seq<T> {
    if s == [] then []
    else if keep(s[0]) then [s[0]] + Filter(s[1..], keep)
    else Filter(s[1..], keep)
  }

  // ----- The storage engine ---------------------------------------------------

  datatype Projection = AllColumns | OnlyColumns(columns: seq<Column>)

  /** The part of the query specification that the engine acts on; a limit or an
      offset of zero is the specification's zero value and means none. */
  datatype Spec = Spec(table: Table, projection: Projection, predicates: seq<Predicate>,
                       order: seq<OrderTerm>, limit: int, offset: int)

  function Project(r: Row, p: Projection): Row {
    match p
    case AllColumns => r
    case OnlyColumns(cols) => map c | c in r && c in cols :: r[c]
  }

  function Window<T>(s: seq<T>, limit: int, offset: int): seq<T> {
    var rest := if offset <= 0 then s else if offset <= |s| then s[offset..] else [];
    if 0 < limit < |rest| then rest[..limit] else rest
  }

  /** A window is a run of the sequence: it starts at the offset, if that is positive, and
      has as many elements as are left, or the limit, if that is positive and smaller. */
  lemma WindowIs<T>(s: seq<T>, limit: int, offset: int)
    ensures var w, start := Window(s, limit, offset), if offset <= 0 then 0 else if offset < |s| then offset else |s|;
            && |w| == (if 0 < limit < |s| - start then limit else |s| - start)
            && forall i :: 0 <= i < |w| ==> w[i] == s[start + i]
  {
  }

  function Satisfying(db: Database, ps: seq<Predicate>): Row -> bool {
    r => AllHold(ps, db, r)
  }

  /** The full rows that a specification selects: every predicate holds, in the
      order of the specification, cut to its window. */
  function Matching(db: Database, spec: Spec): seq<Row> {
    Window(Filter(Arrange(db, spec.order, db.Rows(spec.table)), Satisfying(db, spec.predicates)),
           spec.limit, spec.offset)
  }

  /** The engine's contract: one projected row per matching row. */
  function QueryNodes(db: Database, spec: Spec): (rows: seq<Row>)
    ensures |rows| == |Matching(db, spec)|
  {
    var rows := Matching(db, spec);
    seq(|rows|, i requires 0 <= i < |rows| => Project(rows[i], spec.projection))
  }

  lemma MapsEqual<K, V>(a: map<K, V>, b: map<K, V>)
    requires forall k :: k in a ==> k in b && a[k] == b[k]
    requires forall k :: k in b ==> k in a
    ensures a == b
  {
  }

  lemma {:induction false} FilterAgree<T(!new)>(s: seq<T>, p: T -> bool, q: T -> bool)
    requires forall x :: x in s ==> p(x) == q(x)
    ensures Filter(s, p) == Filter(s, q)
  {
    if s == [] {
    } else {
      FilterAgree(s[1..], p, q);
    }
  }

  /** Filtering the images of a sequence by a test of their origins. */
  lemma {:induction false} FilterMap<A(!new), B(!new)>(s: seq<A>, ts: seq<B>, f: A -> B, p: A -> bool, t: B -> bool)
    requires |ts| == |s| && forall i :: 0 <= i < |s| ==> ts[i] == f(s[i]) && t(ts[i]) == p(s[i])
    ensures |Filter(ts, t)| == |Filter(s, p)|
    ensures forall i :: 0 <= i < |Filter(s, p)| ==> Filter(ts, t)[i] == f(Filter(s, p)[i])
  {
    if s == [] {
    } else {
      FilterMap(s[1..], ts[1..], f, p, t);
    }
  }

  lemma {:induction false} FilterMembers<T(!new)>(s: seq<T>, keep: T -> bool)
    ensures forall x :: x in Filter(s, keep) <==> x in s && keep(x)
  {
    if s == [] {
    } else {
      FilterMembers(s[1..], keep);
      assert forall x :: x in s <==> x == s[0] || x in s[1..];
    }
  }

  lemma {:induction false} FilterSum<T(!new)>(a: seq<T>, b: seq<T>, keep: T -> bool)
    ensures Filter(a + b, keep) == Filter(a, keep) + Filter(b, keep)
  {
    if a == [] {
      assert a + b == b;
    } else {
      FilterSum(a[1..], b, keep);
      assert (a + b)[1..] == a[1..] + b;
    }
  }

  lemma {:induction false} FilterAll<T(!new)>(s: seq<T>, keep: T -> bool)
    requires forall x :: x in s ==> keep(x)
    ensures Filter(s, keep) == s
  {
    if s == [] {
    } else {
      FilterAll(s[1..], keep);
    }
  }

  lemma {:induction false} FilterShorter<T(!new)>(s: seq<T>, keep: T -> bool)
    ensures |Filter(s, keep)| <= |s|
  {
    if s == [] {
    } else {
      FilterShorter(s[1..], keep);
    }
  }

  lemma {:induction false} FilterTwice<T(!new)>(s: seq<T>, p: T -> bool, q: T -> bool, both: T -> bool)
    requires forall x :: x in s ==> both(x) == (p(x) && q(x))
    ensures Filter(Filter(s, p), q) == Filter(s, both)
  {
    if s == [] {
    } else {
      FilterTwice(s[1..], p, q, both);
      if p(s[0]) {
        assert Filter(s, p)[0] == s[0] && Filter(s, p)[1..] == Filter(s[1..], p);
      }
    }
  }

  lemma {:induction false} FilterAppend<T(!new)>(s: seq<T>, x: T, keep: T -> bool)
    ensures Filter(s + [x], keep) == Filter(s, keep) + if keep(x) then [x] else []
  {
    if s == [] {
    } else {
      FilterAppend(s[1..], x, keep);
      assert (s + [x])[1..] == s[1..] + [x];
    }
  }

  lemma {:induction false} DistinctRows(rows: seq<Row>)
    requires DistinctIds(rows)
    ensures forall x :: x in rows ==> multiset(rows)[x] == 1
    ensures forall x, y :: x in rows && y in rows && IdOf(x) == IdOf(y) ==> x == y
  {
    if rows == [] {
    } else {
      var last := |rows| - 1;
      assert rows == rows[..last] + [rows[last]];
      DistinctRows(rows[..last]);
      assert rows[last] !in rows[..last];
    }
  }

  lemma ArrangedDistinct(db: Database, order: seq<OrderTerm>, rows: seq<Row>)
    requires DistinctIds(rows)
    ensures DistinctIds(Arrange(db, order, rows))
  {
    var s := Arrange(db, order, rows);
    DistinctRows(rows);
    forall i, j | 0 <= i < j < |s| ensures IdOf(s[i]) != IdOf(s[j]) {
      assert s[i] in multiset(s) && s[j] in multiset(s);
      if s[i] == s[j] {
        SeenTwice(s, i, j);
      }
    }
  }

  lemma SeenTwice<T>(s: seq<T>, i: nat, j: nat)
    requires i < j < |s| && s[i] == s[j]
    ensures multiset(s)[s[i]] >= 2
  {
    assert s == s[..j] + [s[j]] + s[j + 1..];
    assert s[..j][i] == s[i];
  }

  lemma {:induction false} FilterDistinct(rows: seq<Row>, keep: Row -> bool)
    requires DistinctIds(rows)
    ensures DistinctIds(Filter(rows, keep))
  {
    if rows == [] {
    } else {
      FilterDistinct(rows[1..], keep);
      FilterMembers(rows[1..], keep);
      forall j | 0 <= j < |Filter(rows[1..], keep)| ensures IdOf(Filter(rows[1..], keep)[j]) != IdOf(rows[0]) {
        assert Filter(rows[1..], keep)[j] in rows[1..];
      }
    }
  }

  /** The engine never returns two rows with the same ID. */
  lemma NodesDistinct(db: Database, spec: Spec)
    requires WellFormed(db) && (spec.projection.OnlyColumns? ==> ID in spec.projection.columns)
    ensures DistinctIds(QueryNodes(db, spec))
  {
    var arranged := Arrange(db, spec.order, db.Rows(spec.table));
    ArrangedDistinct(db, spec.order, db.Rows(spec.table));
    FilterDistinct(arranged, Satisfying(db, spec.predicates));
    var rows := Matching(db, spec);
    assert DistinctIds(rows);
    forall i | 0 <= i < |rows| ensures IdOf(QueryNodes(db, spec)[i]) == IdOf(rows[i]) {
    }
  }
}
