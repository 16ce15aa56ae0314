/**
 A database on which every extent of a builder tree is reached. Its IDs form a
 forest: each ID has, for every table and column, one child of its own to refer to and
 many children that refer to it, so going over an edge never meets rows that some
 earlier edge did not make it meet.
 */
module Forest {
  import opened Storage
  import opened Query
  import opened NestedLoops
  import opened Extents

  /** The IDs up to `roots` have no parent. Every ID has `fan + 1` children for each pair
      of a table and a column; child 0 is the one that it refers to there, and the others
      refer to it. */
  datatype Shape = Shape(pairs: seq<(Table, Column)>, roots: nat, fan: nat)
  {
    ghost predicate Valid() {
      |pairs| > 0 && roots > 0
    }
  }

  // ----- Numbering the forest -------------------------------------------------

  function Child(f: Shape, p: int, i: nat, j: nat): int {
    f.roots + ((p - 1) * |f.pairs| + i) * (f.fan + 1) + j + 1
  }

  function Parent(f: Shape, id: int): int
    requires f.Valid()
  {
    (id - f.roots - 1) / (f.fan + 1) / |f.pairs| + 1
  }

  function Kind(f: Shape, id: int): nat
    requires f.Valid()
  {
    (id - f.roots - 1) / (f.fan + 1) % |f.pairs|
  }

  function Nth(f: Shape, id: int): nat
    requires f.Valid()
  {
    (id - f.roots - 1) % (f.fan + 1)
  }

  lemma {:induction false} Scaled(a: int, b: int, d: nat)
    requires a <= b
    ensures a * d <= b * d
  {
    if d == 0 {
    } else {
      Scaled(a, b, d - 1);
      assert a * d == a * (d - 1) + a && b * d == b * (d - 1) + b;
    }
  }

  lemma OneQuotient(a: int, b: int, d: nat, r: nat, r': nat)
    requires r < d && r' < d && a * d + r == b * d + r'
    ensures a == b && r == r'
  {
    if a < b {
      Scaled(a + 1, b, d);
    } else if b < a {
      Scaled(b + 1, a, d);
    }
  }

  lemma Divided(q: int, d: nat, r: nat)
    requires r < d
    ensures (q * d + r) / d == q && (q * d + r) % d == r
  {
    var n := q * d + r;
    var a, b := n / d, n % d;
    assert n == a * d + b;
    OneQuotient(a, q, d, b, r);
  }

  lemma Grows(a: nat, d: nat)
    requires d > 0
    ensures a * d >= a
  {
    Scaled(1, d, a);
  }

  lemma ChildIs(f: Shape, p: int, i: nat, j: nat)
    requires f.Valid() && i < |f.pairs| && j <= f.fan
    ensures Parent(f, Child(f, p, i, j)) == p && Kind(f, Child(f, p, i, j)) == i && Nth(f, Child(f, p, i, j)) == j
  {
    Divided((p - 1) * |f.pairs| + i, f.fan + 1, j);
    Divided(p - 1, |f.pairs|, i);
  }

  lemma ChildAfter(f: Shape, p: int, i: nat, j: nat)
    requires f.Valid() && p >= 1
    ensures Child(f, p, i, j) > p && Child(f, p, i, j) > f.roots
  {
    var before := (p - 1) * |f.pairs| + i;
    var pairs, children := |f.pairs|, f.fan + 1;
    Grows(p - 1, pairs);
    Grows(before, children);
  }

  lemma ParentIs(f: Shape, id: int)
    requires f.Valid() && id > f.roots
    ensures Child(f, Parent(f, id), Kind(f, id), Nth(f, id)) == id
    ensures 1 <= Parent(f, id) < id && Kind(f, id) < |f.pairs| && Nth(f, id) <= f.fan
  {
    var y := id - f.roots - 1;
    var z := y / (f.fan + 1);
    assert y == z * (f.fan + 1) + y % (f.fan + 1);
    assert z == z / |f.pairs| * |f.pairs| + z % |f.pairs|;
    ChildAfter(f, Parent(f, id), Kind(f, id), Nth(f, id));
  }

  /** The last child of the last ID of a stretch. */
  function LastChild(f: Shape, top: nat): nat
    requires f.Valid() && top >= 1
    ensures LastChild(f, top) > top
  {
    ChildAfter(f, top, |f.pairs| - 1, f.fan);
    Child(f, top, |f.pairs| - 1, f.fan)
  }

  lemma ChildBefore(f: Shape, p: int, top: nat, i: nat, j: nat)
    requires f.Valid() && 1 <= p <= top && i < |f.pairs| && j <= f.fan
    ensures Child(f, p, i, j) <= LastChild(f, top)
  {
    var a, b := (p - 1) * |f.pairs| + i, (top - 1) * |f.pairs| + (|f.pairs| - 1);
    Scaled(p - 1, top - 1, |f.pairs|);
    Scaled(a, b, f.fan + 1);
  }

  /** An ID that refers to its parent at the `i`-th pair. */
  predicate IsNth(f: Shape, id: int, i: nat)
    requires f.Valid()
  {
    id > f.roots && Kind(f, id) == i && Nth(f, id) > 0
  }

  /** What an ID refers to at the `i`-th pair. */
  function Reference(f: Shape, id: int, i: nat): int
    requires f.Valid()
  {
    if IsNth(f, id, i) then Parent(f, id) else Child(f, id, i, 0)
  }

  lemma ReferenceIs(f: Shape, id: int, i: nat, top: nat)
    requires f.Valid() && 1 <= id <= top && i < |f.pairs|
    ensures 1 <= Reference(f, id, i) <= LastChild(f, top)
    ensures IsNth(f, id, i) ==> Reference(f, id, i) < id
    ensures !IsNth(f, id, i) ==>
              && Reference(f, id, i) > id && Reference(f, id, i) > f.roots
              && Parent(f, Reference(f, id, i)) == id && Nth(f, Reference(f, id, i)) == 0
  {
    if IsNth(f, id, i) {
      ParentIs(f, id);
    } else {
      ChildIs(f, id, i, 0);
      ChildAfter(f, id, i, 0);
      ChildBefore(f, id, top, i, 0);
    }
  }

  lemma ChildRefers(f: Shape, p: int, i: nat, j: nat)
    requires f.Valid() && p >= 1 && i < |f.pairs| && 0 < j <= f.fan
    ensures IsNth(f, Child(f, p, i, j), i) && Reference(f, Child(f, p, i, j), i) == p
  {
    ChildIs(f, p, i, j);
    ChildAfter(f, p, i, j);
  }

  // ----- The database ---------------------------------------------------------

  function PlaceOf(pairs: seq<(Table, Column)>, tc: (Table, Column)): (i: nat)
    requires tc in pairs
    ensures i < |pairs| && pairs[i] == tc
  {
    if pairs[0] == tc then 0 else 1 + PlaceOf(pairs[1..], tc)
  }

  function Planted(f: Shape, t: Table, cols: set<Column>, id: int): Row
    requires f.Valid()
  {
    map c | c in cols ::
      if c == ID then Int(id) else if (t, c) in f.pairs then Int(Reference(f, id, PlaceOf(f.pairs, (t, c)))) else Null
  }

  function PlantedRows(f: Shape, t: Table, cols: set<Column>, n: nat): (rows: seq<Row>)
    requires f.Valid()
    ensures |rows| == n
  {
    seq(n, i requires 0 <= i < n => Planted(f, t, cols, i + 1))
  }

  /** Every table has the rows 1 to `n`. Every test holds, nothing is ordered. */
  function Grove(s: Schema, f: Shape, n: nat): Database
    requires f.Valid()
  {
    Database(s, map t | t in s.columns :: PlantedRows(f, t, s.columns[t], n), (i, r) => true, (i, a, b) => false)
  }

  lemma PlantedIs(f: Shape, t: Table, cols: set<Column>, id: int)
    requires f.Valid() && ID in cols
    ensures var r := Planted(f, t, cols, id);
            && r.Keys == cols && r[ID] == Int(id) && IdOf(r) == id && Fk(r, ID) == Some(id)
            && forall c :: c in cols && c != ID && (t, c) in f.pairs ==>
                 Fk(r, c) == Some(Reference(f, id, PlaceOf(f.pairs, (t, c))))
  {
    hide Reference, PlaceOf;
    var r := Planted(f, t, cols, id);
    assert ID in r;
  }

  lemma GroveRows(s: Schema, f: Shape, n: nat, t: Table)
    requires f.Valid() && t in s.columns
    ensures Grove(s, f, n).schema == s && Grove(s, f, n).Rows(t) == PlantedRows(f, t, s.columns[t], n)
    ensures (forall i, r :: Grove(s, f, n).test(i, r)) && forall i, a, b :: !Grove(s, f, n).before(i, a, b)
  {
    hide PlantedRows;
  }

  lemma GroveWellFormed(s: Schema, f: Shape, n: nat)
    requires s.Valid() && f.Valid()
    ensures WellFormed(Grove(s, f, n))
  {
    hide Planted;
    var db := Grove(s, f, n);
    forall t | t in db.tables ensures DistinctIds(db.tables[t]) && forall r :: r in db.tables[t] ==> FullRow(s, t, r) {
      assert ID in s.columns[t];
      var rows := PlantedRows(f, t, s.columns[t], n);
      forall i | 0 <= i < n ensures IdOf(rows[i]) == i + 1 && FullRow(s, t, rows[i]) {
        PlantedIs(f, t, s.columns[t], i + 1);
      }
    }
  }

  lemma {:induction false} NeverPrecedes(db: Database, order: seq<OrderTerm>, a: Row, b: Row)
    requires forall i, x, y :: !db.before(i, x, y)
    ensures !Precedes(db, order, a, b)
  {
    if order == [] {
    } else {
      NeverPrecedes(db, order[1..], a, b);
    }
  }

  lemma {:induction false} ArrangedAlready(db: Database, order: seq<OrderTerm>, rows: seq<Row>)
    requires forall i, x, y :: !db.before(i, x, y)
    ensures Arrange(db, order, rows) == rows
  {
    if rows == [] {
    } else {
      ArrangedAlready(db, order, rows[1..]);
      if |rows| > 1 {
        NeverPrecedes(db, order, rows[1], rows[0]);
      }
    }
  }

  lemma TestsHold(db: Database, c: Query, r: Row)
    requires OnlyTests(c) && forall i, x :: db.test(i, x)
    ensures AllHold(c.predicates, db, r)
  {
  }

  lemma GroveSelected(s: Schema, f: Shape, n: nat, c: Query, keep: Row -> bool)
    requires f.Valid() && OnlyTests(c) && c.table in s.columns
    ensures Selected(Grove(s, f, n), c, keep) == Filter(PlantedRows(f, c.table, s.columns[c.table], n), keep)
  {
    hide Filter, PlantedRows, OnlyTests, AllHold, Grove;
    var db, rows := Grove(s, f, n), PlantedRows(f, c.table, s.columns[c.table], n);
    GroveRows(s, f, n, c.table);
    ArrangedAlready(db, c.order, rows);
    forall r | r in rows ensures Choosing(db, c, keep)(r) == keep(r) {
      TestsHold(db, c, r);
    }
    FilterAgree(rows, Choosing(db, c, keep), keep);
  }

  /** A row is selected if and only if its ID is there and the condition holds of it. */
  lemma GroveIds(s: Schema, f: Shape, n: nat, c: Query, keep: Row -> bool, id: int)
    requires f.Valid() && OnlyTests(c) && c.table in s.columns && ID in s.columns[c.table]
    ensures id in IdSet(Selected(Grove(s, f, n), c, keep))
            <==> 1 <= id <= n && keep(Planted(f, c.table, s.columns[c.table], id))
  {
    hide Planted, Selected, Grove;
    var cols := s.columns[c.table];
    var rows := PlantedRows(f, c.table, cols, n);
    GroveSelected(s, f, n, c, keep);
    FilterMembers(rows, keep);
    if r :| r in Filter(rows, keep) && IdOf(r) == id {
      var i :| 0 <= i < n && rows[i] == r;
      PlantedIs(f, c.table, cols, i + 1);
    }
    if 1 <= id <= n && keep(Planted(f, c.table, cols, id)) {
      assert rows[id - 1] == Planted(f, c.table, cols, id);
      PlantedIs(f, c.table, cols, id);
    }
  }
}
