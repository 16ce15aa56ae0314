/**
 A database where each edge leads from a row to the row with the same ID. Runs over it
 find stretches of IDs, so a named load that the windows leave any nodes for is
 reached.
 */
module Diagonal {
  import opened Storage
  import opened Query
  import opened NestedLoops
  import opened Extents
  import opened Forest
  import opened Reach
  import EdgeStatus

  // ----- The database ---------------------------------------------------------

  /** The row with this number in every cell. */
  function Filled(cols: set<Column>, id: int): Row {
    map c | c in cols :: Int(id)
  }

  /** Rows `from + 1` to `to`, each filled with its own ID. */
  function Stretch(cols: set<Column>, from: nat, to: nat): (rows: seq<Row>)
    requires from <= to
    ensures |rows| == to - from
  {
    seq(to - from, i requires 0 <= i < to - from => Filled(cols, from + i + 1))
  }

  /** Rows 1 to `n` in every table: each edge leads from a row to the row with the same
      ID and to no other. Every test holds, nothing is ordered. */
  function Diagonal(s: Schema, n: nat): Database {
    Database(s, map t | t in s.columns :: Stretch(s.columns[t], 0, n), (i, r) => true, (i, a, b) => false)
  }

  lemma StretchIs(cols: set<Column>, from: nat, to: nat, i: nat)
    requires from <= to && i < to - from
    ensures var r := Stretch(cols, from, to)[i];
            && r == Filled(cols, from + i + 1) && r.Keys == cols
            && (ID in cols ==> IdOf(r) == from + i + 1)
            && forall c :: c in cols ==> Fk(r, c) == Some(from + i + 1)
  {
  }

  lemma DiagonalWellFormed(s: Schema, n: nat)
    requires s.Valid()
    ensures WellFormed(Diagonal(s, n))
  {
    var db := Diagonal(s, n);
    forall t | t in db.tables ensures DistinctIds(db.tables[t]) && forall r :: r in db.tables[t] ==> FullRow(s, t, r) {
      assert ID in s.columns[t];
      forall i | 0 <= i < n {
        StretchIs(s.columns[t], 0, n, i);
      }
    }
  }

  // ----- Filters over it ------------------------------------------------------

  /** A condition that holds from one position on, up to another, keeps that part. */
  lemma {:induction false} FilterPart<T(!new)>(rows: seq<T>, keep: T -> bool, from: nat, to: nat)
    requires from <= to <= |rows| && forall i :: 0 <= i < |rows| ==> keep(rows[i]) == (from <= i < to)
    ensures Filter(rows, keep) == rows[from..to]
  {
    if rows == [] {
    } else {
      var from', to' := if from > 0 then from - 1 else 0, if to > 0 then to - 1 else 0;
      forall i | 0 <= i < |rows[1..]| ensures keep(rows[1..][i]) == (from' <= i < to') {
        assert rows[1..][i] == rows[i + 1];
      }
      FilterPart(rows[1..], keep, from', to');
      assert rows[from..to] == (if from == 0 < to then [rows[0]] else []) + rows[1..][from'..to'];
    }
  }

  lemma StretchSelected(s: Schema, n: nat, c: Query, keep: Row -> bool, from: nat, to: nat)
    requires OnlyTests(c) && c.table in s.columns && from <= to <= n
    requires forall i :: 0 <= i < n ==> keep(Stretch(s.columns[c.table], 0, n)[i]) == (from <= i < to)
    ensures Selected(Diagonal(s, n), c, keep) == Stretch(s.columns[c.table], from, to)
  {
    hide Filter, Stretch, Filled, OnlyTests, AllHold;
    var db, cols := Diagonal(s, n), s.columns[c.table];
    var rows := Stretch(cols, 0, n);
    assert db.Rows(c.table) == rows;
    ArrangedAlready(db, c.order, rows);
    forall r | r in rows ensures Choosing(db, c, keep)(r) == keep(r) {
      TestsHold(db, c, r);
    }
    FilterAgree(rows, Choosing(db, c, keep), keep);
    FilterPart(rows, keep, from, to);
    SubStretch(cols, n, from, to);
  }

  lemma SubStretch(cols: set<Column>, n: nat, from: nat, to: nat)
    requires from <= to <= n
    ensures Stretch(cols, 0, n)[from..to] == Stretch(cols, from, to)
  {
  }

  // ----- Runs over it ---------------------------------------------------------

  /** The run of a builder that finds the rows after `from`, up to `to`. */
  ghost predicate FoundStretch(s: Schema, n: nat, q: Query, link: Link, from: nat, to: nat) {
    && s.Valid() && GoodQuery(s, q) && q.table in s.columns && TestsThroughout(q) && from <= to <= n
    && Matching(Diagonal(s, n), SpecOf(s, Attach(q, link))) == Stretch(s.columns[q.table], from, to)
  }

  lemma StretchNode(s: Schema, n: nat, q: Query, link: Link, from: nat, to: nat, i: nat)
    requires FoundStretch(s, n, q, link, from, to) && i < to - from
    ensures |NodesOf(Diagonal(s, n), q, link)| == to - from
    ensures var r := NodesOf(Diagonal(s, n), q, link)[i];
            && IdOf(r) == from + i + 1
            && forall k :: k in q.loads && k.edge.kind.Unique? ==> Fk(r, k.edge.column) == Some(from + i + 1)
  {
    hide Matching, Stretch, NodesOf;
    StretchCount(s, n, q, link, from, to);
    NodeFull(Diagonal(s, n), q, link, i);
    assert s.ValidColumn(q.table, ID);
    StretchIs(s.columns[q.table], from, to, i);
    forall k | k in q.loads && k.edge.kind.Unique? ensures k.edge.column in s.columns[q.table] {
      TiedColumns(s, q, k);
    }
  }

  lemma StretchCount(s: Schema, n: nat, q: Query, link: Link, from: nat, to: nat)
    requires FoundStretch(s, n, q, link, from, to)
    ensures from <= to <= n && |NodesOf(Diagonal(s, n), q, link)| == to - from && Diagonal(s, n).schema == s
  {
    hide Matching, Stretch;
  }

  lemma KeysOfStretch(rows: seq<Row>, k: LoadKey, from: nat)
    requires forall i :: 0 <= i < |rows| ==> IdOf(rows[i]) == from + i + 1
    requires k.edge.kind.Unique? ==> forall i :: 0 <= i < |rows| ==> Fk(rows[i], k.edge.column) == Some(from + i + 1)
    ensures forall v :: v in LinkFor(k, rows).ids <==> from < v <= from + |rows|
  {
    hide ForeignKeys;
    ForeignKeysExact(rows, k.edge.column);
    forall v | from < v <= from + |rows| ensures v in LinkFor(k, rows).ids {
      assert IdOf(rows[v - from - 1]) == v && Ids(rows)[v - from - 1] == v;
    }
  }

  lemma StretchAsked(s: Schema, n: nat, q: Query, link: Link, from: nat, to: nat, k: LoadKey)
    requires FoundStretch(s, n, q, link, from, to) && k in q.loads
    ensures q.loads[k].table in s.columns
    ensures AskedRows(Diagonal(s, n), q.loads[k], k, NodesOf(Diagonal(s, n), q, link))
         == Stretch(s.columns[q.loads[k].table], from, to)
  {
    hide NodesOf, ForeignKeys, FoundStretch, Stretch, Diagonal, Selected, Matching;
    var c, rows := q.loads[k], NodesOf(Diagonal(s, n), q, link);
    StretchCount(s, n, q, link, from, to);
    StretchGood(s, n, q, link, from, to);
    TiedColumns(s, q, k);
    forall i | 0 <= i < to - from
      ensures IdOf(rows[i]) == from + i + 1
      ensures k.edge.kind.Unique? ==> Fk(rows[i], k.edge.column) == Some(from + i + 1)
    {
      StretchNode(s, n, q, link, from, to, i);
    }
    KeysOfStretch(rows, k, from);
    forall i | 0 <= i < n
      ensures Linking(LinkFor(k, rows))(Stretch(s.columns[c.table], 0, n)[i]) == (from <= i < to)
    {
      StretchIs(s.columns[c.table], 0, n, i);
    }
    StretchSelected(s, n, c, Linking(LinkFor(k, rows)), from, to);
  }

  lemma StretchGood(s: Schema, n: nat, q: Query, link: Link, from: nat, to: nat)
    requires FoundStretch(s, n, q, link, from, to)
    ensures s.Valid() && GoodQuery(s, q) && TestsThroughout(q) && q.table in s.columns
  {
  }

  /** A window leaves a stretch of a stretch. */
  lemma StretchWindow(c: Query, cols: set<Column>, from: nat, to: nat) returns (from': nat, to': nat)
    requires from <= to
    ensures from <= from' <= to' <= to && to' - from' == CutSize(c, to - from)
    ensures Windowed(c, Stretch(cols, from, to)) == Stretch(cols, from', to')
  {
    hide Filled;
    var o := OrZero(c.offset);
    from' := if o <= 0 then from else if o <= to - from then from + o else to;
    to' := from' + CutSize(c, to - from);
  }

  lemma StretchBelow(s: Schema, n: nat, q: Query, link: Link, from: nat, to: nat, k: LoadKey)
    returns (from': nat, to': nat)
    requires FoundStretch(s, n, q, link, from, to) && k in q.loads
    ensures FoundStretch(s, n, q.loads[k], LinkFor(k, NodesOf(Diagonal(s, n), q, link)), from', to')
    ensures from' <= to' && to' - from' == CutSize(q.loads[k], to - from)
  {
    hide NodesOf, Stretch, Diagonal, Selected, Matching, Windowed, Linking;
    var c := q.loads[k];
    StretchCount(s, n, q, link, from, to);
    StretchAsked(s, n, q, link, from, to, k);
    TiedColumns(s, q, k);
    LinkedRows(Diagonal(s, n), c, LinkFor(k, NodesOf(Diagonal(s, n), q, link)));
    from', to' := StretchWindow(c, s.columns[c.table], from, to);
  }

  lemma StretchRoot(s: Schema, n: nat, q: Query) returns (from: nat, to: nat)
    requires s.Valid() && GoodQuery(s, q) && q.table in s.columns && TestsThroughout(q)
    ensures FoundStretch(s, n, q, Top, from, to) && from <= to && to - from == CutSize(q, n)
  {
    hide Stretch, Filter, AllHold;
    var db, cols := Diagonal(s, n), s.columns[q.table];
    assert db.Rows(q.table) == Stretch(cols, 0, n);
    ArrangedAlready(db, q.order, db.Rows(q.table));
    forall r ensures Satisfying(db, q.predicates)(r) {
      TestsHold(db, q, r);
    }
    FilterAll(db.Rows(q.table), Satisfying(db, q.predicates));
    from, to := StretchWindow(q, cols, 0, n);
    assert Matching(db, SpecOf(s, q)) == Windowed(q, Stretch(cols, 0, n));
  }
}
