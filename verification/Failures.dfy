/**
 Which column a failing run reports: the first unknown field of a builder that it
 reaches, where plain eager loads come in the order of the edges and before the named
 ones, and named loads in any order.
 */
module Failures {
  import opened Storage
  import opened Query

  function FirstBad(s: Schema, t: Table, fields: seq<Column>): Option<Column> {
    if fields == [] then None
    else if !s.ValidColumn(t, fields[0]) then Some(fields[0])
    else FirstBad(s, t, fields[1..])
  }

  predicate Earlier(edges: seq<Edge>, a: Edge, b: Edge) {
    exists i, j :: 0 <= i < j < |edges| && edges[i] == a && edges[j] == b
  }

  /** The eager load that stops a run: it fails, and those before it do not. */
  ghost predicate Blames(db: Database, q: Query, rows: seq<Row>, k: LoadKey) {
    && k in q.loads && !Runs(db, q.loads[k], k, rows)
    && forall l :: l in q.loads && l.Plain? && (k.Named? || Earlier(db.schema.EdgesOf(q.table), l.edge, k.edge)) ==>
         Runs(db, q.loads[l], l, rows)
  }

  ghost predicate LoadReports(db: Database, q: Query, rows: seq<Row>, name: Column)
    decreases q, 0
  {
    exists k :: Blames(db, q, rows, k) && Reports(db, q.loads[k], LinkFor(k, rows), name)
  }

  ghost predicate Reports(db: Database, q: Query, link: Link, name: Column)
    decreases q, 1
  {
    var bad := FirstBad(db.schema, q.table, q.fields);
    if bad.Some? then name == bad.value
    else NodesOf(db, q, link) != [] && LoadReports(db, q, NodesOf(db, q, link), name)
  }

  lemma {:induction false} FirstBadIs(s: Schema, t: Table, fields: seq<Column>)
    ensures FirstBad(s, t, fields).None? <==> forall f :: f in fields ==> s.ValidColumn(t, f)
  {
    if fields == [] {
    } else {
      FirstBadIs(s, t, fields[1..]);
      assert fields == [fields[0]] + fields[1..];
    }
  }

  lemma {:induction false} FirstBadAt(s: Schema, t: Table, fields: seq<Column>, i: nat)
    requires i < |fields| && !s.ValidColumn(t, fields[i]) && forall f :: f in fields[..i] ==> s.ValidColumn(t, f)
    ensures FirstBad(s, t, fields) == Some(fields[i])
  {
    if i == 0 {
    } else {
      assert fields[0] in fields[..i];
      assert fields[1..][..i - 1] == fields[..i][1..];
      FirstBadAt(s, t, fields[1..], i - 1);
    }
  }

  lemma {:induction false} FirstBadMore(s: Schema, t: Table, fields: seq<Column>, c: Column)
    requires s.ValidColumn(t, c)
    ensures FirstBad(s, t, fields + [c]) == FirstBad(s, t, fields)
  {
    if fields == [] {
    } else {
      assert (fields + [c])[1..] == fields[1..] + [c];
      FirstBadMore(s, t, fields[1..], c);
    }
  }

  /** A plain load over one of the first `n` edges fails. */
  ghost predicate FailsAmong(db: Database, q: Query, rows: seq<Row>, n: nat, l: LoadKey)
    requires n <= |db.schema.EdgesOf(q.table)|
  {
    l in q.loads && l.Plain? && !Runs(db, q.loads[l], l, rows) && l.edge in db.schema.EdgesOf(q.table)[..n]
  }

  lemma {:induction false} FirstFailingLoad(db: Database, q: Query, rows: seq<Row>, n: nat, l: LoadKey)
    returns (k: LoadKey)
    requires db.schema.Valid() && n <= |db.schema.EdgesOf(q.table)| && FailsAmong(db, q, rows, n, l)
    ensures Blames(db, q, rows, k)
  {
    hide Runs, Schema.Valid, Schema.EdgesOf;
    var edges := db.schema.EdgesOf(q.table);
    var less: nat := n - 1;
    assert edges[..n] == edges[..less] + [edges[less]];
    if m :| FailsAmong(db, q, rows, less, m) {
      k := FirstFailingLoad(db, q, rows, less, m);
    } else {
      k := l;
      assert !FailsAmong(db, q, rows, less, l);
      assert k.edge == edges[less];
      forall m | m in q.loads && m.Plain? && Earlier(edges, m.edge, k.edge) ensures Runs(db, q.loads[m], m, rows) {
        var i, j :| 0 <= i < j < |edges| && edges[i] == m.edge && edges[j] == k.edge;
        EdgeOnce(db.schema, q.table, j, less);
        assert edges[..less][i] == m.edge;
        assert !FailsAmong(db, q, rows, less, m);
      }
    }
  }

  lemma EdgeOnce(s: Schema, t: Table, i: nat, j: nat)
    requires s.Valid() && i < |s.EdgesOf(t)| && j < |s.EdgesOf(t)| && s.EdgesOf(t)[i] == s.EdgesOf(t)[j]
    ensures i == j
  {
  }

  /** Some load is to blame when one fails. */
  lemma FirstBlamed(db: Database, q: Query, rows: seq<Row>) returns (k: LoadKey)
    requires WellFormed(db) && GoodQuery(db.schema, q) && exists k :: k in q.loads && !Runs(db, q.loads[k], k, rows)
    ensures Blames(db, q, rows, k)
  {
    hide Runs;
    var edges := db.schema.EdgesOf(q.table);
    if l :| l in q.loads && l.Plain? && !Runs(db, q.loads[l], l, rows) {
      assert GoodKey(db.schema, q.table, l) && edges[..|edges|] == edges;
      k := FirstFailingLoad(db, q, rows, |edges|, l);
    } else {
      k :| k in q.loads && !Runs(db, q.loads[k], k, rows);
    }
  }

  lemma ReportFails(db: Database, q: Query, link: Link, name: Column)
    requires Reports(db, q, link, name)
    ensures !Succeeds(db, q, link)
  {
    hide NodesOf, FirstBad, Earlier, Runs;
    FirstBadIs(db.schema, q.table, q.fields);
  }

  lemma OwnReport(db: Database, q: Query, link: Link)
    requires FirstBad(db.schema, q.table, q.fields).Some?
    ensures exists name :: Reports(db, q, link, name)
  {
    hide FirstBad;
    var name := FirstBad(db.schema, q.table, q.fields).value;
    assert Reports(db, q, link, name);
  }

  /** A run reports a column if and only if it fails. */
  lemma {:induction false} FailureReported(db: Database, q: Query, link: Link)
    requires WellFormed(db) && GoodQuery(db.schema, q)
    ensures !Succeeds(db, q, link) <==> exists name :: Reports(db, q, link, name)
    decreases q
  {
    hide NodesOf, FirstBad, Earlier, WellFormed, Runs, LoadReports, Blames;
    if Succeeds(db, q, link) {
      forall name | Reports(db, q, link, name) ensures !Succeeds(db, q, link) {
        ReportFails(db, q, link, name);
      }
    } else if FirstBad(db.schema, q.table, q.fields).Some? {
      OwnReport(db, q, link);
    } else {
      FirstBadIs(db.schema, q.table, q.fields);
      var k := FirstBlamed(db, q, NodesOf(db, q, link));
      BlamedFails(db, q, NodesOf(db, q, link), k);
      FailureReported(db, q.loads[k], LinkFor(k, NodesOf(db, q, link)));
      var name :| Reports(db, q.loads[k], LinkFor(k, NodesOf(db, q, link)), name);
      BlamedReports(db, q, NodesOf(db, q, link), k, name);
      LoadReport(db, q, link, name);
    }
  }

  lemma LoadReport(db: Database, q: Query, link: Link, name: Column)
    requires FirstBad(db.schema, q.table, q.fields).None? && NodesOf(db, q, link) != []
    requires LoadReports(db, q, NodesOf(db, q, link), name)
    ensures exists name :: Reports(db, q, link, name)
  {
    hide LoadReports, NodesOf, FirstBad;
    assert Reports(db, q, link, name);
  }

  lemma BlamedFails(db: Database, q: Query, rows: seq<Row>, k: LoadKey)
    requires GoodQuery(db.schema, q) && Blames(db, q, rows, k)
    ensures k in q.loads && !Succeeds(db, q.loads[k], LinkFor(k, rows)) && GoodQuery(db.schema, q.loads[k])
  {
    hide Earlier;
  }

  /** Builders without named loads, at every depth. */
  ghost predicate AllPlain(q: Query)
    decreases q
  {
    forall k :: k in q.loads ==> k.Plain? && AllPlain(q.loads[k])
  }

  /** Without named loads there is one column that a failing run reports. */
  lemma {:induction false} OneReport(db: Database, q: Query, link: Link, a: Column, b: Column)
    requires WellFormed(db) && GoodQuery(db.schema, q) && AllPlain(q)
    requires Reports(db, q, link, a) && Reports(db, q, link, b)
    ensures a == b
    decreases q
  {
    hide NodesOf, FirstBad, Runs, Earlier;
    if FirstBad(db.schema, q.table, q.fields).Some? {
    } else {
      var rows := NodesOf(db, q, link);
      var k :| Blames(db, q, rows, k) && Reports(db, q.loads[k], LinkFor(k, rows), a);
      var l :| Blames(db, q, rows, l) && Reports(db, q.loads[l], LinkFor(l, rows), b);
      OneBlamed(db, q, rows, k, l);
      OneReport(db, q.loads[k], LinkFor(k, rows), a, b);
    }
  }

  lemma OneBlamed(db: Database, q: Query, rows: seq<Row>, k: LoadKey, l: LoadKey)
    requires WellFormed(db) && GoodQuery(db.schema, q) && Blames(db, q, rows, k) && Blames(db, q, rows, l)
    requires k.Plain? && l.Plain?
    ensures k == l
  {
    hide Runs;
    var edges := db.schema.EdgesOf(q.table);
    assert GoodKey(db.schema, q.table, k) && GoodKey(db.schema, q.table, l);
    var i :| 0 <= i < |edges| && edges[i] == k.edge;
    var j :| 0 <= j < |edges| && edges[j] == l.edge;
    assert i < j ==> Earlier(edges, k.edge, l.edge);
    assert j < i ==> Earlier(edges, l.edge, k.edge);
  }

  // ----- Linked children ------------------------------------------------------

  lemma AttachedReports(db: Database, q: Query, link: Link, name: Column)
    requires link.ByForeignKey? ==> db.schema.ValidColumn(q.table, link.column)
    ensures Reports(db, Attach(q, link), Top, name) <==> Reports(db, q, link, name)
  {
    hide Runs, QueryNodes, SpecOf, FirstBad;
    var q', rows := Attach(q, link), NodesOf(db, q, link);
    assert NodesOf(db, q', Top) == rows;
    if link.ByForeignKey? {
      FirstBadMore(db.schema, q.table, q.fields, link.column);
    }
    assert forall k :: Blames(db, q', rows, k) <==> Blames(db, q, rows, k);
    assert LoadReports(db, q', rows, name) <==> LoadReports(db, q, rows, name);
  }

  lemma BlamedReports(db: Database, q: Query, rows: seq<Row>, k: LoadKey, name: Column)
    requires Blames(db, q, rows, k) && Reports(db, q.loads[k], LinkFor(k, rows), name)
    ensures LoadReports(db, q, rows, name)
  {
  }

  lemma ReportsFacts(db: Database, q: Query, rows: seq<Row>)
    requires rows == NodesOf(db, q, Top)
    ensures forall name :: Reports(db, q, Top, name) <==>
              var bad := FirstBad(db.schema, q.table, q.fields);
              if bad.Some? then name == bad.value else rows != [] && LoadReports(db, q, rows, name)
    ensures FirstBad(db.schema, q.table, q.fields).None?
            <==> forall f :: f in q.fields ==> db.schema.ValidColumn(q.table, f)
  {
    hide NodesOf, LoadReports, FirstBad;
    FirstBadIs(db.schema, q.table, q.fields);
  }

  /** The plain loads before the `i`-th edge have run, and the one over it fails. */
  lemma PlainBlamed(db: Database, q: Query, rows: seq<Row>, done: set<LoadKey>, i: nat, k: LoadKey)
    requires WellFormed(db) && GoodQuery(db.schema, q) && i < |db.schema.EdgesOf(q.table)|
    requires k == Plain(db.schema.EdgesOf(q.table)[i]) && k in q.loads && !Runs(db, q.loads[k], k, rows)
    requires forall l :: l in done <==> l in PlainKeys(q) && l.edge in db.schema.EdgesOf(q.table)[..i]
    requires forall l :: l in done ==> Runs(db, q.loads[l], l, rows)
    ensures Blames(db, q, rows, k)
  {
    hide Runs, NodesOf, FullRow;
    var edges := db.schema.EdgesOf(q.table);
    forall l | l in q.loads && l.Plain? && Earlier(edges, l.edge, k.edge) ensures Runs(db, q.loads[l], l, rows) {
      var a, b :| 0 <= a < b < |edges| && edges[a] == l.edge && edges[b] == k.edge;
      EdgeOnce(db.schema, q.table, b, i);
      assert edges[..i][a] == l.edge;
      assert l in done;
    }
  }

  lemma NamedBlamed(db: Database, q: Query, rows: seq<Row>, k: LoadKey)
    requires k in q.loads && k.Named? && !Runs(db, q.loads[k], k, rows)
    requires forall l :: l in PlainKeys(q) ==> Runs(db, q.loads[l], l, rows)
    ensures Blames(db, q, rows, k)
  {
    hide Runs;
  }
}
