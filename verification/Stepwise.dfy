/**
 The values that a builder tree and its nodes go through while a run or a clone
 is under way: what the builders' methods step along.
 */
module Stepwise {
  import opened Storage
  import opened Query

  /** Running a builder only ever appends to what it and its children hold. */
  ghost predicate Grown(q: Query, q': Query)
    decreases q
  {
    && q'.table == q.table && q'.order == q.order && q'.limit == q.limit && q'.offset == q.offset
    && q.predicates <= q'.predicates && q.fields <= q'.fields
    && q'.loads.Keys == q.loads.Keys
    && forall k :: k in q.loads ==> Grown(q.loads[k], q'.loads[k])
  }

  lemma {:induction false} GrownSame(q: Query)
    ensures Grown(q, q)
    decreases q
  {
    forall k | k in q.loads ensures Grown(q.loads[k], q.loads[k]) {
      GrownSame(q.loads[k]);
    }
  }

  /** A clone while the given eager loads are still to be cloned. */
  ghost function Cloned(q: Query, todo: set<LoadKey>): Query {
    q.(loads := map k | k in q.loads && k.Plain? && k !in todo :: Unnamed(q.loads[k]))
  }

  lemma CloneStart(q: Query, todo: set<LoadKey>)
    requires todo == set k | k in q.loads && k.Plain?
    ensures todo == PlainKeys(q) && Cloned(q, todo) == q.(loads := map[])
  {
  }

  lemma PlainIsLoaded(q: Query, k: LoadKey)
    requires k in PlainKeys(q)
    ensures k in q.loads && k.Plain?
  {
  }

  lemma CloneStep(q: Query, todo: set<LoadKey>, k: LoadKey)
    requires k in q.loads && k.Plain?
    ensures Cloned(q, todo - {k}) == Cloned(q, todo).(loads := Cloned(q, todo).loads[k := Unnamed(q.loads[k])])
  {
  }

  lemma CloneDone(q: Query)
    ensures Cloned(q, {}) == Unnamed(q)
  {
    assert Cloned(q, {}).loads == Unnamed(q).loads;
  }

  lemma {:induction false} AfterGrows(db: Database, q: Query, link: Link)
    ensures Grown(q, After(db, q, link))
    decreases q, 0
  {
    hide NodesOf;
    var v := After(db, q, link);
    forall k | k in q.loads ensures k in v.loads && Grown(q.loads[k], v.loads[k]) {
      GrownSame(q.loads[k]);
      RanGrows(db, q.loads[k], k, NodesOf(db, q, link));
    }
    assert v.loads.Keys == q.loads.Keys;
  }

  lemma {:induction false} RanGrows(db: Database, c: Query, k: LoadKey, rows: seq<Row>)
    ensures Grown(c, Ran(db, c, k, rows))
    decreases c, 1
  {
    GrownSame(c);
    AfterGrows(db, c, LinkFor(k, rows));
  }

  // ----- Half-way through a run -----------------------------------------------

  /** The builder tree, and the neighbours found, once the eager loads in `done`
      have run for the nodes. */
  ghost function Progress(db: Database, q: Query, rows: seq<Row>, done: set<LoadKey>): Query {
    q.(loads := map k | k in q.loads :: if k in done then Ran(db, q.loads[k], k, rows) else q.loads[k])
  }

  ghost function Loaded(db: Database, q: Query, rows: seq<Row>, done: set<LoadKey>): map<LoadKey, seq<Tree>> {
    map k | k in q.loads && k in done :: Batched(db, q.loads[k], LinkFor(k, rows))
  }

  /** What a finished run is, when it fails and when not. */
  lemma RunFacts(db: Database, q: Query, rows: seq<Row>)
    requires rows == NodesOf(db, q, Top)
    ensures Succeeds(db, q, Top) <==>
              (forall f :: f in q.fields ==> db.schema.ValidColumn(q.table, f))
              && (rows != [] ==> forall k :: k in q.loads ==> Runs(db, q.loads[k], k, rows))
    ensures rows == [] ==> Batched(db, q, Top) == [] && After(db, q, Top) == q
    ensures rows != [] ==> After(db, q, Top) == Progress(db, q, rows, q.loads.Keys)
    ensures |Batched(db, q, Top)| == |rows|
    ensures forall i :: 0 <= i < |rows| ==>
              Batched(db, q, Top)[i] == Joined(rows[i], PlainKeys(q), Neighbours(db, q, rows))
  {
    hide NodesOf, Joined, Neighbours, Ran, Runs;
    if rows != [] {
      MapsEqual(After(db, q, Top).loads, Progress(db, q, rows, q.loads.Keys).loads);
    }
  }

  lemma ProgressStart(db: Database, q: Query, rows: seq<Row>)
    ensures Progress(db, q, rows, {}) == q && Loaded(db, q, rows, {}) == map[]
  {
    MapsEqual(Progress(db, q, rows, {}).loads, q.loads);
  }

  lemma ProgressStep(db: Database, q: Query, rows: seq<Row>, done: set<LoadKey>, k: LoadKey)
    requires k in q.loads && k !in done
    ensures Progress(db, q, rows, done + {k}) ==
              var p := Progress(db, q, rows, done); p.(loads := p.loads[k := Ran(db, q.loads[k], k, rows)])
    ensures Loaded(db, q, rows, done + {k}) == Loaded(db, q, rows, done)[k := Batched(db, q.loads[k], LinkFor(k, rows))]
    ensures k !in Loaded(db, q, rows, done)
    ensures k in Progress(db, q, rows, done).loads && Progress(db, q, rows, done).loads[k] == q.loads[k]
  {
    MapsEqual(Progress(db, q, rows, done + {k}).loads,
        Progress(db, q, rows, done).loads[k := Ran(db, q.loads[k], k, rows)]);
    MapsEqual(Loaded(db, q, rows, done + {k}),
        Loaded(db, q, rows, done)[k := Batched(db, q.loads[k], LinkFor(k, rows))]);
  }

  lemma ProgressKeys(db: Database, q: Query, rows: seq<Row>, done: set<LoadKey>)
    ensures Progress(db, q, rows, done).loads.Keys == q.loads.Keys
  {
  }

  lemma AllLoaded(db: Database, q: Query, rows: seq<Row>)
    ensures Loaded(db, q, rows, q.loads.Keys) == Neighbours(db, q, rows)
  {
    MapsEqual(Loaded(db, q, rows, q.loads.Keys), Neighbours(db, q, rows));
  }

  lemma ProgressGrows(db: Database, q: Query, rows: seq<Row>, done: set<LoadKey>, k: LoadKey, v: Query)
    requires k in q.loads && k !in done && Grown(q.loads[k], v)
    ensures var p := Progress(db, q, rows, done); Grown(q, p.(loads := p.loads[k := v]))
  {
    forall l | l in q.loads ensures Grown(q.loads[l], q.loads[l]) && Grown(q.loads[l], Ran(db, q.loads[l], l, rows)) {
      GrownSame(q.loads[l]);
      RanGrows(db, q.loads[l], l, rows);
    }
  }

  lemma {:induction false} GrownGood(s: Schema, q: Query, v: Query)
    requires GoodQuery(s, q) && Grown(q, v)
    ensures GoodQuery(s, v)
    decreases q
  {
    forall k | k in v.loads
      ensures GoodKey(s, v.table, k) && v.loads[k].table == k.edge.target && GoodQuery(s, v.loads[k])
    {
      GrownGood(s, q.loads[k], v.loads[k]);
    }
  }

  lemma ProgressGood(db: Database, q: Query, rows: seq<Row>, done: set<LoadKey>)
    requires GoodQuery(db.schema, q)
    ensures GoodQuery(db.schema, Progress(db, q, rows, done))
  {
    var p := Progress(db, q, rows, done);
    forall k | k in p.loads
      ensures GoodKey(db.schema, p.table, k) && p.loads[k].table == k.edge.target && GoodQuery(db.schema, p.loads[k])
    {
      RanGrows(db, q.loads[k], k, rows);
      GrownGood(db.schema, q.loads[k], Ran(db, q.loads[k], k, rows));
    }
  }

  lemma RowsFacts(db: Database, q: Query)
    requires WellFormed(db)
    ensures NodesOf(db, q, Top) == QueryNodes(db, SpecOf(db.schema, q))
    ensures DistinctIds(NodesOf(db, q, Top))
    ensures forall r, loaded :: Joined(r, loaded, map[]) == Tree(r, loaded, map[], map[])
    ensures PlainKeys(q) == set k | k in q.loads && k.Plain?
  {
    ForeignKeysAdded([ID] + WithoutID(q.fields), db.schema.EdgesOf(q.table), q.loads.Keys);
    NodesDistinct(db, SpecOf(db.schema, q));
    forall r, loaded ensures Joined(r, loaded, map[]) == Tree(r, loaded, map[], map[]) {
      MapsEqual(JoinedOne(r, map[]), map[]);
      MapsEqual(JoinedMany(r, map[]), map[]);
    }
  }

  lemma PlainKeysAre(db: Database, q: Query)
    requires WellFormed(db) && GoodQuery(db.schema, q)
    ensures forall k :: k in PlainKeys(q) <==> k in q.loads && k.Plain?
    ensures forall k :: k in PlainKeys(q) ==> k.edge in db.schema.EdgesOf(q.table)
    ensures var edges := db.schema.EdgesOf(q.table); forall i, j :: 0 <= i < j < |edges| ==> edges[i] != edges[j]
  {
  }

  lemma ProgressGrown(db: Database, q: Query, rows: seq<Row>, done: set<LoadKey>)
    ensures Grown(q, Progress(db, q, rows, done))
  {
    forall l | l in q.loads ensures Grown(q.loads[l], q.loads[l]) && Grown(q.loads[l], Ran(db, q.loads[l], l, rows)) {
      GrownSame(q.loads[l]);
      RanGrows(db, q.loads[l], l, rows);
    }
  }

  lemma ForeignKeyColumn(s: Schema, t: Table, k: LoadKey)
    requires s.Valid() && GoodKey(s, t, k)
    ensures k.edge.kind.List? ==> s.ValidColumn(k.edge.target, k.edge.column)
  {
  }

  // ----- Linked children ------------------------------------------------------

  /** Running a child after linking it is running it under the link. */
  lemma AttachedRun(db: Database, q: Query, link: Link)
    ensures Batched(db, Attach(q, link), Top) == Batched(db, q, link)
    ensures After(db, Attach(q, link), Top) == After(db, q, link)
  {
    var rows := NodesOf(db, q, link);
    AttachedNeighbours(db, q, link, rows);
    if rows != [] {
      AttachedLoads(db, q, link, rows);
    }
  }

  lemma AttachedNeighbours(db: Database, q: Query, link: Link, rows: seq<Row>)
    ensures Neighbours(db, Attach(q, link), rows) == Neighbours(db, q, rows)
  {
    MapsEqual(Neighbours(db, Attach(q, link), rows), Neighbours(db, q, rows));
  }

  lemma AttachedLoads(db: Database, q: Query, link: Link, rows: seq<Row>)
    requires rows == NodesOf(db, q, link) != []
    ensures After(db, Attach(q, link), Top).loads == After(db, q, link).loads
  {
    MapsEqual(After(db, Attach(q, link), Top).loads, After(db, q, link).loads);
  }

  lemma AttachedSucceeds(db: Database, q: Query, link: Link)
    requires link.ByForeignKey? ==> db.schema.ValidColumn(q.table, link.column)
    ensures Succeeds(db, Attach(q, link), Top) <==> Succeeds(db, q, link)
  {
    hide Runs, QueryNodes, SpecOf;
    var q' := Attach(q, link);
    assert NodesOf(db, q', Top) == NodesOf(db, q, link);
    assert forall f :: f in q.fields ==> f in q'.fields;
  }

  lemma AttachedGrows(q: Query, link: Link, v: Query)
    requires Grown(Attach(q, link), v)
    ensures Grown(q, v)
  {
  }
}
