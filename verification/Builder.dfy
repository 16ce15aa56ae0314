/**
 The query builders as the program has them: heap objects that are configured
 in place, own the builders of their eager loads, and change when they run.
 Each method is proved against the value of the builder tree (`Value`).
 */
module Builder {
  import opened Storage
  import opened Query
  import opened Stepwise
  import opened Failures

  datatype Error =
    | InvalidField(name: Column)
    | NilForeignKey(node: int)
    | UnexpectedForeignKey(fk: int)
    | NotFound
    | NotSingular

  datatype Result<+T> = Ok(value: T) | Err(error: Error)

  /** The part of a builder that interceptors can see. */
  class QueryContext {
    var limit: Option<int>
    var offset: Option<int>
    var fields: seq<Column>

    constructor ()
      ensures limit == None && offset == None && fields == []
    {
      limit, offset, fields := None, None, [];
    }

    method Clone() returns (c: QueryContext)
      ensures fresh(c) && c.limit == limit && c.offset == offset && c.fields == fields
    {
      c := new QueryContext();
      c.limit, c.offset, c.fields := limit, offset, fields;
    }

    method AppendFieldOnce(f: Column)
      modifies this`fields
      ensures fields == AddOnce(old(fields), f)
    {
      for i := 0 to |fields|
        invariant fields == old(fields) && f !in fields[..i]
      {
        if fields[i] == f {
          return;
        }
      }
      fields := fields + [f];
    }
  }

  class QueryBuilder {
    const table: Table
    var ctx: QueryContext
    var order: seq<OrderTerm>
    var predicates: seq<Predicate>
    var loads: map<LoadKey, QueryBuilder>
    ghost var Value: Query      // the builder tree as a value
    ghost var Repr: set<object> // the builders and contexts of the tree

    /** Builders form a tree, no two eager loads share a builder or a context,
        and `Value` is what the tree holds. */
    ghost predicate Valid()
      reads this, Repr
      decreases Repr, 1
    {
      && this in Repr && ctx in Repr
      && Value == Query(table, predicates, order, ctx.limit, ctx.offset, ctx.fields, Value.loads)
      && ChildrenValid()
    }

    ghost predicate ChildrenValid()
      requires this in Repr
      reads this, Repr
      decreases Repr, 0
    {
      && Value.loads.Keys == loads.Keys
      && (forall k :: k in loads ==> loads[k] in Repr && loads[k].Repr <= Repr && Owns(k, loads[k]) && loads[k].Valid())
      && Separate(loads)
    }

    ghost predicate Owns(k: LoadKey, child: QueryBuilder)
      requires k in Value.loads
      reads this, child
    {
      && this !in child.Repr && ctx !in child.Repr
      && child.table == k.edge.target
      && Value.loads[k] == child.Value
    }

    static ghost predicate Separate(m: map<LoadKey, QueryBuilder>)
      reads m.Values
    {
      forall k, l, o :: k in m && l in m && o in m[k].Repr && o in m[l].Repr ==> k == l
    }

    static lemma SeparateWith(m: map<LoadKey, QueryBuilder>, k: LoadKey, child: QueryBuilder, repr: set<object>)
      requires Separate(m) && forall l :: l in m ==> m[l].Repr <= repr
      requires forall o :: o in child.Repr ==> o !in repr
      ensures Separate(m[k := child])
    {
    }

    /** What no step touches stays as it was. */
    twostate lemma Kept(o: QueryBuilder)
      requires old(o.Valid()) && unchanged(old(o.Repr))
      ensures o.Valid() && o.Repr == old(o.Repr) && o.Value == old(o.Value)
    {
    }

    /** A change to the builder's own fields leaves its children alone. */
    twostate lemma ChildrenKept()
      requires old(Valid()) && loads == old(loads) && Repr == old(Repr) && ctx == old(ctx)
      requires Value.loads == old(Value).loads
      requires forall k :: k in old(loads) ==> unchanged(old(loads[k].Repr))
      ensures ChildrenValid()
    {
      forall k | k in loads
        ensures loads[k].Valid() && loads[k].Repr == old(loads[k].Repr) && loads[k].Value == old(loads[k].Value)
      {
        Kept(loads[k]);
      }
    }

    constructor (t: Table)
      ensures Valid() && fresh(Repr) && table == t
      ensures Value == Query(t, [], [], None, None, [], map[])
    {
      table := t;
      var c := new QueryContext();
      ctx, order, predicates, loads := c, [], [], map[];
      Value := Query(t, [], [], None, None, [], map[]);
      Repr := {this, c};
    }

    /** A childless duplicate with a context of its own. */
    constructor Copy(other: QueryBuilder)
      requires other.Valid()
      ensures Valid() && fresh(Repr) && table == other.table
      ensures Value == other.Value.(loads := map[])
    {
      table := other.table;
      var c := other.ctx.Clone();
      ctx, order, predicates, loads := c, other.order, other.predicates, map[];
      Value := other.Value.(loads := map[]);
      Repr := {this, c};
    }

    // ----- Configuration ------------------------------------------------------

    method Where(ps: seq<Predicate>)
      requires Valid()
      modifies this`predicates, this`Value
      ensures Valid() && Value == old(Value).(predicates := old(predicates) + ps)
    {
      predicates := predicates + ps;
      Value := Value.(predicates := predicates);
      ChildrenKept();
    }

    method Order(os: seq<OrderTerm>)
      requires Valid()
      modifies this`order, this`Value
      ensures Valid() && Value == old(Value).(order := old(order) + os)
    {
      order := order + os;
      Value := Value.(order := order);
      ChildrenKept();
    }

    method Limit(limit: int)
      requires Valid()
      modifies ctx`limit, this`Value
      ensures Valid() && Value == old(Value).(limit := Some(limit))
    {
      ctx.limit := Some(limit);
      Value := Value.(limit := ctx.limit);
      ChildrenKept();
    }

    method Offset(offset: int)
      requires Valid()
      modifies ctx`offset, this`Value
      ensures Valid() && Value == old(Value).(offset := Some(offset))
    {
      ctx.offset := Some(offset);
      Value := Value.(offset := ctx.offset);
      ChildrenKept();
    }

    method Select(fields: seq<Column>)
      requires Valid()
      modifies ctx`fields, this`Value
      ensures Valid() && Value == old(Value).(fields := old(ctx.fields) + fields)
    {
      ctx.fields := ctx.fields + fields;
      Value := Value.(fields := ctx.fields);
      ChildrenKept();
    }

    /** The column that a list loader forces into a child's selected fields. */
    method AppendFieldOnce(f: Column)
      requires Valid()
      modifies ctx`fields, this`Value
      ensures Valid() && Value == old(Value).(fields := AddOnce(old(ctx.fields), f))
    {
      ctx.AppendFieldOnce(f);
      Value := Value.(fields := ctx.fields);
      ChildrenKept();
    }

    /** Sets the builder of an eager load; an earlier one for the same key is
        dropped. */
    method With(k: LoadKey, child: QueryBuilder)
      requires Valid() && child.Valid() && child.table == k.edge.target
      requires forall o :: o in child.Repr ==> o !in Repr
      modifies this`loads, this`Value, this`Repr
      ensures Valid() && Repr == old(Repr) + child.Repr
      ensures Value == old(Value).(loads := old(Value).loads[k := child.Value])
    {
      loads := loads[k := child];
      Value := Value.(loads := Value.loads[k := child.Value]);
      Repr := Repr + child.Repr;
      forall l | l in loads ensures loads[l] in Repr && loads[l].Repr <= Repr && Owns(l, loads[l]) && loads[l].Valid() {
        Kept(loads[l]);
      }
      SeparateWith(old(loads), k, child, old(Repr));
    }

    /** The duplicate that `Clone` makes: its own contexts all the way down, the
        plain eager loads cloned with it, the named ones forgotten. */
    method Clone() returns (c: QueryBuilder)
      requires Valid()
      ensures c.Valid() && fresh(c.Repr) && c.table == table
      ensures c.Value == Unnamed(Value)
      decreases Repr, 1
    {
      hide *;
      c := new QueryBuilder.Copy(this);
      ghost var q := Value;
      OwnFacts();
      var todo := set k | k in loads && k.Plain?;
      CloneStart(q, todo);
      while todo != {}
        invariant Valid() && Value == q && todo <= PlainKeys(q)
        invariant c.Valid() && fresh(c.Repr) && c.table == table
        invariant c.Value == Cloned(q, todo)
        decreases todo
      {
        var k :| k in todo;
        PlainIsLoaded(q, k);
        CloneLoad(k, c);
        CloneStep(q, todo, k);
        todo := todo - {k};
      }
      CloneDone(q);
    }

    method CloneLoad(k: LoadKey, c: QueryBuilder)
      requires Valid() && k in Value.loads && c.Valid() && c.Repr !! Repr
      modifies c`loads, c`Value, c`Repr
      ensures c.Valid() && Valid() && Value == old(Value)
      ensures forall o :: o in c.Repr ==> o in old(c.Repr) || fresh(o)
      ensures c.Value == old(c.Value).(loads := old(c.Value).loads[k := Unnamed(Value.loads[k])])
      decreases Repr, 0
    {
      var child := loads[k].Clone();
      c.With(k, child);
      Kept(this);
    }

    // ----- Running ------------------------------------------------------------

    method QuerySpec(s: Schema) returns (spec: Spec)
      requires Valid()
      ensures spec == SpecOf(s, Value)
    {
      var projection := AllColumns;
      var fields := ctx.fields;
      if |fields| > 0 {
        var cols := [ID];
        for i := 0 to |fields|
          invariant cols == [ID] + WithoutID(fields[..i])
        {
          assert fields[..i + 1] == fields[..i] + [fields[i]];
          FilterAppend(fields[..i], fields[i], IsNotID());
          if fields[i] != ID {
            cols := cols + [fields[i]];
          }
        }
        assert fields[..|fields|] == fields;
        ghost var base := cols;
        var edges := s.EdgesOf(table);
        for i := 0 to |edges|
          invariant cols == AddForeignKeys(base, edges[..i], loads.Keys)
        {
          assert edges[..i + 1][..i] == edges[..i];
          if edges[i].kind.Unique? && Plain(edges[i]) in loads {
            cols := AddOnce(cols, edges[i].column);
          }
        }
        assert edges[..|edges|] == edges;
        projection := OnlyColumns(cols);
      }
      var limit, offset := 0, 0;
      if ctx.limit.Some? {
        limit := ctx.limit.value;
      }
      if ctx.offset.Some? {
        offset := ctx.offset.value;
      }
      spec := Spec(table, projection, predicates, order, limit, offset);
    }

    /** Runs the builder of one eager load and joins what it finds to the nodes. */
    method LoadEdge(db: Database, k: LoadKey, nodes: array<Tree>, ghost rows: seq<Row>) returns (err: Option<Error>)
      requires WellFormed(db) && Valid() && GoodQuery(db.schema, Value) && k in Value.loads
      requires nodes !in Repr && nodes.Length == |rows| && DistinctIds(rows)
      requires forall i :: 0 <= i < |rows| ==> nodes[i].row == rows[i]
      modifies nodes, Repr
      ensures Valid() && Repr == old(Repr)
      ensures k in Value.loads && Value == old(Value).(loads := old(Value).loads[k := Value.loads[k]])
      ensures Grown(old(Value).loads[k], Value.loads[k])
      ensures err.None? <==> Runs(db, old(Value).loads[k], k, rows)
      ensures err.Some? ==>
                err.value.InvalidField? && Reports(db, old(Value).loads[k], LinkFor(k, rows), err.value.name)
      ensures err.None? ==> Value.loads[k] == Ran(db, old(Value).loads[k], k, rows)
      ensures err.None? ==> forall i :: 0 <= i < |rows| ==>
                nodes[i] == WithEdge(old(nodes[i]), k, Batched(db, old(Value).loads[k], LinkFor(k, rows)))
      decreases Repr, 0
    {
      hide *;
      ChildFacts(db, k);
      var query := loads[k];
      err := Load(db, query, k, nodes, rows);
      Value := Value.(loads := Value.loads[k := query.Value]);
      ChildRan(k);
    }

    lemma OwnFacts()
      requires Valid()
      ensures this in Repr && ctx in Repr && Value.loads.Keys == loads.Keys
      ensures Value == Query(table, predicates, order, ctx.limit, ctx.offset, ctx.fields, Value.loads)
    {
    }

    /** What a builder knows of the builder of one of its eager loads. */
    lemma ChildFacts(db: Database, k: LoadKey)
      requires Valid() && GoodQuery(db.schema, Value) && k in Value.loads && WellFormed(db)
      ensures k in loads && loads[k] in Repr && loads[k].Repr <= Repr && this !in loads[k].Repr && ctx !in loads[k].Repr
      ensures loads[k].Valid() && loads[k].Value == Value.loads[k] && loads[k].table == k.edge.target
      ensures this in Repr && loads.Keys == Value.loads.Keys
      ensures GoodQuery(db.schema, loads[k].Value)
      ensures k.edge.kind.List? ==> db.schema.ValidColumn(loads[k].table, k.edge.column)
    {
      ForeignKeyColumn(db.schema, table, k);
    }

    /** Only the child that ran has changed. */
    twostate lemma ChildRan(k: LoadKey)
      requires old(Valid()) && k in old(loads) && loads == old(loads) && Repr == old(Repr) && ctx == old(ctx)
      requires order == old(order) && predicates == old(predicates)
      requires forall o :: o in old(Repr) && o != this && o !in old(loads[k].Repr) ==> unchanged(o)
      requires loads[k].Valid() && loads[k].Repr == old(loads[k].Repr)
      requires Value == old(Value).(loads := old(Value).loads[k := loads[k].Value])
      ensures Valid()
    {
      forall l | l in loads
        ensures loads[l] in Repr && loads[l].Repr <= Repr && Owns(l, loads[l]) && loads[l].Valid()
        ensures loads[l].Repr == old(loads[l].Repr)
      {
        if l != k {
          assert old(loads[l].Repr) !! old(loads[k].Repr);
          Kept(loads[l]);
        }
      }
    }

    ghost predicate FirstInvalid(s: Schema, i: nat)
      reads this
    {
      && i < |Value.fields| && !s.ValidColumn(table, Value.fields[i])
      && forall f :: f in Value.fields[..i] ==> s.ValidColumn(table, f)
    }

    /** The checks that come before the query: every selected field is a column. */
    method PrepareQuery(s: Schema) returns (err: Option<Error>)
      requires Valid()
      ensures err.None? <==> forall f :: f in Value.fields ==> s.ValidColumn(table, f)
      ensures err.Some? ==> exists i: nat :: FirstInvalid(s, i) && err.value == InvalidField(Value.fields[i])
      ensures err.Some? ==> FirstBad(s, table, Value.fields) == Some(err.value.name)
    {
      for i := 0 to |ctx.fields|
        invariant forall f :: f in ctx.fields[..i] ==> s.ValidColumn(table, f)
      {
        if !s.ValidColumn(table, ctx.fields[i]) {
          assert FirstInvalid(s, i);
          FirstBadAt(s, table, Value.fields, i);
          return Some(InvalidField(ctx.fields[i]));
        }
      }
      return None;
    }

    /** One more eager load: `done` are the keys that were loaded before. */
    method LoadNext(db: Database, k: LoadKey, nodes: array<Tree>, ghost rows: seq<Row>, ghost q: Query,
                    ghost done: set<LoadKey>)
      returns (err: Option<Error>)
      requires WellFormed(db) && Valid() && GoodQuery(db.schema, q) && k in q.loads && k !in done
      requires Value == Progress(db, q, rows, done)
      requires nodes !in Repr && nodes.Length == |rows| && DistinctIds(rows)
      requires forall i :: 0 <= i < |rows| ==> nodes[i] == Joined(rows[i], PlainKeys(q), Loaded(db, q, rows, done))
      modifies nodes, Repr
      ensures Valid() && Repr == old(Repr) && Grown(q, Value)
      ensures err.None? <==> Runs(db, q.loads[k], k, rows)
      ensures err.Some? ==> err.value.InvalidField? && Reports(db, q.loads[k], LinkFor(k, rows), err.value.name)
      ensures err.None? ==> Value == Progress(db, q, rows, done + {k})
      ensures err.None? ==> forall i :: 0 <= i < |rows| ==>
                nodes[i] == Joined(rows[i], PlainKeys(q), Loaded(db, q, rows, done + {k}))
      decreases Repr, 1
    {
      hide *;
      ProgressGood(db, q, rows, done);
      ProgressStep(db, q, rows, done, k);
      forall i | 0 <= i < |rows| {
        JoinStep(rows[i], PlainKeys(q), Loaded(db, q, rows, done), k, Batched(db, q.loads[k], LinkFor(k, rows)));
      }
      err := LoadEdge(db, k, nodes, rows);
      ProgressGrows(db, q, rows, done, k, Value.loads[k]);
    }

    /** The plain eager loads, in the order of the edges. */
    method LoadPlainEdges(db: Database, nodes: array<Tree>, ghost rows: seq<Row>,
                          ghost q: Query) returns (err: Option<Error>)
      requires WellFormed(db) && Valid() && Value == q && GoodQuery(db.schema, q)
      requires nodes !in Repr && nodes.Length == |rows| && DistinctIds(rows)
      requires forall i :: 0 <= i < |rows| ==> nodes[i] == Joined(rows[i], PlainKeys(q), map[])
      modifies nodes, Repr
      ensures Valid() && Repr == old(Repr) && Grown(q, Value)
      ensures err.None? <==> forall k :: k in PlainKeys(q) ==> Runs(db, q.loads[k], k, rows)
      ensures err.Some? ==> err.value.InvalidField? && LoadReports(db, q, rows, err.value.name)
      ensures err.None? ==> Value == Progress(db, q, rows, PlainKeys(q))
      ensures err.None? ==> forall i :: 0 <= i < |rows| ==>
                nodes[i] == Joined(rows[i], PlainKeys(q), Loaded(db, q, rows, PlainKeys(q)))
      decreases Repr, 2
    {
      hide *;
      ghost var done: set<LoadKey> := {};
      OwnFacts();
      PlainKeysAre(db, q);
      ProgressStart(db, q, rows);
      GrownSame(q);
      var edges := db.schema.EdgesOf(table);
      for i := 0 to |edges|
        invariant Valid() && Repr == old(Repr) && Grown(q, Value)
        invariant forall k :: k in done <==> k in PlainKeys(q) && k.edge in edges[..i]
        invariant forall k :: k in done ==> Runs(db, q.loads[k], k, rows)
        invariant Value == Progress(db, q, rows, done)
        invariant forall j :: 0 <= j < |rows| ==> nodes[j] == Joined(rows[j], PlainKeys(q), Loaded(db, q, rows, done))
      {
        OwnFacts();
        ProgressKeys(db, q, rows, done);
        assert edges[..i + 1] == edges[..i] + [edges[i]];
        var k := Plain(edges[i]);
        if k in loads {
          err := LoadNext(db, k, nodes, rows, q, done);
          if err.Some? {
            PlainBlamed(db, q, rows, done, i, k);
            BlamedReports(db, q, rows, k, err.value.name);
            return;
          }
          done := done + {k};
        }
      }
      assert edges[..|edges|] == edges;
      assert done == PlainKeys(q);
      return None;
    }

    /** The named eager loads, in any order. */
    method LoadNamedEdges(db: Database, nodes: array<Tree>, ghost rows: seq<Row>,
                          ghost q: Query) returns (err: Option<Error>)
      requires WellFormed(db) && Valid() && Value == Progress(db, q, rows, PlainKeys(q)) && GoodQuery(db.schema, q)
      requires forall k :: k in PlainKeys(q) ==> Runs(db, q.loads[k], k, rows)
      requires nodes !in Repr && nodes.Length == |rows| && DistinctIds(rows)
      requires forall i :: 0 <= i < |rows| ==>
                 nodes[i] == Joined(rows[i], PlainKeys(q), Loaded(db, q, rows, PlainKeys(q)))
      modifies nodes, Repr
      ensures Valid() && Repr == old(Repr) && Grown(q, Value)
      ensures err.None? <==> forall k :: k in q.loads && k.Named? ==> Runs(db, q.loads[k], k, rows)
      ensures err.Some? ==> err.value.InvalidField? && LoadReports(db, q, rows, err.value.name)
      ensures err.None? ==> Value == Progress(db, q, rows, q.loads.Keys)
      ensures err.None? ==> forall i :: 0 <= i < |rows| ==>
                nodes[i] == Joined(rows[i], PlainKeys(q), Neighbours(db, q, rows))
      decreases Repr, 2
    {
      hide *;
      OwnFacts();
      PlainKeysAre(db, q);
      ProgressKeys(db, q, rows, PlainKeys(q));
      ProgressGrown(db, q, rows, PlainKeys(q));
      ghost var done := PlainKeys(q);
      var todo := set k | k in loads && k.Named?;
      while todo != {}
        invariant Valid() && Repr == old(Repr) && Grown(q, Value)
        invariant done == q.loads.Keys - todo && todo <= q.loads.Keys
        invariant forall k :: k in done && k.Named? ==> Runs(db, q.loads[k], k, rows)
        invariant forall k :: k in todo ==> k.Named?
        invariant Value == Progress(db, q, rows, done)
        invariant forall j :: 0 <= j < |rows| ==> nodes[j] == Joined(rows[j], PlainKeys(q), Loaded(db, q, rows, done))
        decreases todo
      {
        var k :| k in todo;
        err := LoadNext(db, k, nodes, rows, q, done);
        if err.Some? {
          NamedBlamed(db, q, rows, k);
          BlamedReports(db, q, rows, k, err.value.name);
          return;
        }
        done, todo := done + {k}, todo - {k};
      }
      assert done == q.loads.Keys;
      AllLoaded(db, q, rows);
      return None;
    }

    method LoadEdges(db: Database, nodes: array<Tree>, ghost rows: seq<Row>) returns (err: Option<Error>)
      requires WellFormed(db) && Valid() && GoodQuery(db.schema, Value)
      requires nodes !in Repr && nodes.Length == |rows| && DistinctIds(rows)
      requires forall i :: 0 <= i < |rows| ==> nodes[i] == Joined(rows[i], PlainKeys(Value), map[])
      modifies nodes, Repr
      ensures Valid() && Repr == old(Repr) && Grown(old(Value), Value)
      ensures err.None? <==> forall k :: k in old(Value).loads ==> Runs(db, old(Value).loads[k], k, rows)
      ensures err.Some? ==> err.value.InvalidField? && LoadReports(db, old(Value), rows, err.value.name)
      ensures err.None? ==> Value == Progress(db, old(Value), rows, old(Value).loads.Keys)
      ensures err.None? ==> forall i :: 0 <= i < |rows| ==>
                nodes[i] == Joined(rows[i], PlainKeys(old(Value)), Neighbours(db, old(Value), rows))
      decreases Repr, 3
    {
      hide *;
      ghost var q := Value;
      PlainKeysAre(db, q);
      err := LoadPlainEdges(db, nodes, rows, q);
      if err.None? {
        err := LoadNamedEdges(db, nodes, rows, q);
      }
    }

    method All(db: Database) returns (r: Result<seq<Tree>>)
      requires Valid() && WellFormed(db) && GoodQuery(db.schema, Value)
      modifies Repr
      ensures Valid() && Repr == old(Repr) && Grown(old(Value), Value)
      ensures r.Ok? <==> Succeeds(db, old(Value), Top)
      ensures r.Ok? ==> r.value == Batched(db, old(Value), Top) && Value == After(db, old(Value), Top)
      ensures r.Err? ==> r.error.InvalidField? && Reports(db, old(Value), Top, r.error.name)
      decreases Repr, 4
    {
      hide *;
      ghost var q := Value;
      OwnFacts();
      GrownSame(q);
      RunFacts(db, q, NodesOf(db, q, Top));
      RowsFacts(db, q);
      ReportsFacts(db, q, NodesOf(db, q, Top));
      var invalid := PrepareQuery(db.schema);
      if invalid.Some? {
        return Err(invalid.value);
      }
      var spec := QuerySpec(db.schema);
      var rows := QueryNodes(db, spec);
      if |rows| == 0 {
        return Ok([]);
      }
      var loadedTypes := set k | k in loads && k.Plain?;
      var nodes := new Tree[|rows|](i requires 0 <= i < |rows| => Tree(rows[i], loadedTypes, map[], map[]));
      var err := LoadEdges(db, nodes, rows);
      if err.Some? {
        return Err(err.value);
      }
      return Ok(nodes[..]);
    }

    /** The first node; the builder keeps the limit of one. */
    method First(db: Database) returns (r: Result<Tree>)
      requires Valid() && WellFormed(db) && GoodQuery(db.schema, Value)
      modifies Repr
      ensures Valid() && Repr == old(Repr) && Grown(old(Value).(limit := Some(1)), Value)
      ensures var q := old(Value).(limit := Some(1));
              && (r.Err? && r.error.InvalidField? <==> !Succeeds(db, q, Top))
              && (r.Err? && r.error.InvalidField? ==> Reports(db, q, Top, r.error.name))
              && (Succeeds(db, q, Top) ==> r == FirstOf(Batched(db, q, Top)) && Value == After(db, q, Top))
              && (Succeeds(db, q, Top) ==>
                    var ts := Batched(db, q, Top);
                    if ts == [] then r == Err(NotFound) else r == Ok(ts[0]))
    {
      Limit(1);
      var nodes := All(db);
      if nodes.Err? {
        return Err(nodes.error);
      }
      if |nodes.value| == 0 {
        return Err(NotFound);
      }
      return Ok(nodes.value[0]);
    }

    /** The one node; the builder keeps the limit of two. */
    method Only(db: Database) returns (r: Result<Tree>)
      requires Valid() && WellFormed(db) && GoodQuery(db.schema, Value)
      modifies Repr
      ensures Valid() && Repr == old(Repr) && Grown(old(Value).(limit := Some(2)), Value)
      ensures var q := old(Value).(limit := Some(2));
              && (r.Err? && r.error.InvalidField? <==> !Succeeds(db, q, Top))
              && (r.Err? && r.error.InvalidField? ==> Reports(db, q, Top, r.error.name))
              && (Succeeds(db, q, Top) ==> r == OnlyOf(Batched(db, q, Top)) && Value == After(db, q, Top))
              && (Succeeds(db, q, Top) ==>
                    var ts := Batched(db, q, Top);
                    && (|ts| == 1 <==> r.Ok?) && (|ts| == 1 ==> r.value == ts[0])
                    && (ts == [] <==> r == Err(NotFound)) && (|ts| > 1 <==> r == Err(NotSingular)))
    {
      Limit(2);
      var nodes := All(db);
      if nodes.Err? {
        return Err(nodes.error);
      }
      match |nodes.value| {
        case 1 => return Ok(nodes.value[0]);
        case 0 => return Err(NotFound);
        case _ => return Err(NotSingular);
      }
    }
  }

  function FirstOf(ts: seq<Tree>): Result<Tree> {
    if ts == [] then Err(NotFound) else Ok(ts[0])
  }

  function OnlyOf(ts: seq<Tree>): Result<Tree> {
    if ts == [] then Err(NotFound) else if |ts| == 1 then Ok(ts[0]) else Err(NotSingular)
  }

  // ----- Loaders --------------------------------------------------------------

  /** The last node with its ID: the one that a list loader's map keeps. */
  ghost predicate LastOf(rows: seq<Row>, i: nat)
    requires i < |rows|
  {
    forall j :: i < j < |rows| ==> IdOf(rows[j]) != IdOf(rows[i])
  }

  /** What a list loader hands to each node. Should two nodes carry the same ID,
      the last one gets every neighbour and the others get none. */
  ghost function ListFor(rows: seq<Row>, i: nat, ts: seq<Tree>, c: Column): seq<Tree>
    requires i < |rows|
  {
    if LastOf(rows, i) then Referring(ts, c, IdOf(rows[i])) else []
  }

  lemma ListForAppend(rows: seq<Row>, p: nat, ts: seq<Tree>, t: Tree, c: Column)
    requires p < |rows| && LastOf(rows, p) && Fk(t.row, c) == Some(IdOf(rows[p]))
    ensures forall i :: 0 <= i < |rows| ==>
              ListFor(rows, i, ts + [t], c) ==
                (if i == p then ListFor(rows, i, ts, c) + [t] else ListFor(rows, i, ts, c))
  {
    forall i | 0 <= i < |rows| {
      FilterAppend(ts, t, RefersTo(c, IdOf(rows[i])));
    }
  }

  method LinkAndRun(db: Database, query: QueryBuilder, k: LoadKey, ids: seq<int>) returns (r: Result<seq<Tree>>)
    requires WellFormed(db) && query.Valid() && GoodQuery(db.schema, query.Value)
    requires k.edge.kind.List? ==> db.schema.ValidColumn(query.table, k.edge.column)
    modifies query.Repr
    ensures query.Valid() && query.Repr == old(query.Repr) && Grown(old(query.Value), query.Value)
    ensures var link := if k.edge.kind.List? then ByForeignKey(k.edge.column, ids) else ById(ids);
            && (r.Ok? <==> Succeeds(db, old(query.Value), link))
            && (r.Ok? ==>
                 && r.value == Batched(db, old(query.Value), link)
                 && query.Value == After(db, old(query.Value), link))
            && (r.Err? ==> r.error.InvalidField? && Reports(db, old(query.Value), link, r.error.name))
    decreases query.Repr, 5
  {
    hide *;
    ghost var link := if k.edge.kind.List? then ByForeignKey(k.edge.column, ids) else ById(ids);
    ghost var q := query.Value;
    query.OwnFacts();
    AttachedRun(db, q, link);
    AttachedSucceeds(db, q, link);
    AttachedIs(q, k, ids);
    GrownSame(q);
    AttachedGood(db.schema, q, link);
    if k.edge.kind.List? {
      if |query.ctx.fields| > 0 {
        query.AppendFieldOnce(k.edge.column);
        query.OwnFacts();
      }
      query.Where([InInts(k.edge.column, ids)]);
    } else {
      query.Where([InInts(ID, ids)]);
    }
    r := query.All(db);
    AttachedGrows(q, link, query.Value);
    if r.Err? {
      AttachedReports(db, q, link, r.error.name);
    }
  }

  lemma AttachedIs(q: Query, k: LoadKey, ids: seq<int>)
    ensures Attach(q, ById(ids)) == q.(predicates := q.predicates + [InInts(ID, ids)])
    ensures var fields := if |q.fields| > 0 then AddOnce(q.fields, k.edge.column) else q.fields;
            Attach(q, ByForeignKey(k.edge.column, ids)) ==
              q.(fields := fields, predicates := q.predicates + [InInts(k.edge.column, ids)])
  {
  }

  lemma AttachedGood(s: Schema, q: Query, link: Link)
    requires GoodQuery(s, q)
    ensures GoodQuery(s, Attach(q, link))
  {
  }

  /** The index of the nodes by ID: a later node with the same ID wins. */
  ghost predicate IndexesIds(nodeids: map<int, nat>, rows: seq<Row>, n: nat)
    requires n <= |rows|
  {
    && (forall j :: 0 <= j < n ==> IdOf(rows[j]) in nodeids)
    && (forall v :: v in nodeids ==> nodeids[v] < n && IdOf(rows[nodeids[v]]) == v)
    && (forall v, j :: v in nodeids && nodeids[v] < j < n ==> IdOf(rows[j]) != v)
  }

  lemma OneMoreId(nodeids: map<int, nat>, rows: seq<Row>, i: nat)
    ensures IndexesIds(map[], rows, 0)
    ensures i < |rows| && IndexesIds(nodeids, rows, i) ==> IndexesIds(nodeids[IdOf(rows[i]) := i], rows, i + 1)
  {
  }

  method InitLists(k: LoadKey, nodes: array<Tree>, ghost rows: seq<Row>) returns (fks: seq<int>, nodeids: map<int, nat>)
    requires nodes.Length == |rows| && forall i :: 0 <= i < |rows| ==> nodes[i].row == rows[i]
    modifies nodes
    ensures fks == Ids(rows) && IndexesIds(nodeids, rows, |rows|)
    ensures forall i :: 0 <= i < |rows| ==> nodes[i] == WithList(old(nodes[i]), k, [])
  {
    hide IndexesIds, WithList;
    fks, nodeids := [], map[];
    OneMoreId(nodeids, rows, 0);
    for i := 0 to nodes.Length
      invariant fks == Ids(rows)[..i] && IndexesIds(nodeids, rows, i)
      invariant forall j :: 0 <= j < nodes.Length ==>
                  nodes[j] == if j < i then WithList(old(nodes[j]), k, []) else old(nodes[j])
    {
      OneMoreId(nodeids, rows, i);
      fks := fks + [IdOf(nodes[i].row)];
      nodeids := nodeids[IdOf(nodes[i].row) := i];
      nodes[i] := WithList(nodes[i], k, []);
    }
  }

  lemma WithListTwice(t: Tree, k: LoadKey, a: seq<Tree>, b: seq<Tree>)
    ensures WithList(WithList(t, k, a), k, b) == WithList(t, k, b)
  {
    assert t.many[k := a][k := b] == t.many[k := b];
  }

  ghost predicate RefersToOneOf(n: Tree, k: LoadKey, rows: seq<Row>) {
    Fk(n.row, k.edge.column).Some? && Fk(n.row, k.edge.column).value in Ids(rows)
  }

  /** The neighbour that stops a list loader, and the error it stops with. */
  ghost predicate StopsLists(err: Error, k: LoadKey, neighbours: seq<Tree>, j: nat, rows: seq<Row>) {
    && j < |neighbours| && !RefersToOneOf(neighbours[j], k, rows)
    && (forall n :: n in neighbours[..j] ==> RefersToOneOf(n, k, rows))
    && var n := neighbours[j].row;
       err == if Fk(n, k.edge.column).None? then NilForeignKey(IdOf(n))
           else UnexpectedForeignKey(Fk(n, k.edge.column).value)
  }

  method AssignLists(k: LoadKey, nodes: array<Tree>, neighbours: seq<Tree>, nodeids: map<int, nat>,
                     ghost rows: seq<Row>, ghost was: seq<Tree>)
    returns (err: Option<Error>)
    requires nodes.Length == |rows| == |was| && IndexesIds(nodeids, rows, |rows|)
    requires forall i :: 0 <= i < |rows| ==> nodes[i] == WithList(was[i], k, [])
    modifies nodes
    ensures err.None? <==> forall n :: n in neighbours ==> RefersToOneOf(n, k, rows)
    ensures err.Some? ==> exists j: nat :: StopsLists(err.value, k, neighbours, j, rows)
    ensures err.None? ==> forall i :: 0 <= i < |rows| ==>
              nodes[i] == WithList(was[i], k, ListFor(rows, i, neighbours, k.edge.column))
  {
    assert neighbours[..|neighbours|] == neighbours;
    for j := 0 to |neighbours|
      invariant forall n :: n in neighbours[..j] ==> RefersToOneOf(n, k, rows)
      invariant forall i :: 0 <= i < |rows| ==>
                  nodes[i] == WithList(was[i], k, ListFor(rows, i, neighbours[..j], k.edge.column))
    {
      var n := neighbours[j];
      var fk := Fk(n.row, k.edge.column);
      if fk == None {
        assert !RefersToOneOf(n, k, rows);
        assert StopsLists(NilForeignKey(IdOf(n.row)), k, neighbours, j, rows);
        return Some(NilForeignKey(IdOf(n.row)));
      }
      if fk.value !in nodeids {
        assert !RefersToOneOf(n, k, rows);
        assert StopsLists(UnexpectedForeignKey(fk.value), k, neighbours, j, rows);
        return Some(UnexpectedForeignKey(fk.value));
      }
      var p := nodeids[fk.value];
      assert Ids(rows)[p] == fk.value;
      WithListTwice(was[p], k, nodes[p].many[k], nodes[p].many[k] + [n]);
      nodes[p] := WithList(nodes[p], k, nodes[p].many[k] + [n]);
      ListForAppend(rows, p, neighbours[..j], n, k.edge.column);
      assert neighbours[..j + 1] == neighbours[..j] + [n];
    }
    return None;
  }

  lemma ListForDistinct(rows: seq<Row>, ts: seq<Tree>, c: Column)
    requires DistinctIds(rows)
    ensures ListsRight(rows, ts, c)
  {
  }

  /** Every node is handed the neighbours that refer to its ID. */
  ghost predicate ListsRight(rows: seq<Row>, ts: seq<Tree>, c: Column) {
    forall i :: 0 <= i < |rows| ==> ListFor(rows, i, ts, c) == Referring(ts, c, IdOf(rows[i]))
  }

  /** A list loader hands every node its own neighbours, whatever they are, if and
      only if no two nodes carry the same ID. */
  lemma ListsRightExactly(rows: seq<Row>, c: Column)
    ensures (forall ts :: ListsRight(rows, ts, c)) <==> DistinctIds(rows)
  {
    if DistinctIds(rows) {
      forall ts ensures ListsRight(rows, ts, c) {
        ListForDistinct(rows, ts, c);
      }
    } else {
      var i, j :| 0 <= i < j < |rows| && IdOf(rows[i]) == IdOf(rows[j]);
      var t := Tree(map[c := Int(IdOf(rows[i]))], {}, map[], map[]);
      assert Filter([t], RefersTo(c, IdOf(rows[i])))[0] == t;
      assert ListFor(rows, i, [t], c) == [];
      assert !ListsRight(rows, [t], c);
    }
  }

  method LoadList(db: Database, query: QueryBuilder, k: LoadKey, nodes: array<Tree>, ghost rows: seq<Row>)
    returns (err: Option<Error>)
    requires WellFormed(db) && k.edge.kind.List? && query.Valid() && GoodQuery(db.schema, query.Value)
    requires db.schema.ValidColumn(query.table, k.edge.column)
    requires nodes !in query.Repr && nodes.Length == |rows|
    requires forall i :: 0 <= i < |rows| ==> nodes[i].row == rows[i]
    modifies nodes, query.Repr
    ensures query.Valid() && query.Repr == old(query.Repr) && Grown(old(query.Value), query.Value)
    ensures err.None? <==> Runs(db, old(query.Value), k, rows)
    ensures err.Some? ==> err.value.InvalidField? && Reports(db, old(query.Value), LinkFor(k, rows), err.value.name)
    ensures err.None? ==> query.Value == Ran(db, old(query.Value), k, rows)
    ensures err.None? ==> forall i :: 0 <= i < |rows| ==>
              nodes[i] == WithList(old(nodes[i]), k,
                  ListFor(rows, i, Batched(db, old(query.Value), LinkFor(k, rows)), k.edge.column))
    decreases query.Repr, 6
  {
    hide Batched, After, Succeeds, NodesOf, ListFor, Grown, GoodQuery, WellFormed;
    ghost var q, was := query.Value, nodes[..];
    var fks, nodeids := InitLists(k, nodes, rows);
    var found := LinkAndRun(db, query, k, fks);
    if found.Err? {
      return Some(found.error);
    }
    forall i | 0 <= i < |found.value|
      ensures RefersToOneOf(found.value[i], k, rows)
    {
      LinkedTrees(db, q, LinkFor(k, rows), i);
    }
    err := AssignLists(k, nodes, found.value, nodeids, rows, was);
  }

  /** The nodes that refer to `v`, by position. */
  ghost function Positions(rows: seq<Row>, c: Column, v: int, n: nat): (ps: seq<nat>)
    requires n <= |rows|
    ensures forall g :: 0 <= g < |ps| ==> ps[g] < n && Fk(rows[ps[g]], c) == Some(v)
    ensures forall i :: 0 <= i < n && Fk(rows[i], c) == Some(v) ==> i in ps
  {
    if n == 0 then []
    else if Fk(rows[n - 1], c) == Some(v) then Positions(rows, c, v, n - 1) + [n - 1]
    else Positions(rows, c, v, n - 1)
  }

  ghost predicate Groups(nodeids: map<int, seq<nat>>, c: Column, rows: seq<Row>, n: nat)
    requires n <= |rows|
  {
    forall v :: if v in nodeids then nodeids[v] == Positions(rows, c, v, n) != [] else Positions(rows, c, v, n) == []
  }

  lemma {:induction false} PositionsKeys(rows: seq<Row>, c: Column, v: int, n: nat)
    requires n <= |rows|
    ensures Positions(rows, c, v, n) != [] <==> v in ForeignKeys(rows[..n], c)
  {
    ForeignKeysExact(rows[..n], c);
    if Positions(rows, c, v, n) != [] {
      assert rows[..n][Positions(rows, c, v, n)[0]] in rows[..n];
    }
  }

  method GroupNodes(k: LoadKey, nodes: array<Tree>, ghost rows: seq<Row>)
    returns (ids: seq<int>, nodeids: map<int, seq<nat>>)
    requires nodes.Length == |rows| && forall i :: 0 <= i < |rows| ==> nodes[i].row == rows[i]
    ensures ids == ForeignKeys(rows, k.edge.column) && Groups(nodeids, k.edge.column, rows, |rows|)
  {
    ids, nodeids := [], map[];
    for i := 0 to nodes.Length
      invariant ids == ForeignKeys(rows[..i], k.edge.column)
      invariant Groups(nodeids, k.edge.column, rows, i)
    {
      assert rows[..i + 1][..i] == rows[..i];
      var fk := Fk(nodes[i].row, k.edge.column);
      if fk == None {
        continue;
      }
      PositionsKeys(rows, k.edge.column, fk.value, i);
      if fk.value !in nodeids {
        ids := ids + [fk.value];
        nodeids := nodeids[fk.value := [i]];
      } else {
        nodeids := nodeids[fk.value := nodeids[fk.value] + [i]];
      }
    }
    assert rows[..|rows|] == rows;
  }

  lemma WithOneTwice(t: Tree, k: LoadKey, a: Option<Tree>, b: Tree)
    ensures WithOne(WithOne(t, k, a), k, Some(b)) == WithOne(t, k, Some(b))
  {
    if a.Some? {
      assert t.one[k := a.value][k := b] == t.one[k := b];
    }
  }

  lemma LastWithIdAppend(ts: seq<Tree>, t: Tree, id: int)
    ensures LastWithId(ts + [t], id) == if IdOf(t.row) == id then Some(t) else LastWithId(ts, id)
  {
    assert (ts + [t])[..|ts|] == ts;
  }

  lemma NeighbourAppend(rows: seq<Row>, k: LoadKey, ts: seq<Tree>, t: Tree)
    ensures forall i :: 0 <= i < |rows| ==>
              Neighbour(rows[i], k, ts + [t]) ==
              (if i in Positions(rows, k.edge.column, IdOf(t.row), |rows|) then Some(t) else Neighbour(rows[i], k, ts))
  {
    forall i | 0 <= i < |rows| && Fk(rows[i], k.edge.column).Some? {
      LastWithIdAppend(ts, t, Fk(rows[i], k.edge.column).value);
    }
  }

  /** Gives one more neighbour to every node of its group. */
  method AssignGroup(k: LoadKey, nodes: array<Tree>, group: seq<nat>, n: Tree,
                     ghost rows: seq<Row>, ghost was: seq<Tree>, ghost ts: seq<Tree>)
    requires nodes.Length == |was| == |rows| && group == Positions(rows, k.edge.column, IdOf(n.row), |rows|)
    requires forall i :: 0 <= i < |rows| ==> nodes[i] == WithOne(was[i], k, Neighbour(rows[i], k, ts))
    modifies nodes
    ensures forall i :: 0 <= i < |rows| ==> nodes[i] == WithOne(was[i], k, Neighbour(rows[i], k, ts + [n]))
  {
    hide *;
    assert group[..|group|] == group;
    for g := 0 to |group|
      invariant forall i :: 0 <= i < |rows| ==>
                  nodes[i] == WithOne(was[i], k, if i in group[..g] then Some(n) else Neighbour(rows[i], k, ts))
    {
      var p := group[g];
      assert group[..g + 1] == group[..g] + [p];
      WithOneTwice(was[p], k, if p in group[..g] then Some(n) else Neighbour(rows[p], k, ts), n);
      nodes[p] := WithOne(nodes[p], k, Some(n));
    }
    NeighbourAppend(rows, k, ts, n);
  }

  method AssignUnique(k: LoadKey, nodes: array<Tree>, neighbours: seq<Tree>, nodeids: map<int, seq<nat>>,
                      ghost rows: seq<Row>, ghost was: seq<Tree>)
    returns (err: Option<Error>)
    requires nodes.Length == |rows| == |was| && Groups(nodeids, k.edge.column, rows, |rows|)
    requires forall i :: 0 <= i < |rows| ==> nodes[i] == was[i]
    modifies nodes
    ensures err.None? <==> forall n :: n in neighbours ==> IdOf(n.row) in ForeignKeys(rows, k.edge.column)
    ensures err.Some? ==> exists n :: n in neighbours && IdOf(n.row) !in ForeignKeys(rows, k.edge.column)
                                      && err.value == UnexpectedForeignKey(IdOf(n.row))
    ensures err.None? ==> forall i :: 0 <= i < |rows| ==>
              nodes[i] == WithOne(was[i], k, Neighbour(rows[i], k, neighbours))
  {
    assert rows[..|rows|] == rows;
    assert neighbours[..|neighbours|] == neighbours;
    for j := 0 to |neighbours|
      invariant forall n :: n in neighbours[..j] ==> IdOf(n.row) in ForeignKeys(rows, k.edge.column)
      invariant forall i :: 0 <= i < |rows| ==> nodes[i] == WithOne(was[i], k, Neighbour(rows[i], k, neighbours[..j]))
    {
      var n := neighbours[j];
      PositionsKeys(rows, k.edge.column, IdOf(n.row), |rows|);
      if IdOf(n.row) !in nodeids {
        return Some(UnexpectedForeignKey(IdOf(n.row)));
      }
      AssignGroup(k, nodes, nodeids[IdOf(n.row)], n, rows, was, neighbours[..j]);
      assert neighbours[..j + 1] == neighbours[..j] + [n];
    }
    return None;
  }

  lemma NothingSkipped(rows: seq<Row>, k: LoadKey, ts: seq<Tree>)
    requires Skipped(k, rows)
    ensures forall i :: 0 <= i < |rows| ==> Neighbour(rows[i], k, ts) == None
  {
    ForeignKeysExact(rows, k.edge.column);
  }

  method LoadUnique(db: Database, query: QueryBuilder, k: LoadKey, nodes: array<Tree>, ghost rows: seq<Row>)
    returns (err: Option<Error>)
    requires WellFormed(db) && k.edge.kind.Unique? && query.Valid() && GoodQuery(db.schema, query.Value)
    requires nodes !in query.Repr && nodes.Length == |rows|
    requires forall i :: 0 <= i < |rows| ==> nodes[i].row == rows[i]
    modifies nodes, query.Repr
    ensures query.Valid() && query.Repr == old(query.Repr) && Grown(old(query.Value), query.Value)
    ensures err.None? <==> Runs(db, old(query.Value), k, rows)
    ensures err.Some? ==> err.value.InvalidField? && Reports(db, old(query.Value), LinkFor(k, rows), err.value.name)
    ensures err.None? ==> query.Value == Ran(db, old(query.Value), k, rows)
    ensures err.None? ==> forall i :: 0 <= i < |rows| ==>
              nodes[i] == WithOne(old(nodes[i]), k,
                  Neighbour(rows[i], k, Batched(db, old(query.Value), LinkFor(k, rows))))
    decreases query.Repr, 6
  {
    hide Batched, After, Succeeds, NodesOf, Groups, ForeignKeys, Neighbour, Grown, GoodQuery, WellFormed;
    ghost var q, was := query.Value, nodes[..];
    var ids, nodeids := GroupNodes(k, nodes, rows);
    if |ids| == 0 {
      GrownSame(q);
      NothingSkipped(rows, k, Batched(db, q, LinkFor(k, rows)));
      return None;
    }
    var found := LinkAndRun(db, query, k, ids);
    if found.Err? {
      return Some(found.error);
    }
    forall i | 0 <= i < |found.value| ensures IdOf(found.value[i].row) in ids {
      LinkedTrees(db, q, LinkFor(k, rows), i);
    }
    err := AssignUnique(k, nodes, found.value, nodeids, rows, was);
  }

  method Load(db: Database, query: QueryBuilder, k: LoadKey, nodes: array<Tree>, ghost rows: seq<Row>)
    returns (err: Option<Error>)
    requires WellFormed(db) && query.Valid() && GoodQuery(db.schema, query.Value)
    requires k.edge.kind.List? ==> db.schema.ValidColumn(query.table, k.edge.column)
    requires nodes !in query.Repr && nodes.Length == |rows| && DistinctIds(rows)
    requires forall i :: 0 <= i < |rows| ==> nodes[i].row == rows[i]
    modifies nodes, query.Repr
    ensures query.Valid() && query.Repr == old(query.Repr) && Grown(old(query.Value), query.Value)
    ensures err.None? <==> Runs(db, old(query.Value), k, rows)
    ensures err.Some? ==> err.value.InvalidField? && Reports(db, old(query.Value), LinkFor(k, rows), err.value.name)
    ensures err.None? ==> query.Value == Ran(db, old(query.Value), k, rows)
    ensures err.None? ==> forall i :: 0 <= i < |rows| ==>
              nodes[i] == WithEdge(old(nodes[i]), k, Batched(db, old(query.Value), LinkFor(k, rows)))
    decreases query.Repr, 7
  {
    if k.edge.kind.List? {
      ListForDistinct(rows, Batched(db, query.Value, LinkFor(k, rows)), k.edge.column);
      err := LoadList(db, query, k, nodes, rows);
    } else {
      err := LoadUnique(db, query, k, nodes, rows);
    }
  }
}
