/**
 Running the same builder tree again. A run leaves one more `IN` predicate and
 perhaps a forced column in every child builder that it reached; none of that
 changes what the next run on the same database returns.
 */
module Rerun {
  import opened Storage
  import opened Query

  lemma AttachTwiceHolds(db: Database, q: Query, link: Link, r: Row)
    ensures AllHold(Attach(Attach(q, link), link).predicates, db, r) <==> AllHold(Attach(q, link).predicates, db, r)
  {
    var once, twice := Attach(q, link).predicates, Attach(Attach(q, link), link).predicates;
    if !link.Top? {
      assert twice[..|once|] == once && twice[|once|] == once[|q.predicates|];
      if AllHold(twice, db, r) {
        forall i | 0 <= i < |once| ensures once[i].Holds(db, r) {
          assert twice[i] == once[i];
        }
      }
    }
  }

  /** Linking a child twice selects the same nodes, with the same columns. */
  lemma AttachTwice(db: Database, q: Query, q': Query, link: Link)
    requires q'.loads.Keys == q.loads.Keys && q'.(loads := q.loads) == Attach(q, link)
    ensures NodesOf(db, q', link) == NodesOf(db, q, link)
  {
    var once, twice := Attach(q, link), Attach(q', link);
    var arranged := Arrange(db, q.order, db.Rows(q.table));
    forall r | r in arranged ensures Satisfying(db, twice.predicates)(r) == Satisfying(db, once.predicates)(r) {
      AttachTwiceHolds(db, q, link, r);
    }
    FilterAgree(arranged, Satisfying(db, twice.predicates), Satisfying(db, once.predicates));
    assert twice.fields == once.fields;
    assert NodeColumns(db.schema, twice) == NodeColumns(db.schema, once);
  }

  lemma RunKeepsNodes(db: Database, q: Query, link: Link)
    ensures After(db, q, link).loads.Keys == q.loads.Keys && PlainKeys(After(db, q, link)) == PlainKeys(q)
    ensures NodesOf(db, After(db, q, link), link) == NodesOf(db, q, link)
  {
    hide NodesOf, Matching;
    assert After(db, q, link).loads.Keys == q.loads.Keys;
    AttachTwice(db, q, After(db, q, link), link);
  }

  /** Main theorem: after a run, a builder tree still means the same. */
  lemma {:induction false} RunKeepsMeaning(db: Database, q: Query, link: Link)
    ensures Batched(db, After(db, q, link), link) == Batched(db, q, link)
    decreases q
  {
    hide NodesOf, Matching, JoinAll, LinkFor;
    var q', rows := After(db, q, link), NodesOf(db, q, link);
    RunKeepsNodes(db, q, link);
    if rows == [] {
    } else {
      forall k | k in q.loads
        ensures Batched(db, q'.loads[k], LinkFor(k, rows)) == Batched(db, q.loads[k], LinkFor(k, rows))
      {
        RunKeepsMeaning(db, q.loads[k], LinkFor(k, rows));
      }
      MapsEqual(Neighbours(db, q', rows), Neighbours(db, q, rows));
    }
  }

  /** A run that succeeded succeeds again. */
  lemma {:induction false} RunKeepsSuccess(db: Database, q: Query, link: Link)
    requires db.schema.Valid() && GoodQuery(db.schema, q) && Succeeds(db, q, link)
    requires link.ByForeignKey? ==> db.schema.ValidColumn(q.table, link.column)
    ensures Succeeds(db, After(db, q, link), link)
    decreases q
  {
    hide NodesOf, Matching;
    var q', rows := After(db, q, link), NodesOf(db, q, link);
    RunKeepsNodes(db, q, link);
    if rows == [] {
    } else {
      forall k | k in q.loads ensures Runs(db, q'.loads[k], k, rows) {
        assert Runs(db, q.loads[k], k, rows);
        if !Skipped(k, rows) {
          RunKeepsSuccess(db, q.loads[k], LinkFor(k, rows));
        }
      }
    }
  }

  /** Two builder trees that differ in their predicates only. */
  ghost predicate SameFields(q: Query, q': Query)
    decreases q
  {
    && q'.table == q.table && q'.order == q.order && q'.limit == q.limit && q'.offset == q.offset
        && q'.fields == q.fields
    && q'.loads.Keys == q.loads.Keys
    && forall k :: k in q.loads ==> SameFields(q.loads[k], q'.loads[k])
  }

  lemma {:induction false} SameFieldsSame(q: Query)
    ensures SameFields(q, q)
    decreases q
  {
    forall k | k in q.loads ensures SameFields(q.loads[k], q.loads[k]) {
      SameFieldsSame(q.loads[k]);
    }
  }

  lemma AfterChild(db: Database, q: Query, link: Link, k: LoadKey)
    requires k in q.loads
    ensures k in After(db, q, link).loads
    ensures var rows := NodesOf(db, q, link);
            After(db, q, link).loads[k] ==
              if rows == [] || Skipped(k, rows) then q.loads[k] else After(db, q.loads[k], LinkFor(k, rows))
  {
  }

  /** The selected fields stop growing after the first run, at every depth. */
  lemma {:induction false} FieldsSettle(db: Database, q: Query, link: Link)
    ensures SameFields(After(db, q, link), After(db, After(db, q, link), link))
    decreases q
  {
    hide NodesOf, Matching;
    var q', rows := After(db, q, link), NodesOf(db, q, link);
    RunKeepsNodes(db, q, link);
    var q'' := After(db, q', link);
    forall k | k in q'.loads ensures k in q''.loads && SameFields(q'.loads[k], q''.loads[k]) {
      AfterChild(db, q, link, k);
      AfterChild(db, q', link, k);
      if rows == [] || Skipped(k, rows) {
        SameFieldsSame(q.loads[k]);
      } else {
        FieldsSettle(db, q.loads[k], LinkFor(k, rows));
      }
    }
    assert q''.loads.Keys == q'.loads.Keys;
  }

  /** The builder tree after any number of runs. */
  function AfterRuns(db: Database, q: Query, n: nat): Query {
    if n == 0 then q else After(db, AfterRuns(db, q, n - 1), Top)
  }

  lemma OneMoreRun(db: Database, q: Query, n: nat)
    ensures AfterRuns(db, q, 0) == q && AfterRuns(db, q, n + 1) == After(db, AfterRuns(db, q, n), Top)
  {
  }

  lemma {:induction false} RunsStable(db: Database, q: Query, n: nat)
    ensures Batched(db, AfterRuns(db, q, n), Top) == Batched(db, q, Top)
    ensures n >= 1 ==> SameFields(AfterRuns(db, q, n), AfterRuns(db, q, n + 1))
  {
    hide *;
    OneMoreRun(db, q, n);
    if n == 0 {
    } else {
      OneMoreRun(db, q, n - 1);
      RunsStable(db, q, n - 1);
      RunKeepsMeaning(db, AfterRuns(db, q, n - 1), Top);
      FieldsSettle(db, AfterRuns(db, q, n - 1), Top);
    }
  }
}
