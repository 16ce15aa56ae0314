/**
 Which selections field collection answers. The builder of an edge is the one that
 the last field naming the edge compiles to; `Answers` says of a selection alone
 whether that builder carries what the earlier fields asked for, and `CompileExact`
 that this is exactly when the resolvers read the right values.
 */
module Collecting {
  import opened Storage
  import opened Query
  import opened NestedLoops
  import opened Extents
  import opened Selection
  import opened Readback

  // ----- Compiled builders ----------------------------------------------------

  lemma {:induction false} CompileGood(s: Schema, t: Table, sel: seq<Field>)
    requires s.Valid()
    ensures GoodQuery(s, Compile(s, t, sel)) && PlainLoads(Compile(s, t, sel))
    decreases sel
  {
    hide Classify;
    var q := Compile(s, t, sel);
    forall k | k in q.loads
      ensures GoodKey(s, t, k) && q.loads[k].table == k.edge.target && GoodQuery(s, q.loads[k])
      ensures IsPlain(q.loads[k]) && PlainLoads(q.loads[k])
    {
      CollectedLoad(s, t, sel, k);
      var f := LastFor(s, t, sel, k).value;
      CasesOf(s, t, f);
      ClassifiedEdge(s, t, f.name);
      CompileGood(s, k.edge.target, f.sub);
    }
  }

  // ----- Which selections a selection answers ---------------------------------

  /** The nodes of the builder that `given` compiles to have the column: it is the ID, a
      column that the join forces, one that a field gives, or all are selected
      because of an unknown field. */
  ghost predicate Selects(s: Schema, t: Table, given: seq<Field>, force: Option<Column>, c: Column) {
    c == ID || force == Some(c) || SomeGives(s, t, given, c) || SomeUnknown(s, t, given)
  }

  /** The builder that `given` compiles to carries what `sel` asks for. */
  ghost predicate Answers(s: Schema, t: Table, given: seq<Field>, force: Option<Column>, sel: seq<Field>)
    decreases sel, 0
  {
    forall i :: 0 <= i < |sel| ==> AnswersField(s, t, given, force, sel[i])
  }

  /** An edge is answered by the last field that sets the same load, whose own
      selection has to answer the field's. */
  ghost predicate AnswersField(s: Schema, t: Table, given: seq<Field>, force: Option<Column>, f: Field)
    decreases f, 1
  {
    match Classify(s, t, f.name)
    case ColumnCase(c) => Selects(s, t, given, force, c)
    case Meta => true
    case Unknown => true
    case EdgeCase(e) =>
      var last := LastFor(s, t, given, KeyOf(e, f.alias));
      last.Some? ==> Answers(s, e.target, last.value.sub, if e.kind.Unique? then None else Some(e.column), f.sub)
  }

  lemma KeepsIsSelects(s: Schema, t: Table, given: seq<Field>, force: Option<Column>, c: Column)
    ensures Keeps(s, Forced(Compile(s, t, given), force), c) <==> Selects(s, t, given, force, c)
  {
    hide Classify, Collect, Gives, Known, NamesEdge, Picked;
    var col, q := Collect(s, t, given), Forced(Compile(s, t, given), force);
    CollectedColumns(s, t, given, c);
    CollectedSelects(s, t, given);
    PickedIs(s, t, given, col.selected[1..], c);
    assert col.selected == [ID] + col.selected[1..];
    assert q.fields == [] <==> SomeUnknown(s, t, given);
    assert q.loads == col.loads;
    forall e | e in s.EdgesOf(t) && e.kind.Unique? && Plain(e) in q.loads && e.column == c
      ensures SomeGives(s, t, given, c)
    {
      CollectedLoad(s, t, given, Plain(e));
      CasesOf(s, t, LastFor(s, t, given, Plain(e)).value);
      assert Gives(s, t, LastFor(s, t, given, Plain(e)).value, c);
    }
  }

  lemma {:induction false} AnswersIsCovers(s: Schema, t: Table, given: seq<Field>, force: Option<Column>,
                                           sel: seq<Field>)
    ensures Covers(s, Compile(s, t, given), force, sel) <==> Answers(s, t, given, force, sel)
    decreases sel, 0
  {
    hide Compile;
    forall i | 0 <= i < |sel|
      ensures CoversField(s, Compile(s, t, given), force, sel[i]) <==> AnswersField(s, t, given, force, sel[i])
    {
      FieldAnswersIsCovers(s, t, given, force, sel[i]);
    }
  }

  lemma {:induction false} FieldAnswersIsCovers(s: Schema, t: Table, given: seq<Field>, force: Option<Column>, f: Field)
    ensures CoversField(s, Compile(s, t, given), force, f) <==> AnswersField(s, t, given, force, f)
    decreases f, 1
  {
    hide Classify, Compile, Collect, Keeps, Selects;
    LoadsOfCompiled(s, t, given);
    match Classify(s, t, f.name) {
      case ColumnCase(c) => KeepsIsSelects(s, t, given, force, c);
      case Meta =>
      case Unknown =>
      case EdgeCase(e) =>
        var k := KeyOf(e, f.alias);
        CollectedLoad(s, t, given, k);
        if k in Compile(s, t, given).loads {
          AnswersIsCovers(s, e.target, LastFor(s, t, given, k).value.sub,
                          if e.kind.Unique? then None else Some(e.column), f.sub);
        }
    }
  }

  lemma LoadsOfCompiled(s: Schema, t: Table, given: seq<Field>)
    ensures Compile(s, t, given).loads == Collect(s, t, given).loads && Compile(s, t, given).table == t
  {
    assert map[] + Collect(s, t, given).loads == Collect(s, t, given).loads;
  }

  /** Main theorem, for every selection: what field collection compiles reads back on
      every database if and only if the selection answers itself. */
  lemma CompileExact(s: Schema, t: Table, sel: seq<Field>)
    requires s.Valid() && t in s.columns && DistinctAliases(sel)
    ensures ReadsBack(s, Compile(s, t, sel), sel) <==> Answers(s, t, sel, None, sel)
  {
    hide Collect, Covers, ReadsBack, Answers;
    CompileGood(s, t, sel);
    ReadbackExact(s, Compile(s, t, sel), sel);
    AnswersIsCovers(s, t, sel, None, sel);
  }

  // ----- Compiler correctness -------------------------------------------------

  /** Compiler correctness: collecting a selection that answers itself into a builder,
      running it and reading the nodes gives the direct reading of each of the
      builder's rows, whatever predicates, orders and window the builder has. */
  lemma CompilerCorrect(db: Database, q: Query, sel: seq<Field>)
    requires WellFormed(db) && q.fields == [] && q.loads == map[] && Answers(db.schema, q.table, sel, None, sel)
    ensures var ts := Batched(db, Applied(q, Collect(db.schema, q.table, sel)), Top);
            var rows := Matching(db, SpecOf(db.schema, q));
            && |ts| == |rows|
            && forall i :: 0 <= i < |rows| ==> Read(db, q.table, sel, ts[i]) == Interp(db, q.table, sel, rows[i])
  {
    hide Matching, RowTree, Read, Interp, Answers;
    var s := db.schema;
    var a := Applied(q, Collect(s, q.table, sel));
    var rows := Matching(db, SpecOf(s, q));
    AppliedGood(s, q, sel);
    MatchingIgnoresColumns(db, q, a);
    UnwindowedFits(a, RootExtent(a));
    BatchedIsNested(db, a);
    AppliedCovers(s, q, sel);
    forall i | 0 <= i < |rows|
      ensures Read(db, q.table, sel, RowTree(db, a, None, rows[i])) == Interp(db, q.table, sel, rows[i])
    {
      MatchingInTable(db, q, i);
      CoveredReads(db, a, None, sel, rows[i]);
    }
  }

  /** Covering does not depend on predicates, orders or windows. */
  lemma AppliedCovers(s: Schema, q: Query, sel: seq<Field>)
    requires q.fields == [] && q.loads == map[] && Answers(s, q.table, sel, None, sel)
    ensures Covers(s, Applied(q, Collect(s, q.table, sel)), None, sel)
  {
    hide Classify, Collect, Answers;
    AnswersIsCovers(s, q.table, sel, None, sel);
    var a, c := Applied(q, Collect(s, q.table, sel)), Compile(s, q.table, sel);
    assert a.loads == c.loads && a.fields == c.fields;
    forall i | 0 <= i < |sel| ensures CoversField(s, a, None, sel[i]) {
      assert CoversField(s, c, None, sel[i]);
    }
  }

  lemma AppliedGood(s: Schema, q: Query, sel: seq<Field>)
    requires s.Valid() && q.loads == map[]
    ensures var a := Applied(q, Collect(s, q.table, sel)); GoodQuery(s, a) && PlainLoads(a) && UnwindowedChildren(a)
  {
    var a, c := Applied(q, Collect(s, q.table, sel)), Compile(s, q.table, sel);
    CompileGood(s, q.table, sel);
    assert a.loads == c.loads;
    PlainIsUnwindowed(a);
  }

  lemma {:induction false} PlainIsUnwindowed(q: Query)
    requires PlainLoads(q)
    ensures UnwindowedChildren(q)
    decreases q
  {
    forall k | k in q.loads ensures NoWindow(q.loads[k]) && UnwindowedChildren(q.loads[k]) {
      PlainIsUnwindowed(q.loads[k]);
    }
  }

  lemma MatchingIgnoresColumns(db: Database, q: Query, a: Query)
    requires a.table == q.table && a.predicates == q.predicates && a.order == q.order && a.limit == q.limit
    requires a.offset == q.offset
    ensures Matching(db, SpecOf(db.schema, a)) == Matching(db, SpecOf(db.schema, q))
  {
  }

  lemma MatchingInTable(db: Database, q: Query, i: nat)
    requires i < |Matching(db, SpecOf(db.schema, q))|
    ensures Matching(db, SpecOf(db.schema, q))[i] in db.Rows(q.table)
  {
    var spec := SpecOf(db.schema, q);
    FilterMembers(Arrange(db, spec.order, db.Rows(spec.table)), Satisfying(db, spec.predicates));
    WindowFrom(Filter(Arrange(db, spec.order, db.Rows(spec.table)), Satisfying(db, spec.predicates)),
               spec.limit, spec.offset, i);
    ArrangedRows(db, q);
  }

  // ----- Selections that name each unique edge once ---------------------------

  /** Each level of the selection names each unique edge at most once. */
  ghost predicate UniqueOnce(s: Schema, t: Table, sel: seq<Field>)
    decreases sel, 0
  {
    && (forall i, j :: 0 <= i < j < |sel| ==> !SameUniqueEdge(s, t, sel[i], sel[j]))
    && (forall i :: 0 <= i < |sel| ==> UniqueOnceBelow(s, t, sel[i]))
  }

  ghost predicate SameUniqueEdge(s: Schema, t: Table, f: Field, g: Field) {
    var c := Classify(s, t, f.name);
    c.EdgeCase? && c.edge.kind.Unique? && c == Classify(s, t, g.name)
  }

  ghost predicate UniqueOnceBelow(s: Schema, t: Table, f: Field)
    decreases f, 1
  {
    var c := Classify(s, t, f.name);
    c.EdgeCase? ==> UniqueOnce(s, c.edge.target, f.sub)
  }

  lemma {:induction false} LastForIs(s: Schema, t: Table, sel: seq<Field>, i: nat, k: LoadKey)
    requires i < |sel| && Loads(s, t, sel[i], k) && forall j :: i < j < |sel| ==> !Loads(s, t, sel[j], k)
    ensures LastFor(s, t, sel, k) == Some(sel[i])
  {
    hide Loads;
    if i == |sel| - 1 {
    } else {
      LastForIs(s, t, sel[..|sel| - 1], i, k);
    }
  }

  /** A selection whose levels each name every unique edge at most once answers
      itself. */
  lemma {:induction false} UniqueOnceAnswers(s: Schema, t: Table, force: Option<Column>, sel: seq<Field>)
    requires DistinctAliases(sel) && UniqueOnce(s, t, sel)
    ensures Answers(s, t, sel, force, sel)
    decreases sel
  {
    hide Classify, Gives, Known, Loads;
    forall i | 0 <= i < |sel| ensures AnswersField(s, t, sel, force, sel[i]) {
      var f, c := sel[i], Classify(s, t, sel[i].name);
      CasesOf(s, t, f);
      assert f in sel;
      if c.ColumnCase? {
        assert Gives(s, t, f, c.column);
      } else if c.EdgeCase? {
        var k := KeyOf(c.edge, f.alias);
        forall j | i < j < |sel| ensures !Loads(s, t, sel[j], k) {
          CasesOf(s, t, sel[j]);
          assert !SameUniqueEdge(s, t, f, sel[j]);
        }
        LastForIs(s, t, sel, i, k);
        assert UniqueOnceBelow(s, t, f);
        UniqueOnceAnswers(s, c.edge.target, if c.edge.kind.Unique? then None else Some(c.edge.column), f.sub);
      }
    }
  }

  // ----- Two aliases of one unique edge ---------------------------------------

  /** When a level names a unique edge twice, the later field's builder replaces
      the earlier one's, and the earlier alias loses the columns that only it
      selects. */
  lemma AliasesClash(s: Schema, t: Table, e: Edge, first: string, a: Column, second: string, b: Column)
    requires s.Valid() && t in s.columns && Classify(s, t, e.name) == EdgeCase(e) && e.kind.Unique?
    requires Classify(s, e.target, first) == ColumnCase(a) && Classify(s, e.target, second) == ColumnCase(b)
    requires a != b && a != ID
    ensures var sel := [Field(e.name, "a", [Field(first, "x", [])]), Field(e.name, "b", [Field(second, "x", [])])];
            !ReadsBack(s, Compile(s, t, sel), sel)
  {
    hide Classify, Compile, ReadsBack, Gives, Known, Loads;
    var f, g := Field(e.name, "a", [Field(first, "x", [])]), Field(e.name, "b", [Field(second, "x", [])]);
    var sel := [f, g];
    assert DistinctAliases(f.sub) && DistinctAliases(g.sub) by {
      assert DistinctAliases([]);
    }
    CompileExact(s, t, sel);
    CasesOf(s, t, g);
    CasesOf(s, e.target, g.sub[0]);
    LastForIs(s, t, sel, 1, Plain(e));
    assert !SomeGives(s, e.target, g.sub, a) && !SomeUnknown(s, e.target, g.sub);
    assert !AnswersField(s, e.target, g.sub, None, f.sub[0]);
    assert !AnswersField(s, t, sel, None, sel[0]);
  }
}
