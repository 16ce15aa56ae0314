/**
 Field collection: a GraphQL selection becomes a tree of query builders, and the
 resolvers read the selection back from the nodes that the builders return.
 */
module Selection {
  import opened Storage
  import opened Query
  import opened NestedLoops
  import Builder

  /** A collected field: one entry per response key, its own selection merged. */
  datatype Field = Field(name: string, alias: string, sub: seq<Field>)

  datatype Case = EdgeCase(edge: Edge) | ColumnCase(column: Column) | Meta | Unknown

  function FindEdge(edges: seq<Edge>, name: string): Option<Edge> {
    if edges == [] then None
    else if edges[0].name == name then Some(edges[0])
    else FindEdge(edges[1..], name)
  }

  /** The cases of the switch over a field's name. */
  function Classify(s: Schema, t: Table, name: string): Case {
    var e := FindEdge(s.EdgesOf(t), name);
    if e.Some? then EdgeCase(e.value)
    else if t in s.fields && name in s.fields[t] then ColumnCase(s.fields[t][name])
    else if name == "id" || name == "__typename" then Meta
    else Unknown
  }

  // ----- What a name stands for -----------------------------------------------

  /** The first edge with the name. */
  ghost predicate NamesEdge(s: Schema, t: Table, name: string, e: Edge) {
    exists i :: 0 <= i < |s.EdgesOf(t)| && FirstNamed(s.EdgesOf(t), i, name, e)
  }

  ghost predicate FirstNamed(edges: seq<Edge>, i: nat, name: string, e: Edge)
    requires i < |edges|
  {
    edges[i] == e && e.name == name && forall j :: 0 <= j < i ==> edges[j].name != name
  }

  /** The column of a field that is no edge. */
  ghost predicate NamesColumn(s: Schema, t: Table, name: string, c: Column) {
    && (forall e :: e in s.EdgesOf(t) ==> e.name != name)
    && t in s.fields && name in s.fields[t] && s.fields[t][name] == c
  }

  /** The names that the switch over a field's name has a case for. */
  ghost predicate Known(s: Schema, t: Table, name: string) {
    || (exists e :: e in s.EdgesOf(t) && e.name == name)
    || (t in s.fields && name in s.fields[t])
    || name == "id"
    || name == "__typename"
  }

  lemma {:induction false} FoundEdge(edges: seq<Edge>, name: string)
    ensures FindEdge(edges, name).None? <==> forall e :: e in edges ==> e.name != name
    ensures FindEdge(edges, name).Some? ==>
              exists i :: 0 <= i < |edges| && FirstNamed(edges, i, name, FindEdge(edges, name).value)
  {
    if edges == [] {
    } else if edges[0].name == name {
      assert FirstNamed(edges, 0, name, edges[0]);
    } else {
      FoundEdge(edges[1..], name);
      assert edges == [edges[0]] + edges[1..];
      if FindEdge(edges[1..], name).Some? {
        var e := FindEdge(edges[1..], name).value;
        var i :| 0 <= i < |edges[1..]| && FirstNamed(edges[1..], i, name, e);
        assert FirstNamed(edges, i + 1, name, e);
      }
    }
  }

  /** The case that a name falls under is told from the edges and the fields of the
      type: an edge comes before a field, a field before the two names that are always
      answered, and every other name is unknown. */
  lemma ClassifyIs(s: Schema, t: Table, name: string)
    ensures forall e :: Classify(s, t, name) == EdgeCase(e) <==> NamesEdge(s, t, name, e)
    ensures forall c :: Classify(s, t, name) == ColumnCase(c) <==> NamesColumn(s, t, name, c)
    ensures Classify(s, t, name).Unknown? <==> !Known(s, t, name)
  {
    var edges := s.EdgesOf(t);
    FoundEdge(edges, name);
    forall e | NamesEdge(s, t, name, e) ensures FindEdge(edges, name) == Some(e) {
      var i :| 0 <= i < |edges| && FirstNamed(edges, i, name, e);
      assert edges[i] in edges;
      var j :| 0 <= j < |edges| && FirstNamed(edges, j, name, FindEdge(edges, name).value);
    }
  }

  function KeyOf(e: Edge, alias: string): LoadKey {
    if e.kind.Unique? then Plain(e) else Named(e, alias)
  }

  // ----- Compiling a selection ------------------------------------------------

  datatype Collected = Collected(loads: map<LoadKey, Query>, selected: seq<Column>, seen: set<Column>, unknown: bool)

  function Seen(c: Collected, col: Column): Collected {
    if col in c.seen then c else c.(selected := c.selected + [col], seen := c.seen + {col})
  }

  function Collect(s: Schema, t: Table, sel: seq<Field>): Collected
    decreases sel, 0
  {
    if sel == [] then Collected(map[], [ID], {}, false)
    else CollectOne(s, t, Collect(s, t, sel[..|sel| - 1]), sel[|sel| - 1])
  }

  function CollectOne(s: Schema, t: Table, c: Collected, f: Field): Collected
    decreases f, 1
  {
    match Classify(s, t, f.name)
    case EdgeCase(e) =>
      var c' := c.(loads := c.loads[KeyOf(e, f.alias) := Compile(s, e.target, f.sub)]);
      if e.kind.Unique? then Seen(c', e.column) else c'
    case ColumnCase(col) => Seen(c, col)
    case Meta => c
    case Unknown => c.(unknown := true)
  }

  /** What collecting a selection makes of a builder: an unknown field leaves the
      builder without a column selection. */
  function Applied(q: Query, c: Collected): Query {
    q.(loads := q.loads + c.loads, fields := if c.unknown then q.fields else q.fields + c.selected)
  }

  function Fresh(t: Table): Query {
    Query(t, [], [], None, None, [], map[])
  }

  function Compile(s: Schema, t: Table, sel: seq<Field>): Query
    decreases sel, 1
  {
    Applied(Fresh(t), Collect(s, t, sel))
  }

  // ----- What a selection leaves in its builder -------------------------------

  /** A field that makes its builder select a column: its own, or the foreign key of the
      unique edge that it names. */
  ghost predicate Gives(s: Schema, t: Table, f: Field, c: Column) {
    || NamesColumn(s, t, f.name, c)
    || exists e :: NamesEdge(s, t, f.name, e) && e.kind.Unique? && e.column == c
  }

  ghost predicate SomeGives(s: Schema, t: Table, given: seq<Field>, c: Column) {
    exists f :: f in given && Gives(s, t, f, c)
  }

  ghost predicate SomeUnknown(s: Schema, t: Table, given: seq<Field>) {
    exists f :: f in given && !Known(s, t, f.name)
  }

  /** A field asks for `a` before any field asks for `b`. */
  ghost predicate GivesFirst(s: Schema, t: Table, given: seq<Field>, a: Column, b: Column) {
    exists i :: 0 <= i < |given| && Gives(s, t, given[i], a) && !SomeGives(s, t, given[..i + 1], b)
  }

  /** The columns that the fields ask for, each once, in order of first use. */
  ghost predicate Picked(s: Schema, t: Table, given: seq<Field>, picked: seq<Column>) {
    && (forall c :: c in picked <==> SomeGives(s, t, given, c))
    && (forall i, j :: 0 <= i < j < |picked| ==> GivesFirst(s, t, given, picked[i], picked[j]))
  }

  /** A field that sets an eager load: a unique edge's own, or one of a list edge under
      the field's response key. */
  ghost predicate Loads(s: Schema, t: Table, f: Field, k: LoadKey) {
    && NamesEdge(s, t, f.name, k.edge)
    && (if k.edge.kind.Unique? then k.Plain? else k == Named(k.edge, f.alias))
  }

  /** The last field that sets an eager load. */
  ghost function LastFor(s: Schema, t: Table, given: seq<Field>, k: LoadKey): Option<Field> {
    if given == [] then None
    else if Loads(s, t, given[|given| - 1], k) then Some(given[|given| - 1])
    else LastFor(s, t, given[..|given| - 1], k)
  }

  lemma {:induction false} LastIsIn(s: Schema, t: Table, given: seq<Field>, k: LoadKey)
    ensures LastFor(s, t, given, k).Some? ==>
              LastFor(s, t, given, k).value in given && Loads(s, t, LastFor(s, t, given, k).value, k)
    ensures LastFor(s, t, given, k).None? ==> forall f :: f in given ==> !Loads(s, t, f, k)
  {
    hide Loads;
    if given == [] {
    } else {
      LastIsIn(s, t, given[..|given| - 1], k);
      assert given == given[..|given| - 1] + [given[|given| - 1]];
    }
  }

  /** The cases of a field, in the compiler's terms. */
  lemma CasesOf(s: Schema, t: Table, f: Field)
    ensures forall c :: Gives(s, t, f, c) <==>
              var k := Classify(s, t, f.name);
              k == ColumnCase(c) || (k.EdgeCase? && k.edge.kind.Unique? && k.edge.column == c)
    ensures forall k :: Loads(s, t, f, k) <==> Classify(s, t, f.name) == EdgeCase(k.edge) && KeyOf(k.edge, f.alias) == k
    ensures Known(s, t, f.name) <==> !Classify(s, t, f.name).Unknown?
  {
    hide Classify, NamesEdge, NamesColumn, Known;
    ClassifyIs(s, t, f.name);
  }

  lemma {:induction false} CollectedLoad(s: Schema, t: Table, given: seq<Field>, k: LoadKey)
    ensures k in Collect(s, t, given).loads <==> LastFor(s, t, given, k).Some?
    ensures k in Collect(s, t, given).loads ==>
              && LastFor(s, t, given, k).value in given && Loads(s, t, LastFor(s, t, given, k).value, k)
              && Collect(s, t, given).loads[k] == Compile(s, k.edge.target, LastFor(s, t, given, k).value.sub)
    decreases given
  {
    hide Classify, Compile, Loads;
    LastIsIn(s, t, given, k);
    if given == [] {
    } else {
      CasesOf(s, t, given[|given| - 1]);
      CollectedLoad(s, t, given[..|given| - 1], k);
    }
  }

  lemma SomeMore(s: Schema, t: Table, given: seq<Field>, c: Column)
    requires given != []
    ensures var before, last := given[..|given| - 1], given[|given| - 1];
            && (SomeGives(s, t, given, c) <==> SomeGives(s, t, before, c) || Gives(s, t, last, c))
            && (SomeUnknown(s, t, given) <==> SomeUnknown(s, t, before) || !Known(s, t, last.name))
  {
    hide Gives, Known;
    assert given == given[..|given| - 1] + [given[|given| - 1]];
  }

  lemma OneMoreColumn(s: Schema, t: Table, c: Collected, f: Field, col: Column)
    ensures var r := CollectOne(s, t, c, f);
            && (col in r.seen <==> col in c.seen || Gives(s, t, f, col))
            && (r.unknown <==> c.unknown || !Known(s, t, f.name))
            && (if r.selected == c.selected then forall x :: Gives(s, t, f, x) ==> x in c.seen
                else exists x :: Gives(s, t, f, x) && x !in c.seen && r.selected == c.selected + [x])
  {
    hide Classify, Compile, Collect, Gives, Known;
    CasesOf(s, t, f);
  }

  lemma {:induction false} CollectedColumns(s: Schema, t: Table, given: seq<Field>, c: Column)
    ensures c in Collect(s, t, given).seen <==> SomeGives(s, t, given, c)
    ensures Collect(s, t, given).unknown <==> SomeUnknown(s, t, given)
    decreases given
  {
    hide Classify, CollectOne, Gives, Known;
    if given == [] {
    } else {
      var before, last := given[..|given| - 1], given[|given| - 1];
      CollectedColumns(s, t, before, c);
      OneMoreColumn(s, t, Collect(s, t, before), last, c);
      SomeMore(s, t, given, c);
    }
  }

  /** One field more asks for at most one column more, after all the others. */
  lemma PickedMore(s: Schema, t: Table, given: seq<Field>, picked: seq<Column>)
    requires given != [] && Picked(s, t, given[..|given| - 1], picked)
    ensures (forall c :: Gives(s, t, given[|given| - 1], c) ==> c in picked) ==> Picked(s, t, given, picked)
    ensures forall x :: Gives(s, t, given[|given| - 1], x) && x !in picked ==> Picked(s, t, given, picked + [x])
  {
    hide Gives;
    var before, last := given[..|given| - 1], given[|given| - 1];
    forall c ensures SomeGives(s, t, given, c) <==> SomeGives(s, t, before, c) || Gives(s, t, last, c) {
      SomeMore(s, t, given, c);
    }
    forall x, y | Gives(s, t, last, x) && Gives(s, t, last, y) ensures x == y {
      GivesOne(s, t, last, x, y);
    }
    forall a, b | GivesFirst(s, t, before, a, b) ensures GivesFirst(s, t, given, a, b) {
      var i :| 0 <= i < |before| && Gives(s, t, before[i], a) && !SomeGives(s, t, before[..i + 1], b);
      assert given[i] == before[i] && given[..i + 1] == before[..i + 1];
    }
    forall a, b | SomeGives(s, t, before, a) && !SomeGives(s, t, before, b) ensures GivesFirst(s, t, given, a, b) {
      GivenFirst(s, t, given, a, b);
    }
  }

  lemma GivenFirst(s: Schema, t: Table, given: seq<Field>, a: Column, b: Column)
    requires given != []
    requires SomeGives(s, t, given[..|given| - 1], a) && !SomeGives(s, t, given[..|given| - 1], b)
    ensures GivesFirst(s, t, given, a, b)
  {
    hide Gives;
    var before := given[..|given| - 1];
    var f :| f in before && Gives(s, t, f, a);
    var i :| 0 <= i < |before| && before[i] == f;
    assert given[i] == f && given[..i + 1] == before[..i + 1];
  }

  lemma NothingPicked(s: Schema, t: Table)
    ensures Picked(s, t, [], [])
  {
  }

  lemma PickedIs(s: Schema, t: Table, given: seq<Field>, picked: seq<Column>, c: Column)
    requires Picked(s, t, given, picked)
    ensures c in picked <==> SomeGives(s, t, given, c)
  {
  }

  lemma GivesOne(s: Schema, t: Table, f: Field, a: Column, b: Column)
    requires Gives(s, t, f, a) && Gives(s, t, f, b)
    ensures a == b
  {
    hide Gives, Classify;
    CasesOf(s, t, f);
  }

  /** The collected columns are the ID and then what the fields ask for. */
  lemma {:induction false} CollectedSelects(s: Schema, t: Table, given: seq<Field>)
    ensures var c := Collect(s, t, given);
            [ID] <= c.selected && Picked(s, t, given, c.selected[1..])
    decreases given
  {
    hide Classify, CollectOne, Gives, Known, Picked, SomeGives;
    var c := Collect(s, t, given);
    if given == [] {
      NothingPicked(s, t);
    } else {
      var before, last := given[..|given| - 1], given[|given| - 1];
      var b := Collect(s, t, before);
      CollectedSelects(s, t, before);
      PickedMore(s, t, given, b.selected[1..]);
      forall x | Gives(s, t, last, x) ensures x in b.seen <==> x in b.selected[1..] {
        CollectedColumns(s, t, before, x);
        PickedIs(s, t, before, b.selected[1..], x);
      }
      OneMoreColumn(s, t, b, last, ID);
      if c.selected != b.selected {
        var x :| Gives(s, t, last, x) && x !in b.seen && c.selected == b.selected + [x];
        assert c.selected[1..] == b.selected[1..] + [x];
      }
    }
  }

  /** What collecting a selection does to a builder, told from the names of the fields: a
      name without a case leaves the selected fields alone; otherwise the ID and what the
      fields ask for are appended. Each eager load is that of the last field for it. */
  ghost predicate Compiled(s: Schema, before: Query, sel: seq<Field>, now: Query) {
    var t, n := before.table, |before.fields|;
    && now == before.(fields := now.fields, loads := now.loads)
    && (now.fields == before.fields <==> SomeUnknown(s, t, sel))
    && (!SomeUnknown(s, t, sel) ==>
          before.fields + [ID] <= now.fields && Picked(s, t, sel, now.fields[n + 1..]))
    && (forall k :: k in now.loads <==> k in before.loads || LastFor(s, t, sel, k).Some?)
    && (forall k :: k in now.loads ==>
          var last := LastFor(s, t, sel, k);
          now.loads[k] == if last.Some? then Compile(s, k.edge.target, last.value.sub) else before.loads[k])
  }

  lemma AppliedCompiled(s: Schema, q: Query, sel: seq<Field>)
    ensures Compiled(s, q, sel, Applied(q, Collect(s, q.table, sel)))
  {
    hide Collect, Compile, Picked, SomeUnknown;
    var t, c, now := q.table, Collect(s, q.table, sel), Applied(q, Collect(s, q.table, sel));
    CollectedColumns(s, t, sel, ID);
    CollectedSelects(s, t, sel);
    if !c.unknown {
      assert now.fields[|q.fields| + 1..] == c.selected[1..];
    }
    forall k ensures k in c.loads <==> LastFor(s, t, sel, k).Some?
      ensures k in c.loads ==> c.loads[k] == Compile(s, k.edge.target, LastFor(s, t, sel, k).value.sub)
    {
      CollectedLoad(s, t, sel, k);
    }
  }

  method CollectField(s: Schema, q: Builder.QueryBuilder, sel: seq<Field>)
    requires q.Valid()
    modifies q.Repr
    ensures q.Valid() && q.Value == Applied(old(q.Value), Collect(s, q.table, sel))
    ensures Compiled(s, old(q.Value), sel, q.Value)
    ensures forall o :: o in q.Repr ==> o in old(q.Repr) || fresh(o)
    decreases sel, 0
  {
    var unknownSeen, fieldSeen, selected := false, {}, [ID];
    ghost var q0 := q.Value;
    ghost var c := Collect(s, q.table, []);
    assert q0 == q0.(loads := q0.loads + c.loads);
    assert sel[..|sel|] == sel;
    for i := 0 to |sel|
      invariant q.Valid()
      invariant forall o :: o in q.Repr ==> o in old(q.Repr) || fresh(o)
      invariant c == Collect(s, q.table, sel[..i])
      invariant selected == c.selected && fieldSeen == c.seen && unknownSeen == c.unknown
      invariant q.Value == q0.(loads := q0.loads + c.loads)
    {
      hide Compile, Classify, Collect;
      var f := sel[i];
      CollectStep(s, q.table, sel, i);
      match Classify(s, q.table, f.name) {
        case EdgeCase(e) =>
          CollectEdge(s, q, e, f);
          if e.kind.Unique? && e.column !in fieldSeen {
            selected := selected + [e.column];
            fieldSeen := fieldSeen + {e.column};
          }
        case ColumnCase(col) =>
          if col !in fieldSeen {
            selected := selected + [col];
            fieldSeen := fieldSeen + {col};
          }
        case Meta =>
        case Unknown =>
          unknownSeen := true;
      }
      CollectedLoads(s, q.table, q0.loads, c, f);
      c := CollectOne(s, q.table, c, f);
    }
    if !unknownSeen {
      q.Select(selected);
    }
    AppliedCompiled(s, q0, sel);
  }

  method CollectEdge(s: Schema, q: Builder.QueryBuilder, e: Edge, f: Field)
    requires q.Valid()
    modifies q`loads, q`Value, q`Repr
    ensures q.Valid()
    ensures q.Value == old(q.Value).(loads := old(q.Value).loads[KeyOf(e, f.alias) := Compile(s, e.target, f.sub)])
    ensures forall o :: o in q.Repr ==> o in old(q.Repr) || fresh(o)
    decreases f, 0
  {
    hide Collect, Compiled;
    var query := new Builder.QueryBuilder(e.target);
    CollectField(s, query, f.sub);
    q.Kept(q);
    q.With(KeyOf(e, f.alias), query);
  }

  /** Setting a load in the builder is setting it among the collected loads. */
  lemma CollectedLoads(s: Schema, t: Table, loads: map<LoadKey, Query>, c: Collected, f: Field)
    ensures var k := Classify(s, t, f.name);
            loads + CollectOne(s, t, c, f).loads ==
              if k.EdgeCase? then (loads + c.loads)[KeyOf(k.edge, f.alias) := Compile(s, k.edge.target, f.sub)]
                  else loads + c.loads
  {
    hide Compile, Classify;
    var k := Classify(s, t, f.name);
    if k.EdgeCase? {
      var key, v := KeyOf(k.edge, f.alias), Compile(s, k.edge.target, f.sub);
      assert (loads + c.loads)[key := v] == loads + c.loads[key := v];
    }
  }

  lemma CollectStep(s: Schema, t: Table, sel: seq<Field>, i: nat)
    requires i < |sel|
    ensures Collect(s, t, sel[..i + 1]) == CollectOne(s, t, Collect(s, t, sel[..i]), sel[i])
  {
    assert sel[..i + 1][..i] == sel[..i];
  }
}
