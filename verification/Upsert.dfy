/**
 Bulk upserts with `UpdateNewValues`: on a conflict every column of the batch takes
 the proposed value, except the ID and the creation time. What a row holds is
 told from the whole history of batches.
 */
module Upsert {
  import opened Storage
  import opened Campus
  import Chain
  import HookKinds

  /** One table row, by column. */
  type TableRow = map<CampusField, Stored>

  function TableColumns(): set<CampusField> {
    {Id, OrgID} + Place() + Names() + Record()
  }

  // ----- A batch --------------------------------------------------------------

  /** A mutation and the number that the table gives its row if it brings no ID. */
  datatype Proposal = Proposal(m: Mutation, number: int)

  function RowId(p: Proposal): int {
    Get(p.m.id, p.number)
  }

  /** What a mutation proposes for a column, if it sets it. */
  function ValueIn(m: Mutation, f: CampusField): Option<Stored> {
    match f
    case Id => if m.id.Some? then Some(Integer(m.id.value)) else None
    case OrgID => if m.organization.Some? then Some(Integer(m.organization.value)) else None
    case _ => Set(m, f)
  }

  predicate Sets(batch: seq<Proposal>, f: CampusField) {
    exists i :: 0 <= i < |batch| && ValueIn(batch[i].m, f).Some?
  }

  /** One statement inserts the whole batch: its columns are those that any
      mutation sets, and a mutation that does not set one proposes NULL for it. */
  function BatchColumns(batch: seq<Proposal>): set<CampusField> {
    set f | f in TableColumns() && Sets(batch, f)
  }

  function Proposed(m: Mutation, f: CampusField): Stored {
    if ValueIn(m, f).Some? then ValueIn(m, f).value else NULL
  }

  /** The columns that `UpdateNewValues` sets to themselves: the ID and the creation
      time, each if any mutation of the batch has one. */
  method IgnoredColumns(batch: seq<Proposal>) returns (ignored: set<CampusField>)
    ensures ignored == Ignored(batch)
  {
    ignored := {};
    for i := 0 to |batch|
      invariant ignored == Ignored(batch[..i])
    {
      assert batch[..i + 1] == batch[..i] + [batch[i]];
      IgnoredMore(batch[..i], batch[i]);
      if batch[i].m.id.Some? {
        ignored := ignored + {Id};
      }
      if batch[i].m.created.Some? {
        ignored := ignored + {Created};
      }
    }
    assert batch[..|batch|] == batch;
  }

  function Ignored(batch: seq<Proposal>): set<CampusField> {
    set f | f in {Id, Created} && Sets(batch, f)
  }

  lemma IgnoredMore(batch: seq<Proposal>, p: Proposal)
    ensures Ignored(batch + [p]) ==
              Ignored(batch) + (if p.m.id.Some? then {Id} else {}) + (if p.m.created.Some? then {Created} else {})
  {
    forall f | f in {Id, Created} ensures Sets(batch + [p], f) <==> Sets(batch, f) || ValueIn(p.m, f).Some? {
      if i :| 0 <= i < |batch| && ValueIn(batch[i].m, f).Some? {
        assert (batch + [p])[i] == batch[i];
      }
      assert (batch + [p])[|batch|] == p;
    }
  }

  /** A proposed row with the columns and the ignored columns of its batch. */
  datatype RowWrite = RowWrite(columns: set<CampusField>, ignored: set<CampusField>, id: int, m: Mutation)

  function Inserted(w: RowWrite, f: CampusField): Stored {
    if f == Id then Integer(w.id) else if f in w.columns then Proposed(w.m, f) else TableDefault(f)
  }

  function Resolved(w: RowWrite, f: CampusField, before: Stored): Stored {
    if f in w.columns && f !in w.ignored then Proposed(w.m, f) else before
  }

  ghost predicate WellShaped(t: map<int, TableRow>) {
    forall id :: id in t ==> t[id].Keys == TableColumns()
  }

  /** The storage engine's contract: rows are taken in order; a row whose ID is there
      already resolves the conflict, even with a row of the same batch. */
  function Apply(t: map<int, TableRow>, w: RowWrite): (r: map<int, TableRow>)
    requires WellShaped(t)
    ensures WellShaped(r)
  {
    var id := w.id;
    t[id := map f | f in TableColumns() :: if id in t then Resolved(w, f, t[id][f]) else Inserted(w, f)]
  }

  lemma ApplyRow(t: map<int, TableRow>, w: RowWrite, id: int, f: CampusField)
    requires WellShaped(t) && f in TableColumns()
    ensures id in Apply(t, w) <==> id in t || id == w.id
    ensures id in t ==> f in t[id]
    ensures id in Apply(t, w) ==>
              Apply(t, w)[id][f] ==
                if id != w.id then t[id][f] else if id in t then Resolved(w, f, t[id][f]) else Inserted(w, f)
  {
    hide TableColumns, Resolved, Inserted;
  }

  function ApplyAll(t: map<int, TableRow>, ws: seq<RowWrite>): (r: map<int, TableRow>)
    requires WellShaped(t)
    ensures WellShaped(r)
  {
    if ws == [] then t else Apply(ApplyAll(t, ws[..|ws| - 1]), ws[|ws| - 1])
  }

  function WriteOf(batch: seq<Proposal>, p: Proposal): RowWrite {
    RowWrite(BatchColumns(batch), Ignored(batch), RowId(p), p.m)
  }

  function WritesOf(batch: seq<Proposal>): (ws: seq<RowWrite>)
    ensures |ws| == |batch|
  {
    seq(|batch|, i requires 0 <= i < |batch| =>
      WriteOf(batch, batch[i]))
  }

  function Upsert(t: map<int, TableRow>, batch: seq<Proposal>): (r: map<int, TableRow>)
    requires WellShaped(t)
    ensures WellShaped(r)
  {
    ApplyAll(t, WritesOf(batch))
  }

  // ----- Histories ------------------------------------------------------------

  function AllWrites(history: seq<seq<Proposal>>): seq<RowWrite> {
    if history == [] then [] else AllWrites(history[..|history| - 1]) + WritesOf(history[|history| - 1])
  }

  function TableAfter(t: map<int, TableRow>, history: seq<seq<Proposal>>): (r: map<int, TableRow>)
    requires WellShaped(t)
    ensures WellShaped(r)
  {
    if history == [] then t else Upsert(TableAfter(t, history[..|history| - 1]), history[|history| - 1])
  }

  lemma {:induction false} ApplyAppend(t: map<int, TableRow>, a: seq<RowWrite>, b: seq<RowWrite>)
    requires WellShaped(t)
    ensures ApplyAll(t, a + b) == ApplyAll(ApplyAll(t, a), b)
    decreases |b|
  {
    hide Apply;
    if b == [] {
      assert a + b == a;
    } else {
      assert (a + b)[..|a + b| - 1] == a + b[..|b| - 1];
      ApplyAppend(t, a, b[..|b| - 1]);
    }
  }

  lemma {:induction false} AfterIsWrites(t: map<int, TableRow>, history: seq<seq<Proposal>>)
    requires WellShaped(t)
    ensures TableAfter(t, history) == ApplyAll(t, AllWrites(history))
  {
    if history == [] {
    } else {
      var last := |history| - 1;
      AfterIsWrites(t, history[..last]);
      ApplyAppend(t, AllWrites(history[..last]), WritesOf(history[last]));
    }
  }

  // ----- What a row holds -----------------------------------------------------

  /** The first write of a row, and the last write of one of its columns. */
  function FirstWrite(ws: seq<RowWrite>, id: int): Option<RowWrite> {
    if ws == [] then None
    else
      var earlier := FirstWrite(ws[..|ws| - 1], id);
      if earlier.None? && ws[|ws| - 1].id == id then Some(ws[|ws| - 1]) else earlier
  }

  function LastWrite(ws: seq<RowWrite>, id: int, f: CampusField): Option<RowWrite> {
    if ws == [] then None
    else if ws[|ws| - 1].id == id && f in ws[|ws| - 1].columns then Some(ws[|ws| - 1])
    else LastWrite(ws[..|ws| - 1], id, f)
  }

  /** Writes as they come from batches: the creation time, if it is a column, is
      ignored, and so is the ID; no other column is. */
  ghost predicate FromBatches(ws: seq<RowWrite>) {
    forall w :: w in ws ==> (forall f :: f in w.ignored <==> f in {Id, Created} && f in w.columns)
  }

  lemma BatchWrites(batch: seq<Proposal>)
    ensures FromBatches(WritesOf(batch))
  {
    forall f ensures f in Ignored(batch) <==> f in {Id, Created} && f in BatchColumns(batch) {
      assert Id in TableColumns() && Created in TableColumns();
    }
    forall w | w in WritesOf(batch) ensures w.columns == BatchColumns(batch) && w.ignored == Ignored(batch) {
    }
  }

  lemma {:induction false} HistoryWrites(history: seq<seq<Proposal>>)
    ensures FromBatches(AllWrites(history))
  {
    if history == [] {
    } else {
      HistoryWrites(history[..|history| - 1]);
      BatchWrites(history[|history| - 1]);
    }
  }

  lemma CreatedIsColumn()
    ensures Created in TableColumns()
  {
  }

  /** The creation time is the one of the first write. */
  lemma {:induction false} CreatedKept(t: map<int, TableRow>, ws: seq<RowWrite>, id: int)
    requires WellShaped(t) && FromBatches(ws)
    ensures id in ApplyAll(t, ws) <==> id in t || FirstWrite(ws, id).Some?
    ensures id in ApplyAll(t, ws) ==>
              ApplyAll(t, ws)[id][Created] ==
                if id in t then t[id][Created] else Inserted(FirstWrite(ws, id).value, Created)
  {
    hide Apply, TableColumns, Proposed, TableDefault;
    CreatedIsColumn();
    if ws == [] {
    } else {
      var last := |ws| - 1;
      assert ws[last] in ws;
      ApplyRow(ApplyAll(t, ws[..last]), ws[last], id, Created);
      CreatedKept(t, ws[..last], id);
    }
  }

  /** Every other column but the ID holds what the last write of it proposed, or
      else what the row started with. */
  lemma {:induction false} LatestKept(t: map<int, TableRow>, ws: seq<RowWrite>, id: int, f: CampusField)
    requires WellShaped(t) && FromBatches(ws) && f in TableColumns() && f != Id && f != Created
    requires id in ApplyAll(t, ws)
    ensures ApplyAll(t, ws)[id][f] ==
              if LastWrite(ws, id, f).Some? then Proposed(LastWrite(ws, id, f).value.m, f)
              else if id in t then t[id][f] else TableDefault(f)
  {
    hide Apply, TableColumns, Proposed, TableDefault;
    if ws == [] {
    } else {
      var last := |ws| - 1;
      assert ws[last] in ws;
      ApplyRow(ApplyAll(t, ws[..last]), ws[last], id, f);
      if id in ApplyAll(t, ws[..last]) {
        LatestKept(t, ws[..last], id, f);
      } else {
        NeverWritten(t, ws[..last], id, f);
      }
    }
  }

  lemma {:induction false} NeverWritten(t: map<int, TableRow>, ws: seq<RowWrite>, id: int, f: CampusField)
    requires WellShaped(t) && id !in ApplyAll(t, ws)
    ensures LastWrite(ws, id, f).None? && id !in t
  {
    if ws == [] {
    } else {
      NeverWritten(t, ws[..|ws| - 1], id, f);
    }
  }

  /** The ID of a row never changes. */
  ghost predicate Keyed(t: map<int, TableRow>) {
    WellShaped(t) && forall id :: id in t ==> t[id][Id] == Integer(id)
  }

  lemma {:induction false} StaysKeyed(t: map<int, TableRow>, ws: seq<RowWrite>)
    requires Keyed(t) && FromBatches(ws)
    ensures Keyed(ApplyAll(t, ws))
  {
    if ws == [] {
    } else {
      var last := |ws| - 1;
      assert ws[last] in ws;
      StaysKeyed(t, ws[..last]);
    }
  }

  // ----- What is sent is what is stored ---------------------------------------

  /** A specification sets a column. */
  ghost predicate Carried(spec: CreateSpec, f: CampusField) {
    if f.Id? then spec.id.Some? else if f.OrgID? then spec.organization.Some? else f in spec.fields
  }

  /** The value that a specification holds for a column other than the ID, NULL if none. */
  ghost function SentFor(spec: CreateSpec, f: CampusField): Stored {
    if f.OrgID? then if spec.organization.Some? then Integer(spec.organization.value) else NULL
    else if f in spec.fields then spec.fields[f]
    else NULL
  }

  /** A mutation proposes what its specification holds, and a batch has the columns that
      some specification sets. */
  lemma ProposesSpec(m: Mutation, f: CampusField)
    requires !f.Other?
    ensures ValueIn(m, f).Some? <==> Carried(CreateSpecOf(m), f)
    ensures f != Id ==> Proposed(m, f) == SentFor(CreateSpecOf(m), f)
  {
    hide Set;
    assert SpecFor(CreateSpecOf(m), m);
  }

  /** What a write from a batch of one mutation inserts. */
  lemma InsertedSpec(p: Proposal, f: CampusField)
    requires !f.Other?
    ensures Inserted(WriteOf([p], p), f) == StoredValue(CreateSpecOf(p.m), RowId(p), f)
  {
    hide Set, TableColumns, CreateSpecOf;
    ColumnsAre(f);
    ProposesSpec(p.m, f);
    assert [p][0] == p;
  }

  lemma OneWrite(t: map<int, TableRow>, p: Proposal)
    requires WellShaped(t)
    ensures Upsert(t, [p]) == Apply(t, WriteOf([p], p))
  {
    hide WriteOf, Apply;
    var w := WriteOf([p], p);
    assert WritesOf([p])[0] == w && WritesOf([p]) == [w];
    assert [w][..0] == [];
    assert ApplyAll(t, [w]) == Apply(ApplyAll(t, []), w);
  }

  /** A batch of one mutation whose row is not there yet inserts the row that its
      specification describes, and touches no other. */
  lemma InsertsSpec(t: map<int, TableRow>, p: Proposal)
    requires WellShaped(t) && RowId(p) !in t
    ensures var r, id := Upsert(t, [p]), if p.m.id.Some? then p.m.id.value else p.number;
            && r.Keys == t.Keys + {id} && (forall other :: other in t ==> r[other] == t[other])
            && (forall f: CampusField :: f in r[id] <==> !f.Other?)
            && forall f :: f in r[id] ==> r[id][f] == StoredValue(CreateSpecOf(p.m), id, f)
  {
    hide TableColumns, CreateSpecOf, StoredValue, Inserted, Resolved, Upsert;
    OneWrite(t, p);
    forall f: CampusField ensures f in TableColumns() <==> !f.Other?
      ensures !f.Other? ==> Inserted(WriteOf([p], p), f) == StoredValue(CreateSpecOf(p.m), RowId(p), f)
    {
      ColumnsAre(f);
      if !f.Other? {
        InsertedSpec(p, f);
      }
    }
  }

  lemma ColumnsAre(f: CampusField)
    ensures f in TableColumns() <==> !f.Other?
    ensures TableDefault(OrgID) == NULL
  {
  }

  /** The columns of a batch are those that a specification of it sets. */
  lemma ColumnsExact(batch: seq<Proposal>, f: CampusField)
    requires !f.Other?
    ensures f in BatchColumns(batch) <==> exists p :: p in batch && Carried(CreateSpecOf(p.m), f)
  {
    hide TableColumns, Carried, ValueIn;
    ColumnsAre(f);
    forall p | p in batch ensures ValueIn(p.m, f).Some? <==> Carried(CreateSpecOf(p.m), f) {
      ProposesSpec(p.m, f);
    }
    if Sets(batch, f) {
      var i :| 0 <= i < |batch| && ValueIn(batch[i].m, f).Some?;
      assert batch[i] in batch;
    }
  }

  /** Main theorem, over every history of upserts on an empty table: a row exists if
      and only if it was written; its creation time is what the specification of its
      first write holds; every other column holds what the specification of the last
      write from a batch with that column holds, a NULL included, or else the table's
      default. */
  lemma HistoryTellsRow(history: seq<seq<Proposal>>, id: int, f: CampusField)
    requires !f.Other?
    ensures var t, ws := TableAfter(map[], history), AllWrites(history);
            var first, last := FirstWrite(ws, id), LastWrite(ws, id, f);
            && (id in t <==> first.Some?)
            && (id in t ==>
                 f in t[id] && t[id][f] ==
                   if f == Id then Integer(id)
                   else if f == Created then
                     if Created in first.value.columns then SentFor(CreateSpecOf(first.value.m), Created) else NULL
                   else if last.Some? then SentFor(CreateSpecOf(last.value.m), f)
                   else TableDefault(f))
  {
    hide Proposed, SentFor, TableColumns;
    var ws := AllWrites(history);
    ColumnsAre(f);
    AfterIsWrites(map[], history);
    HistoryWrites(history);
    CreatedKept(map[], ws, id);
    StaysKeyed(map[], ws);
    if id in ApplyAll(map[], ws) {
      ProposesSpec(FirstWrite(ws, id).value.m, Created);
      if f != Created && f != Id {
        LatestKept(map[], ws, id, f);
        if LastWrite(ws, id, f).Some? {
          ProposesSpec(LastWrite(ws, id, f).value.m, f);
        }
      }
    }
  }

  lemma {:induction false} FirstIsWritten(history: seq<seq<Proposal>>, id: int)
    ensures FirstWrite(AllWrites(history), id).Some? ==>
              exists b, p :: b in history && p in b && FirstWrite(AllWrites(history), id).value == WriteOf(b, p)
  {
    FirstIsIn(AllWrites(history), id);
    if FirstWrite(AllWrites(history), id).Some? {
      WritesComeFrom(history, FirstWrite(AllWrites(history), id).value);
    }
  }

  lemma {:induction false} FirstIsIn(ws: seq<RowWrite>, id: int)
    ensures FirstWrite(ws, id).Some? ==> FirstWrite(ws, id).value in ws && FirstWrite(ws, id).value.id == id
  {
    if ws == [] {
    } else {
      FirstIsIn(ws[..|ws| - 1], id);
    }
  }

  lemma {:induction false} WritesComeFrom(history: seq<seq<Proposal>>, w: RowWrite)
    requires w in AllWrites(history)
    ensures exists b, p :: b in history && p in b && w == WriteOf(b, p)
  {
    var last := |history| - 1;
    assert history[last] in history;
    if w in WritesOf(history[last]) {
      var i :| 0 <= i < |WritesOf(history[last])| && WritesOf(history[last])[i] == w;
      assert history[last][i] in history[last];
    } else {
      WritesComeFrom(history[..last], w);
    }
  }

  /** A row's creation time is there if and only if the mutation that first wrote the
      row had one; the create builders' check makes sure that every mutation does. */
  lemma CreatedSetExactly(history: seq<seq<Proposal>>, id: int)
    ensures var t, first := TableAfter(map[], history), FirstWrite(AllWrites(history), id);
            && (id in t <==> first.Some?)
            && (id in t ==> (t[id][Created] != NULL <==> first.value.m.created.Some?))
            && (id in t && first.value.m.created.Some? ==> t[id][Created] == Stamp(first.value.m.created.value))
    ensures (forall b, p :: b in history && p in b ==> Complete(p.m)) ==>
              var t := TableAfter(map[], history); id in t ==> t[id][Created] != NULL
  {
    hide TableAfter, AllWrites, FirstWrite, TableColumns, BatchColumns, Ignored, SentFor, CreateSpecOf;
    CreatedIsColumn();
    HistoryTellsRow(history, id, Created);
    FirstIsWritten(history, id);
    var first := FirstWrite(AllWrites(history), id);
    if first.Some? {
      var b, p :| b in history && p in b && first.value == WriteOf(b, p);
      FirstCreated(b, p);
    }
  }

  lemma CreatedSent(m: Mutation)
    ensures SentFor(CreateSpecOf(m), Created) == if m.created.Some? then Stamp(m.created.value) else NULL
    ensures Carried(CreateSpecOf(m), Created) <==> m.created.Some?
  {
    assert SpecFor(CreateSpecOf(m), m);
  }

  lemma FirstCreated(batch: seq<Proposal>, p: Proposal)
    requires p in batch
    ensures (if Created in WriteOf(batch, p).columns then SentFor(CreateSpecOf(p.m), Created) else NULL)
         == if p.m.created.Some? then Stamp(p.m.created.value) else NULL
  {
    hide TableColumns, Ignored, BatchColumns, ValueIn, CreateSpecOf, SentFor, Carried;
    ColumnsExact(batch, Created);
    CreatedSent(p.m);
  }

  // ----- Replaying a batch ----------------------------------------------------

  lemma {:induction false} IdsAfter(t: map<int, TableRow>, ws: seq<RowWrite>)
    requires WellShaped(t)
    ensures forall id :: id in t ==> id in ApplyAll(t, ws)
    ensures forall w :: w in ws ==> w.id in ApplyAll(t, ws)
  {
    if ws == [] {
    } else {
      IdsAfter(t, ws[..|ws| - 1]);
    }
  }

  /** The same mutations, with other numbers for those that bring no ID. */
  ghost predicate SameMutations(batch: seq<Proposal>, again: seq<Proposal>) {
    |batch| == |again| && forall i :: 0 <= i < |batch| ==> batch[i].m == again[i].m
  }

  lemma SameColumns(batch: seq<Proposal>, again: seq<Proposal>)
    requires SameMutations(batch, again)
    ensures BatchColumns(again) == BatchColumns(batch) && Ignored(again) == Ignored(batch)
  {
    forall f ensures Sets(again, f) <==> Sets(batch, f) {
      if i :| 0 <= i < |batch| && ValueIn(batch[i].m, f).Some? {
        assert ValueIn(again[i].m, f).Some?;
      }
      if i :| 0 <= i < |again| && ValueIn(again[i].m, f).Some? {
        assert ValueIn(batch[i].m, f).Some?;
      }
    }
  }

  /** Writing the same batch again, where mutations without an ID get numbers that are not
      in use, changes nothing if and only if every mutation brings its ID. */
  lemma ReplayExactly(t: map<int, TableRow>, batch: seq<Proposal>, again: seq<Proposal>)
    requires Keyed(t) && SameMutations(batch, again)
    requires forall p :: p in again && p.m.id.None? ==> p.number !in Upsert(t, batch)
    ensures Upsert(Upsert(t, batch), again) == Upsert(t, batch) <==> forall p :: p in batch ==> p.m.id.Some?
  {
    hide Upsert, RowId, TableColumns;
    if forall p :: p in batch ==> p.m.id.Some? {
      SameWrites(batch, again);
      SameUpsert(Upsert(t, batch), batch, again);
      ReplayChangesNothing(t, batch);
    } else {
      var p :| p in batch && p.m.id.None?;
      var i :| 0 <= i < |batch| && batch[i] == p;
      assert again[i] in again;
      NewRow(Upsert(t, batch), again, i);
    }
  }

  lemma SameUpsert(t: map<int, TableRow>, batch: seq<Proposal>, again: seq<Proposal>)
    requires WellShaped(t) && WritesOf(again) == WritesOf(batch)
    ensures Upsert(t, again) == Upsert(t, batch)
  {
  }

  lemma SameWrites(batch: seq<Proposal>, again: seq<Proposal>)
    requires SameMutations(batch, again) && forall p :: p in batch ==> p.m.id.Some?
    ensures WritesOf(again) == WritesOf(batch)
  {
    hide BatchColumns, Ignored;
    SameColumns(batch, again);
    forall i | 0 <= i < |batch| ensures WriteOf(again, again[i]) == WriteOf(batch, batch[i]) {
      assert batch[i] in batch;
    }
  }

  lemma NewRow(t: map<int, TableRow>, batch: seq<Proposal>, i: nat)
    requires WellShaped(t) && i < |batch|
    ensures RowId(batch[i]) in Upsert(t, batch)
    ensures batch[i].m.id.None? ==> batch[i].number in Upsert(t, batch)
  {
    IdsAfter(t, WritesOf(batch));
    assert WritesOf(batch)[i] in WritesOf(batch);
  }

  lemma ReplayChangesNothing(t: map<int, TableRow>, batch: seq<Proposal>)
    requires Keyed(t)
    ensures Upsert(Upsert(t, batch), batch) == Upsert(t, batch)
  {
    var ws := WritesOf(batch);
    var once := ApplyAll(t, ws);
    var twice := ApplyAll(once, ws);
    BatchWrites(batch);
    StaysKeyed(t, ws);
    StaysKeyed(once, ws);
    ApplyAppend(t, ws, ws);
    forall id | id in twice ensures id in once && twice[id] == once[id] {
      ReplayRow(t, ws, id);
    }
    forall id | id in once ensures id in twice {
      IdsAfter(once, ws);
    }
    MapsEqual(twice, once);
  }

  lemma ReplayRow(t: map<int, TableRow>, ws: seq<RowWrite>, id: int)
    requires Keyed(t) && FromBatches(ws) && Keyed(ApplyAll(t, ws)) && Keyed(ApplyAll(ApplyAll(t, ws), ws))
    requires id in ApplyAll(ApplyAll(t, ws), ws)
    ensures id in ApplyAll(t, ws) && ApplyAll(ApplyAll(t, ws), ws)[id] == ApplyAll(t, ws)[id]
  {
    var once, twice := ApplyAll(t, ws), ApplyAll(ApplyAll(t, ws), ws);
    CreatedKept(t, ws, id);
    CreatedKept(once, ws, id);
    forall f | f in TableColumns() ensures twice[id][f] == once[id][f] {
      if f != Id && f != Created {
        LatestKept(once, ws, id, f);
        LatestKept(t, ws, id, f);
      }
    }
    MapsEqual(twice[id], once[id]);
  }

  // ----- Histories of bulk saves ----------------------------------------------

  /** A bulk save: its create builders, what the database says to it and the numbers that
      it has for rows without an ID. */
  datatype Attempt = Attempt(builders: seq<Chain.Creator>, engine: Chain.Engine, numbers: nat -> int)

  function Proposals(batch: seq<Mutation>, numbers: nat -> int): seq<Proposal> {
    seq(|batch|, i requires 0 <= i < |batch| => Proposal(batch[i], numbers(i)))
  }

  /** The batches that were written, in order; saves that failed leave none. */
  ghost function WrittenBatches(attempts: seq<Attempt>): seq<seq<Proposal>>
    requires forall a :: a in attempts ==> Chain.NoNil(a.builders)
  {
    if attempts == [] then []
    else
      var last := attempts[|attempts| - 1];
      var r := Chain.Save(last.builders, last.engine);
      var before := WrittenBatches(attempts[..|attempts| - 1]);
      if r.batch.Some? then before + [Proposals(r.batch.value, last.numbers)] else before
  }

  ghost predicate Wrote(a: Attempt) {
    Chain.NoNil(a.builders) && Chain.Save(a.builders, a.engine).batch.Some?
  }

  /** The history has one batch for each save that wrote, in their order, and no other. */
  lemma {:induction false} WrittenExactly(attempts: seq<Attempt>)
    requires forall a :: a in attempts ==> Chain.NoNil(a.builders)
    ensures var saves, history := Filter(attempts, Wrote), WrittenBatches(attempts);
            && |history| == |saves|
            && forall i :: 0 <= i < |saves| ==>
                 && Wrote(saves[i])
                 && history[i]
                    == Proposals(Chain.Save(saves[i].builders, saves[i].engine).batch.value, saves[i].numbers)
  {
    hide Chain.NoNil, Chain.Save;
    if attempts == [] {
    } else {
      var last, before := attempts[|attempts| - 1], attempts[..|attempts| - 1];
      assert last in attempts && attempts == before + [last];
      WrittenExactly(before);
      FilterAppend(before, last, Wrote);
    }
  }

  lemma {:induction false} WrittenChecked(attempts: seq<Attempt>)
    requires forall a :: a in attempts ==> Chain.NoNil(a.builders) && HookKinds.ChecksAll(HookKinds.KindsOf(a.builders))
    ensures forall b, p :: b in WrittenBatches(attempts) && p in b ==> Complete(p.m)
  {
    hide Complete, Chain.Save, Chain.NoNil, HookKinds.ChecksAll, HookKinds.Follows;
    if attempts == [] {
    } else {
      var last := attempts[|attempts| - 1];
      assert last in attempts;
      HookKinds.ChecksAllChecks(last.builders, HookKinds.KindsOf(last.builders), last.engine);
      WrittenChecked(attempts[..|attempts| - 1]);
    }
  }

  /** Main theorem: over every sequence of bulk upserts, some of which may fail, with
      hooks of any kinds that let nothing unchecked through, every row has a creation
      time, and it is the one that its first write proposed. */
  lemma SavesKeepCreated(attempts: seq<Attempt>, id: int)
    requires forall a :: a in attempts ==> Chain.NoNil(a.builders) && HookKinds.ChecksAll(HookKinds.KindsOf(a.builders))
    ensures var history := WrittenBatches(attempts);
            var t, first := TableAfter(map[], history), FirstWrite(AllWrites(history), id);
            && (id in t <==> first.Some?)
            && (id in t ==> first.value.m.created.Some? && t[id][Created] == Stamp(first.value.m.created.value))
  {
    hide TableAfter, AllWrites, WrittenBatches, FirstWrite;
    WrittenChecked(attempts);
    CreatedSetExactly(WrittenBatches(attempts), id);
  }
}
