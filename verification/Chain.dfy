/**
 Hook chains as values: what one nested run of mutators does, for one create
 builder and for a bulk of them. The bulk chain goes down through the hooks of
 builder 0, then of builder 1, and so on; only the last builder writes, and the
 mutations are marked done on the way back up.
 */
module Chain {
  import opened Storage
  import opened Campus

  datatype SaveError = Invalid | Refused(reason: string) | Hooked(reason: string) | Uninitialized | UnexpectedType

  /** What a hook does with the mutator that it wraps, after editing the mutation:
      hand it the same mutation (`Pass`) or another one (`Replace`), never call it
      (`Reject` with an error, `Skip` without), or call it and change the outcome
      (`Swallow` its error, `Fail` after its success). */
  datatype Flow = Pass | Replace(other: Mutation) | Reject(error: SaveError) | Skip | Swallow | Fail(error: SaveError)

  datatype Hook = Nil | Hook(edit: Mutation -> Mutation, flow: Flow)

  datatype Event =
    | Defaulted(i: nat) | Entered(i: nat, j: nat) | Checked(i: nat) | Built(i: nat)
    | Wrote | Finished(i: nat) | Left(i: nat, j: nat)

  /** A create builder: its mutation and its hooks. */
  datatype Creator = Creator(mutation: Mutation, hooks: seq<Hook>)

  /** The mutation on its way down a builder's hooks. The builder keeps its own; a
      hook may hand down another one instead. */
  datatype Carried = Carried(own: Mutation, passed: Mutation, shared: bool)

  function Edited(c: Carried, h: Hook): Carried
    requires h.Hook?
  {
    var m := h.edit(c.passed);
    Carried(if c.shared then m else c.own, m, c.shared)
  }

  function HandedDown(c: Carried, h: Hook): Carried
    requires h.Hook?
  {
    if h.flow.Replace? then Carried(Edited(c, h).own, h.flow.other, false) else Edited(c, h)
  }

  /** The outcome of a hook's own call of the next mutator. */
  function Answer(flow: Flow, inner: Option<SaveError>): Option<SaveError> {
    match flow
    case Swallow => None
    case Fail(e) => if inner.Some? then inner else Some(e)
    case _ => inner
  }

  /** The database's answer to a batch: it may refuse it. */
  type Engine = seq<Mutation> -> Option<SaveError>

  /** A run: its error if any, its events, the batch that was written if any (as
      the mutations that the specifications were built from), and the builders
      whose mutation was marked done. */
  datatype Run = Run(error: Option<SaveError>, events: seq<Event>, batch: Option<seq<Mutation>>, done: set<nat>)

  ghost predicate NoNil(bs: seq<Creator>) {
    forall i, h :: 0 <= i < |bs| && h in bs[i].hooks ==> h.Hook?
  }

  // ----- The bulk chain -------------------------------------------------------

  /** The mutator of builder `i` from hook `j` on. */
  ghost function Mutate(bs: seq<Creator>, i: nat, j: nat, c: Carried, specs: seq<Mutation>, engine: Engine): Run
    requires NoNil(bs) && i < |bs| && j <= |bs[i].hooks|
    decreases |bs| - i, |bs[i].hooks| - j, 2
  {
    if j == |bs[i].hooks| then Innermost(bs, i, c, specs, engine)
    else
      var h := bs[i].hooks[j];
      if h.flow.Reject? then Run(Some(h.flow.error), [Entered(i, j), Left(i, j)], None, {})
      else if h.flow.Skip? then Run(None, [Entered(i, j), Left(i, j)], None, {})
      else
        var inner := Mutate(bs, i, j + 1, HandedDown(c, h), specs, engine);
        Run(Answer(h.flow, inner.error), [Entered(i, j)] + inner.events + [Left(i, j)], inner.batch, inner.done)
  }

  /** The innermost mutator: check the builder's own mutation, adopt the one that
      was handed down, build its specification, call the next builder or write. */
  ghost function Innermost(bs: seq<Creator>, i: nat, c: Carried, specs: seq<Mutation>, engine: Engine): Run
    requires NoNil(bs) && i < |bs|
    decreases |bs| - i, 0, 1
  {
    if !Complete(c.own) then Run(Some(Invalid), [Checked(i)], None, {})
    else
      var inner := Next(bs, i, specs + [c.passed], engine);
      var events := [Checked(i), Built(i)] + inner.events;
      if inner.error.Some? then inner.(events := events)
      else inner.(events := events + [Finished(i)], done := inner.done + {i})
  }

  ghost function Next(bs: seq<Creator>, i: nat, specs: seq<Mutation>, engine: Engine): Run
    requires NoNil(bs) && i < |bs|
    decreases |bs| - i, 0, 0
  {
    if i + 1 < |bs| then Mutate(bs, i + 1, 0, Start(bs[i + 1]), specs, engine)
    else if engine(specs).Some? then Run(engine(specs), [Wrote], None, {})
    else Run(None, [Wrote], Some(specs), {})
  }

  function Start(b: Creator): Carried {
    Carried(b.mutation, b.mutation, true)
  }

  /** Events that follow one another. */
  lemma Then(a: seq<Event>, b: seq<Event>, c: seq<Event>)
    ensures (a + b) + c == a + (b + c) && a + [] == a
  {
  }

  // ----- One step of a run ----------------------------------------------------

  /** What one hook makes of the run below it. */
  lemma HookRun(bs: seq<Creator>, i: nat, j: nat, c: Carried, specs: seq<Mutation>, engine: Engine)
    requires NoNil(bs) && i < |bs| && j < |bs[i].hooks|
    ensures bs[i].hooks[j].Hook?
    ensures var h, r := bs[i].hooks[j], Mutate(bs, i, j, c, specs, engine);
            var inner := Mutate(bs, i, j + 1, HandedDown(c, h), specs, engine);
            r == if h.flow.Reject? then Run(Some(h.flow.error), [Entered(i, j), Left(i, j)], None, {})
                 else if h.flow.Skip? then Run(None, [Entered(i, j), Left(i, j)], None, {})
                 else Run(Answer(h.flow, inner.error),
                          [Entered(i, j)] + inner.events + [Left(i, j)], inner.batch, inner.done)
  {
    hide Innermost, HandedDown;
    assert bs[i].hooks[j] in bs[i].hooks;
  }

  lemma AnswerIs(flow: Flow, inner: Option<SaveError>)
    ensures Answer(flow, inner) ==
              if flow.Swallow? then None else if flow.Fail? && inner.None? then Some(flow.error) else inner
  {
  }

  lemma CoreRun(bs: seq<Creator>, i: nat, c: Carried, specs: seq<Mutation>, engine: Engine)
    requires NoNil(bs) && i < |bs|
    ensures Mutate(bs, i, |bs[i].hooks|, c, specs, engine) == Innermost(bs, i, c, specs, engine)
    ensures var r, inner := Innermost(bs, i, c, specs, engine), Next(bs, i, specs + [c.passed], engine);
            if !Complete(c.own) then r == Run(Some(Invalid), [Checked(i)], None, {})
            else if inner.error.Some? then
              r == Run(inner.error, [Checked(i), Built(i)] + inner.events, inner.batch, inner.done)
            else r == Run(None, [Checked(i), Built(i)] + inner.events + [Finished(i)], inner.batch, inner.done + {i})
  {
    hide Next, Complete;
  }

  lemma NextRun(bs: seq<Creator>, i: nat, specs: seq<Mutation>, engine: Engine)
    requires NoNil(bs) && i < |bs|
    ensures Next(bs, i, specs, engine) ==
              if i + 1 < |bs| then Mutate(bs, i + 1, 0, Start(bs[i + 1]), specs, engine)
              else if engine(specs).Some? then Run(engine(specs), [Wrote], None, {})
              else Run(None, [Wrote], Some(specs), {})
  {
  }

  /** A save applies every builder's defaults, then runs the chain from the first
      builder's outermost hook. */
  ghost function Prepared(bs: seq<Creator>): (r: seq<Creator>)
    ensures |r| == |bs| && forall i :: 0 <= i < |bs| ==> r[i] == Creator(WithDefaults(bs[i].mutation), bs[i].hooks)
  {
    seq(|bs|, i requires 0 <= i < |bs| => Creator(WithDefaults(bs[i].mutation), bs[i].hooks))
  }

  ghost function Defaults(n: nat): seq<Event> {
    seq(n, i requires 0 <= i < n => Defaulted(i))
  }

  lemma OneMoreDefault(before: seq<Event>, i: nat)
    ensures (before + Defaults(i)) + [Defaulted(i)] == before + Defaults(i + 1) && before + Defaults(0) == before
  {
  }

  ghost function Save(bs: seq<Creator>, engine: Engine): Run
    requires NoNil(bs)
  {
    if bs == [] then Run(None, [], None, {})
    else
      var ps := Prepared(bs);
      var r := Mutate(ps, 0, 0, Start(ps[0]), [], engine);
      r.(events := Defaults(|bs|) + r.events)
  }

  lemma SaveRun(bs: seq<Creator>, engine: Engine)
    requires NoNil(bs)
    ensures NoNil(Prepared(bs))
    ensures bs == [] ==> Save(bs, engine) == Run(None, [], None, {}) && Defaults(|bs|) == []
    ensures bs != [] ==>
              var r := Mutate(Prepared(bs), 0, 0, Start(Prepared(bs)[0]), [], engine);
              Save(bs, engine) == r.(events := Defaults(|bs|) + r.events)
  {
    hide Mutate;
  }

  // ----- The shape of every run -----------------------------------------------

  /** Every event that is not a hook's. */
  predicate IsStep(e: Event) {
    !e.Entered? && !e.Left?
  }

  ghost function Steps(events: seq<Event>): seq<Event> {
    Filter(events, IsStep)
  }

  /** The builders from `i` to `k` checked and built, in order. */
  ghost function Down(i: nat, k: nat): seq<Event>
    decreases k - i
  {
    if i >= k then [] else [Checked(i), Built(i)] + Down(i + 1, k)
  }

  /** Some of the builders from `i` to `k` finished, in reverse order. */
  ghost function Up(i: nat, k: nat, done: set<nat>): seq<Event>
    decreases k - i
  {
    if i >= k then [] else Up(i + 1, k, done) + if i in done then [Finished(i)] else []
  }

  /** What happens at the bottom: nothing, a failed check, or a write. */
  ghost predicate Bottom(n: nat, k: nat, bottom: seq<Event>) {
    bottom == [] || (k < n && bottom == [Checked(k)]) || (k == n && bottom == [Wrote])
  }

  ghost predicate Shaped(n: nat, i: nat, r: Run, k: nat, bottom: seq<Event>) {
    && i <= k <= n && Bottom(n, k, bottom)
    && Steps(r.events) == Down(i, k) + bottom + Up(i, k, r.done)
    && (forall d :: d in r.done ==> i <= d < k)
    && (r.batch.Some? ==> bottom == [Wrote] && |r.batch.value| == n)
  }

  /** A hook's own events are no steps. */
  lemma HookSteps(i: nat, j: nat, events: seq<Event>)
    ensures Steps([Entered(i, j)] + events + [Left(i, j)]) == Steps(events)
    ensures Steps([Entered(i, j), Left(i, j)]) == []
  {
    FilterSum([Entered(i, j)] + events, [Left(i, j)], IsStep);
    FilterSum([Entered(i, j)], events, IsStep);
    FilterSum([Entered(i, j)], [Left(i, j)], IsStep);
    assert [Entered(i, j)] + [Left(i, j)] == [Entered(i, j), Left(i, j)];
  }

  lemma OneStep(e: Event)
    requires IsStep(e)
    ensures Steps([e]) == [e]
  {
    FilterAll([e], IsStep);
  }

  lemma BuilderSteps(i: nat, events: seq<Event>)
    ensures Steps([Checked(i), Built(i)] + events) == [Checked(i), Built(i)] + Steps(events)
    ensures Steps(events + [Finished(i)]) == Steps(events) + [Finished(i)]
  {
    FilterSum([Checked(i)], [Built(i)], IsStep);
    assert [Checked(i)] + [Built(i)] == [Checked(i), Built(i)];
    FilterSum([Checked(i), Built(i)], events, IsStep);
    FilterSum(events, [Finished(i)], IsStep);
  }

  lemma {:induction false} UpIgnores(i: nat, k: nat, done: set<nat>, more: set<nat>)
    requires forall d :: i <= d < k ==> (d in done <==> d in more)
    ensures Up(i, k, done) == Up(i, k, more)
    decreases k - i
  {
    if i >= k {
    } else {
      UpIgnores(i + 1, k, done, more);
    }
  }

  /** Trace shape, whatever the hooks do: checks and specifications in the order
      of the builders, at most one write after all of them, and the marks in
      reverse order after it. */
  lemma {:induction false} MutateShape(bs: seq<Creator>, i: nat, j: nat, c: Carried, specs: seq<Mutation>,
                                       engine: Engine)
    returns (k: nat, bottom: seq<Event>)
    requires NoNil(bs) && i < |bs| && j <= |bs[i].hooks| && |specs| == i
    ensures Shaped(|bs|, i, Mutate(bs, i, j, c, specs, engine), k, bottom)
    decreases |bs| - i, |bs[i].hooks| - j, 1
  {
    var r := Mutate(bs, i, j, c, specs, engine);
    if j == |bs[i].hooks| {
      k, bottom := InnermostShape(bs, i, c, specs, engine);
    } else {
      var h := bs[i].hooks[j];
      assert h in bs[i].hooks;
      if h.flow.Reject? || h.flow.Skip? {
        k, bottom := i, [];
        HookSteps(i, j, []);
      } else {
        var inner := Mutate(bs, i, j + 1, HandedDown(c, h), specs, engine);
        k, bottom := MutateShape(bs, i, j + 1, HandedDown(c, h), specs, engine);
        HookSteps(i, j, inner.events);
      }
    }
  }

  lemma {:induction false} InnermostShape(bs: seq<Creator>, i: nat, c: Carried, specs: seq<Mutation>, engine: Engine)
    returns (k: nat, bottom: seq<Event>)
    requires NoNil(bs) && i < |bs| && |specs| == i
    ensures Shaped(|bs|, i, Innermost(bs, i, c, specs, engine), k, bottom)
    decreases |bs| - i, 0, 0
  {
    var r := Innermost(bs, i, c, specs, engine);
    if !Complete(c.own) {
      k, bottom := i, [Checked(i)];
      OneStep(Checked(i));
    } else {
      var inner := Next(bs, i, specs + [c.passed], engine);
      if i + 1 < |bs| {
        k, bottom := MutateShape(bs, i + 1, 0, Start(bs[i + 1]), specs + [c.passed], engine);
      } else {
        k, bottom := i + 1, [Wrote];
        OneStep(Wrote);
      }
      BuilderSteps(i, inner.events);
      BuilderSteps(i, [Checked(i), Built(i)] + inner.events);
      UpIgnores(i + 1, k, inner.done, r.done);
      ShapeAround(i, k, bottom, inner.done, r.done);
    }
  }

  lemma ShapeAround(i: nat, k: nat, bottom: seq<Event>, inner: set<nat>, done: set<nat>)
    requires i < k && Up(i + 1, k, inner) == Up(i + 1, k, done)
    ensures [Checked(i), Built(i)] + (Down(i + 1, k) + bottom + Up(i + 1, k, inner))
            + (if i in done then [Finished(i)] else [])
         == Down(i, k) + bottom + Up(i, k, done)
  {
  }

  /** The same for a whole save: all defaults come first. */
  lemma SaveShape(bs: seq<Creator>, engine: Engine) returns (k: nat, bottom: seq<Event>)
    requires NoNil(bs)
    ensures var r := Save(bs, engine);
            && k <= |bs| && Bottom(|bs|, k, bottom) && (bs == [] ==> bottom == [])
            && Steps(r.events) == Defaults(|bs|) + Down(0, k) + bottom + Up(0, k, r.done)
            && (forall d :: d in r.done ==> d < k) && (r.batch.Some? ==> bottom == [Wrote] && |r.batch.value| == |bs|)
  {
    if bs == [] {
      k, bottom := 0, [];
      assert Defaults(0) == [];
    } else {
      var ps := Prepared(bs);
      var inner := Mutate(ps, 0, 0, Start(ps[0]), [], engine);
      k, bottom := MutateShape(ps, 0, 0, Start(ps[0]), [], engine);
      FilterSum(Defaults(|bs|), inner.events, IsStep);
      FilterAll(Defaults(|bs|), IsStep);
      assert Defaults(|bs|) + (Down(0, k) + bottom + Up(0, k, inner.done))
             == Defaults(|bs|) + Down(0, k) + bottom + Up(0, k, inner.done);
    }
  }

  // ----- What is written ------------------------------------------------------

  /** The mutation after all hooks from `j` on, each handing down. */
  ghost function Arriving(hooks: seq<Hook>, j: nat, c: Carried): Carried
    requires j <= |hooks| && forall h :: h in hooks ==> h.Hook?
    decreases |hooks| - j
  {
    if j == |hooks| then c else Arriving(hooks, j + 1, HandedDown(c, hooks[j]))
  }

  /** The carried mutation of each builder when its innermost mutator is reached. */
  ghost function Reaching(bs: seq<Creator>, i: nat): Carried
    requires NoNil(bs) && i < |bs|
  {
    Arriving(bs[i].hooks, 0, Start(bs[i]))
  }

  /** The mutations that arrive, builder by builder. */
  ghost function Arrivals(bs: seq<Creator>, i: nat): seq<Mutation>
    requires NoNil(bs)
    decreases |bs| - i
  {
    if i >= |bs| then [] else [Reaching(bs, i).passed] + Arrivals(bs, i + 1)
  }

  lemma {:induction false} ArrivalAt(bs: seq<Creator>, i: nat, l: nat)
    requires NoNil(bs) && i <= l < |bs|
    ensures |Arrivals(bs, i)| == |bs| - i && Arrivals(bs, i)[l - i] == Reaching(bs, l).passed
    decreases |bs| - i
  {
    hide Arriving, HandedDown;
    if i == l {
      if i + 1 < |bs| {
        ArrivalAt(bs, i + 1, i + 1);
      }
    } else {
      ArrivalAt(bs, i + 1, l);
    }
  }

  /** A write, whatever the hooks do, holds the mutation that reached each builder,
      and every builder's own mutation passed its check: a failed check means no
      write at all. */
  lemma {:induction false} WritesReach(bs: seq<Creator>, i: nat, j: nat, c: Carried, specs: seq<Mutation>,
                                       engine: Engine)
    requires NoNil(bs) && i < |bs| && j <= |bs[i].hooks| && |specs| == i
    requires Mutate(bs, i, j, c, specs, engine).batch.Some?
    ensures var batch := Mutate(bs, i, j, c, specs, engine).batch.value;
            && |batch| == |bs| && batch[..i] == specs && engine(batch).None?
            && batch[i] == Arriving(bs[i].hooks, j, c).passed && Complete(Arriving(bs[i].hooks, j, c).own)
            && forall l :: i < l < |bs| ==> batch[l] == Reaching(bs, l).passed && Complete(Reaching(bs, l).own)
    decreases |bs| - i, |bs[i].hooks| - j
  {
    if j == |bs[i].hooks| {
      assert Mutate(bs, i, j, c, specs, engine) == Innermost(bs, i, c, specs, engine);
      var inner := Next(bs, i, specs + [c.passed], engine);
      if i + 1 < |bs| {
        WritesReach(bs, i + 1, 0, Start(bs[i + 1]), specs + [c.passed], engine);
        var batch := Mutate(bs, i + 1, 0, Start(bs[i + 1]), specs + [c.passed], engine).batch.value;
        assert batch[..i + 1][..i] == specs && batch[i] == batch[..i + 1][i];
      }
    } else {
      var h := bs[i].hooks[j];
      assert h in bs[i].hooks;
      WritesReach(bs, i, j + 1, HandedDown(c, h), specs, engine);
    }
  }

  lemma SaveWrites(bs: seq<Creator>, engine: Engine)
    requires NoNil(bs) && Save(bs, engine).batch.Some?
    ensures var ps, batch := Prepared(bs), Save(bs, engine).batch.value;
            && |batch| == |bs| && engine(batch).None?
            && forall i :: 0 <= i < |bs| ==> batch[i] == Reaching(ps, i).passed && Complete(Reaching(ps, i).own)
  {
    var ps := Prepared(bs);
    WritesReach(ps, 0, 0, Start(ps[0]), [], engine);
  }

  /** A hook that never calls the next mutator. */
  predicate Stops(h: Hook) {
    h.Hook? && (h.flow.Reject? || h.flow.Skip?)
  }

  ghost predicate Stopped(hooks: seq<Hook>, j: nat) {
    exists l :: j <= l < |hooks| && Stops(hooks[l])
  }

  /** A builder whose innermost mutator is reached and whose check passes. */
  ghost predicate Passes(bs: seq<Creator>, i: nat)
    requires NoNil(bs) && i < |bs|
  {
    !Stopped(bs[i].hooks, 0) && Complete(Reaching(bs, i).own)
  }

  /** The builders from `i` on all pass. */
  ghost predicate AllPass(bs: seq<Creator>, i: nat)
    requires NoNil(bs)
    decreases |bs| - i
  {
    i >= |bs| || (Passes(bs, i) && AllPass(bs, i + 1))
  }

  lemma {:induction false} EachPasses(bs: seq<Creator>, i: nat)
    requires NoNil(bs)
    ensures AllPass(bs, i) <==> forall l :: i <= l < |bs| ==> Passes(bs, l)
    decreases |bs| - i
  {
    if i >= |bs| {
    } else {
      EachPasses(bs, i + 1);
    }
  }

  lemma {:induction false} MutateWrites(bs: seq<Creator>, i: nat, j: nat, c: Carried, specs: seq<Mutation>,
                                        engine: Engine)
    requires NoNil(bs) && i < |bs| && j <= |bs[i].hooks|
    ensures var arriving := Arriving(bs[i].hooks, j, c);
            var sent := specs + ([arriving.passed] + Arrivals(bs, i + 1));
            var writes := !Stopped(bs[i].hooks, j) && Complete(arriving.own) && AllPass(bs, i + 1)
                && engine(sent).None?;
            Mutate(bs, i, j, c, specs, engine).batch == if writes then Some(sent) else None
    decreases |bs| - i, |bs[i].hooks| - j
  {
    hide Complete;
    if j == |bs[i].hooks| {
      CoreRun(bs, i, c, specs, engine);
      NextRun(bs, i, specs + [c.passed], engine);
      if i + 1 < |bs| {
        MutateWrites(bs, i + 1, 0, Start(bs[i + 1]), specs + [c.passed], engine);
        assert specs + [c.passed] + Arrivals(bs, i + 1) == specs + ([c.passed] + Arrivals(bs, i + 1));
      } else {
        assert [c.passed] + Arrivals(bs, i + 1) == [c.passed];
      }
    } else {
      HookRun(bs, i, j, c, specs, engine);
      var h := bs[i].hooks[j];
      if !Stops(h) {
        MutateWrites(bs, i, j + 1, HandedDown(c, h), specs, engine);
        assert Stopped(bs[i].hooks, j) <==> Stopped(bs[i].hooks, j + 1);
      }
    }
  }

  /** Main theorem, for any hooks: a bulk save writes if and only if no hook stops it,
      every builder's own mutation passes its check and the database accepts; then
      it writes exactly the mutations that were handed down. */
  lemma SaveWritesExactly(bs: seq<Creator>, engine: Engine)
    requires bs != [] && NoNil(bs)
    ensures NoNil(Prepared(bs))
    ensures var ps := Prepared(bs);
            var writes := (forall i :: 0 <= i < |ps| ==> Passes(ps, i)) && engine(Arrivals(ps, 0)).None?;
            Save(bs, engine).batch == if writes then Some(Arrivals(ps, 0)) else None
  {
    hide Mutate, Complete, Arriving, Stopped;
    var ps := Prepared(bs);
    MutateWrites(ps, 0, 0, Start(ps[0]), [], engine);
    assert [] + Arrivals(ps, 0) == Arrivals(ps, 0);
    EachPasses(ps, 0);
  }

  // ----- All or nothing -------------------------------------------------------

  /** The builders from `i` on. */
  ghost function From(i: nat, n: nat): set<nat>
    decreases n - i
  {
    if i >= n then {} else {i} + From(i + 1, n)
  }

  /** No error means that everything was written and marked done; an error means
      that nothing was. */
  ghost predicate AllOrNothing(n: nat, r: Run) {
    if r.error.None? then r.batch.Some? && r.done == From(0, n) else r.batch.None? && r.done == {}
  }

  /** Hooks that call the next mutator once and hand on its outcome, or fail. */
  predicate Harmless(f: Flow) {
    f.Pass? || f.Replace? || f.Reject?
  }

  ghost predicate AllHarmless(bs: seq<Creator>) {
    forall i, h :: 0 <= i < |bs| && h in bs[i].hooks ==> h.Hook? && Harmless(h.flow)
  }

  lemma {:induction false} HarmlessMutate(bs: seq<Creator>, i: nat, j: nat, c: Carried, specs: seq<Mutation>,
                                          engine: Engine)
    requires AllHarmless(bs) && i < |bs| && j <= |bs[i].hooks|
    ensures var r := Mutate(bs, i, j, c, specs, engine);
            if r.error.None? then r.batch.Some? && r.done == From(i, |bs|) else r.batch.None? && r.done == {}
    decreases |bs| - i, |bs[i].hooks| - j
  {
    if j == |bs[i].hooks| {
      assert Mutate(bs, i, j, c, specs, engine) == Innermost(bs, i, c, specs, engine);
      var inner := Next(bs, i, specs + [c.passed], engine);
      if i + 1 < |bs| {
        HarmlessMutate(bs, i + 1, 0, Start(bs[i + 1]), specs + [c.passed], engine);
      }
    } else {
      var h := bs[i].hooks[j];
      assert h in bs[i].hooks;
      if !h.flow.Reject? {
        HarmlessMutate(bs, i, j + 1, HandedDown(c, h), specs, engine);
      }
    }
  }

  /** Main theorem: with harmless hooks, however many and whatever they edit, a
      bulk save is all or nothing. */
  lemma SaveAllOrNothing(bs: seq<Creator>, engine: Engine)
    requires bs != [] && AllHarmless(bs)
    ensures AllOrNothing(|bs|, Save(bs, engine))
  {
    var ps := Prepared(bs);
    HarmlessMutate(ps, 0, 0, Start(ps[0]), [], engine);
  }

  // ----- Which error, which batch ---------------------------------------------

  /** The first thing wrong with a builder itself: a hook that rejects, else its
      own mutation at the check. */
  ghost function Fault(hooks: seq<Hook>, j: nat, c: Carried): Option<SaveError>
    requires j <= |hooks| && forall h :: h in hooks ==> h.Hook?
    decreases |hooks| - j
  {
    if j == |hooks| then if Complete(c.own) then None else Some(Invalid)
    else if hooks[j].flow.Reject? then Some(hooks[j].flow.error)
    else Fault(hooks, j + 1, HandedDown(c, hooks[j]))
  }

  ghost function FirstFault(bs: seq<Creator>, i: nat): Option<SaveError>
    requires NoNil(bs)
    decreases |bs| - i
  {
    if i >= |bs| then None
    else
      var fault := Fault(bs[i].hooks, 0, Start(bs[i]));
      if fault.Some? then fault else FirstFault(bs, i + 1)
  }

  lemma {:induction false} MutateExactly(bs: seq<Creator>, i: nat, j: nat, c: Carried, specs: seq<Mutation>,
                                         engine: Engine)
    requires AllHarmless(bs) && i < |bs| && j <= |bs[i].hooks|
    ensures var r, fault := Mutate(bs, i, j, c, specs, engine), Fault(bs[i].hooks, j, c);
            var sent := specs + ([Arriving(bs[i].hooks, j, c).passed] + Arrivals(bs, i + 1));
            && r.error == (if fault.Some? then fault
                           else if FirstFault(bs, i + 1).Some? then FirstFault(bs, i + 1) else engine(sent))
            && (r.error.None? ==> r.batch == Some(sent))
    decreases |bs| - i, |bs[i].hooks| - j
  {
    if j == |bs[i].hooks| {
      assert Mutate(bs, i, j, c, specs, engine) == Innermost(bs, i, c, specs, engine);
      var inner := Next(bs, i, specs + [c.passed], engine);
      if i + 1 < |bs| {
        MutateExactly(bs, i + 1, 0, Start(bs[i + 1]), specs + [c.passed], engine);
        assert specs + [c.passed] + Arrivals(bs, i + 1) == specs + ([c.passed] + Arrivals(bs, i + 1));
      } else {
        assert [c.passed] + Arrivals(bs, i + 1) == [c.passed];
      }
    } else {
      var h := bs[i].hooks[j];
      assert h in bs[i].hooks;
      if !h.flow.Reject? {
        MutateExactly(bs, i, j + 1, HandedDown(c, h), specs, engine);
      }
    }
  }

  lemma SaveIsMutate(bs: seq<Creator>, engine: Engine)
    requires bs != [] && AllHarmless(bs)
    ensures NoNil(bs) && AllHarmless(Prepared(bs))
    ensures var r, ps := Save(bs, engine), Prepared(bs);
            var m := Mutate(ps, 0, 0, Start(ps[0]), [], engine);
            r.error == m.error && r.batch == m.batch && r.done == m.done
  {
    hide Mutate;
  }

  lemma AllOrNothingIs(n: nat, r: Run)
    requires AllOrNothing(n, r)
    ensures r.error.None? ==> r.done == From(0, n)
    ensures r.error.Some? ==> r.batch.None? && r.done == {}
  {
  }

  lemma FromTheFirst(ps: seq<Creator>)
    requires ps != [] && AllHarmless(ps)
    ensures NoNil(ps)
    ensures Arrivals(ps, 0) == [Arriving(ps[0].hooks, 0, Start(ps[0])).passed] + Arrivals(ps, 1)
    ensures FirstFault(ps, 0) ==
              var fault := Fault(ps[0].hooks, 0, Start(ps[0])); if fault.Some? then fault else FirstFault(ps, 1)
  {
  }

  /** Main theorem: with harmless hooks a bulk save fails with the error of the
      first builder that has a fault, else with the database's refusal if any, and
      otherwise writes, once, exactly the mutations that arrived. */
  lemma SaveExactly(bs: seq<Creator>, engine: Engine)
    requires bs != [] && AllHarmless(bs)
    ensures var ps, r := Prepared(bs), Save(bs, engine);
            && r.error == (if FirstFault(ps, 0).Some? then FirstFault(ps, 0) else engine(Arrivals(ps, 0)))
            && r.batch == (if r.error.None? then Some(Arrivals(ps, 0)) else None)
            && r.done == (if r.error.None? then From(0, |bs|) else {})
  {
    hide *;
    SaveIsMutate(bs, engine);
    SaveAllOrNothing(bs, engine);
    AllOrNothingIs(|bs|, Save(bs, engine));
    var ps := Prepared(bs);
    MutateExactly(ps, 0, 0, Start(ps[0]), [], engine);
    FromTheFirst(ps);
    assert [] + Arrivals(ps, 0) == Arrivals(ps, 0);
  }

  /** With hooks that only pass, what arrives is the mutation with its defaults,
      edited by every hook in order, both to be checked and to be written. */
  ghost function EditAll(hooks: seq<Hook>, j: nat, m: Mutation): Mutation
    requires j <= |hooks| && forall h :: h in hooks ==> h.Hook?
    decreases |hooks| - j
  {
    if j == |hooks| then m else EditAll(hooks, j + 1, hooks[j].edit(m))
  }

  lemma {:induction false} PassingArrives(hooks: seq<Hook>, j: nat, m: Mutation)
    requires j <= |hooks| && forall h :: h in hooks ==> h.Hook? && h.flow.Pass?
    ensures Arriving(hooks, j, Carried(m, m, true)) == Carried(EditAll(hooks, j, m), EditAll(hooks, j, m), true)
    decreases |hooks| - j
  {
    if j == |hooks| {
    } else {
      PassingArrives(hooks, j + 1, hooks[j].edit(m));
    }
  }

  // ----- Hooks nest -----------------------------------------------------------

  ghost function Enters(i: nat, j: nat, n: nat): seq<Event>
    decreases n - j
  {
    if j >= n then [] else [Entered(i, j)] + Enters(i, j + 1, n)
  }

  ghost function Leaves(i: nat, j: nat, n: nat): seq<Event>
    decreases n - j
  {
    if j >= n then [] else Leaves(i, j + 1, n) + [Left(i, j)]
  }

  lemma Around(a: seq<Event>, b: seq<Event>, c: seq<Event>, d: seq<Event>, e: seq<Event>)
    ensures a + (b + c + d) + e == (a + b) + c + (d + e)
  {
  }

  /** Unless a hook stops the chain, the hooks of a builder are entered in order,
      its innermost mutator runs once, and they are left in reverse order. */
  lemma {:induction false} HooksNest(bs: seq<Creator>, i: nat, j: nat, c: Carried, specs: seq<Mutation>, engine: Engine)
    requires NoNil(bs) && i < |bs| && j <= |bs[i].hooks|
    requires forall h :: h in bs[i].hooks ==> !h.flow.Reject? && !h.flow.Skip?
    ensures var n, r := |bs[i].hooks|, Mutate(bs, i, j, c, specs, engine);
            var core := Innermost(bs, i, Arriving(bs[i].hooks, j, c), specs, engine);
            r.events == Enters(i, j, n) + core.events + Leaves(i, j, n) && r.batch == core.batch && r.done == core.done
    decreases |bs[i].hooks| - j
  {
    if j == |bs[i].hooks| {
    } else {
      var h := bs[i].hooks[j];
      assert h in bs[i].hooks;
      hide Innermost, HandedDown;
      HooksNest(bs, i, j + 1, HandedDown(c, h), specs, engine);
      var n, core := |bs[i].hooks|, Innermost(bs, i, Arriving(bs[i].hooks, j, c), specs, engine);
      Around([Entered(i, j)], Enters(i, j + 1, n), core.events, Leaves(i, j + 1, n), [Left(i, j)]);
    }
  }

  /** A run marks only builders that it reaches. */
  lemma NextDone(bs: seq<Creator>, i: nat, specs: seq<Mutation>, engine: Engine)
    requires NoNil(bs) && i < |bs| && |specs| == i + 1
    ensures forall d :: d in Next(bs, i, specs, engine).done ==> i < d
  {
    if i + 1 < |bs| {
      var _, _ := MutateShape(bs, i + 1, 0, Start(bs[i + 1]), specs, engine);
    }
  }

  // ----- A single create ------------------------------------------------------

  /** The operation itself: check, specification, write. */
  ghost function Exec(m: Mutation, engine: Engine): Run {
    if !Complete(m) then Run(Some(Invalid), [Checked(0)], None, {})
    else if engine([m]).Some? then Run(engine([m]), [Checked(0), Built(0), Wrote], None, {})
    else Run(None, [Checked(0), Built(0), Wrote, Finished(0)], Some([m]), {0})
  }

  /** The hooks from `j` on around the operation. The innermost mutator copies the
      mutation that was handed down into the builder's own before the checks. */
  ghost function Wrapped(hooks: seq<Hook>, j: nat, m: Mutation, engine: Engine): Run
    requires j <= |hooks| && forall h :: h in hooks ==> h.Hook?
    decreases |hooks| - j
  {
    if j == |hooks| then Exec(m, engine)
    else
      var h := hooks[j];
      if h.flow.Reject? then Run(Some(h.flow.error), [Entered(0, j), Left(0, j)], None, {})
      else if h.flow.Skip? then Run(None, [Entered(0, j), Left(0, j)], None, {})
      else
        var inner := Wrapped(hooks, j + 1, if h.flow.Replace? then h.flow.other else h.edit(m), engine);
        Run(Answer(h.flow, inner.error), [Entered(0, j)] + inner.events + [Left(0, j)], inner.batch, inner.done)
  }

  /** What the operation on a mutation says. */
  function Verdict(m: Mutation, engine: Engine): Option<SaveError> {
    if Complete(m) then engine([m]) else Some(Invalid)
  }

  /** The value that goes up a single create's hooks: none of any type from a hook that
      never calls the next mutator, a nil node from an operation that failed, or the
      node that was written. A hook that calls the next mutator hands on its value. */
  datatype Handed<+T> = Untyped | NilNode | Written(node: T)

  ghost function HandedUp(hooks: seq<Hook>, j: nat, m: Mutation, engine: Engine): Handed<Mutation>
    requires j <= |hooks| && forall h :: h in hooks ==> h.Hook?
    decreases |hooks| - j
  {
    if j == |hooks| then if Verdict(m, engine).Some? then NilNode else Written(m)
    else if Stops(hooks[j]) then Untyped
    else HandedUp(hooks, j + 1, if hooks[j].flow.Replace? then hooks[j].flow.other else hooks[j].edit(m), engine)
  }

  /** A single create asserts the type of the value that it gets back, and a nil node is
      of that type. */
  ghost function WithHooks(hooks: seq<Hook>, m: Mutation, engine: Engine): Run {
    if Nil in hooks then Run(Some(Uninitialized), [], None, {})
    else
      var r := Wrapped(hooks, 0, m, engine);
      if r.error.None? && HandedUp(hooks, 0, m, engine).Untyped? then r.(error := Some(UnexpectedType)) else r
  }

  ghost function CreateOne(b: Creator, engine: Engine): Run {
    var r := WithHooks(b.hooks, WithDefaults(b.mutation), engine);
    r.(events := [Defaulted(0)] + r.events)
  }

  lemma WrapRun(hooks: seq<Hook>, j: nat, m: Mutation, engine: Engine)
    requires j < |hooks| && Nil !in hooks
    ensures (forall h :: h in hooks ==> h.Hook?) && hooks[j].Hook?
    ensures var h, r := hooks[j], Wrapped(hooks, j, m, engine);
            var inner := Wrapped(hooks, j + 1, if h.flow.Replace? then h.flow.other else h.edit(m), engine);
            r == if h.flow.Reject? then Run(Some(h.flow.error), [Entered(0, j), Left(0, j)], None, {})
                 else if h.flow.Skip? then Run(None, [Entered(0, j), Left(0, j)], None, {})
                 else Run(Answer(h.flow, inner.error),
                          [Entered(0, j)] + inner.events + [Left(0, j)], inner.batch, inner.done)
    ensures var h := hooks[j];
            HandedUp(hooks, j, m, engine) ==
              if h.flow.Reject? || h.flow.Skip? then Untyped
              else HandedUp(hooks, j + 1, if h.flow.Replace? then h.flow.other else h.edit(m), engine)
  {
    assert forall h :: h in hooks ==> h.Hook?;
  }

  lemma NilRun(hooks: seq<Hook>, m: Mutation, engine: Engine)
    requires Nil in hooks
    ensures WithHooks(hooks, m, engine) == Run(Some(Uninitialized), [], None, {})
  {
  }

  lemma WithHooksRun(hooks: seq<Hook>, m: Mutation, engine: Engine)
    requires Nil !in hooks
    ensures forall h :: h in hooks ==> h.Hook?
    ensures Wrapped(hooks, |hooks|, m, engine) == Exec(m, engine)
    ensures HandedUp(hooks, |hooks|, m, engine) == if Exec(m, engine).error.Some? then NilNode else Written(m)
    ensures hooks == [] ==> WithHooks(hooks, m, engine) == Exec(m, engine)
    ensures var r := Wrapped(hooks, 0, m, engine);
            WithHooks(hooks, m, engine) ==
              if r.error.None? && HandedUp(hooks, 0, m, engine).Untyped? then r.(error := Some(UnexpectedType)) else r
  {
  }

  /** A node is handed up if and only if it was written. */
  lemma {:induction false} HandedWritten(hooks: seq<Hook>, j: nat, m: Mutation, engine: Engine)
    requires j <= |hooks| && Nil !in hooks
    ensures forall h :: h in hooks ==> h.Hook?
    ensures var batch := Wrapped(hooks, j, m, engine).batch;
            batch == match HandedUp(hooks, j, m, engine) { case Written(n) => Some([n]) case _ => None }
    decreases |hooks| - j
  {
    hide Complete;
    assert forall h :: h in hooks ==> h.Hook?;
    if j == |hooks| {
    } else {
      HandedWritten(hooks, j + 1, if hooks[j].flow.Replace? then hooks[j].flow.other else hooks[j].edit(m), engine);
    }
  }

  /** What is written by a single create has passed the checks, whatever the
      hooks do. */
  lemma {:induction false} WrappedChecked(hooks: seq<Hook>, j: nat, m: Mutation, engine: Engine)
    requires j <= |hooks| && forall h :: h in hooks ==> h.Hook?
    requires Wrapped(hooks, j, m, engine).batch.Some?
    ensures var batch := Wrapped(hooks, j, m, engine).batch.value;
            |batch| == 1 && Complete(batch[0]) && engine(batch).None?
    decreases |hooks| - j
  {
    if j == |hooks| {
    } else {
      assert hooks[j] in hooks;
      WrappedChecked(hooks, j + 1, if hooks[j].flow.Replace? then hooks[j].flow.other else hooks[j].edit(m), engine);
    }
  }

  /** With hooks that only pass, they are entered in order, the operation runs once
      on the mutation as edited by all of them, and they are left in reverse. If
      any hook is nil, nothing runs at all. */
  lemma HooksWrap(hooks: seq<Hook>, m: Mutation, engine: Engine)
    ensures Nil in hooks ==> WithHooks(hooks, m, engine) == Run(Some(Uninitialized), [], None, {})
    ensures (forall h :: h in hooks ==> h.Hook? && h.flow.Pass?) ==>
              var core, n := Exec(EditAll(hooks, 0, m), engine), |hooks|;
              WithHooks(hooks, m, engine) == core.(events := Enters(0, 0, n) + core.events + Leaves(0, 0, n))
  {
    if forall h :: h in hooks ==> h.Hook? && h.flow.Pass? {
      PassingWraps(hooks, 0, m, engine);
    }
  }

  lemma {:induction false} PassingWraps(hooks: seq<Hook>, j: nat, m: Mutation, engine: Engine)
    requires j <= |hooks| && forall h :: h in hooks ==> h.Hook? && h.flow.Pass?
    ensures var core, n := Exec(EditAll(hooks, j, m), engine), |hooks|;
            Wrapped(hooks, j, m, engine) == core.(events := Enters(0, j, n) + core.events + Leaves(0, j, n))
    ensures !HandedUp(hooks, j, m, engine).Untyped?
    decreases |hooks| - j
  {
    var core, n := Exec(EditAll(hooks, j, m), engine), |hooks|;
    if j < n {
      assert hooks[j] in hooks;
      PassingWraps(hooks, j + 1, hooks[j].edit(m), engine);
      Around([Entered(0, j)], Enters(0, j + 1, n), core.events, Leaves(0, j + 1, n), [Left(0, j)]);
    } else {
      assert [] + core.events + [] == core.events;
    }
  }

  /** How a chain around the given outcome ends. */
  ghost function Ends(hooks: seq<Hook>, j: nat, core: Option<SaveError>): Option<SaveError>
    requires j <= |hooks| && forall h :: h in hooks ==> h.Hook?
    decreases |hooks| - j
  {
    if j == |hooks| then core
    else if hooks[j].flow.Reject? then Some(hooks[j].flow.error)
    else if hooks[j].flow.Skip? then None
    else Answer(hooks[j].flow, Ends(hooks, j + 1, core))
  }

  /** Some hook swallows what comes up to it, and no hook around it fails after that. */
  ghost predicate Hides(hooks: seq<Hook>, j: nat)
    requires forall h :: h in hooks ==> h.Hook?
  {
    exists l :: j <= l < |hooks| && hooks[l].flow.Swallow? && forall i :: j <= i < l ==> !hooks[i].flow.Fail?
  }

  ghost predicate NeverFails(hooks: seq<Hook>, j: nat)
    requires forall h :: h in hooks ==> h.Hook?
  {
    forall l :: j <= l < |hooks| ==> !hooks[l].flow.Fail?
  }

  lemma {:induction false} EndsIs(hooks: seq<Hook>, j: nat, core: Option<SaveError>)
    requires j <= |hooks| && (forall h :: h in hooks ==> h.Hook?) && !Stopped(hooks, j)
    ensures Ends(hooks, j, core).None? <==> Hides(hooks, j) || (core.None? && NeverFails(hooks, j))
    decreases |hooks| - j
  {
    if j == |hooks| {
    } else {
      assert hooks[j] in hooks && !Stops(hooks[j]);
      EndsIs(hooks, j + 1, core);
      HidesStep(hooks, j);
    }
  }

  lemma HidesStep(hooks: seq<Hook>, j: nat)
    requires j < |hooks| && forall h :: h in hooks ==> h.Hook?
    ensures Hides(hooks, j) <==> hooks[j].flow.Swallow? || (!hooks[j].flow.Fail? && Hides(hooks, j + 1))
    ensures NeverFails(hooks, j) <==> !hooks[j].flow.Fail? && NeverFails(hooks, j + 1)
  {
    if l :| j + 1 <= l < |hooks| && hooks[l].flow.Swallow? && forall i :: j + 1 <= i < l ==> !hooks[i].flow.Fail? {
      if !hooks[j].flow.Fail? {
        assert forall i :: j <= i < l ==> !hooks[i].flow.Fail?;
      }
    }
  }

  /** Main theorem, for any hooks: when a single create writes, what it writes and when
      it reports no error. It reports none although nothing was written if and only
      if the operation ran and failed, and a hook hides that. */
  lemma CreatedIsWritten(b: Creator, engine: Engine)
    ensures Nil in b.hooks ==> CreateOne(b, engine) == Run(Some(Uninitialized), [Defaulted(0)], None, {})
    ensures Nil !in b.hooks ==> forall h :: h in b.hooks ==> h.Hook?
    ensures Nil !in b.hooks ==>
              var r, m := CreateOne(b, engine), Arriving(b.hooks, 0, Start(Prepared([b])[0])).passed;
              var ran, failed := !Stopped(b.hooks, 0), Verdict(m, engine).Some?;
              && r.batch == (if ran && !failed then Some([m]) else None)
              && (r.error.None? <==> ran && (Hides(b.hooks, 0) || (!failed && NeverFails(b.hooks, 0))))
              && (r.error.None? && r.batch.None? <==> ran && failed && Hides(b.hooks, 0))
  {
    hide Wrapped, Mutate, Arriving, Stopped, Verdict, Ends, Hides, NeverFails, HandedUp;
    if Nil !in b.hooks {
      assert forall h :: h in b.hooks ==> h.Hook?;
      OneRun(b.hooks, 0, Start(Prepared([b])[0]), engine);
      if !Stopped(b.hooks, 0) {
        EndsIs(b.hooks, 0, Verdict(Arriving(b.hooks, 0, Start(Prepared([b])[0])).passed, engine));
      }
    }
  }

  /** One run of a single create's chain, told from what arrives at the operation. */
  lemma {:induction false} OneRun(hooks: seq<Hook>, j: nat, c: Carried, engine: Engine)
    requires j <= |hooks| && forall h :: h in hooks ==> h.Hook?
    ensures var r, m := Wrapped(hooks, j, c.passed, engine), Arriving(hooks, j, c).passed;
            && r.error == Ends(hooks, j, Verdict(m, engine))
            && r.batch == (if !Stopped(hooks, j) && Verdict(m, engine).None? then Some([m]) else None)
            && HandedUp(hooks, j, c.passed, engine) ==
                 if Stopped(hooks, j) then Untyped else if Verdict(m, engine).Some? then NilNode else Written(m)
    decreases |hooks| - j
  {
    hide Complete;
    if j == |hooks| {
    } else {
      var h := hooks[j];
      assert h in hooks;
      if !Stops(h) {
        OneRun(hooks, j + 1, HandedDown(c, h), engine);
        assert Stopped(hooks, j) <==> Stopped(hooks, j + 1);
      }
    }
  }

  /** Main theorem, for any hooks: a bulk of one runs like a single create if and only
      if the hooks stop before the operation with an error, or do not stop and the
      check says the same of the builder's own mutation and of the one handed down. A
      single create reports hooks that stop without an error. */
  lemma BulkOfOneExactly(b: Creator, engine: Engine)
    requires forall h :: h in b.hooks ==> h.Hook?
    ensures var arriving := Arriving(b.hooks, 0, Start(Prepared([b])[0]));
            Save([b], engine) == CreateOne(b, engine) <==>
              if Stopped(b.hooks, 0) then Ends(b.hooks, 0, None).Some?
              else Complete(arriving.own) <==> Complete(arriving.passed)
  {
    hide Mutate, Wrapped, Arriving, Complete, Verdict, Ends, Stopped, HandedUp;
    var ps := Prepared([b]);
    assert Defaults(1) == [Defaulted(0)];
    OneRun(b.hooks, 0, Start(ps[0]), engine);
    OneOrBulk(ps, 0, Start(ps[0]), engine);
    if Stopped(b.hooks, 0) {
      StoppedEnds(b.hooks, 0, Verdict(Arriving(b.hooks, 0, Start(ps[0])).passed, engine));
    }
  }

  lemma {:induction false} StoppedEnds(hooks: seq<Hook>, j: nat, core: Option<SaveError>)
    requires j <= |hooks| && (forall h :: h in hooks ==> h.Hook?) && Stopped(hooks, j)
    ensures Ends(hooks, j, core) == Ends(hooks, j, None)
    decreases |hooks| - j
  {
    var l :| j <= l < |hooks| && Stops(hooks[l]);
    assert hooks[j] in hooks;
    if Stops(hooks[j]) {
    } else {
      StoppedEnds(hooks, j + 1, core);
    }
  }

  lemma {:induction false} OneOrBulk(bs: seq<Creator>, j: nat, c: Carried, engine: Engine)
    requires |bs| == 1 && j <= |bs[0].hooks| && forall h :: h in bs[0].hooks ==> h.Hook?
    ensures NoNil(bs)
    ensures var hooks, arriving := bs[0].hooks, Arriving(bs[0].hooks, j, c);
            var one, bulk := Wrapped(hooks, j, c.passed, engine), Mutate(bs, 0, j, c, [], engine);
            if Stopped(hooks, j) || (Complete(arriving.own) <==> Complete(arriving.passed)) then one == bulk
            else |one.events| != |bulk.events|
    decreases |bs[0].hooks| - j
  {
    hide Complete;
    if j == |bs[0].hooks| {
      CoreRun(bs, 0, c, [], engine);
      NextRun(bs, 0, [c.passed], engine);
      assert [] + [c.passed] == [c.passed];
    } else {
      var h := bs[0].hooks[j];
      assert h in bs[0].hooks;
      HookRun(bs, 0, j, c, [], engine);
      if !Stops(h) {
        OneOrBulk(bs, j + 1, HandedDown(c, h), engine);
        assert Stopped(bs[0].hooks, j) <==> Stopped(bs[0].hooks, j + 1);
      }
    }
  }
}
