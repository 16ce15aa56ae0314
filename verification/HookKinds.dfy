/**
 Which kinds of hooks a bulk create can have without losing what it promises. The
 kinds are the flows of every builder's hooks; what the hooks edit, the mutations
 and the database's answers are left open. Both theorems are exact.
 */
module HookKinds {
  import opened Storage
  import opened Campus
  import opened Chain

  /** The builders have hooks of the given kinds. */
  ghost predicate Follows(bs: seq<Creator>, kinds: seq<seq<Flow>>) {
    && |bs| == |kinds|
    && forall i :: 0 <= i < |bs| ==> HooksFollow(bs[i].hooks, kinds[i])
  }

  ghost predicate HooksFollow(hooks: seq<Hook>, flows: seq<Flow>) {
    && |hooks| == |flows|
    && forall j :: 0 <= j < |hooks| ==> hooks[j].Hook? && hooks[j].flow == flows[j]
  }

  function KindsOf(bs: seq<Creator>): (kinds: seq<seq<Flow>>)
    requires NoNil(bs)
    ensures Follows(bs, kinds)
  {
    seq(|bs|, i requires 0 <= i < |bs| => FlowsOf(bs[i].hooks))
  }

  function FlowsOf(hooks: seq<Hook>): (flows: seq<Flow>)
    requires forall h :: h in hooks ==> h.Hook?
    ensures HooksFollow(hooks, flows)
  {
    seq(|hooks|, j requires 0 <= j < |hooks| => hooks[j].flow)
  }

  lemma FollowsHooks(bs: seq<Creator>, kinds: seq<seq<Flow>>)
    requires Follows(bs, kinds)
    ensures NoNil(bs) && Follows(Prepared(bs), kinds)
  {
    forall i, h | 0 <= i < |bs| && h in bs[i].hooks ensures h.Hook? {
      var j :| 0 <= j < |bs[i].hooks| && bs[i].hooks[j] == h;
      assert HooksFollow(bs[i].hooks, kinds[i]);
    }
  }

  // ----- Builders that try a list of kinds out --------------------------------

  /** A mutation with everything that the checks ask for. */
  ghost function Sample(): (m: Mutation)
    ensures Complete(m) && WithDefaults(m) == m
  {
    WithDefaults(Mutation(None, None, None, None, None, None, None, Some("campus"), None, None, None, None, None,
                          None, None, Some(1), Some(1), None, {}))
  }

  function Nameless(m: Mutation): Mutation {
    m.(name := None)
  }

  function Same(m: Mutation): Mutation {
    m
  }

  /** Hooks of the given kinds that edit nothing, or take the name away in the last. */
  ghost function HooksOf(flows: seq<Flow>, spoil: bool): (hooks: seq<Hook>)
    ensures HooksFollow(hooks, flows) && forall h :: h in hooks ==> h.Hook?
  {
    seq(|flows|, j requires 0 <= j < |flows| => Hook(if spoil && j == |flows| - 1 then Nameless else Same, flows[j]))
  }

  /** Complete mutations everywhere but at `incomplete`; a name is taken away by the
      last hook at `spoilt`. */
  ghost function Trial(kinds: seq<seq<Flow>>, incomplete: nat, spoilt: nat): (bs: seq<Creator>)
    ensures Follows(bs, kinds)
  {
    seq(|kinds|, i requires 0 <= i < |kinds| =>
      Creator(if i == incomplete then Nameless(Sample()) else Sample(), HooksOf(kinds[i], i == spoilt)))
  }

  lemma TrialPrepared(kinds: seq<seq<Flow>>, incomplete: nat, spoilt: nat)
    ensures Prepared(Trial(kinds, incomplete, spoilt)) == Trial(kinds, incomplete, spoilt)
  {
  }

  lemma {:induction false} UnspoiltArrives(flows: seq<Flow>, j: nat, c: Carried)
    requires j <= |flows| && (c.shared ==> c.own == c.passed)
    ensures Arriving(HooksOf(flows, false), j, c).own == c.own
    decreases |flows| - j
  {
    if j == |flows| {
    } else {
      UnspoiltArrives(flows, j + 1, HandedDown(c, HooksOf(flows, false)[j]));
    }
  }

  // ----- Written unchecked ----------------------------------------------------

  ghost predicate WritesChecked(bs: seq<Creator>, engine: Engine) {
    NoNil(bs) && (Save(bs, engine).batch.Some? ==> forall m :: m in Save(bs, engine).batch.value ==> Complete(m))
  }

  predicate Stopping(flows: seq<Flow>) {
    exists j :: 0 <= j < |flows| && (flows[j].Reject? || flows[j].Skip?)
  }

  /** No other mutation is handed down, or a complete one is by the last hook. */
  predicate EndsChecked(flows: seq<Flow>) {
    || (forall j :: 0 <= j < |flows| ==> !flows[j].Replace?)
    || (flows[|flows| - 1].Replace? && Complete(flows[|flows| - 1].other))
  }

  /** Some builder never reaches its operation, or every one ends checked. */
  predicate ChecksAll(kinds: seq<seq<Flow>>) {
    || (exists i :: 0 <= i < |kinds| && Stopping(kinds[i]))
    || (forall i :: 0 <= i < |kinds| ==> EndsChecked(kinds[i]))
  }

  lemma StoppingStops(hooks: seq<Hook>, flows: seq<Flow>)
    requires HooksFollow(hooks, flows)
    ensures Stopped(hooks, 0) <==> Stopping(flows)
  {
    if j :| 0 <= j < |hooks| && Stops(hooks[j]) {
      assert flows[j].Reject? || flows[j].Skip?;
    }
    if j :| 0 <= j < |flows| && (flows[j].Reject? || flows[j].Skip?) {
      assert Stops(hooks[j]);
    }
  }

  /** Until a mutation is replaced, the builder's own is the one that goes down. */
  lemma {:induction false} ArrivesChecked(hooks: seq<Hook>, flows: seq<Flow>, j: nat, c: Carried)
    requires HooksFollow(hooks, flows) && j <= |hooks| && EndsChecked(flows) && (forall h :: h in hooks ==> h.Hook?)
    requires c.shared ==> c.own == c.passed
    requires (forall l :: 0 <= l < |flows| ==> !flows[l].Replace?) ==> c.shared
    requires j == |hooks| && !c.shared ==> Complete(c.passed)
    ensures Complete(Arriving(hooks, j, c).own) ==> Complete(Arriving(hooks, j, c).passed)
    decreases |hooks| - j
  {
    if j == |hooks| {
    } else {
      ArrivesChecked(hooks, flows, j + 1, HandedDown(c, hooks[j]));
    }
  }

  /** The other way round: the last hook spoils the replacement, or is a replacement
      that is spoilt already, and the builder's own mutation stays complete. */
  lemma {:induction false} ArrivesUnchecked(flows: seq<Flow>, j: nat, c: Carried)
    requires j <= |flows| && !EndsChecked(flows) && c.own == Sample()
    requires c.shared ==> c.passed == Sample()
    requires c.shared <==> forall l :: 0 <= l < j ==> !flows[l].Replace?
    requires j == |flows| ==> !Complete(c.passed)
    ensures var hooks := HooksOf(flows, !flows[|flows| - 1].Replace?);
            Arriving(hooks, j, c).own == Sample() && !Complete(Arriving(hooks, j, c).passed)
    decreases |flows| - j
  {
    if j == |flows| {
    } else {
      var h := HooksOf(flows, !flows[|flows| - 1].Replace?)[j];
      assert c.shared && j == |flows| - 1 ==> flows[j].Replace?;
      ArrivesUnchecked(flows, j + 1, HandedDown(c, h));
    }
  }

  /** Main theorem: whatever the mutations, edits and answers are, what bulks with
      hooks of these kinds write has passed the checks, if and only if some hook
      stops them or every builder ends checked. */
  lemma UncheckedExactly(kinds: seq<seq<Flow>>)
    ensures (forall bs, engine :: Follows(bs, kinds) ==> WritesChecked(bs, engine)) <==> ChecksAll(kinds)
  {
    hide ChecksAll, WritesChecked, Follows;
    if ChecksAll(kinds) {
      forall bs, engine | Follows(bs, kinds) ensures WritesChecked(bs, engine) {
        ChecksAllChecks(bs, kinds, engine);
      }
    } else {
      UncheckedTrial(kinds);
    }
  }

  lemma ChecksAllChecks(bs: seq<Creator>, kinds: seq<seq<Flow>>, engine: Engine)
    requires Follows(bs, kinds) && ChecksAll(kinds)
    ensures WritesChecked(bs, engine)
  {
    hide Save, Complete, EndsChecked, Stopped, Stopping, Arriving;
    FollowsHooks(bs, kinds);
    if bs == [] {
      EmptySave(bs, engine);
    } else if Save(bs, engine).batch.Some? {
      var ps, batch := Prepared(bs), Save(bs, engine).batch.value;
      SaveWritesExactly(bs, engine);
      SaveWrites(bs, engine);
      forall i | 0 <= i < |bs| ensures !Stopping(kinds[i]) && (EndsChecked(kinds[i]) ==> Complete(batch[i])) {
        assert Passes(ps, i);
        assert HooksFollow(ps[i].hooks, kinds[i]);
        StoppingStops(ps[i].hooks, kinds[i]);
        if EndsChecked(kinds[i]) {
          StartChecked(ps[i].hooks, kinds[i], Start(ps[i]));
        }
      }
    }
  }

  lemma EmptySave(bs: seq<Creator>, engine: Engine)
    requires NoNil(bs) && bs == []
    ensures Save(bs, engine).batch == None
  {
  }

  lemma StartChecked(hooks: seq<Hook>, flows: seq<Flow>, c: Carried)
    requires HooksFollow(hooks, flows) && EndsChecked(flows) && c.shared && c.own == c.passed
    ensures forall h :: h in hooks ==> h.Hook?
    ensures Complete(Arriving(hooks, 0, c).own) ==> Complete(Arriving(hooks, 0, c).passed)
  {
    assert forall h :: h in hooks ==> h.Hook?;
    ArrivesChecked(hooks, flows, 0, c);
  }

  lemma UncheckedTrial(kinds: seq<seq<Flow>>)
    requires !ChecksAll(kinds)
    ensures exists bs, engine :: Follows(bs, kinds) && !WritesChecked(bs, engine)
  {
    hide Save, Complete, EndsChecked, Stopped, Stopping, Arriving, Prepared;
    var i0 :| 0 <= i0 < |kinds| && !EndsChecked(kinds[i0]);
    var spoilt := if LastReplaces(kinds[i0]) then |kinds| else i0;
    var bs, engine: Engine := Trial(kinds, |kinds|, spoilt), specs => None;
    FollowsHooks(bs, kinds);
    TrialPrepared(kinds, |kinds|, spoilt);
    forall i | 0 <= i < |bs| ensures Passes(bs, i) && (i == i0 ==> !Complete(Reaching(bs, i).passed)) {
      StoppingStops(bs[i].hooks, kinds[i]);
      if i == i0 {
        SpoiltArrives(kinds[i0]);
      } else {
        UnspoiltArrives(kinds[i], 0, Start(bs[i]));
      }
    }
    SaveWritesExactly(bs, engine);
    ArrivalAt(bs, 0, i0);
    assert Save(bs, engine).batch.value[i0] in Save(bs, engine).batch.value;
    assert Follows(bs, kinds) && !WritesChecked(bs, engine);
  }

  predicate LastReplaces(flows: seq<Flow>) {
    flows != [] && flows[|flows| - 1].Replace?
  }

  lemma SpoiltArrives(flows: seq<Flow>)
    requires !EndsChecked(flows)
    ensures var hooks, c := HooksOf(flows, !LastReplaces(flows)), Carried(Sample(), Sample(), true);
            Complete(Arriving(hooks, 0, c).own) && !Complete(Arriving(hooks, 0, c).passed)
  {
    hide Complete;
    ArrivesUnchecked(flows, 0, Carried(Sample(), Sample(), true));
  }

  /** The shortest case of a complete replacement that a later hook spoils. */
  lemma EditedAfterReplace()
    ensures var first, second := Hook(Same, Replace(Sample())), Hook(Nameless, Pass);
            var bs := [Creator(Sample(), [first, second])];
            && NoNil(bs) && Save(bs, specs => None).batch.Some?
            && exists m :: m in Save(bs, specs => None).batch.value && !Complete(m)
  {
    hide Save, Complete;
    var first, second := Hook(Same, Replace(Sample())), Hook(Nameless, Pass);
    var hooks := [first, second];
    var bs := [Creator(Sample(), hooks)];
    TwoHooksArrive(hooks);
    assert Prepared(bs) == bs;
    SaveWritesExactly(bs, specs => None);
    ArrivalAt(bs, 0, 0);
    assert Save(bs, specs => None).batch.value[0] in Save(bs, specs => None).batch.value;
  }

  lemma TwoHooksArrive(hooks: seq<Hook>)
    requires hooks == [Hook(Same, Replace(Sample())), Hook(Nameless, Pass)]
    ensures !Stopped(hooks, 0) && (forall h :: h in hooks ==> h.Hook?)
    ensures Arriving(hooks, 0, Carried(Sample(), Sample(), true)) == Carried(Sample(), Nameless(Sample()), false)
    ensures !Complete(Nameless(Sample()))
  {
    assert hooks[0].Hook? && hooks[1].Hook?;
    var c := HandedDown(Carried(Sample(), Sample(), true), hooks[0]);
    assert Arriving(hooks, 1, c) == Arriving(hooks, 2, HandedDown(c, hooks[1]));
  }

  // ----- All or nothing -------------------------------------------------------

  /** How a run from some builder on ends: everything written and marked, without an
      error or with one; nothing written or marked, with an error or without; or
      marks and write that do not go together. */
  datatype Ending = Whole | Denied | Nothing | Silent | Torn

  ghost function EndingOf(r: Run, i: nat, n: nat): Ending {
    if r.batch.Some? && r.done == From(i, n) then if r.error.None? then Whole else Denied
    else if r.batch.None? && r.done == {} then if r.error.Some? then Nothing else Silent
    else Torn
  }

  /** What a hook, and the innermost mutator of a builder that passed its check, make
      of the ending below them. */
  function Hooked(f: Flow, e: Ending): Ending {
    match f
    case Reject(_) => Nothing
    case Skip => Silent
    case Swallow => if e.Denied? then Whole else if e.Nothing? then Silent else e
    case Fail(_) => if e.Whole? then Denied else if e.Silent? then Nothing else e
    case _ => e
  }

  function Cored(e: Ending): Ending {
    if e.Whole? || e.Nothing? then e else Torn
  }

  /** The ending of a run from hook `j` of builder `i` on, told from the kinds of
      hooks alone, when builder `k` is the first whose check fails, if any. */
  function Foreseen(kinds: seq<seq<Flow>>, i: nat, j: nat, k: nat, accepted: bool): Ending
    requires i < |kinds| && j <= |kinds[i]|
    decreases |kinds| - i, |kinds[i]| - j
  {
    if j < |kinds[i]| then Hooked(kinds[i][j], Foreseen(kinds, i, j + 1, k, accepted))
    else if i == k then Nothing
    else if i + 1 < |kinds| then Cored(Foreseen(kinds, i + 1, 0, k, accepted))
    else if accepted then Whole
    else Nothing
  }

  /** Whichever builder fails its check first, if any, and whatever the database says,
      the kinds of hooks foresee a whole save or none. */
  predicate KeepsWhole(kinds: seq<seq<Flow>>)
    requires kinds != []
  {
    forall k: nat, accepted: bool :: k <= |kinds| ==> Foreseen(kinds, 0, 0, k, accepted) in {Whole, Nothing}
  }

  /** Builder `k` is the first one from `i` on whose own mutation is incomplete. */
  ghost predicate FirstFailing(bs: seq<Creator>, i: nat, c: Carried, k: nat)
    requires NoNil(bs) && i < |bs|
  {
    && i <= k <= |bs|
    && (if k == i then !Complete(c.own) else Complete(c.own))
    && (forall l :: i < l < k ==> Complete(Reaching(bs, l).own))
    && (i < k < |bs| ==> !Complete(Reaching(bs, k).own))
  }

  lemma HookedEnding(f: Flow, inner: Run, r: Run, i: nat, n: nat)
    requires !f.Reject? && !f.Skip?
    requires r.error == Answer(f, inner.error) && r.batch == inner.batch && r.done == inner.done
    ensures EndingOf(r, i, n) == Hooked(f, EndingOf(inner, i, n))
  {
  }

  lemma CoredEnding(inner: Run, r: Run, i: nat, n: nat)
    requires i < n && (forall d :: d in inner.done ==> i < d) && r.error == inner.error && r.batch == inner.batch
    requires r.done == if inner.error.Some? then inner.done else inner.done + {i}
    ensures EndingOf(r, i, n) == Cored(EndingOf(inner, i + 1, n))
  {
    FromAbove(i + 1, n);
    assert From(i, n) == {i} + From(i + 1, n);
    if inner.error.None? {
      assert inner.done == r.done - {i};
      assert From(i + 1, n) == From(i, n) - {i};
    }
  }

  lemma {:induction false} FromAbove(i: nat, n: nat)
    ensures forall d :: d in From(i, n) ==> i <= d
    decreases n - i
  {
    if i >= n {
    } else {
      FromAbove(i + 1, n);
    }
  }

  lemma {:induction false} RunEnds(bs: seq<Creator>, kinds: seq<seq<Flow>>, i: nat, j: nat, c: Carried,
                                   specs: seq<Mutation>, engine: Engine, k: nat)
    requires Follows(bs, kinds) && NoNil(bs) && i < |bs| && j <= |bs[i].hooks| && |specs| == i
    requires FirstFailing(bs, i, Arriving(bs[i].hooks, j, c), k)
    ensures j <= |kinds[i]|
    ensures var sent := specs + ([Arriving(bs[i].hooks, j, c).passed] + Arrivals(bs, i + 1));
            EndingOf(Mutate(bs, i, j, c, specs, engine), i, |bs|) == Foreseen(kinds, i, j, k, engine(sent).None?)
    decreases |bs| - i, |bs[i].hooks| - j
  {
    hide Complete, EndingOf, Mutate, Innermost;
    var n := |bs|;
    assert HooksFollow(bs[i].hooks, kinds[i]);
    if j < |bs[i].hooks| {
      var h := bs[i].hooks[j];
      HookRun(bs, i, j, c, specs, engine);
      RunEnds(bs, kinds, i, j + 1, HandedDown(c, h), specs, engine, k);
      var r := Mutate(bs, i, j, c, specs, engine);
      if Stops(h) {
        StoppedEnding(h.flow, r, i, n);
      } else {
        HookedEnding(h.flow, Mutate(bs, i, j + 1, HandedDown(c, h), specs, engine), r, i, n);
      }
    } else {
      CoreEnds(bs, kinds, i, c, specs, engine, k);
    }
  }

  lemma StoppedEnding(f: Flow, r: Run, i: nat, n: nat)
    requires f.Reject? || f.Skip?
    requires r.batch.None? && r.done == {} && (r.error.Some? <==> f.Reject?)
    ensures forall e :: EndingOf(r, i, n) == Hooked(f, e)
  {
  }

  lemma {:induction false} CoreEnds(bs: seq<Creator>, kinds: seq<seq<Flow>>, i: nat, c: Carried, specs: seq<Mutation>,
                                    engine: Engine, k: nat)
    requires Follows(bs, kinds) && NoNil(bs) && i < |bs| && |specs| == i && FirstFailing(bs, i, c, k)
    ensures |kinds[i]| == |bs[i].hooks|
    ensures var sent := specs + ([c.passed] + Arrivals(bs, i + 1));
            EndingOf(Mutate(bs, i, |bs[i].hooks|, c, specs, engine), i, |bs|)
              == Foreseen(kinds, i, |kinds[i]|, k, engine(sent).None?)
    decreases |bs| - i, 0, 0
  {
    hide Complete, Mutate, Innermost, EndingOf, FirstFailing;
    var n, more := |bs|, specs + [c.passed];
    assert HooksFollow(bs[i].hooks, kinds[i]);
    CoreRun(bs, i, c, specs, engine);
    NextFailing(bs, i, c, k);
    var r, inner := Innermost(bs, i, c, specs, engine), Next(bs, i, more, engine);
    if k == i {
      WroteEnding(r, i, n);
    } else {
      NextRun(bs, i, more, engine);
      NextDone(bs, i, more, engine);
      CoredEnding(inner, r, i, n);
      if i + 1 < n {
        RunEnds(bs, kinds, i + 1, 0, Start(bs[i + 1]), more, engine, k);
        assert specs + [c.passed] + Arrivals(bs, i + 1) == specs + ([c.passed] + Arrivals(bs, i + 1));
      } else {
        WroteEnding(inner, n, n);
        assert [c.passed] + Arrivals(bs, i + 1) == [c.passed];
      }
    }
  }

  lemma NextFailing(bs: seq<Creator>, i: nat, c: Carried, k: nat)
    requires NoNil(bs) && i < |bs| && FirstFailing(bs, i, c, k)
    ensures i <= k && (k == i <==> !Complete(c.own))
    ensures k != i && i + 1 < |bs| ==> FirstFailing(bs, i + 1, Arriving(bs[i + 1].hooks, 0, Start(bs[i + 1])), k)
  {
    hide Complete, Arriving;
    if k != i && i + 1 < |bs| {
      assert Reaching(bs, i + 1) == Arriving(bs[i + 1].hooks, 0, Start(bs[i + 1]));
    }
  }

  /** Nothing marked: whole if there is a write and nothing left to mark. */
  lemma WroteEnding(r: Run, i: nat, n: nat)
    requires r.done == {} && (r.batch.Some? <==> r.error.None?) && (r.batch.Some? ==> i >= n)
    ensures EndingOf(r, i, n) == if r.error.None? then Whole else Nothing
  {
  }

  /** The first builder from `i` on whose own mutation is incomplete. */
  lemma {:induction false} SomeFails(bs: seq<Creator>, i: nat) returns (k: nat)
    requires NoNil(bs) && i < |bs|
    ensures FirstFailing(bs, i, Reaching(bs, i), k)
    decreases |bs| - i
  {
    hide Complete, Reaching;
    if !Complete(Reaching(bs, i).own) {
      k := i;
    } else if i + 1 == |bs| {
      k := i + 1;
    } else {
      k := SomeFails(bs, i + 1);
    }
  }

  lemma SaveEnds(bs: seq<Creator>, kinds: seq<seq<Flow>>, engine: Engine, k: nat)
    requires Follows(bs, kinds) && bs != [] && NoNil(bs)
    requires NoNil(Prepared(bs)) && FirstFailing(Prepared(bs), 0, Reaching(Prepared(bs), 0), k)
    ensures EndingOf(Save(bs, engine), 0, |bs|) == Foreseen(kinds, 0, 0, k, engine(Arrivals(Prepared(bs), 0)).None?)
  {
    hide Complete, Mutate, Foreseen, Arriving, FirstFailing;
    var ps := Prepared(bs);
    FollowsHooks(bs, kinds);
    RunEnds(ps, kinds, 0, 0, Start(ps[0]), [], engine, k);
    assert [] + Arrivals(ps, 0) == Arrivals(ps, 0);
  }

  lemma WholeOrNothing(n: nat, r: Run)
    ensures AllOrNothing(n, r) <==> EndingOf(r, 0, n) in {Whole, Nothing}
  {
  }

  ghost predicate SavesWhole(bs: seq<Creator>, engine: Engine) {
    NoNil(bs) && AllOrNothing(|bs|, Save(bs, engine))
  }

  /** Main theorem: whatever the mutations, edits and answers are, saves with hooks of
      these kinds are all or nothing, if and only if the kinds foresee it. */
  lemma HarmlessExactly(kinds: seq<seq<Flow>>)
    requires kinds != []
    ensures (forall bs, engine :: Follows(bs, kinds) ==> SavesWhole(bs, engine)) <==> KeepsWhole(kinds)
  {
    hide Foreseen, Follows, SavesWhole;
    if KeepsWhole(kinds) {
      forall bs, engine | Follows(bs, kinds) ensures SavesWhole(bs, engine) {
        KeptWhole(bs, kinds, engine);
      }
    } else {
      var k: nat, accepted: bool :| k <= |kinds| && Foreseen(kinds, 0, 0, k, accepted) !in {Whole, Nothing};
      TornTrial(kinds, k, accepted);
    }
  }

  lemma KeptWhole(bs: seq<Creator>, kinds: seq<seq<Flow>>, engine: Engine)
    requires kinds != [] && Follows(bs, kinds) && KeepsWhole(kinds)
    ensures SavesWhole(bs, engine)
  {
    hide Save, Foreseen, AllOrNothing, EndingOf;
    FollowsHooks(bs, kinds);
    var k := SomeFails(Prepared(bs), 0);
    SaveEnds(bs, kinds, engine, k);
    WholeOrNothing(|bs|, Save(bs, engine));
  }

  lemma TornTrial(kinds: seq<seq<Flow>>, k: nat, accepted: bool)
    requires kinds != [] && k <= |kinds| && Foreseen(kinds, 0, 0, k, accepted) !in {Whole, Nothing}
    ensures exists bs, engine :: Follows(bs, kinds) && !SavesWhole(bs, engine)
  {
    hide Save, Foreseen, AllOrNothing, EndingOf, Complete, Arriving, Prepared;
    var bs := Trial(kinds, k, |kinds|);
    var engine: Engine := if accepted then specs => None else specs => Some(Refused(""));
    FollowsHooks(bs, kinds);
    TrialPrepared(kinds, k, |kinds|);
    forall i | 0 <= i < |bs| ensures Complete(Reaching(bs, i).own) <==> i != k {
      UnspoiltArrives(kinds[i], 0, Start(bs[i]));
      NamelessIncomplete();
    }
    assert FirstFailing(bs, 0, Reaching(bs, 0), k);
    SaveEnds(bs, kinds, engine, k);
    WholeOrNothing(|bs|, Save(bs, engine));
    assert Follows(bs, kinds) && !SavesWhole(bs, engine);
  }

  lemma NamelessIncomplete()
    ensures !Complete(Nameless(Sample()))
  {
  }

  /** For a single hook the kinds that keep saves whole are the harmless ones. */
  lemma OneHook(f: Flow)
    ensures KeepsWhole([[f]]) <==> Harmless(f)
  {
    forall k: nat, accepted: bool | k <= 1
      ensures Foreseen([[f]], 0, 0, k, accepted) == Hooked(f, if k == 1 && accepted then Whole else Nothing)
    {
      assert Foreseen([[f]], 0, 1, k, accepted) == if k == 1 && accepted then Whole else Nothing;
    }
    if !Harmless(f) {
      assert Foreseen([[f]], 0, 0, 1, f.Fail?) !in {Whole, Nothing};
    }
  }

  // ----- Created without a write ----------------------------------------------

  ghost predicate CreatesWritten(b: Creator, engine: Engine) {
    CreateOne(b, engine).error.None? ==> CreateOne(b, engine).batch.Some?
  }

  /** Some hook swallows errors, and no hook around it fails after that. */
  predicate Hiding(flows: seq<Flow>) {
    exists l :: 0 <= l < |flows| && flows[l].Swallow? && forall i :: 0 <= i < l ==> !flows[i].Fail?
  }

  lemma HidingHides(hooks: seq<Hook>, flows: seq<Flow>)
    requires HooksFollow(hooks, flows)
    ensures Nil !in hooks && forall h :: h in hooks ==> h.Hook?
    ensures Hides(hooks, 0) <==> Hiding(flows)
  {
    if l :| 0 <= l < |hooks| && hooks[l].flow.Swallow? && forall i :: 0 <= i < l ==> !hooks[i].flow.Fail? {
      assert flows[l].Swallow?;
    }
    if l :| 0 <= l < |flows| && flows[l].Swallow? && forall i :: 0 <= i < l ==> !flows[i].Fail? {
      assert hooks[l].flow.Swallow?;
    }
  }

  lemma CreatedWithKinds(b: Creator, flows: seq<Flow>, engine: Engine)
    requires HooksFollow(b.hooks, flows)
    ensures forall h :: h in b.hooks ==> h.Hook?
    ensures CreatesWritten(b, engine) <==>
              var m := Arriving(b.hooks, 0, Start(Prepared([b])[0])).passed;
              Stopping(flows) || !Hiding(flows) || Verdict(m, engine).None?
  {
    hide Stopping, Hiding, HooksFollow, CreateOne, Arriving, Verdict, Stopped, Hides, NeverFails;
    HidingHides(b.hooks, flows);
    StoppingStops(b.hooks, flows);
    CreatedIsWritten(b, engine);
  }

  lemma AlwaysRefused(m: Mutation)
    ensures Verdict(m, specs => Some(Refused(""))).Some?
  {
  }

  /** Main theorem: whatever the mutations, edits and answers are, a single create with
      hooks of these kinds that reports no error has written, if and only if some hook
      stops it or none hides errors. */
  lemma CreatedExactly(flows: seq<Flow>)
    ensures (forall b: Creator, engine :: HooksFollow(b.hooks, flows) ==> CreatesWritten(b, engine))
            <==> Stopping(flows) || !Hiding(flows)
  {
    hide Stopping, Hiding, HooksFollow, CreatesWritten;
    if Stopping(flows) || !Hiding(flows) {
      forall b: Creator, engine | HooksFollow(b.hooks, flows) ensures CreatesWritten(b, engine) {
        CreatedWithKinds(b, flows, engine);
      }
    } else {
      var b, engine: Engine := Creator(Sample(), HooksOf(flows, false)), specs => Some(Refused(""));
      HidingHides(b.hooks, flows);
      AlwaysRefused(Arriving(b.hooks, 0, Start(Prepared([b])[0])).passed);
      CreatedWithKinds(b, flows, engine);
      assert HooksFollow(b.hooks, flows) && !CreatesWritten(b, engine);
    }
  }
}
