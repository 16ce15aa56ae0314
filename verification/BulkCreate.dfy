/**
 Create builders as the program has them: mutations and builders are heap objects
 that the hooks and the innermost mutators change in place while the chain runs.
 Each run is proved to be the chain of values that `Chain` describes.
 */
module BulkCreate {
  import opened Storage
  import opened Campus
  import opened Chain

  class CampusMutation {
    var v: Mutation
    var done: bool

    constructor (m: Mutation)
      ensures v == m && !done
    {
      v, done := m, false;
    }
  }

  class CampusCreate {
    var mutation: CampusMutation
    const hooks: seq<Hook>
    ghost var trace: seq<Event>

    constructor (m: CampusMutation, hs: seq<Hook>)
      ensures mutation == m && hooks == hs && trace == []
    {
      mutation, hooks := m, hs;
      trace := [];
    }

    method Defaults()
      modifies mutation
      ensures mutation.v == WithDefaults(old(mutation.v)) && mutation.done == old(mutation.done)
      ensures forall f :: Set(mutation.v, f) ==
                if Set(old(mutation.v), f).Some? then Set(old(mutation.v), f)
                else if TableDefault(f) != NULL then Some(TableDefault(f)) else None
      ensures var m := old(mutation.v);
              && mutation.v.id == m.id && mutation.v.organization == m.organization
              && mutation.v.facilities == m.facilities
    {
      hide Or;
      ghost var m := mutation.v;
      mutation.v := mutation.v.(nameFold := Or(mutation.v.nameFold, ""));
      mutation.v := mutation.v.(city := Or(mutation.v.city, ""));
      mutation.v := mutation.v.(country := Or(mutation.v.country, ""));
      mutation.v := mutation.v.(notes := Or(mutation.v.notes, ""));
      mutation.v := mutation.v.(state := Or(mutation.v.state, ""));
      mutation.v := mutation.v.(website := Or(mutation.v.website, ""));
      mutation.v := mutation.v.(zipcode := Or(mutation.v.zipcode, ""));
      mutation.v := mutation.v.(orgName := Or(mutation.v.orgName, ""));
      mutation.v := mutation.v.(status := Or(mutation.v.status, "ok"));
      DefaultsFill(m);
    }

    /** The first thing missing, or a bad ID. */
    method Check() returns (problem: Option<Problem>)
      ensures problem.None? <==> Complete(mutation.v)
      ensures problem == Some(Missing(Name)) <==> mutation.v.name.None?
      ensures problem == Some(Missing(Created)) <==> mutation.v.name.Some? && mutation.v.created.None?
      ensures problem == Some(Missing(Updated)) <==>
                mutation.v.name.Some? && mutation.v.created.Some? && mutation.v.updated.None?
      ensures var m := mutation.v;
              problem == Some(Missing(Status)) <==>
                m.name.Some? && m.created.Some? && m.updated.Some? && m.status.None?
      ensures var m := mutation.v;
              problem == Some(NotPositive) <==>
                && m.name.Some? && m.created.Some? && m.updated.Some? && m.status.Some?
                && m.id.Some? && m.id.value <= 0
    {
      if mutation.v.name.None? {
        return Some(Missing(Name));
      }
      if mutation.v.created.None? {
        return Some(Missing(Created));
      }
      if mutation.v.updated.None? {
        return Some(Missing(Updated));
      }
      if mutation.v.status.None? {
        return Some(Missing(Status));
      }
      if mutation.v.id.Some? && mutation.v.id.value <= 0 {
        return Some(NotPositive);
      }
      return None;
    }

    /** What the database holds and the builder shows after a run. */
    ghost predicate Outcome(run: Run, driver: Driver, before: seq<seq<CreateSpec>>, error: Option<SaveError>)
      reads this, mutation, driver
    {
      && error == run.error && (mutation.done <==> 0 in run.done)
      && driver.batches == (if run.batch.Some? then before + [Specs(run.batch.value)] else before)
      && (run.batch.Some? ==> |run.batch.value| == 1)
      && (0 in run.done ==> run.batch.Some? && mutation.v.id == Some(StoredNode(run.batch.value[0], driver).id))
    }

    /** The value that the hooks hand up, with the node as the database numbered it. */
    ghost predicate HandsUp(handed: Handed<Mutation>, driver: Driver, value: Handed<Node>) {
      match handed
      case Untyped => value == Untyped
      case NilNode => value == NilNode
      case Written(m) => value == Written(StoredNode(m, driver))
    }

    /** What a create returns: an error and no node, or the written node, or neither when
        the hooks hide that the operation failed. */
    ghost predicate Returns(run: Run, driver: Driver, node: Option<Node>, error: Option<SaveError>) {
      && (run.batch.Some? ==> |run.batch.value| == 1)
      && node == if error.None? && run.batch.Some? then Some(StoredNode(run.batch.value[0], driver)) else None
    }

    /** The node of a mutation once it was written, with its ID. */
    ghost function StoredNode(m: Mutation, driver: Driver): Node {
      NodeOf(m).(id := driver.IdIn(Specs([m]), 0))
    }

    /** Creates the campus: defaults, then the hooks around the operation. */
    method Save(driver: Driver) returns (node: Option<Node>, error: Option<SaveError>)
      requires !mutation.done
      modifies mutation, driver, this`trace
      ensures mutation == old(mutation)
      ensures var run := CreateOne(old(Creator(mutation.v, hooks)), driver.Engine());
              && trace == old(trace) + run.events && Outcome(run, driver, old(driver.batches), error)
              && Returns(run, driver, node, error)
    {
      hide Chain.WithHooks, Exec, WithDefaults, Specs, NodeOf;
      Defaults();
      trace := trace + [Defaulted(0)];
      ghost var run := Chain.WithHooks(hooks, mutation.v, driver.Engine());
      Then(old(trace), [Defaulted(0)], run.events);
      node, error := WithHooks(driver);
    }

    /** A nil hook is found before anything runs. */
    method WithHooks(driver: Driver) returns (node: Option<Node>, error: Option<SaveError>)
      requires !mutation.done
      modifies mutation, driver, this`trace
      ensures mutation == old(mutation)
      ensures var run := Chain.WithHooks(hooks, old(mutation.v), driver.Engine());
              && trace == old(trace) + run.events && Outcome(run, driver, old(driver.batches), error)
              && Returns(run, driver, node, error)
    {
      hide Chain.WithHooks, Exec, Wrapped, Specs, NodeOf;
      if |hooks| == 0 {
        WithHooksRun(hooks, mutation.v, driver.Engine());
        node, error := SqlSave(driver);
        return;
      }
      var j := |hooks|;
      while j > 0
        invariant 0 <= j <= |hooks| && Nil !in hooks[j..]
      {
        j := j - 1;
        if hooks[j] == Nil {
          assert Nil in hooks;
          NilRun(hooks, mutation.v, driver.Engine());
          Then(trace, [], []);
          return None, Some(Uninitialized);
        }
      }
      assert hooks[0..] == hooks;
      WithHooksRun(hooks, mutation.v, driver.Engine());
      ghost var v := mutation.v;
      var value;
      value, error := Mutate(0, mutation, driver);
      HandedWritten(hooks, 0, v, driver.Engine());
      if error.Some? {
        return None, error;
      }
      match value {
        case Untyped => return None, Some(UnexpectedType);
        case NilNode => return None, None;
        case Written(n) => return Some(n), None;
      }
    }

    /** Runs the hooks from `j` on around the operation. */
    method Mutate(j: nat, m: CampusMutation, driver: Driver) returns (value: Handed<Node>, error: Option<SaveError>)
      requires j <= |hooks| && Nil !in hooks && !mutation.done && !m.done
      modifies mutation, m, driver, this`trace
      ensures mutation == old(mutation)
      ensures forall h :: h in hooks ==> h.Hook?
      ensures var run := Wrapped(hooks, j, old(m.v), driver.Engine());
              && trace == old(trace) + run.events && Outcome(run, driver, old(driver.batches), error)
              && HandsUp(HandedUp(hooks, j, old(m.v), driver.Engine()), driver, value)
      decreases |hooks| - j
    {
      hide Exec, Wrapped, Specs, NodeOf;
      WithHooksRun(hooks, m.v, driver.Engine());
      if j == |hooks| {
        mutation.v, mutation.done := m.v, m.done;
        HandedWritten(hooks, j, m.v, driver.Engine());
        var node;
        node, error := SqlSave(driver);
        value := if node.Some? then Written(node.value) else NilNode;
        return;
      }
      WrapRun(hooks, j, m.v, driver.Engine());
      var h := hooks[j];
      trace := trace + [Entered(0, j)];
      m.v := h.edit(m.v);
      value, error := Untyped, None;
      if h.flow.Reject? {
        error := Some(h.flow.error);
      } else if !h.flow.Skip? {
        var next := m;
        if h.flow.Replace? {
          next := new CampusMutation(h.flow.other);
        }
        value, error := Mutate(j + 1, next, driver);
        if h.flow.Swallow? {
          error := None;
        } else if h.flow.Fail? && error.None? {
          error := Some(h.flow.error);
        }
      }
      trace := trace + [Left(0, j)];
    }

    /** The operation itself, on the builder's own mutation. */
    method SqlSave(driver: Driver) returns (node: Option<Node>, error: Option<SaveError>)
      requires !mutation.done
      modifies mutation, driver, this`trace
      ensures mutation == old(mutation)
      ensures var run := Exec(old(mutation.v), driver.Engine());
              && trace == old(trace) + run.events && Outcome(run, driver, old(driver.batches), error)
              && Returns(run, driver, node, error) && (node.None? <==> error.Some?)
    {
      hide NodeOf, CreateSpecOf, SpecFor, Specs, Complete;
      trace := trace + [Checked(0)];
      var problem := Check();
      if problem.Some? {
        return None, Some(Invalid);
      }
      var m := mutation.v;
      var n, spec := BuildSpec(m);
      SpecUnique(spec, CreateSpecOf(m), m);
      trace := trace + [Built(0)];
      var specs := new Option<CreateSpec>[1](i => Some(spec));
      error := driver.BatchCreate(specs, [m]);
      trace := trace + [Wrote];
      if error.Some? {
        return None, error;
      }
      n := n.(id := specs[0].value.id.value);
      mutation.v := mutation.v.(id := Some(n.id));
      mutation.done := true;
      trace := trace + [Finished(0)];
      return Some(n), None;
    }
  }

  // ----- The database ---------------------------------------------------------

  ghost function Specs(ms: seq<Mutation>): (specs: seq<CreateSpec>)
    ensures |specs| == |ms|
  {
    seq(|ms|, i requires 0 <= i < |ms| => CreateSpecOf(ms[i]))
  }

  /** The database: it refuses a batch or takes it whole, and numbers the rows
      that came without an ID. */
  class Driver {
    var batches: seq<seq<CreateSpec>>
    const refuses: seq<CreateSpec> -> Option<SaveError>
    const number: (seq<CreateSpec>, nat) -> int

    constructor (r: seq<CreateSpec> -> Option<SaveError>, n: (seq<CreateSpec>, nat) -> int)
      ensures batches == [] && refuses == r && number == n
    {
      batches, refuses, number := [], r, n;
    }

    ghost function Engine(): Engine {
      ms => refuses(Specs(ms))
    }

    function IdIn(sent: seq<CreateSpec>, i: nat): int
      requires i < |sent|
    {
      if sent[i].id.Some? then sent[i].id.value else number(sent, i)
    }

    method BatchCreate(specs: array<Option<CreateSpec>>, ghost ms: seq<Mutation>) returns (err: Option<SaveError>)
      requires specs.Length == |ms| && forall i :: 0 <= i < |ms| ==> specs[i] == Some(CreateSpecOf(ms[i]))
      modifies this, specs
      ensures err == Engine()(ms)
      ensures batches == if err.None? then old(batches) + [Specs(ms)] else old(batches)
      ensures forall i :: 0 <= i < |ms| ==>
                specs[i] == if err.None? then Some(CreateSpecOf(ms[i]).(id := Some(IdIn(Specs(ms), i))))
                    else old(specs[i])
    {
      hide CreateSpecOf, SpecFor;
      var sent := seq(specs.Length, i requires 0 <= i < specs.Length && specs[i].Some? reads specs => specs[i].value);
      assert sent == Specs(ms);
      err := refuses(sent);
      if err.None? {
        batches := batches + [sent];
        for i := 0 to specs.Length
          invariant batches == old(batches) + [sent]
          invariant forall j :: 0 <= j < specs.Length ==>
                      specs[j] == if j < i then Some(CreateSpecOf(ms[j]).(id := Some(IdIn(Specs(ms), j))))
                          else old(specs[j])
        {
          specs[i] := Some(specs[i].value.(id := Some(IdIn(sent, i))));
        }
      }
    }
  }

  // ----- Bulk create ----------------------------------------------------------

  datatype Saved = Nodes(nodes: seq<Option<Node>>) | Failed(error: SaveError)

  class CampusCreateBulk {
    var err: Option<SaveError>
    const builders: seq<CampusCreate>
    const driver: Driver
    ghost var trace: seq<Event>

    constructor (bs: seq<CampusCreate>, d: Driver)
      ensures err == None && builders == bs && driver == d && trace == []
    {
      err, builders, driver := None, bs, d;
      trace := [];
    }

    ghost predicate Valid()
    {
      && (forall k, l :: 0 <= k < l < |builders| ==> builders[k] != builders[l])
      && (forall k, h :: 0 <= k < |builders| && h in builders[k].hooks ==> h.Hook?)
    }

    /** The builders and mutations from the `i`-th on. */
    ghost function Footprint(i: nat): set<object>
      reads set k | i <= k < |builders| :: builders[k]
    {
      (set k | i <= k < |builders| :: builders[k]) + (set k | i <= k < |builders| :: builders[k].mutation)
    }

    /** The builders from the `i`-th on are as they were before the chain: `bs` holds
        their values, nothing is done, and no two share a mutation. */
    ghost predicate Pending(i: nat, bs: seq<Creator>)
      reads builders, set k | 0 <= k < |builders| :: builders[k].mutation
    {
      && |bs| == |builders|
      && (forall k :: 0 <= k < |bs| ==> bs[k].hooks == builders[k].hooks)
      && (forall k :: i <= k < |bs| ==> bs[k].mutation == builders[k].mutation.v && !builders[k].mutation.done)
      && (forall k, l :: i <= k < l < |bs| ==> builders[k].mutation != builders[l].mutation)
    }

    /** A mutation that no builder from the `i`-th on has. */
    ghost predicate Foreign(m: CampusMutation, i: nat)
      reads builders
    {
      forall k :: i <= k < |builders| ==> builders[k].mutation != m
    }

    /** The builder `i` and a mutation handed down to its mutator, before the run. */
    ghost predicate Ready(i: nat, m: CampusMutation, bs: seq<Creator>, c: Carried)
      requires i < |builders|
      reads builders, m, set k | 0 <= k < |builders| :: builders[k].mutation
    {
      && Pending(i + 1, bs) && Foreign(m, i + 1) && Foreign(builders[i].mutation, i + 1)
      && !m.done && !builders[i].mutation.done
      && c == Carried(builders[i].mutation.v, m.v, m == builders[i].mutation)
    }

    /** The marks after a run from builder `i` on. */
    ghost predicate Marked(i: nat, done: set<nat>)
      reads builders, set k | 0 <= k < |builders| :: builders[k].mutation
    {
      forall k :: i <= k < |builders| ==> (builders[k].mutation.done <==> k in done)
    }

    /** The mutations that are done have their node's ID. */
    ghost predicate Identified(i: nat, done: set<nat>, nodes: seq<Option<Node>>)
      requires |nodes| == |builders|
      reads builders, set k | 0 <= k < |builders| :: builders[k].mutation
    {
      forall k :: i <= k < |builders| && k in done ==>
        nodes[k].Some? && builders[k].mutation.v.id == Some(nodes[k].value.id)
    }

    /** What is in the arrays of a run from builder `i` on: the specifications of the
        builders before it, with their IDs once they were written, and the nodes
        of the builders that finished a write. */
    ghost predicate Returned(batch: Option<seq<Mutation>>, done: set<nat>, i: nat,
                             nodes: seq<Option<Node>>, specs: seq<Option<CreateSpec>>, ms: seq<Mutation>)
      requires |nodes| == |specs| == |builders| && |ms| == i <= |builders|
    {
      if batch.Some? then
        && |batch.value| == |builders| && batch.value[..i] == ms
        && (forall k :: 0 <= k < i ==> specs[k] == Some(Written(batch.value, k)))
        && (forall k :: i <= k < |builders| && k in done ==>
              nodes[k] == Some(NodeOf(batch.value[k]).(id := driver.IdIn(Specs(batch.value), k))))
      else forall k :: 0 <= k < i ==> specs[k] == Some(CreateSpecOf(ms[k]))
    }

    /** A specification as it comes back from the database. */
    ghost function Written(batch: seq<Mutation>, k: nat): CreateSpec
      requires k < |batch|
    {
      CreateSpecOf(batch[k]).(id := Some(driver.IdIn(Specs(batch), k)))
    }

    /** The batches that the database has after a run. */
    ghost predicate Sent(before: seq<seq<CreateSpec>>, batch: Option<seq<Mutation>>)
      reads driver
    {
      driver.batches == if batch.Some? then before + [Specs(batch.value)] else before
    }

    /** Runs the mutator of builder `i` from hook `j` on. */
    method Mutate(i: nat, j: nat, m: CampusMutation, specs: array<Option<CreateSpec>>, nodes: array<Option<Node>>,
                  ghost bs: seq<Creator>, ghost c: Carried, ghost ms: seq<Mutation>)
      returns (error: Option<SaveError>)
      requires Valid() && i < |builders| && j <= |builders[i].hooks| && NoNil(bs) && Ready(i, m, bs, c)
      requires specs.Length == nodes.Length == |builders| && |ms| == i
      requires forall k :: 0 <= k < i ==> specs[k] == Some(CreateSpecOf(ms[k]))
      modifies Footprint(i), m, driver, specs, nodes, this`trace
      ensures |bs| == |builders| && j <= |bs[i].hooks|
      ensures var run := Chain.Mutate(bs, i, j, c, ms, driver.Engine());
              && error == run.error && trace == old(trace) + run.events && Sent(old(driver.batches), run.batch)
              && Marked(i, run.done) && Identified(i, run.done, nodes[..])
              && Returned(run.batch, run.done, i, nodes[..], specs[..], ms)
      ensures forall k :: i <= k < |builders| ==>
                builders[k].mutation == old(builders[k].mutation) || (k == i && builders[k].mutation == m)
                    || fresh(builders[k].mutation)
      ensures forall k :: 0 <= k < i ==> nodes[k] == old(nodes[k])
      decreases |builders| - i, |builders[i].hooks| - j, 3
    {
      hide *;
      HooksAre(i, m, bs, c);
      if j == |builders[i].hooks| {
        CoreRun(bs, i, c, ms, driver.Engine());
        error := Innermost(i, m, specs, nodes, bs, c, ms);
        return;
      }
      HookRun(bs, i, j, c, ms, driver.Engine());
      var h := builders[i].hooks[j];
      trace := trace + [Entered(i, j)];
      var next := HandDown(i, m, h, bs, c);
      NothingRan(i, next, bs, HandedDown(c, h), nodes, specs, ms);
      if h.flow.Reject? {
        error := Some(h.flow.error);
      } else if h.flow.Skip? {
        error := None;
      } else {
        error := Mutate(i, j + 1, next, specs, nodes, bs, HandedDown(c, h), ms);
        AnswerIs(h.flow, error);
        if h.flow.Swallow? {
          error := None;
        } else if h.flow.Fail? && error.None? {
          error := Some(h.flow.error);
        }
      }
      trace := trace + [Left(i, j)];
    }

    lemma NothingRan(i: nat, m: CampusMutation, bs: seq<Creator>, c: Carried,
                     nodes: array<Option<Node>>, specs: array<Option<CreateSpec>>, ms: seq<Mutation>)
      requires i < |builders| && Ready(i, m, bs, c) && specs.Length == nodes.Length == |builders| && |ms| == i
      requires forall k :: 0 <= k < i ==> specs[k] == Some(CreateSpecOf(ms[k]))
      ensures Marked(i, {}) && Identified(i, {}, nodes[..]) && Returned(None, {}, i, nodes[..], specs[..], ms)
              && Sent(driver.batches, None)
    {
    }

    lemma HooksAre(i: nat, m: CampusMutation, bs: seq<Creator>, c: Carried)
      requires i < |builders| && Ready(i, m, bs, c)
      ensures |bs| == |builders| && bs[i].hooks == builders[i].hooks
      ensures c.own == builders[i].mutation.v && c.passed == m.v && !m.done && Pending(i + 1, bs)
    {
    }

    lemma FootprintFacts(i: nat, m: CampusMutation)
      requires Valid() && i < |builders| && Foreign(m, i + 1)
      ensures builders[i] in Footprint(i) && builders[i].mutation in Footprint(i)
      ensures forall o :: o in Footprint(i + 1) ==> o in Footprint(i)
      ensures forall k :: i <= k < |builders| ==> builders[k] in Footprint(i) && builders[k].mutation in Footprint(i)
      ensures builders[i] !in Footprint(i + 1) && m !in Footprint(i + 1)
      ensures forall k :: i < k < |builders| ==> builders[k] != builders[i]
    {
    }

    /** A hook's own part before it calls the next mutator. */
    method HandDown(i: nat, m: CampusMutation, h: Hook, ghost bs: seq<Creator>,
                    ghost c: Carried) returns (next: CampusMutation)
      requires i < |builders| && Ready(i, m, bs, c) && h.Hook?
      modifies m
      ensures Ready(i, next, bs, HandedDown(c, h)) && (next == m || fresh(next))
    {
      m.v := h.edit(m.v);
      next := m;
      if h.flow.Replace? {
        next := new CampusMutation(h.flow.other);
      }
    }

    method Innermost(i: nat, m: CampusMutation, specs: array<Option<CreateSpec>>, nodes: array<Option<Node>>,
                     ghost bs: seq<Creator>, ghost c: Carried, ghost ms: seq<Mutation>)
      returns (error: Option<SaveError>)
      requires Valid() && i < |builders| && NoNil(bs) && Ready(i, m, bs, c)
      requires specs.Length == nodes.Length == |builders| && |ms| == i
      requires forall k :: 0 <= k < i ==> specs[k] == Some(CreateSpecOf(ms[k]))
      modifies Footprint(i), m, driver, specs, nodes, this`trace
      ensures |bs| == |builders|
      ensures var run := Chain.Innermost(bs, i, c, ms, driver.Engine());
              && error == run.error && trace == old(trace) + run.events && Sent(old(driver.batches), run.batch)
              && Marked(i, run.done) && Identified(i, run.done, nodes[..])
              && Returned(run.batch, run.done, i, nodes[..], specs[..], ms)
      ensures forall k :: i <= k < |builders| ==>
                builders[k].mutation == old(builders[k].mutation) || (k == i && builders[k].mutation == m)
                    || fresh(builders[k].mutation)
      ensures forall k :: 0 <= k < i ==> nodes[k] == old(nodes[k])
      decreases |builders| - i, 0, 2
    {
      hide *;
      HooksAre(i, m, bs, c);
      CoreRun(bs, i, c, ms, driver.Engine());
      NothingRan(i, m, bs, c, nodes, specs, ms);
      trace := trace + [Checked(i)];
      var problem := builders[i].Check();
      if problem.Some? {
        return Some(Invalid);
      }
      ghost var run := Chain.Next(bs, i, ms + [c.passed], driver.Engine());
      Then(old(trace), [Checked(i)], [Built(i)] + run.events);
      Then([Checked(i)], [Built(i)], run.events);
      Then(old(trace), [Checked(i), Built(i)] + run.events, [Finished(i)]);
      error := Proceed(i, m, specs, nodes, bs, c, ms);
    }

    /** The rest of the innermost mutator, after the check. */
    method Proceed(i: nat, m: CampusMutation, specs: array<Option<CreateSpec>>, nodes: array<Option<Node>>,
                   ghost bs: seq<Creator>, ghost c: Carried, ghost ms: seq<Mutation>)
      returns (error: Option<SaveError>)
      requires Valid() && i < |builders| && NoNil(bs) && Ready(i, m, bs, c)
      requires specs.Length == nodes.Length == |builders| && |ms| == i
      requires forall k :: 0 <= k < i ==> specs[k] == Some(CreateSpecOf(ms[k]))
      modifies Footprint(i), m, driver, specs, nodes, this`trace
      ensures |bs| == |builders|
      ensures var run := Chain.Next(bs, i, ms + [c.passed], driver.Engine());
              && error == run.error && Sent(old(driver.batches), run.batch)
              && (error.Some? ==>
                   && trace == old(trace) + ([Built(i)] + run.events)
                   && Marked(i, run.done) && Identified(i, run.done, nodes[..])
                   && Returned(run.batch, run.done, i, nodes[..], specs[..], ms))
              && (error.None? ==>
                   && trace == old(trace) + ([Built(i)] + run.events) + [Finished(i)]
                   && Marked(i, run.done + {i}) && Identified(i, run.done + {i}, nodes[..])
                   && Returned(run.batch, run.done + {i}, i, nodes[..], specs[..], ms))
      ensures forall k :: i <= k < |builders| ==>
                builders[k].mutation == old(builders[k].mutation) || (k == i && builders[k].mutation == m)
                    || fresh(builders[k].mutation)
      ensures forall k :: 0 <= k < i ==> nodes[k] == old(nodes[k])
      decreases |builders| - i, 0, 1
    {
      hide *;
      HooksAre(i, m, bs, c);
      ForeignIs(i, m, bs, c);
      FootprintFacts(i, m);
      Adopt(i, m, specs, nodes, bs, c);
      FootprintFacts(i, m);
      trace := trace + [Built(i)];
      error := Next(i, m, specs, nodes, bs, ms + [c.passed]);
      NextDone(bs, i, ms + [c.passed], driver.Engine());
      ghost var run := Chain.Next(bs, i, ms + [c.passed], driver.Engine());
      ReturnedBefore(run.batch, run.done, i, nodes[..], specs[..], ms, c.passed);
      MarkedBefore(i, run.done, nodes[..]);
      Then(old(trace), [Built(i)], run.events);
      if error.Some? {
        return;
      }
      Finish(i, m, specs, nodes, run, ms, c.passed);
      trace := trace + [Finished(i)];
    }

    lemma ForeignIs(i: nat, m: CampusMutation, bs: seq<Creator>, c: Carried)
      requires i < |builders| && Ready(i, m, bs, c)
      ensures Foreign(m, i + 1)
    {
    }

    /** The builder takes the mutation that was handed down, and its node and
        specification are made of it. */
    method Adopt(i: nat, m: CampusMutation, specs: array<Option<CreateSpec>>, nodes: array<Option<Node>>,
                 ghost bs: seq<Creator>, ghost c: Carried)
      requires Valid() && i < |builders| && Ready(i, m, bs, c) && specs.Length == nodes.Length == |builders|
      modifies builders[i], specs, nodes
      ensures builders[i].mutation == m && Pending(i + 1, bs) && Foreign(m, i + 1)
      ensures specs[..] == old(specs[..])[i := Some(CreateSpecOf(c.passed))]
      ensures nodes[..] == old(nodes[..])[i := Some(NodeOf(c.passed))]
    {
      builders[i].mutation := m;
      var node, spec := BuildSpec(m.v);
      SpecUnique(spec, CreateSpecOf(m.v), m.v);
      nodes[i], specs[i] := Some(node), Some(spec);
    }

    /** Calls the next builder's outermost hook, or writes. */
    method Next(i: nat, m: CampusMutation, specs: array<Option<CreateSpec>>, nodes: array<Option<Node>>,
                ghost bs: seq<Creator>, ghost ms: seq<Mutation>)
      returns (error: Option<SaveError>)
      requires Valid() && i < |builders| && NoNil(bs) && Pending(i + 1, bs) && builders[i].mutation == m
      requires Foreign(m, i + 1) && !m.done
      requires specs.Length == nodes.Length == |builders| && |ms| == i + 1
      requires forall k :: 0 <= k <= i ==> specs[k] == Some(CreateSpecOf(ms[k]))
      modifies Footprint(i + 1), driver, specs, nodes, this`trace
      ensures |bs| == |builders|
      ensures var run := Chain.Next(bs, i, ms, driver.Engine());
              && error == run.error && trace == old(trace) + run.events && Sent(old(driver.batches), run.batch)
              && Marked(i + 1, run.done) && Identified(i + 1, run.done, nodes[..])
              && Returned(run.batch, run.done, i + 1, nodes[..], specs[..], ms)
      ensures builders[i].mutation == m && !m.done && m.v == old(m.v)
      ensures forall k :: i < k < |builders| ==>
                builders[k].mutation == old(builders[k].mutation) || fresh(builders[k].mutation)
      ensures Foreign(m, i + 1)
      ensures forall k :: 0 <= k <= i ==> nodes[k] == old(nodes[k])
      decreases |builders| - i, 0, 0
    {
      hide Pending, Ready, Marked, Returned, Sent, Footprint, Valid, NoNil, Chain.Mutate, Chain.Next;
      PendingIs(i, bs);
      NextRun(bs, i, ms, driver.Engine());
      FootprintFacts(i, m);
      if i < |builders| - 1 {
        error := Mutate(i + 1, 0, builders[i + 1].mutation, specs, nodes, bs, Start(bs[i + 1]), ms);
      } else {
        trace := trace + [Wrote];
        error := Write(specs, nodes, ms);
      }
    }

    /** The one write, with the specifications of all builders. */
    method Write(specs: array<Option<CreateSpec>>, nodes: array<Option<Node>>,
                 ghost ms: seq<Mutation>) returns (error: Option<SaveError>)
      requires specs.Length == nodes.Length == |builders| == |ms|
      requires forall k :: 0 <= k < |ms| ==> specs[k] == Some(CreateSpecOf(ms[k]))
      modifies driver, specs
      ensures error == driver.Engine()(ms)
      ensures var batch := if error.Some? then None else Some(ms);
              && Sent(old(driver.batches), batch) && Marked(|builders|, {}) && Identified(|builders|, {}, nodes[..])
              && Returned(batch, {}, |builders|, nodes[..], specs[..], ms)
    {
      error := driver.BatchCreate(specs, ms);
      assert ms[..|ms|] == ms;
    }

    lemma PendingIs(i: nat, bs: seq<Creator>)
      requires i < |builders| && Pending(i + 1, bs)
      ensures |bs| == |builders|
      ensures i + 1 < |builders| ==>
                && Ready(i + 1, builders[i + 1].mutation, bs, Start(bs[i + 1]))
                && builders[i + 1].mutation in Footprint(i + 1)
    {
    }

    /** Numbers the node and marks the mutation done. */
    method Finish(i: nat, m: CampusMutation, specs: array<Option<CreateSpec>>, nodes: array<Option<Node>>,
                  ghost run: Run, ghost ms: seq<Mutation>, ghost passed: Mutation)
      requires i < |builders| && builders[i].mutation == m && Foreign(m, i + 1)
      requires nodes.Length == |builders| && Marked(i + 1, run.done) && Identified(i + 1, run.done, nodes[..])
      requires specs.Length == nodes.Length == |builders| && |ms| == i && nodes[i] == Some(NodeOf(passed))
      requires Returned(run.batch, run.done, i + 1, nodes[..], specs[..], ms + [passed])
      modifies m, nodes
      ensures Marked(i, run.done + {i}) && Identified(i, run.done + {i}, nodes[..])
      ensures Returned(run.batch, run.done + {i}, i, nodes[..], specs[..], ms)
      ensures forall k :: 0 <= k < i ==> nodes[k] == old(nodes[k])
    {
      hide Specs, NodeOf, CreateSpecOf;
      assert specs[..][i].Some?;
      ReturnedAlso(run.batch, run.done, i, nodes[..], specs[..], ms, passed);
      var node, spec := nodes[i].value, specs[i].value;
      if spec.id.Some? && node.id == 0 {
        node := node.(id := spec.id.value);
      }
      nodes[i] := Some(node);
      assert nodes[..] == old(nodes[..])[i := nodes[i]];
      m.v := m.v.(id := Some(nodes[i].value.id));
      m.done := true;
    }

    lemma ReturnedAlso(batch: Option<seq<Mutation>>, done: set<nat>, i: nat,
                       nodes: seq<Option<Node>>, specs: seq<Option<CreateSpec>>, ms: seq<Mutation>, passed: Mutation)
      requires |nodes| == |specs| == |builders| && |ms| == i < |builders|
      requires Returned(batch, done, i + 1, nodes, specs, ms + [passed]) && specs[i].Some?
      ensures var node, id := NodeOf(passed), specs[i].value.id;
              var named := if id.Some? && node.id == 0 then node.(id := id.value) else node;
              Returned(batch, done + {i}, i, nodes[i := Some(named)], specs, ms)
    {
      if batch.Some? {
        assert batch.value[..i] == batch.value[..i + 1][..i];
        assert batch.value[i] == batch.value[..i + 1][i];
        OwnId(batch.value, i);
      }
    }

    /** A row that came with an ID keeps it: the node has no other. */
    lemma OwnId(batch: seq<Mutation>, k: nat)
      requires k < |batch|
      ensures NodeOf(batch[k]).id != 0 ==> NodeOf(batch[k]).id == driver.IdIn(Specs(batch), k)
    {
      hide SpecFor;
    }

    lemma MarkedBefore(i: nat, done: set<nat>, nodes: seq<Option<Node>>)
      requires i < |builders| == |nodes| && Marked(i + 1, done) && Identified(i + 1, done, nodes)
      requires !builders[i].mutation.done && forall d :: d in done ==> i < d
      ensures Marked(i, done) && Identified(i, done, nodes)
    {
    }

    lemma ReturnedBefore(batch: Option<seq<Mutation>>, done: set<nat>, i: nat,
                         nodes: seq<Option<Node>>, specs: seq<Option<CreateSpec>>, ms: seq<Mutation>, passed: Mutation)
      requires |nodes| == |specs| == |builders| && |ms| == i < |builders| && (forall d :: d in done ==> i < d)
      requires Returned(batch, done, i + 1, nodes, specs, ms + [passed])
      ensures Returned(batch, done, i, nodes, specs, ms)
    {
      if batch.Some? {
        assert batch.value[..i] == batch.value[..i + 1][..i];
      }
    }

    /** The first `n` builders as values. */
    ghost function Values(n: nat): (bs: seq<Creator>)
      requires n <= |builders|
      reads builders, set k | 0 <= k < |builders| :: builders[k].mutation
      ensures |bs| == n && forall k :: 0 <= k < n ==> bs[k] == Creator(builders[k].mutation.v, builders[k].hooks)
    {
      if n == 0 then [] else Values(n - 1) + [Creator(builders[n - 1].mutation.v, builders[n - 1].hooks)]
    }

    ghost function Creators(): (bs: seq<Creator>)
      reads builders, set k | 0 <= k < |builders| :: builders[k].mutation
      ensures |bs| == |builders|
      ensures forall k :: 0 <= k < |bs| ==> bs[k] == Creator(builders[k].mutation.v, builders[k].hooks)
    {
      Values(|builders|)
    }

    lemma CreatorsHaveHooks()
      requires Valid()
      ensures NoNil(Creators())
    {
    }

    method ApplyDefaults()
      requires Valid() && Pending(0, Creators())
      modifies set k | 0 <= k < |builders| :: builders[k].mutation, this`trace
      ensures Pending(0, Prepared(old(Creators()))) && trace == old(trace) + Defaults(|builders|)
    {
      hide Values, WithDefaults, Defaults, Creators;
      ghost var bs := Creators();
      OneMoreDefault(trace, 0);
      for i := 0 to |builders|
        invariant forall k, l :: 0 <= k < l < |builders| ==> builders[k].mutation != builders[l].mutation
        invariant forall k :: 0 <= k < |builders| ==> !builders[k].mutation.done
        invariant forall k :: 0 <= k < |builders| ==>
                    builders[k].mutation.v == if k < i then WithDefaults(bs[k].mutation) else bs[k].mutation
        invariant trace == old(trace) + Defaults(i)
      {
        OneMoreDefault(old(trace), i);
        builders[i].Defaults();
        trace := trace + [Defaulted(i)];
      }
    }

    /** What a save returns for a run: its error, or the nodes of the builders that
        finished, as they were written, each with its own ID or the one that the
        database gave it. */
    ghost predicate SameAnswer(r: Saved, run: Run)
      reads builders, set k | 0 <= k < |builders| :: builders[k].mutation
    {
      if run.error.Some? then r == Failed(run.error.value)
      else
        && r.Nodes? && |r.nodes| == |builders| && Identified(0, run.done, r.nodes)
        && (run.batch.Some? ==>
              && |run.batch.value| == |builders|
              && forall k :: 0 <= k < |builders| && k in run.done ==>
                   r.nodes[k] == Some(NodeOf(run.batch.value[k]).(id := driver.IdIn(Specs(run.batch.value), k))))
    }

    /** Creates all campuses with one write, or fails. */
    method Save() returns (r: Saved)
      requires Valid() && Pending(0, Creators())
      modifies Footprint(0), driver, this`trace
      ensures old(err).Some? ==>
                r == Failed(old(err).value) && trace == old(trace) && driver.batches == old(driver.batches)
      ensures NoNil(old(Creators()))
      ensures old(err).None? ==>
                var run := Chain.Save(old(Creators()), driver.Engine());
                SameAnswer(r, run) && trace == old(trace) + run.events && Sent(old(driver.batches), run.batch)
                    && Marked(0, run.done)
    {
      hide *;
      CreatorsHaveHooks();
      if err.Some? {
        return Failed(err.value);
      }
      r := RunChain();
    }

    method RunChain() returns (r: Saved)
      requires Valid() && Pending(0, Creators()) && NoNil(Creators())
      modifies Footprint(0), driver, this`trace
      ensures var run := Chain.Save(old(Creators()), driver.Engine());
              SameAnswer(r, run) && trace == old(trace) + run.events && Sent(old(driver.batches), run.batch)
                  && Marked(0, run.done)
    {
      hide *;
      ghost var bs, engine := Creators(), driver.Engine();
      SaveRun(bs, engine);
      FootprintHas();
      var specs := new Option<CreateSpec>[|builders|](i => None);
      var nodes := new Option<Node>[|builders|](i => None);
      ApplyDefaults();
      if |builders| == 0 {
        r := Nodes(nodes[..]);
        NothingToDo(r);
        Then(old(trace), [], []);
      } else {
        StartReady(Prepared(bs));
        var error := Mutate(0, 0, builders[0].mutation, specs, nodes, Prepared(bs), Start(Prepared(bs)[0]), []);
        r := if error.Some? then Failed(error.value) else Nodes(nodes[..]);
        ghost var run := Chain.Mutate(Prepared(bs), 0, 0, Start(Prepared(bs)[0]), [], engine);
        Then(old(trace), Defaults(|builders|), run.events);
        ReturnedAll(r, run, bs, engine, nodes[..], specs[..]);
      }
    }

    lemma FootprintHas()
      ensures forall k :: 0 <= k < |builders| ==> builders[k].mutation in Footprint(0)
    {
    }

    lemma NothingToDo(r: Saved)
      requires |builders| == 0 && r == Nodes([])
      ensures Marked(0, {}) && Sent(driver.batches, None) && SameAnswer(r, Run(None, [], None, {}))
    {
    }

    lemma StartReady(bs: seq<Creator>)
      requires |builders| > 0 && Pending(0, bs)
      ensures |bs| == |builders| && Ready(0, builders[0].mutation, bs, Start(bs[0]))
      ensures builders[0].mutation in Footprint(0)
    {
    }

    lemma ReturnedAll(r: Saved, run: Run, bs: seq<Creator>, engine: Engine, nodes: seq<Option<Node>>,
                      specs: seq<Option<CreateSpec>>)
      requires |nodes| == |specs| == |builders| && Returned(run.batch, run.done, 0, nodes, specs, [])
      requires Identified(0, run.done, nodes)
      requires r == if run.error.Some? then Failed(run.error.value) else Nodes(nodes)
      requires NoNil(bs) && Chain.Save(bs, engine) == run.(events := Chain.Save(bs, engine).events)
      ensures SameAnswer(r, Chain.Save(bs, engine))
    {
      hide Chain.Save;
    }
  }
}
