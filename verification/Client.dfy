/**
 What a program that uses the builders can rely on: `First` and `Only` report on
 the rows of the query itself, running again changes nothing, and a clone and its
 original never feel what is done to the other.
 */
module Client {
  import opened Storage
  import opened Query
  import opened NestedLoops
  import opened Extents
  import opened Rerun
  import opened Stepwise
  import opened Builder

  // ----- First and Only -------------------------------------------------------

  function Unlimited(q: Query): Query {
    q.(limit := None)
  }

  lemma LimitTakes(db: Database, q: Query, n: nat)
    requires n > 0
    ensures var rows := Matching(db, SpecOf(db.schema, Unlimited(q)));
            Matching(db, SpecOf(db.schema, q.(limit := Some(n)))) == if n < |rows| then rows[..n] else rows
  {
  }

  lemma SameNode(db: Database, q: Query, q': Query, r: Row)
    requires q' == q.(limit := q'.limit)
    ensures RowTree(db, q', None, r) == RowTree(db, q, None, r)
  {
    hide Filter, Window;
    MapsEqual(RowOne(db, q', r), RowOne(db, q, r));
    MapsEqual(RowMany(db, q', r), RowMany(db, q, r));
  }

  lemma SameNodes(db: Database, q: Query, q': Query, rows: seq<Row>, n: nat)
    requires q' == q.(limit := q'.limit) && n <= |rows|
    ensures RowTrees(db, q', None, rows[..n]) == RowTrees(db, q, None, rows)[..n]
  {
    hide RowTree;
    forall i | 0 <= i < |rows| {
      SameNode(db, q, q', rows[i]);
    }
  }

  lemma LimitedNodes(db: Database, q: Query, n: nat)
    requires n > 0
    ensures var ts := Nested(db, Unlimited(q));
            Nested(db, q.(limit := Some(n))) == if n < |ts| then ts[..n] else ts
  {
    hide Matching, RowTrees;
    var rows := Matching(db, SpecOf(db.schema, Unlimited(q)));
    LimitTakes(db, q, n);
    SameNodes(db, Unlimited(q), q.(limit := Some(n)), rows, if n < |rows| then n else |rows|);
    assert rows[..|rows|] == rows;
  }

  /** `First` returns the query's own first node, whatever limit it has. */
  lemma FirstIs(db: Database, q: Query)
    requires WellFormed(db) && GoodQuery(db.schema, q) && Fits(q, Extent(Some(1), Free))
    ensures var r, ts := FirstOf(Batched(db, q.(limit := Some(1)), Top)), Nested(db, q);
            && (ts != [] <==> r.Ok?) && (ts != [] ==> r.value == ts[0])
            && (ts == [] <==> r == Err(NotFound))
  {
    hide Nested, WellFormed, Batched;
    LimitFits(q, Some(1), Extent(Some(1), Free));
    BatchedIsNested(db, q.(limit := Some(1)));
    LimitedNodes(db, q, 1);
    OwnLimit(db, q);
  }

  lemma LimitFits(q: Query, limit: Option<int>, e: Extent)
    requires Fits(q, e)
    ensures Fits(q.(limit := limit), e)
  {
  }

  lemma OwnLimit(db: Database, q: Query)
    ensures var ts, n := Nested(db, Unlimited(q)), OrZero(q.limit);
            Nested(db, q) == if 0 < n < |ts| then ts[..n] else ts
  {
    hide RowTrees, Filter;
    var n := OrZero(q.limit);
    assert q == q.(limit := q.limit);
    if n > 0 {
      LimitedNodes(db, q, n);
    } else {
      assert Matching(db, SpecOf(db.schema, q)) == Matching(db, SpecOf(db.schema, Unlimited(q)));
      var rows := Matching(db, SpecOf(db.schema, q));
      SameNodes(db, Unlimited(q), q, rows, |rows|);
      assert rows[..|rows|] == rows;
    }
  }

  /** When there is only one node, windows on the root's own edges are harmless. */
  lemma OnlyFits(db: Database, q: Query)
    requires WellFormed(db) && GoodQuery(db.schema, q) && Fits(q, Extent(Some(1), Free))
    ensures |Batched(db, q, Top)| == |Nested(db, q)|
    ensures |Nested(db, q)| <= 1 ==> Batched(db, q, Top) == Nested(db, q)
  {
    hide Matching, Batched, RowTree, Fits, NodesOf;
    CountRoot(db, q);
    if |Nested(db, q)| <= 1 {
      NodesCount(db, q, Top);
      BatchedIsNestedAt(db, q, Top, Extent(Some(1), Free));
    }
  }

  lemma CountRoot(db: Database, q: Query)
    ensures |Batched(db, q, Top)| == |NodesOf(db, q, Top)| == |Nested(db, q)|
  {
    hide Matching, RowTree;
  }

  /** `Only` replaces the query's own limit: it returns the one row of the query without
      one, reports that there is none, or that there are several. So it disagrees with a
      query that is limited to one of several rows, and with no other. */
  lemma OnlyIs(db: Database, q: Query)
    requires WellFormed(db) && GoodQuery(db.schema, q) && Fits(q, Extent(Some(1), Free))
    ensures var r, ts := OnlyOf(Batched(db, q.(limit := Some(2)), Top)), Nested(db, Unlimited(q));
            && (|ts| == 1 <==> r.Ok?) && (|ts| == 1 ==> r.value == ts[0])
            && (ts == [] <==> r == Err(NotFound)) && (|ts| > 1 <==> r == Err(NotSingular))
            && (r == OnlyOf(Nested(db, q)) <==> !(q.limit == Some(1) && |ts| > 1))
  {
    hide Nested, WellFormed, Batched, Fits;
    LimitFits(q, Some(2), Extent(Some(1), Free));
    OnlyFits(db, q.(limit := Some(2)));
    LimitedNodes(db, q, 2);
    OwnLimit(db, q);
  }

  // ----- Running again --------------------------------------------------------

  /** Runs the builder `n` times. */
  method RunTimes(db: Database, b: QueryBuilder, n: nat) returns (rs: seq<Result<seq<Tree>>>)
    requires b.Valid() && WellFormed(db) && GoodQuery(db.schema, b.Value)
    modifies b.Repr
    ensures b.Valid() && |rs| == n
    ensures Succeeds(db, old(b.Value), Top) ==>
              && b.Value == AfterRuns(db, old(b.Value), n)
              && forall i :: 0 <= i < n ==> rs[i] == Ok(Batched(db, old(b.Value), Top))
  {
    hide *;
    ghost var q := b.Value;
    RunsBegin(db, q);
    rs := [];
    for i := 0 to n
      invariant b.Valid() && b.Repr == old(b.Repr) && GoodQuery(db.schema, b.Value) && |rs| == i
      invariant Succeeds(db, q, Top) ==>
                  && b.Value == AfterRuns(db, q, i) && Succeeds(db, b.Value, Top)
                  && forall j :: 0 <= j < i ==> rs[j] == Ok(Batched(db, q, Top))
    {
      ghost var before := b.Value;
      var r := b.All(db);
      rs := rs + [r];
      GrownGood(db.schema, before, b.Value);
      if Succeeds(db, q, Top) {
        RunsGoOn(db, q, i);
        RunsStable(db, q, i);
      }
    }
  }

  lemma RunsBegin(db: Database, q: Query)
    ensures AfterRuns(db, q, 0) == q
  {
  }

  lemma RunsGoOn(db: Database, q: Query, n: nat)
    requires WellFormed(db) && GoodQuery(db.schema, AfterRuns(db, q, n)) && Succeeds(db, AfterRuns(db, q, n), Top)
    ensures AfterRuns(db, q, n + 1) == After(db, AfterRuns(db, q, n), Top)
    ensures Succeeds(db, AfterRuns(db, q, n + 1), Top)
  {
    RunKeepsSuccess(db, AfterRuns(db, q, n), Top);
  }

  // ----- Clones are separate --------------------------------------------------

  datatype Use =
    | Where(predicates: seq<Predicate>) | Order(order: seq<OrderTerm>)
    | Limit(limit: int) | Offset(offset: int) | Select(fields: seq<Column>)
    | First | Only | All

  /** The builder tree that a use starts from, runs included. */
  function Configured(q: Query, u: Use): Query {
    match u
    case Where(ps) => q.(predicates := q.predicates + ps)
    case Order(os) => q.(order := q.order + os)
    case Limit(n) => q.(limit := Some(n))
    case Offset(n) => q.(offset := Some(n))
    case Select(fs) => q.(fields := q.fields + fs)
    case First => q.(limit := Some(1))
    case Only => q.(limit := Some(2))
    case All => q
  }

  predicate IsRun(u: Use) {
    u.First? || u.Only? || u.All?
  }

  function Used(db: Database, q: Query, u: Use): Query {
    if IsRun(u) then After(db, Configured(q, u), Top) else Configured(q, u)
  }

  /** A use is fine when it runs nothing or its run succeeds. */
  ghost predicate Fine(db: Database, q: Query, u: Use) {
    IsRun(u) ==> Succeeds(db, Configured(q, u), Top)
  }

  /** What a use returns to the program. */
  datatype Reply = Nothing | Node(node: Result<Tree>) | Nodes(nodes: Result<seq<Tree>>)

  /** The reply of a fine use. */
  function ReplyOf(db: Database, q: Query, u: Use): Reply {
    match u
    case First => Node(FirstOf(Batched(db, Configured(q, u), Top)))
    case Only => Node(OnlyOf(Batched(db, Configured(q, u), Top)))
    case All => Nodes(Ok(Batched(db, Configured(q, u), Top)))
    case _ => Nothing
  }

  method Perform(db: Database, b: QueryBuilder, u: Use) returns (reply: Reply)
    requires b.Valid() && WellFormed(db) && GoodQuery(db.schema, b.Value)
    modifies b.Repr
    ensures b.Valid() && b.Repr == old(b.Repr) && GoodQuery(db.schema, b.Value)
    ensures Fine(db, old(b.Value), u) ==> b.Value == Used(db, old(b.Value), u) && reply == ReplyOf(db, old(b.Value), u)
  {
    hide *;
    ghost var q := b.Value;
    b.OwnFacts();
    UseFacts(db, q, u);
    reply := Nothing;
    match u {
      case Where(ps) => b.Where(ps);
      case Order(os) => b.Order(os);
      case Limit(n) => b.Limit(n);
      case Offset(n) => b.Offset(n);
      case Select(fs) => b.Select(fs);
      case First =>
        var r := b.First(db);
        reply := Node(r);
      case Only =>
        var r := b.Only(db);
        reply := Node(r);
      case All =>
        var r := b.All(db);
        reply := Nodes(r);
    }
    if IsRun(u) {
      GrownGood(db.schema, Configured(q, u), b.Value);
    }
  }

  lemma UseFacts(db: Database, q: Query, u: Use)
    requires GoodQuery(db.schema, q)
    ensures GoodQuery(db.schema, Configured(q, u))
    ensures Used(db, q, u) == if IsRun(u) then After(db, Configured(q, u), Top) else Configured(q, u)
    ensures Fine(db, q, u) <==> (IsRun(u) ==> Succeeds(db, Configured(q, u), Top))
    ensures IsRun(u) <==> u.First? || u.Only? || u.All?
    ensures ReplyOf(db, q, u) == match u {
      case First => Node(FirstOf(Batched(db, Configured(q, u), Top)))
      case Only => Node(OnlyOf(Batched(db, Configured(q, u), Top)))
      case All => Nodes(Ok(Batched(db, Configured(q, u), Top)))
      case _ => Nothing
    }
    ensures Configured(q, u) == match u {
      case Where(ps) => q.(predicates := q.predicates + ps)
      case Order(os) => q.(order := q.order + os)
      case Limit(n) => q.(limit := Some(n))
      case Offset(n) => q.(offset := Some(n))
      case Select(fs) => q.(fields := q.fields + fs)
      case First => q.(limit := Some(1))
      case Only => q.(limit := Some(2))
      case All => q
    }
  {
  }

  function UsedAll(db: Database, q: Query, us: seq<Use>): Query {
    if us == [] then q else Used(db, UsedAll(db, q, us[..|us| - 1]), us[|us| - 1])
  }

  ghost predicate FineAll(db: Database, q: Query, us: seq<Use>) {
    us == [] || (FineAll(db, q, us[..|us| - 1]) && Fine(db, UsedAll(db, q, us[..|us| - 1]), us[|us| - 1]))
  }

  /** The replies to a builder that is used alone. */
  function RepliesAlone(db: Database, q: Query, us: seq<Use>): seq<Reply> {
    if us == [] then []
    else RepliesAlone(db, q, us[..|us| - 1]) + [ReplyOf(db, UsedAll(db, q, us[..|us| - 1]), us[|us| - 1])]
  }

  /** What belongs to one of the two builders, out of an interleaved log. */
  function Of<T>(log: seq<(bool, T)>, clone: bool): seq<T> {
    if log == [] then []
    else
      var last := log[|log| - 1];
      Of(log[..|log| - 1], clone) + if last.0 == clone then [last.1] else []
  }

  lemma OneMore(db: Database, q: Query, history: seq<(bool, Use)>, i: nat, clone: bool)
    requires i < |history|
    ensures Of(history[..i + 1], clone) ==
              if history[i].0 == clone then Of(history[..i], clone) + [history[i].1] else Of(history[..i], clone)
    ensures var us, u := Of(history[..i], clone), history[i].1;
            && UsedAll(db, q, us + [u]) == Used(db, UsedAll(db, q, us), u)
            && RepliesAlone(db, q, us + [u]) == RepliesAlone(db, q, us) + [ReplyOf(db, UsedAll(db, q, us), u)]
            && (FineAll(db, q, us + [u]) <==> FineAll(db, q, us) && Fine(db, UsedAll(db, q, us), u))
  {
    hide Used, Fine, ReplyOf;
    assert history[..i + 1][..i] == history[..i];
    var us, u := Of(history[..i], clone), history[i].1;
    assert (us + [u])[..|us|] == us;
  }

  lemma LogMore<T>(log: seq<(bool, T)>, clone: bool, x: T)
    ensures Of(log + [(clone, x)], clone) == Of(log, clone) + [x]
    ensures Of(log + [(clone, x)], !clone) == Of(log, !clone)
  {
    assert (log + [(clone, x)])[..|log|] == log;
  }

  /** A builder and the replies to it are what the uses of it alone make of them. */
  ghost predicate AsAlone(db: Database, q0: Query, us: seq<Use>, q: Query, replies: seq<Reply>) {
    FineAll(db, q0, us) ==> q == UsedAll(db, q0, us) && replies == RepliesAlone(db, q0, us)
  }

  lemma AloneStep(db: Database, q0: Query, history: seq<(bool, Use)>, i: nat, clone: bool,
                  q: Query, q': Query, replies: seq<Reply>, reply: Reply)
    requires i < |history| && history[i].0 == clone
    requires AsAlone(db, q0, Of(history[..i], clone), q, replies)
    requires Fine(db, q, history[i].1) ==> q' == Used(db, q, history[i].1) && reply == ReplyOf(db, q, history[i].1)
    ensures AsAlone(db, q0, Of(history[..i + 1], clone), q', replies + [reply])
  {
    hide UsedAll, FineAll, RepliesAlone, Of, Used, Fine, ReplyOf;
    OneMore(db, q0, history, i, clone);
  }

  lemma OtherStep(db: Database, q0: Query, history: seq<(bool, Use)>, i: nat, clone: bool, q: Query,
                  replies: seq<Reply>)
    requires i < |history| && history[i].0 != clone && AsAlone(db, q0, Of(history[..i], clone), q, replies)
    ensures AsAlone(db, q0, Of(history[..i + 1], clone), q, replies)
  {
    hide AsAlone, UsedAll, FineAll, RepliesAlone, Of;
    OneMore(db, q0, history, i, clone);
  }

  /** Clones a builder, then uses both in any order. Each replies and ends as if the other
      had not been there. */
  method UseBoth(db: Database, q: QueryBuilder, history: seq<(bool, Use)>)
    returns (c: QueryBuilder, log: seq<(bool, Reply)>)
    requires q.Valid() && WellFormed(db) && GoodQuery(db.schema, q.Value)
    modifies q.Repr
    ensures q.Valid() && c.Valid() && q.Repr == old(q.Repr) && fresh(c.Repr)
    ensures |log| == |history| && forall i :: 0 <= i < |log| ==> log[i].0 == history[i].0
    ensures FineAll(db, old(q.Value), Of(history, false)) ==>
              && q.Value == UsedAll(db, old(q.Value), Of(history, false))
              && Of(log, false) == RepliesAlone(db, old(q.Value), Of(history, false))
    ensures FineAll(db, Unnamed(old(q.Value)), Of(history, true)) ==>
              && c.Value == UsedAll(db, Unnamed(old(q.Value)), Of(history, true))
              && Of(log, true) == RepliesAlone(db, Unnamed(old(q.Value)), Of(history, true))
  {
    hide *;
    ghost var q0 := q.Value;
    c := q.Clone();
    log := [];
    q.Kept(q);
    UnnamedGood(db.schema, q0);
    NothingYet(db, q0);
    NothingYet(db, Unnamed(q0));
    assert history[..0] == [] && history[..|history|] == history;
    for i := 0 to |history|
      invariant q.Valid() && c.Valid() && q.Repr == old(q.Repr) && fresh(c.Repr)
      invariant forall o :: o in c.Repr ==> o !in q.Repr
      invariant GoodQuery(db.schema, q.Value) && GoodQuery(db.schema, c.Value)
      invariant |log| == i && forall j :: 0 <= j < i ==> log[j].0 == history[j].0
      invariant AsAlone(db, q0, Of(history[..i], false), q.Value, Of(log, false))
      invariant AsAlone(db, Unnamed(q0), Of(history[..i], true), c.Value, Of(log, true))
    {
      var (clone, u) := history[i];
      ghost var qv, cv, before := q.Value, c.Value, log;
      var reply;
      if clone {
        reply := UseOne(db, c, q, u);
        AloneStep(db, Unnamed(q0), history, i, true, cv, c.Value, Of(before, true), reply);
        OtherStep(db, q0, history, i, false, q.Value, Of(before, false));
      } else {
        reply := UseOne(db, q, c, u);
        AloneStep(db, q0, history, i, false, qv, q.Value, Of(before, false), reply);
        OtherStep(db, Unnamed(q0), history, i, true, c.Value, Of(before, true));
      }
      log := log + [(clone, reply)];
      LogMore(before, clone, reply);
    }
    AloneAtLast(db, q0, Of(history, false), q.Value, Of(log, false));
    AloneAtLast(db, Unnamed(q0), Of(history, true), c.Value, Of(log, true));
  }

  lemma AloneAtLast(db: Database, q0: Query, us: seq<Use>, q: Query, replies: seq<Reply>)
    requires AsAlone(db, q0, us, q, replies)
    ensures FineAll(db, q0, us) ==> q == UsedAll(db, q0, us) && replies == RepliesAlone(db, q0, us)
  {
  }

  /** Uses one builder and leaves a separate one alone. */
  method UseOne(db: Database, b: QueryBuilder, other: QueryBuilder, u: Use) returns (reply: Reply)
    requires b.Valid() && other.Valid() && WellFormed(db) && GoodQuery(db.schema, b.Value)
    requires forall o :: o in b.Repr ==> o !in other.Repr
    modifies b.Repr
    ensures b.Valid() && b.Repr == old(b.Repr) && GoodQuery(db.schema, b.Value)
    ensures Fine(db, old(b.Value), u) ==> b.Value == Used(db, old(b.Value), u) && reply == ReplyOf(db, old(b.Value), u)
    ensures other.Valid() && other.Repr == old(other.Repr) && other.Value == old(other.Value)
  {
    hide *;
    reply := Perform(db, b, u);
    other.Kept(other);
  }

  lemma NothingYet(db: Database, q: Query)
    ensures Of<Use>([], true) == [] && Of<Use>([], false) == []
    ensures Of<Reply>([], true) == [] && Of<Reply>([], false) == []
    ensures AsAlone(db, q, [], q, [])
  {
  }

  lemma {:induction false} UnnamedGood(s: Schema, q: Query)
    requires GoodQuery(s, q)
    ensures GoodQuery(s, Unnamed(q))
    decreases q
  {
    forall k | k in Unnamed(q).loads ensures GoodQuery(s, Unnamed(q).loads[k]) {
      UnnamedGood(s, q.loads[k]);
    }
  }
}
