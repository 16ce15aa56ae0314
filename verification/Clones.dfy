/**
 What `Clone` preserves. A clone forgets the named eager loads, at every depth:
 it returns the original's nodes with their named lists erased, and it returns the
 same nodes on every database exactly when there is nothing to forget.
 */
module Clones {
  import opened Storage
  import opened Query
  import opened NestedLoops
  import opened Extents
  import opened Forest
  import opened Reach
  import Diagonal
  import EdgeStatus
  import Windows

  /** A node without the named lists of its builder's tree. */
  function Erased(q: Query, t: Tree): Tree
    decreases q, 1
  {
    Tree(t.row, t.loadedTypes, ErasedOne(q, t.one), ErasedMany(q, t.many))
  }

  function ErasedOne(q: Query, one: map<LoadKey, Tree>): map<LoadKey, Tree>
    decreases q, 0
  {
    map k | k in one && k in q.loads && k.Plain? :: Erased(q.loads[k], one[k])
  }

  function ErasedMany(q: Query, many: map<LoadKey, seq<Tree>>): map<LoadKey, seq<Tree>>
    decreases q, 0
  {
    map k | k in many && k in q.loads && k.Plain? :: ErasedAll(q.loads[k], many[k])
  }

  function ErasedAll(q: Query, ts: seq<Tree>): (r: seq<Tree>)
    ensures |r| == |ts|
    decreases q, 2
  {
    seq(|ts|, i requires 0 <= i < |ts| => Erased(q, ts[i]))
  }

  function Erasing(q: Query): Tree -> Tree {
    t => Erased(q, t)
  }

  lemma ReferringErased(q: Query, ts: seq<Tree>, c: Column, id: int)
    ensures Referring(ErasedAll(q, ts), c, id) == ErasedAll(q, Referring(ts, c, id))
  {
    FilterMap(ts, ErasedAll(q, ts), Erasing(q), RefersTo(c, id), RefersTo(c, id));
  }

  lemma {:induction false} LastErased(q: Query, ts: seq<Tree>, id: int)
    ensures LastWithId(ErasedAll(q, ts), id) ==
              if LastWithId(ts, id).None? then None else Some(Erased(q, LastWithId(ts, id).value))
  {
    if ts == [] {
    } else {
      var last := |ts| - 1;
      assert ErasedAll(q, ts)[..last] == ErasedAll(q, ts[..last]);
      LastErased(q, ts[..last], id);
    }
  }

  // ----- The clone's own rows -------------------------------------------------

  lemma CloneRows(db: Database, q: Query, link: Link)
    ensures NodesOf(db, Unnamed(q), link) == NodesOf(db, q, link)
    ensures PlainKeys(Unnamed(q)) == PlainKeys(q) == Unnamed(q).loads.Keys
  {
    hide Matching, AddForeignKeys, Filter;
    var a, b := Attach(Unnamed(q), link), Attach(q, link);
    ForeignKeysOfPlain([ID] + WithoutID(b.fields), db.schema.EdgesOf(q.table), a.loads.Keys, b.loads.Keys);
    assert SpecOf(db.schema, a) == SpecOf(db.schema, b);
  }

  lemma JoinedErased(q: Query, r: Row, nb: map<LoadKey, seq<Tree>>, nb': map<LoadKey, seq<Tree>>)
    requires nb.Keys == PlainKeys(q) && nb'.Keys == q.loads.Keys
    requires forall k :: k in nb ==> nb[k] == ErasedAll(q.loads[k], nb'[k])
    ensures Joined(r, PlainKeys(q), nb) == Erased(q, Joined(r, PlainKeys(q), nb'))
  {
    ManyErased(q, r, nb, nb');
    OneErased(q, r, nb, nb');
  }

  lemma ManyErased(q: Query, r: Row, nb: map<LoadKey, seq<Tree>>, nb': map<LoadKey, seq<Tree>>)
    requires nb.Keys == PlainKeys(q) && nb'.Keys == q.loads.Keys
    requires forall k :: k in nb ==> nb[k] == ErasedAll(q.loads[k], nb'[k])
    ensures JoinedMany(r, nb) == ErasedMany(q, JoinedMany(r, nb'))
  {
    hide ErasedAll, Filter;
    var t, u := JoinedMany(r, nb), ErasedMany(q, JoinedMany(r, nb'));
    forall k | k in t ensures k in u && t[k] == u[k] {
      ReferringErased(q.loads[k], nb'[k], k.edge.column, IdOf(r));
    }
    MapsEqual(t, u);
  }

  lemma OneErased(q: Query, r: Row, nb: map<LoadKey, seq<Tree>>, nb': map<LoadKey, seq<Tree>>)
    requires nb.Keys == PlainKeys(q) && nb'.Keys == q.loads.Keys
    requires forall k :: k in nb ==> nb[k] == ErasedAll(q.loads[k], nb'[k])
    ensures JoinedOne(r, nb) == ErasedOne(q, JoinedOne(r, nb'))
  {
    hide ErasedAll, Erased, LastWithId;
    var t, u := JoinedOne(r, nb), ErasedOne(q, JoinedOne(r, nb'));
    forall k | k in t ensures k in u && t[k] == u[k] {
      LastErased(q.loads[k], nb'[k], Fk(r, k.edge.column).value);
    }
    forall k | k in u ensures k in t {
      LastErased(q.loads[k], nb'[k], Fk(r, k.edge.column).value);
    }
    MapsEqual(t, u);
  }

  /** Main theorem: the clone returns the original's nodes, named lists erased. */
  lemma {:induction false} CloneMeans(db: Database, q: Query, link: Link)
    ensures Batched(db, Unnamed(q), link) == ErasedAll(q, Batched(db, q, link))
    decreases q
  {
    hide NodesOf, Joined;
    var c, rows := Unnamed(q), NodesOf(db, q, link);
    CloneRows(db, q, link);
    var nb, nb' := Neighbours(db, c, rows), Neighbours(db, q, rows);
    forall k | k in nb ensures nb[k] == ErasedAll(q.loads[k], nb'[k]) {
      CloneMeans(db, q.loads[k], LinkFor(k, rows));
    }
    forall i | 0 <= i < |rows| ensures Batched(db, c, link)[i] == Erased(q, Batched(db, q, link)[i]) {
      JoinedErased(q, rows[i], nb, nb');
    }
  }

  // ----- When the clone is the original ---------------------------------------

  ghost predicate NoNamed(q: Query)
    decreases q
  {
    forall k :: k in q.loads ==> k.Plain? && NoNamed(q.loads[k])
  }

  /** The clone's builder tree is the original's if and only if no builder in it
      has a named load. */
  lemma {:induction false} CloneIsSame(q: Query)
    ensures Unnamed(q) == q <==> NoNamed(q)
    decreases q
  {
    forall k | k in q.loads {
      CloneIsSame(q.loads[k]);
    }
    if NoNamed(q) {
      MapsEqual(Unnamed(q).loads, q.loads);
    }
    if Unnamed(q) == q {
      forall k | k in q.loads ensures k.Plain? && NoNamed(q.loads[k]) {
        assert k in Unnamed(q).loads;
      }
    }
  }

  /** Forgetting loads cannot make a run fail. */
  lemma {:induction false} CloneSucceeds(db: Database, q: Query, link: Link)
    requires Succeeds(db, q, link)
    ensures Succeeds(db, Unnamed(q), link)
    decreases q
  {
    hide NodesOf;
    var rows := NodesOf(db, q, link);
    CloneRows(db, q, link);
    if rows == [] {
    } else {
      forall k | k in Unnamed(q).loads ensures Runs(db, Unnamed(q).loads[k], k, rows) {
        assert Runs(db, q.loads[k], k, rows);
        if !Skipped(k, rows) {
          CloneSucceeds(db, q.loads[k], LinkFor(k, rows));
        }
      }
    }
  }

  // ----- When the clone returns the same nodes --------------------------------

  /** No run that the builder tree starts on this database comes to a builder with a
      named load and a node to load it for. */
  ghost predicate NoneReached(db: Database, q: Query, link: Link)
    decreases q
  {
    NodesOf(db, q, link) == []
    || forall k :: k in q.loads ==> k.Plain? && NoneReached(db, q.loads[k], LinkFor(k, NodesOf(db, q, link)))
  }

  lemma {:induction false} CloneAgrees(db: Database, q: Query, link: Link)
    requires NoneReached(db, q, link)
    ensures Batched(db, Unnamed(q), link) == Batched(db, q, link)
    decreases q
  {
    hide NodesOf, Joined, LinkFor;
    var c, rows := Unnamed(q), NodesOf(db, q, link);
    CloneRows(db, q, link);
    if rows == [] {
    } else {
      forall k | k in q.loads ensures k in c.loads && Neighbours(db, c, rows)[k] == Neighbours(db, q, rows)[k] {
        CloneAgrees(db, q.loads[k], LinkFor(k, rows));
      }
      MapsEqual(Neighbours(db, c, rows), Neighbours(db, q, rows));
    }
  }

  /** Every node that a child run found is loaded by some parent. */
  lemma LoadedByParent(db: Database, q: Query, link: Link, k: LoadKey, x: nat) returns (i: nat)
    requires WellFormed(db) && GoodQuery(db.schema, q) && k in q.loads
    requires x < |Batched(db, q.loads[k], LinkFor(k, NodesOf(db, q, link)))|
    ensures i < |Batched(db, q, link)|
    ensures var t, n := Batched(db, q.loads[k], LinkFor(k, NodesOf(db, q, link)))[x], Batched(db, q, link)[i];
            if k.edge.kind.List? then k in n.many && t in n.many[k] else k in n.one && n.one[k] == t
  {
    hide NodesOf, Batched, JoinedOne, JoinedMany;
    var rows := NodesOf(db, q, link);
    var found := Batched(db, q.loads[k], LinkFor(k, rows));
    LinkedTrees(db, q.loads[k], LinkFor(k, rows), x);
    if k.edge.kind.List? {
      i :| 0 <= i < |rows| && Ids(rows)[i] == Fk(found[x].row, k.edge.column).value;
      EdgeStatus.NodeJoined(db, q, link, i);
      ListHas(rows[i], Neighbours(db, q, rows), k, found[x]);
    } else {
      ForeignKeysExact(rows, k.edge.column);
      i :| 0 <= i < |rows| && Fk(rows[i], k.edge.column) == Some(IdOf(found[x].row));
      EdgeStatus.NodeJoined(db, q, link, i);
      EdgeStatus.OnlyWithId(db, q.loads[k], LinkFor(k, rows), x);
      OneIs(rows[i], Neighbours(db, q, rows), k, found[x]);
    }
  }

  lemma ListHas(r: Row, nb: map<LoadKey, seq<Tree>>, k: LoadKey, t: Tree)
    requires k in nb && k.edge.kind.List? && t in nb[k] && Fk(t.row, k.edge.column) == Some(IdOf(r))
    ensures k in JoinedMany(r, nb) && t in JoinedMany(r, nb)[k]
  {
    FilterMembers(nb[k], RefersTo(k.edge.column, IdOf(r)));
  }

  lemma OneIs(r: Row, nb: map<LoadKey, seq<Tree>>, k: LoadKey, t: Tree)
    requires k in nb && k.edge.kind.Unique? && Fk(r, k.edge.column) == Some(IdOf(t.row))
    requires LastWithId(nb[k], IdOf(t.row)) == Some(t)
    ensures k in JoinedOne(r, nb) && JoinedOne(r, nb)[k] == t
  {
  }

  /** A list that has a node which erasing changes is changed by erasing. */
  lemma ErasedDiffers(q: Query, ts: seq<Tree>, t: Tree)
    requires t in ts && Erased(q, t) != t
    ensures ErasedAll(q, ts) != ts
  {
    var i :| 0 <= i < |ts| && ts[i] == t;
    assert ErasedAll(q, ts)[i] != ts[i];
  }

  lemma NodeErased(q: Query, n: Tree, k: LoadKey, t: Tree)
    requires k in q.loads && k.Plain? && Erased(q.loads[k], t) != t
    requires if k.edge.kind.List? then k in n.many && t in n.many[k] else k in n.one && n.one[k] == t
    ensures Erased(q, n) != n
  {
    if k.edge.kind.List? {
      ErasedDiffers(q.loads[k], n.many[k], t);
      assert k in ErasedMany(q, n.many) && ErasedMany(q, n.many)[k] != n.many[k];
    } else {
      assert k in ErasedOne(q, n.one) && ErasedOne(q, n.one)[k] != n.one[k];
    }
  }

  lemma {:induction false} CloneParts(db: Database, q: Query, link: Link)
    requires WellFormed(db) && GoodQuery(db.schema, q) && !NoneReached(db, q, link)
    ensures Batched(db, Unnamed(q), link) != Batched(db, q, link)
    decreases q
  {
    hide NodesOf, Batched, Erased, LinkFor, WellFormed;
    var rows, ts := NodesOf(db, q, link), Batched(db, q, link);
    CloneMeans(db, q, link);
    var k :| k in q.loads && !(k.Plain? && NoneReached(db, q.loads[k], LinkFor(k, rows)));
    if k.Named? {
      EdgeStatus.NodeJoined(db, q, link, 0);
      NamedErased(q, ts[0], k, rows[0], Neighbours(db, q, rows));
      ErasedDiffers(q, ts, ts[0]);
    } else {
      var found := Batched(db, q.loads[k], LinkFor(k, rows));
      CloneParts(db, q.loads[k], LinkFor(k, rows));
      CloneMeans(db, q.loads[k], LinkFor(k, rows));
      var x :| 0 <= x < |found| && ErasedAll(q.loads[k], found)[x] != found[x];
      var i := LoadedByParent(db, q, link, k, x);
      NodeErased(q, ts[i], k, found[x]);
      ErasedDiffers(q, ts, ts[i]);
    }
  }

  lemma NamedErased(q: Query, n: Tree, k: LoadKey, r: Row, nb: map<LoadKey, seq<Tree>>)
    requires k.Named? && k.edge.kind.List? && k in nb && n.many == JoinedMany(r, nb)
    ensures Erased(q, n) != n
  {
    assert k in n.many && k !in Erased(q, n).many;
  }

  /** Main theorem, for every database: a clone returns the original's nodes if and only
      if no named load is reached. */
  lemma CloneExactAt(db: Database, q: Query, link: Link)
    requires WellFormed(db) && GoodQuery(db.schema, q)
    ensures Batched(db, Unnamed(q), link) == Batched(db, q, link) <==> NoneReached(db, q, link)
  {
    hide Batched, NoneReached;
    if NoneReached(db, q, link) {
      CloneAgrees(db, q, link);
    } else {
      CloneParts(db, q, link);
    }
  }

  // ----- On all databases -----------------------------------------------------

  ghost predicate SameOnAll(s: Schema, q: Query) {
    forall db :: WellFormed(db) && db.schema == s ==> Batched(db, Unnamed(q), Top) == Batched(db, q, Top)
  }

  lemma DiffersOnSome(db: Database, q: Query)
    requires WellFormed(db) && GoodQuery(db.schema, q) && !NoneReached(db, q, Top)
    ensures !SameOnAll(db.schema, q)
  {
    hide Batched, NoneReached, WellFormed;
    CloneExactAt(db, q, Top);
  }

  ghost predicate NoOffsets(q: Query)
    decreases q
  {
    OrZero(q.offset) <= 0 && forall k :: k in q.loads ==> NoOffsets(q.loads[k])
  }

  ghost predicate NoLimits(q: Query)
    decreases q
  {
    OrZero(q.limit) <= 0 && forall k :: k in q.loads ==> NoLimits(q.loads[k])
  }

  /** Starting with so many nodes, one-to-one, the windows leave some for a named load. */
  ghost predicate NamedLeft(q: Query, n: nat)
    decreases q
  {
    n > 0 && exists k :: k in q.loads && (k.Named? || NamedLeft(q.loads[k], CutSize(q.loads[k], n)))
  }

  lemma {:induction false} SomeLeft(q: Query) returns (n: nat)
    requires (NoOffsets(q) || NoLimits(q)) && !NoNamed(q)
    ensures NamedLeft(q, n) && (NoOffsets(q) ==> n == 1)
    decreases q
  {
    var k :| k in q.loads && !(k.Plain? && NoNamed(q.loads[k]));
    if k.Named? {
      n := 1;
    } else {
      n := SomeLeft(q.loads[k]);
      n := n + AtLeastZero(OrZero(q.loads[k].offset));
    }
    assert k.Named? || NamedLeft(q.loads[k], CutSize(q.loads[k], n));
  }

  lemma {:induction false} LeftIsReached(s: Schema, n: nat, q: Query, link: Link, from: nat, to: nat)
    requires Diagonal.FoundStretch(s, n, q, link, from, to) && from <= to && NamedLeft(q, to - from)
    ensures !NoneReached(Diagonal.Diagonal(s, n), q, link)
    decreases q
  {
    hide NodesOf, Diagonal.FoundStretch, Diagonal.Diagonal;
    Diagonal.StretchCount(s, n, q, link, from, to);
    var k :| k in q.loads && (k.Named? || NamedLeft(q.loads[k], CutSize(q.loads[k], to - from)));
    if k.Named? {
    } else {
      var from', to' := Diagonal.StretchBelow(s, n, q, link, from, to, k);
      LeftIsReached(s, n, q.loads[k], LinkFor(k, NodesOf(Diagonal.Diagonal(s, n), q, link)), from', to');
    }
  }

  lemma RootLeft(q: Query, n: nat)
    requires NoLimits(q) || (NoOffsets(q) && n == 1)
    ensures CutSize(q, n + AtLeastZero(OrZero(q.offset))) == n
  {
  }

  /** Main theorem: without offsets, or without limits, a clone returns the original's
      nodes on every database if and only if no builder of the tree has a named load. */
  lemma CloneExact(s: Schema, q: Query)
    requires s.Valid() && GoodQuery(s, q) && q.table in s.columns && TestsThroughout(q)
    requires NoOffsets(q) || NoLimits(q)
    ensures SameOnAll(s, q) <==> NoNamed(q)
  {
    hide Batched, WellFormed, NamedLeft;
    if NoNamed(q) {
      CloneIsSame(q);
    } else {
      CloneDiffers(s, q);
    }
  }

  /** A named load that is left over is reached on the diagonal. */
  lemma CloneDiffers(s: Schema, q: Query)
    requires s.Valid() && GoodQuery(s, q) && q.table in s.columns && TestsThroughout(q)
    requires (NoOffsets(q) || NoLimits(q)) && !NoNamed(q)
    ensures !SameOnAll(s, q)
  {
    hide Batched, WellFormed, NoneReached, SameOnAll, Diagonal.FoundStretch, Diagonal.Diagonal, NamedLeft;
    var left := SomeLeft(q);
    var n := left + AtLeastZero(OrZero(q.offset));
    RootLeft(q, left);
    var from, to := Diagonal.StretchRoot(s, n, q);
    LeftIsReached(s, n, q, Top, from, to);
    Diagonal.DiagonalWellFormed(s, n);
    Diagonal.StretchCount(s, n, q, Top, from, to);
    DiffersOnSome(Diagonal.Diagonal(s, n), q);
  }

  // ----- Where windows are harmless -------------------------------------------

  /** No builder that can find a node has a named load. */
  ghost predicate NoNamedWithin(q: Query, e: Extent)
    decreases q
  {
    e.size == Some(0)
    || forall k :: k in q.loads ==> k.Plain? && NoNamedWithin(q.loads[k], Below(q.table, k, q.loads[k], e))
  }

  /** What no extent reaches, no run reaches. */
  lemma {:induction false} NoneWithin(db: Database, q: Query, link: Link, e: Extent)
    requires WellFormed(db) && GoodQuery(db.schema, q) && NoNamedWithin(q, e)
    requires Within(db, e, IdSet(NodesOf(db, q, link)))
    ensures NoneReached(db, q, link)
    decreases q
  {
    hide NodesOf, Within, Below;
    NodesCount(db, q, link);
    if e.size == Some(0) {
      NothingFound(db, e, NodesOf(db, q, link));
    } else {
      forall k | k in q.loads ensures k.Plain? && NoneReached(db, q.loads[k], LinkFor(k, NodesOf(db, q, link))) {
        BelowWithin(db, q, link, e, k);
        NoneWithin(db, q.loads[k], LinkFor(k, NodesOf(db, q, link)), Below(q.table, k, q.loads[k], e));
      }
    }
  }

  lemma NothingFound(db: Database, e: Extent, rows: seq<Row>)
    requires Within(db, e, IdSet(rows)) && e.size == Some(0) && |IdSet(rows)| == |rows|
    ensures rows == []
  {
  }

  /** A named load within reach, below windows that are no larger than `m`. */
  ghost predicate NamedWithin(q: Query, e: Extent, d: nat, m: nat)
    decreases q, 0
  {
    e.size != Some(0) && exists k :: k in q.loads && NamedAt(q.table, k, q.loads[k], e, d, m)
  }

  ghost predicate NamedAt(t: Table, k: LoadKey, c: Query, e: Extent, d: nat, m: nat)
    decreases c, 1
  {
    k.Named? || (d > 0 && SmallWindow(c, m) && NamedWithin(c, Below(t, k, c, e), d - 1, m))
  }

  lemma {:induction false} NamedMore(q: Query, e: Extent, d: nat, m: nat, more: nat)
    requires NamedWithin(q, e, d, m) && m <= more
    ensures NamedWithin(q, e, d, more)
    decreases q
  {
    hide Below;
    var k :| k in q.loads && NamedAt(q.table, k, q.loads[k], e, d, m);
    if k.Named? {
    } else {
      NamedMore(q.loads[k], Below(q.table, k, q.loads[k], e), d - 1, m, more);
    }
    assert NamedAt(q.table, k, q.loads[k], e, d, more);
  }

  lemma {:induction false} SomeNamed(q: Query, e: Extent) returns (d: nat, m: nat)
    requires !NoNamedWithin(q, e)
    ensures NamedWithin(q, e, d, m) && m >= 1
    decreases q
  {
    hide Below;
    var k :| k in q.loads && !(k.Plain? && NoNamedWithin(q.loads[k], Below(q.table, k, q.loads[k], e)));
    if k.Named? {
      d, m := 0, 1;
    } else {
      var c, below := q.loads[k], Below(q.table, k, q.loads[k], e);
      d, m := SomeNamed(c, below);
      NamedMore(c, below, d, m, m + Windows.RoomFor(c));
      d, m := d + 1, m + Windows.RoomFor(c);
    }
    assert NamedAt(q.table, k, q.loads[k], e, d, m);
  }

  lemma {:induction false} NamedIsReached(g: Ground, q: Query, link: Link, e: Extent, top: nat, ids: seq<int>, d: nat)
    requires RealRun(g, q, link, e, top, ids) && g.f.Valid() && top >= 1 && Windows.Room(g.f, top, d) <= g.n
    requires Fits(q, e) && NamedWithin(q, e, d, g.m)
    ensures !NoneReached(g.Db(), q, link)
    decreases q
  {
    hide RealRun, Allows, Below, Grove, LastChild, NodesOf;
    SomeNode(g, q, link, e, top, ids);
    var k :| k in q.loads && NamedAt(q.table, k, q.loads[k], e, d, g.m);
    if k.Named? {
    } else {
      NamedSome(q.loads[k], Below(q.table, k, q.loads[k], e), d - 1, g.m);
      var next := BelowReached(g, q, link, e, top, ids, k);
      var link' := LinkFor(k, NodesOf(g.Db(), q, link));
      NamedIsReached(g, q.loads[k], link', Below(q.table, k, q.loads[k], e), LastChild(g.f, top), next, d - 1);
    }
  }

  lemma NamedSome(q: Query, e: Extent, d: nat, m: nat)
    requires NamedWithin(q, e, d, m)
    ensures e.size != Some(0)
  {
  }

  lemma SomeNode(g: Ground, q: Query, link: Link, e: Extent, top: nat, ids: seq<int>)
    requires RealRun(g, q, link, e, top, ids) && g.f.Valid() && e.size != Some(0)
    ensures NodesOf(g.Db(), q, link) != []
  {
    hide NodesOf, Grove, Spread;
    RealBounds(g.f, g.m, top, e, ids);
    assert ids[0] in IdSet(NodesOf(g.Db(), q, link));
  }

  /** Main theorem: where every window is harmless, a clone returns the original's nodes
      on every database if and only if no builder that can find a node has a named load. */
  lemma CloneFits(s: Schema, q: Query)
    requires s.Valid() && GoodQuery(s, q) && q.table in s.columns && TestsThroughout(q) && Fits(q, RootExtent(q))
    ensures SameOnAll(s, q) <==> NoNamedWithin(q, RootExtent(q))
  {
    hide Batched, WellFormed, NoneReached, Fits, Grove, RealRun, GoodQuery, TestsThroughout, NamedWithin;
    if NoNamedWithin(q, RootExtent(q)) {
      forall db | WellFormed(db) && db.schema == s ensures Batched(db, Unnamed(q), Top) == Batched(db, q, Top) {
        RootWithin(db, q);
        NoneWithin(db, q, Top, RootExtent(q));
        CloneExactAt(db, q, Top);
      }
    } else {
      var d, least := SomeNamed(q, RootExtent(q));
      var m := least + AtLeastZero(OrZero(q.limit));
      NamedMore(q, RootExtent(q), d, least, m);
      var g := Windows.SomeGround(s, q, m, d);
      RootReached(g, q);
      NamedIsReached(g, q, Top, RootExtent(q), g.f.roots, FirstIds(q, SizeOf(CutTo(q, None), m)), d);
      GroundIs(g);
      DiffersOnSome(g.Db(), q);
    }
  }
}
