/**
 Every extent is reached: on the forest, the run of a builder finds as many nodes as
 its extent allows, and they refer to as many different rows.
 */
module Reach {
  import opened Storage
  import opened Query
  import opened NestedLoops
  import opened Extents
  import opened Forest

  /** A size, where one without a bound counts as `m`. */
  function SizeOf(size: Option<nat>, m: nat): nat {
    if size.Some? then size.value else m
  }

  /** An ID that refers to its parent over another foreign key than its origin's. */
  predicate Odd(f: Shape, id: int, o: Origin)
    requires f.Valid()
  {
    && id > f.roots && Nth(f, id) > 0
    && !(o.ListOf? && (o.table, o.column) in f.pairs && Kind(f, id) == PlaceOf(f.pairs, (o.table, o.column)))
  }

  /** Different IDs, of which at most one is odd, and that is the smallest. */
  ghost predicate Spread(f: Shape, top: nat, o: Origin, ids: seq<int>)
    requires f.Valid()
  {
    && (forall l :: 0 <= l < |ids| ==> 1 <= ids[l] <= top)
    && (forall a, b :: 0 <= a < b < |ids| ==> ids[a] != ids[b])
    && forall a, b :: 0 <= a < |ids| && 0 <= b < |ids| && a != b && Odd(f, ids[a], o) ==>
         !Odd(f, ids[b], o) && ids[a] < ids[b]
  }

  ghost predicate LeadTo(f: Shape, ids: seq<int>, i: nat, up: seq<int>, count: nat)
    requires f.Valid()
  {
    count <= |ids| && count <= |up| && forall l :: 0 <= l < count ==> Reference(f, ids[l], i) == up[l]
  }

  /** The IDs make an extent real: they are as many, and they refer to as many parents. */
  ghost predicate Real(f: Shape, m: nat, top: nat, e: Extent, ids: seq<int>)
    requires f.Valid()
    decreases e
  {
    && |ids| >= SizeOf(e.size, m) && Spread(f, top, e.origin, ids)
    && (e.origin.ListOf? ==>
         && (e.origin.table, e.origin.column) in f.pairs
         && exists up :: Real(f, m, top, e.origin.parents, up)
              && LeadTo(f, ids, PlaceOf(f.pairs, (e.origin.table, e.origin.column)), up,
                        SizeOf(Least(e.size, e.origin.parents.size), m)))
  }

  /** No size in the extent is larger than `m`. */
  predicate Small(e: Extent, m: nat) {
    (e.size.Some? ==> e.size.value <= m) && (e.origin.ListOf? ==> Small(e.origin.parents, m))
  }

  lemma {:induction false} RealHigher(f: Shape, m: nat, top: nat, higher: nat, e: Extent, ids: seq<int>)
    requires f.Valid() && Real(f, m, top, e, ids) && top <= higher
    ensures Real(f, m, higher, e, ids)
    decreases e
  {
    hide Odd, LeadTo;
    if e.origin.Free? {
    } else {
      var i := PlaceOf(f.pairs, (e.origin.table, e.origin.column));
      var count := SizeOf(Least(e.size, e.origin.parents.size), m);
      var up :| Real(f, m, top, e.origin.parents, up) && LeadTo(f, ids, i, up, count);
      RealHigher(f, m, top, higher, e.origin.parents, up);
    }
  }

  /** The first of the IDs make a smaller extent real. */
  lemma RealFirst(f: Shape, m: nat, top: nat, e: Extent, ids: seq<int>, size: Option<nat>)
    requires f.Valid() && Real(f, m, top, e, ids) && Small(e, m) && SizeOf(size, m) <= SizeOf(e.size, m)
    ensures Real(f, m, top, e.(size := size), ids[..SizeOf(size, m)])
  {
    hide Odd;
    var first := ids[..SizeOf(size, m)];
    assert Spread(f, top, e.origin, first);
    if e.origin.ListOf? {
      var i := PlaceOf(f.pairs, (e.origin.table, e.origin.column));
      var up :| Real(f, m, top, e.origin.parents, up)
                && LeadTo(f, ids, i, up, SizeOf(Least(e.size, e.origin.parents.size), m));
      assert LeadTo(f, first, i, up, SizeOf(Least(size, e.origin.parents.size), m));
    }
  }

  // ----- Going over a unique edge ---------------------------------------------

  function Followed(f: Shape, ids: seq<int>, i: nat, count: nat): (r: seq<int>)
    requires f.Valid() && count <= |ids|
    ensures |r| == count && forall l :: 0 <= l < count ==> r[l] == Reference(f, ids[l], i)
  {
    seq(count, l requires 0 <= l < count => Reference(f, ids[l], i))
  }

  lemma FollowedApart(f: Shape, top: nat, o: Origin, i: nat, a: int, b: int)
    requires f.Valid() && i < |f.pairs| && 1 <= a <= top && 1 <= b <= top && a != b
    requires o.ListOf? && (o.table, o.column) in f.pairs ==> PlaceOf(f.pairs, (o.table, o.column)) != i
    requires Odd(f, a, o) ==> !Odd(f, b, o) && a < b
    requires Odd(f, b, o) ==> !Odd(f, a, o) && b < a
    ensures Reference(f, a, i) != Reference(f, b, i)
    ensures Odd(f, Reference(f, a, i), Free) ==>
              !Odd(f, Reference(f, b, i), Free) && Reference(f, a, i) < Reference(f, b, i)
  {
    hide Reference, Parent, Nth, Kind;
    ReferenceIs(f, a, i, top);
    ReferenceIs(f, b, i, top);
  }

  /** Over a foreign key that is not their origin's, different IDs lead to different ones. */
  lemma FollowFree(f: Shape, m: nat, top: nat, e: Extent, ids: seq<int>, i: nat)
    requires f.Valid() && top >= 1 && Real(f, m, top, e, ids) && i < |f.pairs|
    requires e.origin.ListOf? ==> PlaceOf(f.pairs, (e.origin.table, e.origin.column)) != i
    ensures Real(f, m, LastChild(f, top), Extent(e.size, Free), Followed(f, ids, i, |ids|))
  {
    hide Odd, Reference, PlaceOf;
    var next := Followed(f, ids, i, |ids|);
    forall l | 0 <= l < |ids| ensures 1 <= next[l] <= LastChild(f, top) {
      ReferenceIs(f, ids[l], i, top);
    }
    forall a, b | 0 <= a < |ids| && 0 <= b < |ids| && a != b
      ensures next[a] != next[b] && (Odd(f, next[a], Free) ==> !Odd(f, next[b], Free) && next[a] < next[b])
    {
      assert ids[a] != ids[b];
      FollowedApart(f, top, e.origin, i, ids[a], ids[b]);
    }
  }

  /** Over the foreign key of their origin, they lead back to their parents. */
  lemma FollowBack(f: Shape, m: nat, top: nat, e: Extent, ids: seq<int>)
    requires f.Valid() && top >= 1 && Real(f, m, top, e, ids) && Small(e, m) && e.origin.ListOf?
    ensures (e.origin.table, e.origin.column) in f.pairs
    ensures var i, size := PlaceOf(f.pairs, (e.origin.table, e.origin.column)), Least(e.size, e.origin.parents.size);
            && SizeOf(size, m) <= |ids|
            && Real(f, m, LastChild(f, top), Extent(size, e.origin.parents.origin),
                    Followed(f, ids, i, SizeOf(size, m)))
  {
    hide Reference, Spread;
    var i, size := PlaceOf(f.pairs, (e.origin.table, e.origin.column)), Least(e.size, e.origin.parents.size);
    var up :| Real(f, m, top, e.origin.parents, up) && LeadTo(f, ids, i, up, SizeOf(size, m));
    RealFirst(f, m, top, e.origin.parents, up, size);
    assert Followed(f, ids, i, SizeOf(size, m)) == up[..SizeOf(size, m)];
    RealHigher(f, m, top, LastChild(f, top), Extent(size, e.origin.parents.origin), up[..SizeOf(size, m)]);
  }

  // ----- Going over a list edge -----------------------------------------------

  /** One child of each ID, and many more of the first. */
  function Fanned(f: Shape, ids: seq<int>, i: nat, m: nat): (r: seq<int>)
    requires 0 < |ids| <= m
    ensures |r| == m
    ensures forall l :: 0 <= l < m ==>
              r[l] == if l < |ids| then Child(f, ids[l], i, 1) else Child(f, ids[0], i, 2 + l - |ids|)
  {
    seq(m, l requires 0 <= l < m => if l < |ids| then Child(f, ids[l], i, 1) else Child(f, ids[0], i, 2 + l - |ids|))
  }

  lemma FannedIs(f: Shape, ids: seq<int>, i: nat, m: nat, top: nat, l: nat)
    requires f.Valid() && i < |f.pairs| && l < m && 0 < |ids| <= m <= f.fan
    requires top >= 1 && forall x :: 0 <= x < |ids| ==> 1 <= ids[x] <= top
    ensures var p, j := if l < |ids| then ids[l] else ids[0], if l < |ids| then 1 else 2 + l - |ids|;
            && 0 < j <= f.fan && 1 <= p <= top
            && Fanned(f, ids, i, m)[l] == Child(f, p, i, j) && p < Child(f, p, i, j) <= LastChild(f, top)
            && IsNth(f, Child(f, p, i, j), i) && Reference(f, Child(f, p, i, j), i) == p
            && Parent(f, Child(f, p, i, j)) == p && Nth(f, Child(f, p, i, j)) == j
  {
    hide IsNth, Reference, Parent, Nth, Child;
    var p, j := if l < |ids| then ids[l] else ids[0], if l < |ids| then 1 else 2 + l - |ids|;
    ChildIs(f, p, i, j);
    ChildAfter(f, p, i, j);
    ChildBefore(f, p, top, i, j);
    ChildRefers(f, p, i, j);
  }

  lemma RealList(f: Shape, m: nat, top: nat, e: Extent, ids: seq<int>, tc: (Table, Column), size: Option<nat>,
                 up: seq<int>)
    requires f.Valid() && tc in f.pairs && |ids| >= SizeOf(size, m) && Spread(f, top, ListOf(tc.0, tc.1, e), ids)
    requires Real(f, m, top, e, up) && LeadTo(f, ids, PlaceOf(f.pairs, tc), up, SizeOf(Least(size, e.size), m))
    ensures Real(f, m, top, Extent(size, ListOf(tc.0, tc.1, e)), ids)
  {
    hide Spread, LeadTo;
  }

  lemma FanReal(f: Shape, m: nat, top: nat, e: Extent, ids: seq<int>, tc: (Table, Column))
    requires f.Valid() && top >= 1 && Real(f, m, top, e, ids) && Small(e, m) && tc in f.pairs && m <= f.fan
    requires 0 < |ids| == SizeOf(e.size, m)
    ensures Real(f, m, LastChild(f, top), Extent(None, ListOf(tc.0, tc.1, e)), Fanned(f, ids, PlaceOf(f.pairs, tc), m))
  {
    hide Reference, Child, Parent, Nth;
    var i := PlaceOf(f.pairs, tc);
    var next := Fanned(f, ids, i, m);
    forall l | 0 <= l < m ensures 1 <= next[l] <= LastChild(f, top) && !Odd(f, next[l], ListOf(tc.0, tc.1, e)) {
      FannedIs(f, ids, i, m, top, l);
    }
    forall a, b | 0 <= a < b < m ensures next[a] != next[b] {
      FannedIs(f, ids, i, m, top, a);
      FannedIs(f, ids, i, m, top, b);
    }
    RealHigher(f, m, top, LastChild(f, top), e, ids);
    forall l | 0 <= l < |ids| ensures Reference(f, next[l], i) == ids[l] {
      FannedIs(f, ids, i, m, top, l);
    }
    RealList(f, m, LastChild(f, top), e, next, tc, None, ids);
  }

  lemma SiblingIs(f: Shape, top: nat, parent: int, i: nat, id: int)
    requires f.Valid() && 1 <= parent <= top && i < |f.pairs| && id >= 1 && Reference(f, id, i) == parent
    ensures 1 <= id <= LastChild(f, top)
    ensures IsNth(f, id, i) ==> id > parent
    ensures !IsNth(f, id, i) ==> id < parent && id == Parent(f, parent)
  {
    if IsNth(f, id, i) {
      ParentIs(f, id);
      ChildBefore(f, parent, top, i, Nth(f, id));
    } else {
      ChildIs(f, id, i, 0);
      ChildAfter(f, id, i, 0);
    }
  }

  lemma SiblingsSpread(f: Shape, top: nat, i: nat, o: Origin, parent: int, next: seq<int>)
    requires f.Valid() && 1 <= parent <= top && i < |f.pairs|
    requires o.ListOf? && (o.table, o.column) in f.pairs && PlaceOf(f.pairs, (o.table, o.column)) == i
    requires forall a, b :: 0 <= a < b < |next| ==> next[a] != next[b]
    requires forall l :: 0 <= l < |next| ==> next[l] >= 1 && Reference(f, next[l], i) == parent
    ensures Spread(f, LastChild(f, top), o, next)
  {
    hide Reference, Child, Parent, Nth, Kind;
    forall l | 0 <= l < |next|
      ensures 1 <= next[l] <= LastChild(f, top)
      ensures Odd(f, next[l], o) ==> !IsNth(f, next[l], i)
      ensures IsNth(f, next[l], i) ==> next[l] > parent
      ensures !IsNth(f, next[l], i) ==> next[l] < parent && next[l] == Parent(f, parent)
    {
      SiblingIs(f, top, parent, i, next[l]);
    }
  }

  /** Any IDs that refer to one parent make a list real. */
  lemma SiblingsReal(f: Shape, m: nat, top: nat, e: Extent, parent: int, tc: (Table, Column), size: Option<nat>,
                     next: seq<int>)
    requires f.Valid() && top >= 1 && Real(f, m, top, e, [parent]) && tc in f.pairs && e.size == Some(1) && m >= 1
    requires |next| >= SizeOf(size, m) >= 1 && forall a, b :: 0 <= a < b < |next| ==> next[a] != next[b]
    requires forall l :: 0 <= l < |next| ==> next[l] >= 1 && Reference(f, next[l], PlaceOf(f.pairs, tc)) == parent
    ensures Real(f, m, LastChild(f, top), Extent(size, ListOf(tc.0, tc.1, e)), next)
  {
    hide Reference, Spread, PlaceOf, Real;
    var i := PlaceOf(f.pairs, tc);
    assert 1 <= parent <= top by {
      FirstOfOne(f, m, top, e, parent);
    }
    SiblingsSpread(f, top, i, ListOf(tc.0, tc.1, e), parent, next);
    RealHigher(f, m, top, LastChild(f, top), e, [parent]);
    assert SizeOf(Least(size, e.size), m) == 1;
    assert LeadTo(f, next, i, [parent], 1);
    RealList(f, m, LastChild(f, top), e, next, tc, size, [parent]);
  }

  lemma FirstOfOne(f: Shape, m: nat, top: nat, e: Extent, parent: int)
    requires f.Valid() && Real(f, m, top, e, [parent])
    ensures 1 <= parent <= top
  {
    hide Odd;
    assert [parent][0] == parent;
  }

  // ----- Runs over the forest -------------------------------------------------

  /** The program's own predicates throughout a builder tree. */
  ghost predicate TestsThroughout(q: Query)
    decreases q
  {
    OnlyTests(q) && forall k :: k in q.loads ==> TestsThroughout(q.loads[k])
  }

  /** A forest for a schema, with room for windows of up to `m`. */
  datatype Ground = Ground(s: Schema, f: Shape, n: nat, m: nat)
  {
    ghost predicate Valid() {
      && s.Valid() && f.Valid() && m >= 1 && f.fan >= 2 * m + 1
      && forall t, c :: s.ValidColumn(t, c) ==> (t, c) in f.pairs
    }

    function Db(): Database
      requires f.Valid()
    {
      Grove(s, f, n)
    }
  }

  /** The run of a builder finds nodes that make its extent real, and no more. */
  ghost predicate RealRun(g: Ground, q: Query, link: Link, e: Extent, top: nat, ids: seq<int>) {
    && g.Valid() && GoodQuery(g.s, q) && q.table in g.s.columns && TestsThroughout(q) && top >= 1
    && Small(e, g.m) && Within(g.Db(), e, IdSet(NodesOf(g.Db(), q, link))) && Real(g.f, g.m, top, e, ids)
    && forall l :: 0 <= l < |ids| ==> ids[l] in IdSet(NodesOf(g.Db(), q, link))
  }

  /** The table of a child has the column that ties it to its parents. */
  lemma TiedColumns(s: Schema, q: Query, k: LoadKey)
    requires s.Valid() && GoodQuery(s, q) && TestsThroughout(q) && k in q.loads
    ensures var c := q.loads[k];
            && c.table == k.edge.target && s.ValidColumn(c.table, ID)
            && s.ValidColumn(if k.edge.kind.List? then c.table else q.table, k.edge.column)
            && GoodQuery(s, c) && TestsThroughout(c) && OnlyTests(c)
  {
    assert GoodKey(s, q.table, k) && s.ValidEdge(q.table, k.edge);
  }

  lemma GroundIs(g: Ground)
    requires g.Valid()
    ensures WellFormed(g.Db()) && g.Db().schema == g.s
    ensures forall t, c :: g.s.ValidColumn(t, c) ==> (t, c) in g.f.pairs
    ensures g.f.Valid() && g.m >= 1 && g.f.fan >= 2 * g.m + 1
  {
    GroveWellFormed(g.s, g.f, g.n);
  }

  /** What a found node refers to is among the keys that a unique loader asks for. */
  lemma NodeRefers(g: Ground, q: Query, link: Link, k: LoadKey, id: int)
    requires g.Valid() && GoodQuery(g.s, q) && TestsThroughout(q) && k in q.loads && k.edge.kind.Unique?
    requires id in IdSet(NodesOf(g.Db(), q, link))
    ensures (q.table, k.edge.column) in g.f.pairs
    ensures (if k.edge.column == ID then id else Reference(g.f, id, PlaceOf(g.f.pairs, (q.table, k.edge.column))))
            in ForeignKeys(NodesOf(g.Db(), q, link), k.edge.column)
  {
    hide NodesOf, Matching, Reference, PlaceOf, Planted, ForeignKeys, Grove;
    var db, nodes := g.Db(), NodesOf(g.Db(), q, link);
    GroundIs(g);
    TiedColumns(g.s, q, k);
    MatchingMembers(db, q, link);
    var n :| n in nodes && IdOf(n) == id;
    var x :| 0 <= x < |nodes| && nodes[x] == n;
    NodeFull(db, q, link, x);
    var r := Matching(db, SpecOf(db.schema, Attach(q, link)))[x];
    assert r in db.Rows(q.table);
    GroveRows(g.s, g.f, g.n, q.table);
    RowPlanted(g, q.table, r);
    PlantedIs(g.f, q.table, g.s.columns[q.table], id);
    ForeignKeysExact(nodes, k.edge.column);
    assert Fk(nodes[x], k.edge.column) == Fk(r, k.edge.column);
  }

  lemma RowPlanted(g: Ground, t: Table, r: Row)
    requires g.Valid() && t in g.s.columns && r in g.Db().Rows(t)
    ensures r == Planted(g.f, t, g.s.columns[t], IdOf(r)) && 1 <= IdOf(r) <= g.n
  {
    hide Planted;
    GroveRows(g.s, g.f, g.n, t);
    var i :| 0 <= i < g.n && PlantedRows(g.f, t, g.s.columns[t], g.n)[i] == r;
    assert g.s.ValidColumn(t, ID);
    PlantedIs(g.f, t, g.s.columns[t], i + 1);
  }

  /** Which rows a loader asks for. */
  lemma AskedExactly(g: Ground, q: Query, link: Link, k: LoadKey, id: int)
    requires g.Valid() && GoodQuery(g.s, q) && TestsThroughout(q) && k in q.loads
    ensures (q.loads[k].table, k.edge.column) in g.f.pairs || k.edge.kind.Unique?
    ensures var nodes, c := NodesOf(g.Db(), q, link), q.loads[k];
            id in IdSet(AskedRows(g.Db(), c, k, nodes)) <==>
              && 1 <= id <= g.n
              && if k.edge.kind.Unique? then id in ForeignKeys(nodes, k.edge.column)
                 else if k.edge.column == ID then id in IdSet(nodes)
                 else Reference(g.f, id, PlaceOf(g.f.pairs, (c.table, k.edge.column))) in IdSet(nodes)
  {
    hide NodesOf, Reference, PlaceOf, Planted, ForeignKeys, Grove, Selected;
    var nodes, c := NodesOf(g.Db(), q, link), q.loads[k];
    TiedColumns(g.s, q, k);
    GroveIds(g.s, g.f, g.n, c, Linking(LinkFor(k, nodes)), id);
    PlantedIs(g.f, c.table, g.s.columns[c.table], id);
    forall v ensures v in Ids(nodes) <==> v in IdSet(nodes) {
      if v in Ids(nodes) {
        var x :| 0 <= x < |nodes| && Ids(nodes)[x] == v;
        assert nodes[x] in nodes;
      }
      if v in IdSet(nodes) {
        var r :| r in nodes && IdOf(r) == v;
        var x :| 0 <= x < |nodes| && nodes[x] == r;
        assert Ids(nodes)[x] == v;
      }
    }
  }

  lemma {:induction false} SmallAsked(t: Table, k: LoadKey, e: Extent, m: nat)
    requires Small(e, m)
    ensures Small(Asked(t, k, e), m)
  {
  }

  /** What a loader asks for, before its window, makes its extent real. */
  lemma AskedReached(g: Ground, q: Query, link: Link, e: Extent, top: nat, ids: seq<int>, k: LoadKey)
    returns (next: seq<int>)
    requires RealRun(g, q, link, e, top, ids) && k in q.loads && g.f.Valid() && LastChild(g.f, top) <= g.n
    requires e.size != Some(0)
    ensures Real(g.f, g.m, LastChild(g.f, top), Asked(q.table, k, e), next)
    ensures forall l :: 0 <= l < |next| ==>
              next[l] in IdSet(AskedRows(g.Db(), q.loads[k], k, NodesOf(g.Db(), q, link)))
  {
    hide NodesOf, Reference, PlaceOf, Grove, ForeignKeys, Real, Within, AskedRows;
    var db, f, c := g.Db(), g.f, q.loads[k];
    TiedColumns(g.s, q, k);
    RealBounds(f, g.m, top, e, ids);
    if k.edge.column == ID {
      next := ids;
      RealHigher(f, g.m, top, LastChild(f, top), e, ids);
      forall l | 0 <= l < |next| ensures next[l] in IdSet(AskedRows(db, c, k, NodesOf(db, q, link))) {
        if k.edge.kind.Unique? {
          NodeRefers(g, q, link, k, next[l]);
        }
        AskedExactly(g, q, link, k, next[l]);
      }
    } else if k.edge.kind.List? {
      next := ListReached(g, q, link, e, top, ids, k);
    } else {
      next := UniqueReached(g, q, link, e, top, ids, k);
    }
  }

  lemma RealBounds(f: Shape, m: nat, top: nat, e: Extent, ids: seq<int>)
    requires f.Valid() && Real(f, m, top, e, ids)
    ensures |ids| >= SizeOf(e.size, m) && forall l :: 0 <= l < |ids| ==> 1 <= ids[l] <= top
    ensures forall a, b :: 0 <= a < b < |ids| ==> ids[a] != ids[b]
  {
    hide Odd;
  }

  lemma ListReached(g: Ground, q: Query, link: Link, e: Extent, top: nat, ids: seq<int>, k: LoadKey)
    returns (next: seq<int>)
    requires RealRun(g, q, link, e, top, ids) && k in q.loads && g.f.Valid() && LastChild(g.f, top) <= g.n
    requires e.size != Some(0) && k.edge.kind.List? && k.edge.column != ID
    ensures Real(g.f, g.m, LastChild(g.f, top), Asked(q.table, k, e), next)
    ensures forall l :: 0 <= l < |next| ==>
              next[l] in IdSet(AskedRows(g.Db(), q.loads[k], k, NodesOf(g.Db(), q, link)))
  {
    hide NodesOf, Reference, PlaceOf, Grove, ForeignKeys, Real, Within, AskedRows, IsNth, Parent, Nth, Child, Fanned;
    hide GoodQuery, OnlyTests, Schema.Valid;
    var db, f, c := g.Db(), g.f, q.loads[k];
    TiedColumns(g.s, q, k);
    RealBounds(f, g.m, top, e, ids);
    var tc, first := (c.table, k.edge.column), ids[..SizeOf(e.size, g.m)];
    RealFirst(f, g.m, top, e, ids, e.size);
    FanReal(f, g.m, top, e, first, tc);
    next := Fanned(f, first, PlaceOf(f.pairs, tc), g.m);
    forall l | 0 <= l < |next| ensures next[l] in IdSet(AskedRows(db, c, k, NodesOf(db, q, link))) {
      FannedIs(f, first, PlaceOf(f.pairs, tc), g.m, top, l);
      AskedExactly(g, q, link, k, next[l]);
    }
  }

  lemma UniqueReached(g: Ground, q: Query, link: Link, e: Extent, top: nat, ids: seq<int>, k: LoadKey)
    returns (next: seq<int>)
    requires RealRun(g, q, link, e, top, ids) && k in q.loads && g.f.Valid() && LastChild(g.f, top) <= g.n
    requires k.edge.kind.Unique? && k.edge.column != ID
    ensures Real(g.f, g.m, LastChild(g.f, top), Asked(q.table, k, e), next)
    ensures forall l :: 0 <= l < |next| ==>
              next[l] in IdSet(AskedRows(g.Db(), q.loads[k], k, NodesOf(g.Db(), q, link)))
  {
    hide NodesOf, Reference, PlaceOf, Grove, ForeignKeys, Real, Within, AskedRows;
    var db, f, c, tc := g.Db(), g.f, q.loads[k], (q.table, k.edge.column);
    TiedColumns(g.s, q, k);
    var i, count := PlaceOf(f.pairs, tc), |ids|;
    RealBounds(f, g.m, top, e, ids);
    if e.origin.ListOf? && (e.origin.table, e.origin.column) == tc {
      FollowBack(f, g.m, top, e, ids);
      count := SizeOf(Least(e.size, e.origin.parents.size), g.m);
    } else {
      OtherPlace(f, e.origin, tc, g.m, top, e, ids);
      FollowFree(f, g.m, top, e, ids, i);
    }
    next := Followed(f, ids, i, count);
    forall l | 0 <= l < count ensures next[l] in IdSet(AskedRows(db, c, k, NodesOf(db, q, link))) {
      NodeRefers(g, q, link, k, ids[l]);
      ReferenceIs(f, ids[l], i, top);
      AskedExactly(g, q, link, k, next[l]);
    }
  }

  lemma OtherPlace(f: Shape, o: Origin, tc: (Table, Column), m: nat, top: nat, e: Extent, ids: seq<int>)
    requires f.Valid() && tc in f.pairs && o == e.origin && Real(f, m, top, e, ids)
    requires o.ListOf? ==> (o.table, o.column) != tc
    ensures o.ListOf? ==>
              (o.table, o.column) in f.pairs && PlaceOf(f.pairs, (o.table, o.column)) != PlaceOf(f.pairs, tc)
  {
    hide Spread, PlaceOf;
  }

  // ----- Through the window ---------------------------------------------------

  /** Where the window treats rows as it treats each alone, and leaves any, it leaves all. */
  lemma WholeWindow(db: Database, q: Query, link: Link, e: Extent, k: LoadKey)
    requires WellFormed(db) && GoodQuery(db.schema, q) && k in q.loads
    requires Within(db, e, IdSet(NodesOf(db, q, link)))
    requires NoWindow(q.loads[k]) || (OneToOne(k) && Allows(q.table, k, q.loads[k], e))
    requires Below(q.table, k, q.loads[k], e).size != Some(0)
    ensures Below(q.table, k, q.loads[k], e) == Asked(q.table, k, e)
    ensures var rows := AskedRows(db, q.loads[k], k, NodesOf(db, q, link)); Windowed(q.loads[k], rows) == rows
  {
    hide NodesOf, AskedRows, Within, Asked;
    var c, a := q.loads[k], Asked(q.table, k, e);
    if !NoWindow(c) {
      AskedWithin(db, q, link, e, k);
      AskedDistinct(db, c, k, NodesOf(db, q, link));
      AskedSize(db, a, AskedRows(db, c, k, NodesOf(db, q, link)));
      Tolerated(c, AskedRows(db, c, k, NodesOf(db, q, link)));
    }
    assert a.(size := a.size) == a;
  }

  lemma AskedSize(db: Database, a: Extent, rows: seq<Row>)
    requires Within(db, a, IdSet(rows)) && |IdSet(rows)| == |rows|
    ensures a.size.Some? ==> |rows| <= a.size.value
  {
  }

  /** Distinct members are no more than the set. */
  lemma {:induction false} ManyIn(ids: seq<int>, all: set<int>)
    requires forall a, b :: 0 <= a < b < |ids| ==> ids[a] != ids[b]
    requires forall l :: 0 <= l < |ids| ==> ids[l] in all
    ensures |ids| <= |all|
  {
    if ids == [] {
    } else {
      var last := |ids| - 1;
      ManyIn(ids[..last], all - {ids[last]});
    }
  }

  lemma OneChild(g: Ground, c: Query, col: Column, x: int, j: nat)
    requires g.Valid() && OnlyTests(c) && g.s.ValidColumn(c.table, ID) && g.s.ValidColumn(c.table, col) && col != ID
    requires x >= 1 && 0 < j <= g.f.fan && Child(g.f, x, PlaceOf(g.f.pairs, (c.table, col)), g.f.fan) <= g.n
    ensures Child(g.f, x, PlaceOf(g.f.pairs, (c.table, col)), j) in IdSet(Selected(g.Db(), c, RowRefersTo(col, x)))
  {
    hide Reference, PlaceOf, Planted, Grove, Selected, IsNth, Child;
    var i := PlaceOf(g.f.pairs, (c.table, col));
    ChildRefers(g.f, x, i, j);
    ChildAfter(g.f, x, i, j);
    ChildrenInOrder(g.f, x, i, j, g.f.fan);
    PlantedIs(g.f, c.table, g.s.columns[c.table], Child(g.f, x, i, j));
    GroveIds(g.s, g.f, g.n, c, RowRefersTo(col, x), Child(g.f, x, i, j));
  }

  /** One parent has all its children asked for. */
  lemma ManyChildren(g: Ground, c: Query, col: Column, x: int)
    requires g.Valid() && OnlyTests(c) && g.s.ValidColumn(c.table, ID) && g.s.ValidColumn(c.table, col) && col != ID
    requires x >= 1 && Child(g.f, x, PlaceOf(g.f.pairs, (c.table, col)), g.f.fan) <= g.n
    ensures |Selected(g.Db(), c, RowRefersTo(col, x))| >= g.f.fan
  {
    hide PlaceOf, Grove, Selected, Child, Parent, Nth, Kind, RowRefersTo, OnlyTests;
    var f, rows := g.f, Selected(g.Db(), c, RowRefersTo(col, x));
    var i := PlaceOf(f.pairs, (c.table, col));
    var ids := seq(f.fan, j requires 0 <= j < f.fan => Child(f, x, i, j + 1));
    forall j | 0 <= j < f.fan ensures ids[j] in IdSet(rows) && Nth(f, ids[j]) == j + 1 {
      OneChild(g, c, col, x, j + 1);
      ChildIs(f, x, i, j + 1);
    }
    ManyIn(ids, IdSet(rows));
    GroundIs(g);
    SelectedDistinct(g.Db(), c, RowRefersTo(col, x));
    DistinctCount(rows);
  }

  lemma ChildrenInOrder(f: Shape, p: int, i: nat, j: nat, j': nat)
    requires j <= j'
    ensures Child(f, p, i, j) <= Child(f, p, i, j')
  {
  }

  /** How a window cuts a list that is long enough. */
  lemma LongWindow(c: Query, rows: seq<Row>, m: nat)
    requires |rows| >= 2 * m && SmallWindow(c, m)
    ensures |Windowed(c, rows)| >= SizeOf(CutTo(c, None), m)
  {
  }

  predicate SmallWindow(c: Query, m: nat) {
    OrZero(c.limit) <= m && OrZero(c.offset) <= m && OrZero(c.limit) + OrZero(c.offset) <= m
  }

  /** The only node there is. */
  lemma OneNode(g: Ground, q: Query, link: Link, e: Extent, top: nat, ids: seq<int>)
    requires RealRun(g, q, link, e, top, ids) && e.size == Some(1)
    ensures g.f.Valid() && |ids| >= 1 && ids[0] >= 1 && Real(g.f, g.m, top, e, [ids[0]])
    ensures IdSet(NodesOf(g.Db(), q, link)) == {ids[0]}
    ensures |NodesOf(g.Db(), q, link)| == 1
  {
    hide NodesOf, Grove, Real, Spread;
    RealBounds(g.f, g.m, top, e, ids);
    RealFirst(g.f, g.m, top, e, ids, e.size);
    assert ids[..1] == [ids[0]];
    GroundIs(g);
    NodesCount(g.Db(), q, link);
    var all := IdSet(NodesOf(g.Db(), q, link));
    assert {ids[0]} <= all && |all| <= 1;
    OnlyMember(ids[0], all);
  }

  lemma OnlyMember(x: int, all: set<int>)
    requires x in all && |all| <= 1
    ensures all == {x} && |all| == 1
  {
    assert all == {x} + (all - {x});
    assert |all - {x}| == 0;
  }

  lemma SameIds(a: seq<Row>, ids: seq<int>)
    requires |ids| == |a| && forall l :: 0 <= l < |a| ==> ids[l] == IdOf(a[l])
    ensures forall l :: 0 <= l < |ids| ==> ids[l] in IdSet(a)
  {
    forall l | 0 <= l < |ids| ensures ids[l] in IdSet(a) {
      assert a[l] in a;
    }
  }

  /** The children of the only parent that a window leaves. */
  lemma OneParent(g: Ground, q: Query, link: Link, e: Extent, top: nat, ids: seq<int>, k: LoadKey)
    returns (next: seq<int>)
    requires RealRun(g, q, link, e, top, ids) && k in q.loads && g.f.Valid() && LastChild(g.f, top) <= g.n
    requires e.size == Some(1) && !OneToOne(k) && SmallWindow(q.loads[k], g.m)
    requires Below(q.table, k, q.loads[k], e).size != Some(0)
    ensures Real(g.f, g.m, LastChild(g.f, top), Below(q.table, k, q.loads[k], e), next)
    ensures forall l :: 0 <= l < |next| ==>
              next[l] in IdSet(NodesOf(g.Db(), q.loads[k], LinkFor(k, NodesOf(g.Db(), q, link))))
  {
    hide NodesOf, Reference, PlaceOf, Grove, Real, Within, Selected, Windowed, CutTo, Linking, Small, Child;
    var db, c, nodes := g.Db(), q.loads[k], NodesOf(g.Db(), q, link);
    GroundIs(g);
    TiedColumns(g.s, q, k);
    OneNode(g, q, link, e, top, ids);
    var rows := AskedRows(db, c, k, nodes);
    CutIds(db, c, LinkFor(k, nodes));
    next := Ids(Windowed(c, rows));
    SameIds(Windowed(c, rows), next);
    OneAsked(g, q, link, k, ids[0], top);
    SiblingsOf(g, q, link, k, ids[0], next);
    OneParentReal(g, e, top, ids[0], c, k.edge.column, next);
  }

  lemma OneParentReal(g: Ground, e: Extent, top: nat, x: int, c: Query, col: Column, next: seq<int>)
    requires g.Valid() && top >= 1 && LastChild(g.f, top) <= g.n && Real(g.f, g.m, top, e, [x]) && e.size == Some(1)
    requires OnlyTests(c) && g.s.ValidColumn(c.table, ID) && g.s.ValidColumn(c.table, col) && col != ID
    requires SmallWindow(c, g.m) && CutTo(c, None) != Some(0)
    requires next == Ids(Windowed(c, Selected(g.Db(), c, RowRefersTo(col, x))))
    requires forall l :: 0 <= l < |next| ==>
               next[l] >= 1 && Reference(g.f, next[l], PlaceOf(g.f.pairs, (c.table, col))) == x
    ensures Real(g.f, g.m, LastChild(g.f, top), Extent(CutTo(c, None), ListOf(c.table, col, e)), next)
  {
    hide Reference, PlaceOf, Grove, Real, Selected, Windowed, CutTo, Child, OnlyTests, Schema.Valid, SmallWindow;
    var rows := Selected(g.Db(), c, RowRefersTo(col, x));
    RealTop(g.f, g.m, top, e, x);
    ChildBefore(g.f, x, top, PlaceOf(g.f.pairs, (c.table, col)), g.f.fan);
    ManyChildren(g, c, col, x);
    LongWindow(c, rows, g.m);
    GroundIs(g);
    SelectedDistinct(g.Db(), c, RowRefersTo(col, x));
    WindowDistinct(c, rows);
    SiblingsReal(g.f, g.m, top, e, x, (c.table, col), CutTo(c, None), next);
  }

  lemma RealTop(f: Shape, m: nat, top: nat, e: Extent, x: int)
    requires f.Valid() && Real(f, m, top, e, [x])
    ensures 1 <= x <= top
  {
    RealBounds(f, m, top, e, [x]);
    assert [x][0] == x;
  }

  lemma WindowDistinct(c: Query, rows: seq<Row>)
    requires DistinctIds(rows)
    ensures DistinctIds(Windowed(c, rows))
  {
  }

  lemma OneAsked(g: Ground, q: Query, link: Link, k: LoadKey, x: int, top: nat)
    requires k in q.loads && k.edge.kind.List? && g.f.Valid()
    requires |NodesOf(g.Db(), q, link)| == 1 && IdSet(NodesOf(g.Db(), q, link)) == {x}
    ensures AskedRows(g.Db(), q.loads[k], k, NodesOf(g.Db(), q, link))
         == Selected(g.Db(), q.loads[k], RowRefersTo(k.edge.column, x))
  {
    hide NodesOf, Grove, Selected;
    var nodes := NodesOf(g.Db(), q, link);
    assert nodes[0] in nodes && IdOf(nodes[0]) in IdSet(nodes);
    assert Ids(nodes) == [x];
    SelectedSame(g.Db(), q.loads[k], Linking(LinkFor(k, nodes)), RowRefersTo(k.edge.column, x));
  }

  lemma SiblingsOf(g: Ground, q: Query, link: Link, k: LoadKey, x: int, next: seq<int>)
    requires g.Valid() && GoodQuery(g.s, q) && TestsThroughout(q) && k in q.loads && !OneToOne(k)
    requires IdSet(NodesOf(g.Db(), q, link)) == {x}
    requires next == Ids(Windowed(q.loads[k], AskedRows(g.Db(), q.loads[k], k, NodesOf(g.Db(), q, link))))
    ensures (q.loads[k].table, k.edge.column) in g.f.pairs
    ensures forall l :: 0 <= l < |next| ==>
              next[l] >= 1 && Reference(g.f, next[l], PlaceOf(g.f.pairs, (q.loads[k].table, k.edge.column))) == x
  {
    hide NodesOf, Reference, PlaceOf, Grove, Selected, Windowed;
    var rows := AskedRows(g.Db(), q.loads[k], k, NodesOf(g.Db(), q, link));
    TiedColumns(g.s, q, k);
    WindowedMembers(q.loads[k], rows);
    forall l | 0 <= l < |next|
      ensures next[l] >= 1 && Reference(g.f, next[l], PlaceOf(g.f.pairs, (q.loads[k].table, k.edge.column))) == x
    {
      assert Windowed(q.loads[k], rows)[l] in rows;
      AskedExactly(g, q, link, k, next[l]);
    }
  }

  lemma SmallBelow(t: Table, k: LoadKey, c: Query, e: Extent, m: nat)
    requires Small(e, m) && SmallWindow(c, m)
    ensures Small(Below(t, k, c, e), m)
  {
    SmallAsked(t, k, e, m);
  }

  lemma RealRunIs(g: Ground, q: Query, link: Link, e: Extent, top: nat, ids: seq<int>)
    requires g.f.Valid()
    ensures RealRun(g, q, link, e, top, ids) <==>
              && g.Valid() && GoodQuery(g.s, q) && q.table in g.s.columns && TestsThroughout(q) && top >= 1
              && Small(e, g.m) && Within(g.Db(), e, IdSet(NodesOf(g.Db(), q, link))) && Real(g.f, g.m, top, e, ids)
              && forall l :: 0 <= l < |ids| ==> ids[l] in IdSet(NodesOf(g.Db(), q, link))
  {
    hide NodesOf, Grove, Real, Within, Small, GoodQuery, TestsThroughout, Ground.Valid;
  }

  lemma OnlyOneParent(t: Table, k: LoadKey, c: Query, e: Extent)
    requires Allows(t, k, c, e) && Below(t, k, c, e).size != Some(0)
    ensures e.size != Some(0)
    ensures !NoWindow(c) && !OneToOne(k) ==> e.size == Some(1)
  {
  }

  lemma TableIs(s: Schema, t: Table)
    requires s.ValidColumn(t, ID)
    ensures t in s.columns
  {
  }

  /** The nodes of a child whose window is harmless make its extent real. */
  lemma BelowReached(g: Ground, q: Query, link: Link, e: Extent, top: nat, ids: seq<int>, k: LoadKey)
    returns (next: seq<int>)
    requires RealRun(g, q, link, e, top, ids) && k in q.loads && g.f.Valid() && LastChild(g.f, top) <= g.n
    requires Allows(q.table, k, q.loads[k], e) && SmallWindow(q.loads[k], g.m)
    requires Below(q.table, k, q.loads[k], e).size != Some(0)
    ensures RealRun(g, q.loads[k], LinkFor(k, NodesOf(g.Db(), q, link)), Below(q.table, k, q.loads[k], e),
                    LastChild(g.f, top), next)
  {
    hide *;
    RealRunIs(g, q, link, e, top, ids);
    var db, c, nodes, below := g.Db(), q.loads[k], NodesOf(g.Db(), q, link), Below(q.table, k, q.loads[k], e);
    GroundIs(g);
    GroundSchema(g);
    TiedColumns(g.s, q, k);
    TableIs(g.s, c.table);
    SmallBelow(q.table, k, c, e, g.m);
    BelowWithin(db, q, link, e, k);
    OnlyOneParent(q.table, k, c, e);
    if NoWindow(c) || OneToOne(k) {
      next := WholeReached(g, q, link, e, top, ids, k);
    } else {
      next := OneParent(g, q, link, e, top, ids, k);
    }
    RealRunIs(g, c, LinkFor(k, nodes), below, LastChild(g.f, top), next);
  }

  lemma GroundSchema(g: Ground)
    requires g.Valid()
    ensures g.s.Valid()
  {
  }

  lemma WholeReached(g: Ground, q: Query, link: Link, e: Extent, top: nat, ids: seq<int>, k: LoadKey)
    returns (next: seq<int>)
    requires RealRun(g, q, link, e, top, ids) && k in q.loads && g.f.Valid() && LastChild(g.f, top) <= g.n
    requires NoWindow(q.loads[k]) || (OneToOne(k) && Allows(q.table, k, q.loads[k], e))
    requires Below(q.table, k, q.loads[k], e).size != Some(0) && e.size != Some(0)
    ensures Real(g.f, g.m, LastChild(g.f, top), Below(q.table, k, q.loads[k], e), next)
    ensures forall l :: 0 <= l < |next| ==>
              next[l] in IdSet(NodesOf(g.Db(), q.loads[k], LinkFor(k, NodesOf(g.Db(), q, link))))
  {
    hide *;
    RealRunIs(g, q, link, e, top, ids);
    var db, c, nodes := g.Db(), q.loads[k], NodesOf(g.Db(), q, link);
    GroundIs(g);
    GroundSchema(g);
    TiedColumns(g.s, q, k);
    next := AskedReached(g, q, link, e, top, ids, k);
    WholeWindow(db, q, link, e, k);
    WindowedIds(db, c, k, nodes);
  }

  lemma WindowedIds(db: Database, c: Query, k: LoadKey, nodes: seq<Row>)
    requires GoodQuery(db.schema, c)
    ensures IdSet(NodesOf(db, c, LinkFor(k, nodes))) == IdSet(Windowed(c, AskedRows(db, c, k, nodes)))
  {
    hide NodesOf, Selected, Windowed, Linking;
    CutIds(db, c, LinkFor(k, nodes));
  }

  // ----- The root -------------------------------------------------------------

  /** The pairs of a table and one of its columns, in some order. */
  lemma {:induction false} SomeOrder(all: set<(Table, Column)>) returns (pairs: seq<(Table, Column)>)
    ensures forall tc :: tc in all ==> tc in pairs
  {
    if all == {} {
      pairs := [];
    } else {
      var tc :| tc in all;
      var rest := SomeOrder(all - {tc});
      pairs := [tc] + rest;
    }
  }

  lemma SomeShape(s: Schema, t: Table, roots: nat, m: nat) returns (f: Shape)
    requires s.Valid() && t in s.columns && roots >= 1 && m >= 1
    ensures f.Valid() && f.roots == roots && forall n :: Ground(s, f, n, m).Valid()
  {
    var all := set t, c | t in s.columns && c in s.columns[t] :: (t, c);
    var pairs := SomeOrder(all);
    f := Shape(pairs, roots, 2 * m + 1);
    assert (t, ID) in all;
    forall t, c | s.ValidColumn(t, c) ensures (t, c) in pairs {
      assert (t, c) in all;
    }
  }

  lemma RootRows(g: Ground, q: Query)
    requires g.Valid() && GoodQuery(g.s, q) && OnlyTests(q) && q.table in g.s.columns
    ensures IdSet(NodesOf(g.Db(), q, Top)) == IdSet(Windowed(q, PlantedRows(g.f, q.table, g.s.columns[q.table], g.n)))
  {
    hide Filter, PlantedRows, Grove, NodeColumns, OnlyTests, AllHold, GoodQuery;
    var db, rows := g.Db(), PlantedRows(g.f, q.table, g.s.columns[q.table], g.n);
    GroveRows(g.s, g.f, g.n, q.table);
    ArrangedAlready(db, q.order, rows);
    forall r ensures Satisfying(db, q.predicates)(r) {
      TestsHold(db, q, r);
    }
    FilterAll(rows, Satisfying(db, q.predicates));
    assert Matching(db, SpecOf(db.schema, q)) == Windowed(q, rows);
    TopNodes(db, q);
  }

  lemma TopNodes(db: Database, q: Query)
    requires GoodQuery(db.schema, q)
    ensures IdSet(NodesOf(db, q, Top)) == IdSet(Matching(db, SpecOf(db.schema, q)))
  {
    hide NodesOf, Matching;
    var nodes, full := NodesOf(db, q, Top), Matching(db, SpecOf(db.schema, q));
    NodesAreFull(db, q, Top);
    forall i | 0 <= i < |nodes| ensures IdOf(nodes[i]) == IdOf(full[i]) {
      NodeFull(db, q, Top, i);
    }
    SameIdSet(nodes, full);
  }

  function FirstIds(q: Query, count: nat): (ids: seq<int>)
    ensures |ids| == count
  {
    seq(count, l requires 0 <= l < count => AtLeastZero(OrZero(q.offset)) + l + 1)
  }

  function AtLeastZero(n: int): nat {
    if n > 0 then n else 0
  }

  lemma RootIds(g: Ground, q: Query, l: nat)
    requires g.Valid() && q.table in g.s.columns && l < SizeOf(CutTo(q, None), g.m)
    requires AtLeastZero(OrZero(q.offset)) + SizeOf(CutTo(q, None), g.m) <= g.n
    ensures AtLeastZero(OrZero(q.offset)) + l + 1
            in IdSet(Windowed(q, PlantedRows(g.f, q.table, g.s.columns[q.table], g.n)))
  {
    hide Planted;
    var rows := PlantedRows(g.f, q.table, g.s.columns[q.table], g.n);
    var o := AtLeastZero(OrZero(q.offset));
    assert g.s.ValidColumn(q.table, ID);
    PlantedIs(g.f, q.table, g.s.columns[q.table], o + l + 1);
    assert Windowed(q, rows)[l] == rows[o + l];
    assert Windowed(q, rows)[l] in Windowed(q, rows);
  }

  /** The root finds IDs that have no parents. */
  lemma RootReached(g: Ground, q: Query)
    requires g.Valid() && GoodQuery(g.s, q) && TestsThroughout(q) && q.table in g.s.columns
    requires AtLeastZero(OrZero(q.offset)) + SizeOf(CutTo(q, None), g.m) <= g.f.roots <= g.n && OrZero(q.limit) <= g.m
    ensures RealRun(g, q, Top, RootExtent(q), g.f.roots, FirstIds(q, SizeOf(CutTo(q, None), g.m)))
  {
    hide NodesOf, Grove, PlantedRows, Windowed, Within, Nth, Kind;
    var ids := FirstIds(q, SizeOf(CutTo(q, None), g.m));
    GroundIs(g);
    RootWithin(g.Db(), q);
    RootRows(g, q);
    forall l | 0 <= l < |ids| ensures ids[l] in IdSet(NodesOf(g.Db(), q, Top)) {
      RootIds(g, q, l);
    }
    assert Spread(g.f, g.f.roots, Free, ids);
  }
}
