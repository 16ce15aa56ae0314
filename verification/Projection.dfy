/**
 Selecting columns only ever removes columns: whatever `Fields` the builders of
 a tree carry, the result is the result of the same tree without any selection,
 cut down to the selected columns plus the ID and the foreign keys that the
 joins need.
 */
module Projection {
  import opened Storage
  import opened Query

  /** The same builder tree with no column selection at any depth. */
  function Unselected(q: Query): Query
    decreases q
  {
    q.(fields := [], loads := map k | k in q.loads :: Unselected(q.loads[k]))
  }

  function ForcedLink(k: LoadKey): Link {
    if k.edge.kind.List? then ByForeignKey(k.edge.column, []) else Top
  }

  /** The columns of a builder that its parent's join forces to keep a key. */
  function KeptColumns(s: Schema, q: Query, link: Link): Projection {
    NodeColumns(s, Attach(q, link))
  }

  /** Cuts a node, and every node below it, down to the columns of its builder. */
  function Cut(s: Schema, q: Query, link: Link, t: Tree): Tree
    decreases q, 1
  {
    Tree(Project(t.row, KeptColumns(s, q, link)), t.loadedTypes, CutOne(s, q, t.one), CutMany(s, q, t.many))
  }

  function CutOne(s: Schema, q: Query, one: map<LoadKey, Tree>): map<LoadKey, Tree>
    decreases q, 0
  {
    map k | k in one && k in q.loads :: Cut(s, q.loads[k], Top, one[k])
  }

  function CutMany(s: Schema, q: Query, many: map<LoadKey, seq<Tree>>): map<LoadKey, seq<Tree>>
    decreases q, 0
  {
    map k | k in many && k in q.loads :: CutAll(s, q.loads[k], ForcedLink(k), many[k])
  }

  function CutAll(s: Schema, q: Query, link: Link, ts: seq<Tree>): (r: seq<Tree>)
    ensures |r| == |ts|
    decreases q, 2
  {
    seq(|ts|, i requires 0 <= i < |ts| => Cut(s, q, link, ts[i]))
  }

  // ----- The columns that joins rely on ---------------------------------------

  lemma CutKeepsKeys(s: Schema, q: Query, link: Link, t: Tree)
    requires GoodQuery(s, q)
    ensures IdOf(Cut(s, q, link, t).row) == IdOf(t.row)
    ensures link.ByForeignKey? ==> Fk(Cut(s, q, link, t).row, link.column) == Fk(t.row, link.column)
    ensures forall k :: k in q.loads && k.edge.kind.Unique? ==>
              Fk(Project(t.row, KeptColumns(s, q, link)), k.edge.column) == Fk(t.row, k.edge.column)
  {
    var q' := Attach(q, link);
    ProjectKeeps(s, q', t.row, ID);
    if link.ByForeignKey? {
      ProjectKeeps(s, q', t.row, link.column);
    }
    forall k | k in q.loads && k.edge.kind.Unique?
      ensures Fk(Project(t.row, KeptColumns(s, q, link)), k.edge.column) == Fk(t.row, k.edge.column)
    {
      assert k == Plain(k.edge) && k in q'.loads;
      ProjectKeeps(s, q', t.row, k.edge.column);
    }
  }

  /** The rows of the cut query are the cut rows of the query without selection. */
  lemma RowsCut(db: Database, q: Query, link: Link)
    ensures |NodesOf(db, q, link)| == |NodesOf(db, Unselected(q), link)|
    ensures forall i :: 0 <= i < |NodesOf(db, q, link)| ==>
              NodesOf(db, q, link)[i] == Project(NodesOf(db, Unselected(q), link)[i], KeptColumns(db.schema, q, link))
  {
    assert SpecOf(db.schema, Attach(Unselected(q), link)).projection == AllColumns;
    assert Matching(db, SpecOf(db.schema, Attach(q, link)))
           == Matching(db, SpecOf(db.schema, Attach(Unselected(q), link)));
  }

  // ----- Cutting commutes with joining ----------------------------------------

  function Cutting(s: Schema, q: Query, link: Link): Tree -> Tree {
    t => Cut(s, q, link, t)
  }

  lemma ReferringCut(s: Schema, q: Query, link: Link, ts: seq<Tree>, id: int)
    requires GoodQuery(s, q) && link.ByForeignKey?
    ensures Referring(CutAll(s, q, link, ts), link.column, id) == CutAll(s, q, link, Referring(ts, link.column, id))
  {
    forall i | 0 <= i < |ts| {
      CutKeepsKeys(s, q, link, ts[i]);
    }
    FilterMap(ts, CutAll(s, q, link, ts), Cutting(s, q, link), RefersTo(link.column, id), RefersTo(link.column, id));
  }

  lemma {:induction false} LastCut(s: Schema, q: Query, link: Link, ts: seq<Tree>, id: int)
    requires GoodQuery(s, q)
    ensures LastWithId(CutAll(s, q, link, ts), id) ==
              if LastWithId(ts, id).None? then None else Some(Cut(s, q, link, LastWithId(ts, id).value))
  {
    if ts == [] {
    } else {
      var last := |ts| - 1;
      CutKeepsKeys(s, q, link, ts[last]);
      assert CutAll(s, q, link, ts)[..last] == CutAll(s, q, link, ts[..last]);
      LastCut(s, q, link, ts[..last], id);
    }
  }

  lemma CutIgnoresIds(s: Schema, q: Query, k: LoadKey, rows: seq<Row>, ts: seq<Tree>)
    ensures CutAll(s, q, LinkFor(k, rows), ts) == CutAll(s, q, ForcedLink(k), ts)
  {
    forall i | 0 <= i < |ts| ensures Cut(s, q, LinkFor(k, rows), ts[i]) == Cut(s, q, ForcedLink(k), ts[i]) {
      assert KeptColumns(s, q, LinkFor(k, rows)) == KeptColumns(s, q, ForcedLink(k));
    }
  }

  lemma ManyCut(s: Schema, q: Query, p: Row, r: Row, nb: map<LoadKey, seq<Tree>>, nb': map<LoadKey, seq<Tree>>)
    requires GoodQuery(s, q) && nb.Keys == nb'.Keys == q.loads.Keys && IdOf(p) == IdOf(r)
    requires forall k :: k in nb ==> nb[k] == CutAll(s, q.loads[k], ForcedLink(k), nb'[k])
    ensures JoinedMany(p, nb) == CutMany(s, q, JoinedMany(r, nb'))
  {
    hide CutAll, Filter;
    var t, u := JoinedMany(p, nb), CutMany(s, q, JoinedMany(r, nb'));
    forall k | k in t ensures k in u && t[k] == u[k] {
      ReferringCut(s, q.loads[k], ForcedLink(k), nb'[k], IdOf(r));
    }
    MapsEqual(t, u);
  }

  lemma OneCut(s: Schema, q: Query, p: Row, r: Row, nb: map<LoadKey, seq<Tree>>, nb': map<LoadKey, seq<Tree>>)
    requires GoodQuery(s, q) && nb.Keys == nb'.Keys == q.loads.Keys
    requires forall k :: k in q.loads && k.edge.kind.Unique? ==> Fk(p, k.edge.column) == Fk(r, k.edge.column)
    requires forall k :: k in nb ==> nb[k] == CutAll(s, q.loads[k], ForcedLink(k), nb'[k])
    ensures JoinedOne(p, nb) == CutOne(s, q, JoinedOne(r, nb'))
  {
    hide CutAll, Cut, LastWithId;
    var t, u := JoinedOne(p, nb), CutOne(s, q, JoinedOne(r, nb'));
    forall k | k in t ensures k in u && t[k] == u[k] {
      LastCut(s, q.loads[k], Top, nb'[k], Fk(r, k.edge.column).value);
    }
    forall k | k in u ensures k in t {
      LastCut(s, q.loads[k], Top, nb'[k], Fk(r, k.edge.column).value);
    }
    MapsEqual(t, u);
  }

  /** Joining cut neighbours to a cut row is cutting the joined node. */
  lemma JoinedCut(db: Database, q: Query, link: Link, r: Row, nb: map<LoadKey, seq<Tree>>, nb': map<LoadKey, seq<Tree>>)
    requires GoodQuery(db.schema, q) && nb.Keys == q.loads.Keys && nb'.Keys == q.loads.Keys
    requires forall k :: k in nb ==> nb[k] == CutAll(db.schema, q.loads[k], ForcedLink(k), nb'[k])
    ensures Joined(Project(r, KeptColumns(db.schema, q, link)), PlainKeys(q), nb)
         == Cut(db.schema, q, link, Joined(r, PlainKeys(q), nb'))
  {
    hide KeptColumns, CutAll, CutOne, CutMany, JoinedOne, JoinedMany;
    var p := Project(r, KeptColumns(db.schema, q, link));
    CutKeepsKeys(db.schema, q, link, Tree(r, {}, map[], map[]));
    ManyCut(db.schema, q, p, r, nb, nb');
    OneCut(db.schema, q, p, r, nb, nb');
  }

  /** Main theorem: a run is the run without selection, cut to the selection. */
  lemma {:induction false} SelectionOnlyCuts(db: Database, q: Query, link: Link)
    requires GoodQuery(db.schema, q)
    ensures Batched(db, q, link) == CutAll(db.schema, q, link, Batched(db, Unselected(q), link))
    decreases q
  {
    hide NodesOf, KeptColumns, Joined, LinkFor, Cut;
    var full, rows, rows' := Unselected(q), NodesOf(db, q, link), NodesOf(db, Unselected(q), link);
    RowsCut(db, q, link);
    forall k | k in q.loads
      ensures Neighbours(db, q, rows)[k] == CutAll(db.schema, q.loads[k], ForcedLink(k), Neighbours(db, full, rows')[k])
    {
      LinksAgree(db, q, link, k);
      SelectionOnlyCuts(db, q.loads[k], LinkFor(k, rows));
      CutIgnoresIds(db.schema, q.loads[k], k, rows, Batched(db, Unselected(q.loads[k]), LinkFor(k, rows)));
    }
    assert PlainKeys(full) == PlainKeys(q);
    forall i | 0 <= i < |rows| ensures Batched(db, q, link)[i] == Cut(db.schema, q, link, Batched(db, full, link)[i]) {
      JoinedCut(db, q, link, rows'[i], Neighbours(db, q, rows), Neighbours(db, full, rows'));
    }
  }

  /** The children are asked for the same keys, selection or not. */
  lemma LinksAgree(db: Database, q: Query, link: Link, k: LoadKey)
    requires GoodQuery(db.schema, q) && k in q.loads
    ensures LinkFor(k, NodesOf(db, q, link)) == LinkFor(k, NodesOf(db, Unselected(q), link))
  {
    hide NodesOf, KeptColumns, CutOne, CutMany;
    var rows, rows' := NodesOf(db, q, link), NodesOf(db, Unselected(q), link);
    RowsCut(db, q, link);
    forall i | 0 <= i < |rows|
      ensures IdOf(rows[i]) == IdOf(rows'[i])
              && (k.edge.kind.Unique? ==> Fk(rows[i], k.edge.column) == Fk(rows'[i], k.edge.column))
    {
      CutKeepsKeys(db.schema, q, link, Tree(rows'[i], {}, map[], map[]));
    }
    if k.edge.kind.Unique? {
      ForeignKeysAgree(rows, rows', k.edge.column);
    }
  }

  lemma {:induction false} ForeignKeysAgree(rows: seq<Row>, rows': seq<Row>, c: Column)
    requires |rows| == |rows'| && forall i :: 0 <= i < |rows| ==> Fk(rows[i], c) == Fk(rows'[i], c)
    ensures ForeignKeys(rows, c) == ForeignKeys(rows', c)
  {
    if rows == [] {
    } else {
      ForeignKeysAgree(rows[..|rows| - 1], rows'[..|rows| - 1], c);
    }
  }
}
