/**
 Field collection appends to lists that its callers still hold. A slice is a
 prefix of a backing array: appending within its capacity writes into that array
 in place. `CollectField` proves that no caller ever sees such a write.
 */
module Slices {
  import opened Storage

  /** A slice that starts where its array starts; the rest is spare capacity. */
  datatype Slice = Slice(arr: array<string>, len: nat)
  {
    ghost predicate Valid() {
      len <= arr.Length
    }

    function Content(): seq<string>
      requires len <= arr.Length
      reads arr
    {
      arr[..len]
    }
  }

  /** One `append`: in place if there is spare capacity, else into a larger copy. */
  method Append(s: Slice, x: string) returns (r: Slice)
    requires s.Valid()
    modifies s.arr
    ensures r.Valid() && r.Content() == old(s.Content()) + [x]
    ensures r.arr == s.arr || fresh(r.arr)
    ensures s.Content() == old(s.Content())
  {
    if s.len < s.arr.Length {
      s.arr[s.len] := x;
      return Slice(s.arr, s.len + 1);
    }
    var capacity :| capacity > s.len;
    var copy := new string[capacity](_ => "");
    forall i | 0 <= i < s.len {
      copy[i] := s.arr[i];
    }
    copy[s.len] := x;
    assert copy[..s.len] == s.Content();
    r := Slice(copy, s.len + 1);
  }

  /** `append([]string(nil), s...)`: a copy of its own. */
  method Copied(s: Slice) returns (r: Slice)
    requires s.Valid()
    ensures r.Valid() && fresh(r.arr) && r.Content() == s.Content()
  {
    var capacity :| capacity >= s.len;
    var copy := new string[capacity](_ => "");
    forall i | 0 <= i < s.len {
      copy[i] := s.arr[i];
    }
    r := Slice(copy, s.len);
    assert r.Content() == s.Content();
  }

  // ----- Type conditions ------------------------------------------------------

  /** The conditions with the new ones that they lack, in order. */
  function AddAll(satisfies: seq<string>, typeCond: seq<string>): seq<string> {
    if typeCond == [] then satisfies
    else
      var rest := AddAll(satisfies, typeCond[..|typeCond| - 1]);
      var c := typeCond[|typeCond| - 1];
      if c in rest then rest else rest + [c]
  }

  /** The union keeps the old list as its prefix, has exactly the members of both,
      adds each new one once, where it first occurs, and adding again changes
      nothing. */
  lemma {:induction false} AddAllIsUnion(satisfies: seq<string>, typeCond: seq<string>)
    ensures var r, n := AddAll(satisfies, typeCond), |satisfies|;
            && satisfies <= r && (forall c :: c in r <==> c in satisfies || c in typeCond)
            && (forall i :: n <= i < |r| ==> r[i] !in r[..i])
    ensures forall k :: 0 <= k <= |typeCond| ==> AddAll(satisfies, typeCond[..k]) <= AddAll(satisfies, typeCond)
    decreases |typeCond|
  {
    if typeCond == [] {
    } else {
      var last := |typeCond| - 1;
      var r, rest := AddAll(satisfies, typeCond), AddAll(satisfies, typeCond[..last]);
      AddAllIsUnion(satisfies, typeCond[..last]);
      assert forall c :: c in typeCond <==> c in typeCond[..last] || c == typeCond[last];
      forall k | 0 <= k <= |typeCond| ensures AddAll(satisfies, typeCond[..k]) <= r {
        if k == |typeCond| {
          assert typeCond[..k] == typeCond;
        } else {
          assert typeCond[..last][..k] == typeCond[..k];
          assert AddAll(satisfies, typeCond[..k]) <= rest <= r;
        }
      }
      forall i | |satisfies| <= i < |r| ensures r[i] !in r[..i] {
        if i < |rest| {
          assert r[i] == rest[i] && r[..i] == rest[..i];
        }
      }
    }
  }

  lemma {:induction false} AddNothing(satisfies: seq<string>, typeCond: seq<string>)
    requires forall c :: c in typeCond ==> c in satisfies
    ensures AddAll(satisfies, typeCond) == satisfies
    decreases |typeCond|
  {
    if typeCond == [] {
    } else {
      AddNothing(satisfies, typeCond[..|typeCond| - 1]);
    }
  }

  /** Adding the same conditions again changes nothing. */
  lemma AddTwice(satisfies: seq<string>, typeCond: seq<string>)
    ensures AddAll(AddAll(satisfies, typeCond), typeCond) == AddAll(satisfies, typeCond)
  {
    AddAllIsUnion(satisfies, typeCond);
    AddNothing(AddAll(satisfies, typeCond), typeCond);
  }

  /** The caller's list is never touched, even when the result shares its array. */
  method MayAddCondition(satisfies: Slice, typeCond: seq<string>) returns (r: Slice)
    requires satisfies.Valid()
    modifies satisfies.arr
    ensures r.Valid() && r.Content() == AddAll(old(satisfies.Content()), typeCond)
    ensures r.arr == satisfies.arr ==> satisfies.len <= r.len
    ensures r.arr == satisfies.arr || fresh(r.arr)
    ensures satisfies.Content() == old(satisfies.Content())
  {
    r := satisfies;
    for i := 0 to |typeCond|
      invariant r.Valid() && r.Content() == AddAll(old(satisfies.Content()), typeCond[..i])
      invariant r.arr == satisfies.arr ==> satisfies.len <= r.len
      invariant r.arr == satisfies.arr || fresh(r.arr)
      invariant satisfies.Content() == old(satisfies.Content())
    {
      var c := typeCond[i];
      assert typeCond[..i + 1][..i] == typeCond[..i];
      var found := Contains(r, c);
      if found {
        continue;
      }
      ghost var before := r;
      r := Append(r, c);
      assert satisfies.arr == before.arr ==> satisfies.Content() == before.Content()[..satisfies.len];
    }
    assert typeCond[..|typeCond|] == typeCond;
  }

  method Contains(s: Slice, c: string) returns (found: bool)
    requires s.Valid()
    ensures found <==> c in s.Content()
  {
    for i := 0 to s.len
      invariant c !in s.arr[..i]
    {
      if s.arr[i] == c {
        return true;
      }
    }
    return false;
  }

  // ----- Collecting -----------------------------------------------------------

  /** A selected field: its response key, the type condition that it stands under,
      the types that its own type satisfies, and its selections. */
  datatype SelectedField = SelectedField(alias: string, on: Option<string>, implementors: seq<string>,
      children: seq<SelectedField>)

  predicate Applies(f: SelectedField, satisfies: seq<string>) {
    f.on.Some? ==> f.on.value in satisfies
  }

  /** What one call of field collection sees: its path and its conditions. */
  datatype Visit = Visit(path: seq<string>, satisfies: seq<string>)

  /** The calls in order, if every list were a value of its own. */
  function Visits(f: SelectedField, path: seq<string>, satisfies: seq<string>): seq<Visit>
    decreases f, 1
  {
    [Visit(path, satisfies)] + VisitsBelow(f.children, path, satisfies)
  }

  function VisitsBelow(fs: seq<SelectedField>, path: seq<string>, satisfies: seq<string>): seq<Visit>
    decreases fs, 0
  {
    if fs == [] then []
    else
      var f := fs[|fs| - 1];
      VisitsBelow(fs[..|fs| - 1], path, satisfies)
      + if Applies(f, satisfies) then Visits(f, path + [f.alias], AddAll(satisfies, f.implementors)) else []
  }

  // ----- Which calls are made -------------------------------------------------

  /** A way down from a field: each next one is among the selections of the one before. */
  ghost predicate Descends(f: SelectedField, way: seq<SelectedField>)
    decreases |way|
  {
    way != [] ==> way[0] in f.children && Descends(way[0], way[1..])
  }

  function Aliases(way: seq<SelectedField>): seq<string> {
    if way == [] then [] else [way[0].alias] + Aliases(way[1..])
  }

  /** The types that the fields of a way satisfy, one after the other. */
  function Implied(way: seq<SelectedField>): seq<string> {
    if way == [] then [] else way[0].implementors + Implied(way[1..])
  }

  /** Every type condition on the way is satisfied where it stands: at the start, or by a
      type of a field before it. */
  ghost predicate Open(way: seq<SelectedField>, satisfies: seq<string>) {
    forall i :: 0 <= i < |way| && way[i].on.Some? ==>
      way[i].on.value in satisfies || way[i].on.value in Implied(way[..i])
  }

  /** The call at the end of a way. */
  ghost predicate EndsIn(f: SelectedField, path: seq<string>, satisfies: seq<string>, way: seq<SelectedField>,
                         v: Visit) {
    Descends(f, way) && Open(way, satisfies) && v == Visit(path + Aliases(way), AddAll(satisfies, Implied(way)))
  }

  lemma {:induction false} AddAllSum(satisfies: seq<string>, a: seq<string>, b: seq<string>)
    ensures AddAll(satisfies, a + b) == AddAll(AddAll(satisfies, a), b)
    decreases |b|
  {
    if b == [] {
      assert a + b == a;
    } else {
      assert (a + b)[..|a + b| - 1] == a + b[..|b| - 1];
      AddAllSum(satisfies, a, b[..|b| - 1]);
    }
  }

  lemma {:induction false} VisitsBelowAre(fs: seq<SelectedField>, path: seq<string>, satisfies: seq<string>, v: Visit)
    ensures v in VisitsBelow(fs, path, satisfies) <==>
              exists f :: f in fs && Applies(f, satisfies)
                          && v in Visits(f, path + [f.alias], AddAll(satisfies, f.implementors))
    decreases |fs|
  {
    hide Visits, AddAll, Applies;
    if fs == [] {
    } else {
      VisitsBelowAre(fs[..|fs| - 1], path, satisfies, v);
      assert fs == fs[..|fs| - 1] + [fs[|fs| - 1]];
    }
  }

  /** One step more at the start of a way. */
  lemma OpenFrom(f: SelectedField, way: seq<SelectedField>, satisfies: seq<string>)
    ensures Open([f] + way, satisfies) <==> Applies(f, satisfies) && Open(way, AddAll(satisfies, f.implementors))
  {
    hide AddAll;
    var longer := [f] + way;
    AddAllIsUnion(satisfies, f.implementors);
    assert Implied(longer[..0]) == [];
    forall i | 0 <= i < |way|
      ensures longer[i + 1] == way[i]
      ensures forall c :: c in Implied(longer[..i + 1]) <==> c in f.implementors || c in Implied(way[..i])
    {
      assert longer[..i + 1] == [f] + way[..i];
      assert longer[..i + 1][1..] == way[..i];
    }
  }

  lemma EndsFrom(f: SelectedField, g: SelectedField, path: seq<string>, satisfies: seq<string>,
                 way: seq<SelectedField>, v: Visit)
    ensures EndsIn(f, path, satisfies, [g] + way, v) <==>
              && g in f.children && Applies(g, satisfies)
              && EndsIn(g, path + [g.alias], AddAll(satisfies, g.implementors), way, v)
  {
    hide AddAll, Open, Applies;
    assert ([g] + way)[1..] == way;
    OpenFrom(g, way, satisfies);
    AddAllSum(satisfies, g.implementors, Implied(way));
    assert path + Aliases([g] + way) == path + [g.alias] + Aliases(way);
  }

  /** Field collection is called for exactly the ways down on which every type condition is
      satisfied, with the response keys of the way as its path and the types of the way
      added to the conditions. A field under an unsatisfied condition is never visited,
      nor is anything below it. */
  lemma {:induction false} VisitsExactly(f: SelectedField, path: seq<string>, satisfies: seq<string>, v: Visit)
    ensures v in Visits(f, path, satisfies) <==> exists way :: EndsIn(f, path, satisfies, way, v)
    decreases f
  {
    hide AddAll, EndsIn, Applies;
    VisitsBelowAre(f.children, path, satisfies, v);
    EndsHere(f, path, satisfies, v);
    if way :| EndsIn(f, path, satisfies, way, v) {
      if way != [] {
        var g, rest := way[0], way[1..];
        assert way == [g] + rest;
        EndsFrom(f, g, path, satisfies, rest, v);
        VisitsExactly(g, path + [g.alias], AddAll(satisfies, g.implementors), v);
      }
    }
    if g :| g in f.children && Applies(g, satisfies)
            && v in Visits(g, path + [g.alias], AddAll(satisfies, g.implementors)) {
      VisitsExactly(g, path + [g.alias], AddAll(satisfies, g.implementors), v);
      var way :| EndsIn(g, path + [g.alias], AddAll(satisfies, g.implementors), way, v);
      EndsFrom(f, g, path, satisfies, way, v);
    }
  }

  lemma EndsHere(f: SelectedField, path: seq<string>, satisfies: seq<string>, v: Visit)
    ensures EndsIn(f, path, satisfies, [], v) <==> v == Visit(path, satisfies)
  {
    assert path + [] == path;
  }

  /** Field collection over shared lists makes the calls that it would make over
      values, and leaves the lists of its caller as they were. */
  method CollectShared(f: SelectedField, path: Slice, satisfies: Slice) returns (log: seq<Visit>)
    requires path.Valid() && satisfies.Valid() && path.arr != satisfies.arr
    modifies satisfies.arr
    ensures log == Visits(f, old(path.Content()), old(satisfies.Content()))
    ensures path.Content() == old(path.Content()) && satisfies.Content() == old(satisfies.Content())
    decreases f, 0
  {
    var own := Copied(path);
    var p, conditions := own.Content(), satisfies.Content();
    log := [Visit(p, conditions)];
    for i := 0 to |f.children|
      invariant own.Valid() && fresh(own.arr) && own.Content() == p
      invariant satisfies.Content() == conditions
      invariant log == [Visit(p, conditions)] + VisitsBelow(f.children[..i], p, conditions)
    {
      var child := f.children[i];
      assert f.children[..i + 1][..i] == f.children[..i];
      if Applies(child, conditions) {
        var below := CollectChild(child, own, satisfies);
        log := log + below;
      }
    }
    assert f.children[..|f.children|] == f.children;
  }

  /** One case of the switch: the child is collected with one more path element and
      the conditions of its own type, both appended to the caller's lists. */
  method CollectChild(child: SelectedField, path: Slice, satisfies: Slice) returns (log: seq<Visit>)
    requires path.Valid() && satisfies.Valid() && path.arr != satisfies.arr
    modifies path.arr, satisfies.arr
    ensures log ==
              Visits(child, old(path.Content()) + [child.alias], AddAll(old(satisfies.Content()), child.implementors))
    ensures path.Content() == old(path.Content()) && satisfies.Content() == old(satisfies.Content())
    decreases child, 1
  {
    hide Visits, AddAll;
    var longer := Append(path, child.alias);
    var more := MayAddCondition(satisfies, child.implementors);
    SharesPrefix(satisfies, more);
    log := CollectShared(child, longer, more);
    SharesPrefix(satisfies, more);
  }

  /** A slice that shares its array with a longer one is a prefix of it. */
  lemma SharesPrefix(s: Slice, t: Slice)
    requires s.Valid() && t.Valid() && s.arr == t.arr ==> s.len <= t.len
    ensures s.Valid() && t.Valid() && s.arr == t.arr ==> s.Content() == t.Content()[..s.len]
  {
  }
}
