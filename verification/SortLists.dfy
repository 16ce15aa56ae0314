/**
 The sort lists of the REST API: the fields by which a type may be sorted, without
 those that lead over an edge to a type with a privacy policy, and the enums of the
 API description cut down to the same lists. Both are deleted from in place.
 */
module SortLists {
  import Storage

  datatype TypeEdge = TypeEdge(name: string, policies: nat)

  /** A type with its sortable fields as the REST generator lists them. */
  datatype Type = Type(name: string, edges: seq<TypeEdge>, sortable: seq<string>)

  function Spared<T(!new)>(del: T -> bool): T -> bool {
    x => !del(x)
  }

  /** Deletes from the first `n` elements, moving the kept ones to the front and
      clearing what is left behind. */
  method DeleteFunc<T(!new)>(a: array<T>, n: nat, del: T -> bool, zero: T) returns (m: nat)
    requires n <= a.Length
    modifies a
    ensures m <= n && a[..m] == Storage.Filter(old(a[..n]), Spared(del))
    ensures forall k :: m <= k < n ==> a[k] == zero
    ensures a[n..] == old(a[n..])
  {
    ghost var was := a[..];
    m := 0;
    while m < n && !del(a[m])
      invariant m <= n && a[..] == was
      invariant a[..m] == Storage.Filter(was[..m], Spared(del))
    {
      assert was[..m + 1] == was[..m] + [was[m]];
      Storage.FilterAppend(was[..m], was[m], Spared(del));
      m := m + 1;
    }
    if m == n {
      assert old(a[..n]) == was[..n];
      return;
    }
    var j := m + 1;
    assert was[..j] == was[..m] + [was[m]];
    Storage.FilterAppend(was[..m], was[m], Spared(del));
    while j < n
      invariant m < j <= n && a[..m] == Storage.Filter(was[..j], Spared(del))
      invariant forall k :: j <= k < a.Length ==> a[k] == was[k]
    {
      assert was[..j + 1] == was[..j] + [was[j]];
      Storage.FilterAppend(was[..j], was[j], Spared(del));
      if !del(a[j]) {
        a[m] := a[j];
        m := m + 1;
      }
      j := j + 1;
    }
    assert old(a[..n]) == was[..n];
    ghost var kept := a[..m];
    for k := m to n
      invariant a[..m] == kept
      invariant forall l :: m <= l < k ==> a[l] == zero
      invariant forall l :: n <= l < a.Length ==> a[l] == was[l]
    {
      a[k] := zero;
    }
  }

  // ----- The served list ------------------------------------------------------

  predicate HasPrefix(f: string, prefix: string) {
    |prefix| <= |f| && f[..|prefix|] == prefix
  }

  predicate Over(f: string, e: TypeEdge) {
    e.policies > 0 && HasPrefix(f, e.name + ".")
  }

  /** A sort that leads over no edge to a type with a policy. */
  predicate Allowed(edges: seq<TypeEdge>, f: string) {
    forall i :: 0 <= i < |edges| ==> !Over(f, edges[i])
  }

  /** A field is refused if and only if it is an edge to a type with a policy, a dot and
      anything. */
  lemma RefusedExactly(edges: seq<TypeEdge>, f: string)
    ensures !Allowed(edges, f) <==> exists e, g :: e in edges && e.policies > 0 && f == e.name + "." + g
  {
    forall e: TypeEdge, g | e in edges && e.policies > 0 && f == e.name + "." + g ensures Over(f, e) {
      assert f[..|e.name + "."|] == e.name + ".";
    }
    if i :| 0 <= i < |edges| && Over(f, edges[i]) {
      var n := |edges[i].name| + 1;
      assert f == f[..n] + f[n..] && edges[i] in edges;
    }
  }

  function AllowedBy(edges: seq<TypeEdge>): string -> bool {
    f => Allowed(edges, f)
  }

  /** The served list keeps the order of the base list. */
  function Served(t: Type): seq<string> {
    Storage.Filter(t.sortable, AllowedBy(t.edges))
  }

  function StartsWith(prefix: string): string -> bool {
    f => HasPrefix(f, prefix)
  }

  method RestSortableFields(t: Type) returns (fields: array<string>, n: nat)
    ensures fresh(fields) && n <= fields.Length && fields[..n] == Served(t)
  {
    n := |t.sortable|;
    fields := new string[n](i requires 0 <= i < |t.sortable| => t.sortable[i]);
    assert fields[..n] == t.sortable;
    Storage.FilterAll(t.sortable, AllowedBy([]));
    for i := 0 to |t.edges|
      invariant n <= fields.Length && fields[..n] == Storage.Filter(t.sortable, AllowedBy(t.edges[..i]))
    {
      var e := t.edges[i];
      OneMoreEdge(t, i);
      if e.policies == 0 {
        continue;
      }
      n := DeleteFunc(fields, n, StartsWith(e.name + "."), "");
    }
    assert t.edges[..|t.edges|] == t.edges;
  }

  lemma OneMoreEdge(t: Type, i: nat)
    requires i < |t.edges|
    ensures var e, done := t.edges[i], Storage.Filter(t.sortable, AllowedBy(t.edges[..i]));
            Storage.Filter(t.sortable, AllowedBy(t.edges[..i + 1])) ==
              if e.policies == 0 then done else Storage.Filter(done, Spared(StartsWith(e.name + ".")))
  {
    var e := t.edges[i];
    forall f ensures Allowed(t.edges[..i + 1], f) <==> Allowed(t.edges[..i], f) && !Over(f, e) {
      assert t.edges[..i + 1] == t.edges[..i] + [e];
      if Allowed(t.edges[..i + 1], f) {
        assert t.edges[..i + 1][i] == e;
        forall k | 0 <= k < i ensures !Over(f, t.edges[..i][k]) {
          assert t.edges[..i + 1][k] == t.edges[..i][k];
        }
      }
    }
    if e.policies == 0 {
      Storage.FilterAgree(t.sortable, AllowedBy(t.edges[..i + 1]), AllowedBy(t.edges[..i]));
    } else {
      Storage.FilterTwice(t.sortable, AllowedBy(t.edges[..i]), Spared(StartsWith(e.name + ".")),
          AllowedBy(t.edges[..i + 1]));
    }
  }

  // ----- The described list ---------------------------------------------------

  /** An enum entry as it stands in the document, and the string it decodes to, if
      it is one. */
  datatype Entry = Entry(text: string, decoded: Storage.Option<string>)

  /** Entries that decode to something other than a served field. */
  function Dropped(keep: seq<string>): Entry -> bool {
    (v: Entry) => v.decoded.Some? && v.decoded.value !in keep
  }

  /** The strings of a list of entries that all decode. */
  function Decoded(entries: seq<Entry>): (fs: seq<string>)
    requires forall v: Entry :: v in entries ==> v.decoded.Some?
    ensures |fs| == |entries|
  {
    seq(|entries|, i requires 0 <= i < |entries| => entries[i].decoded.value)
  }

  class EnumSchema {
    var enum: array<Entry>
    var n: nat

    constructor (entries: seq<Entry>)
      ensures n == enum.Length == |entries| && enum[..] == entries && fresh(enum)
    {
      enum := new Entry[|entries|](i requires 0 <= i < |entries| => entries[i]);
      n := |entries|;
    }

    ghost predicate Valid()
      reads this
    {
      n <= enum.Length
    }

    ghost function Entries(): seq<Entry>
      requires Valid()
      reads this, enum
    {
      enum[..n]
    }
  }

  function EnumName(t: Type, singularize: string -> string): string {
    singularize(t.name) + "SortableFields"
  }

  ghost predicate SeparateEnums(schemas: map<string, EnumSchema>)
    reads schemas.Values
  {
    && (forall k :: k in schemas ==> schemas[k].Valid())
    && (forall k, l :: k in schemas && l in schemas && k != l ==>
        schemas[k] != schemas[l] && schemas[k].enum != schemas[l].enum)
  }

  /** What the types up to the `i`-th leave of an enum. */
  ghost function Left(types: seq<Type>, i: nat, singularize: string -> string, name: string,
                      entries: seq<Entry>): seq<Entry>
    requires i <= |types|
  {
    if i == 0 then entries
    else
      var rest := Left(types, i - 1, singularize, name, entries);
      if EnumName(types[i - 1], singularize) == name then Storage.Filter(rest, Spared(Dropped(Served(types[i - 1]))))
      else rest
  }

  method DropPolicyEdgeSorts(types: seq<Type>, schemas: map<string, EnumSchema>, singularize: string -> string)
    requires SeparateEnums(schemas)
    modifies schemas.Values, set k | k in schemas :: schemas[k].enum
    ensures SeparateEnums(schemas)
    ensures forall k :: k in schemas ==>
              schemas[k].Entries() == Left(types, |types|, singularize, k, old(schemas[k].Entries()))
  {
    hide Storage.Filter, Served, EnumName;
    for i := 0 to |types|
      invariant SeparateEnums(schemas)
      invariant forall k :: k in schemas ==> schemas[k].enum == old(schemas[k].enum)
      invariant forall k :: k in schemas ==>
                  schemas[k].Entries() == Left(types, i, singularize, k, old(schemas[k].Entries()))
    {
      hide SeparateEnums, EnumSchema.Entries;
      var name := EnumName(types[i], singularize);
      if name !in schemas {
        continue;
      }
      DropNamed(schemas, name, types[i]);
    }
  }

  method DropNamed(schemas: map<string, EnumSchema>, name: string, t: Type)
    requires SeparateEnums(schemas) && name in schemas
    modifies schemas[name], schemas[name].enum
    ensures SeparateEnums(schemas)
    ensures forall k :: k in schemas ==> schemas[k].enum == old(schemas[k].enum)
    ensures forall k :: k in schemas ==>
              schemas[k].Entries() ==
                if k == name then Storage.Filter(old(schemas[k].Entries()), Spared(Dropped(Served(t))))
                    else old(schemas[k].Entries())
  {
    hide Storage.Filter, Served;
    DropFrom(schemas[name], t);
    forall k | k in schemas && k != name
      ensures schemas[k].Valid() && schemas[k].Entries() == old(schemas[k].Entries())
    {
      assert schemas[k] != schemas[name] && schemas[k].enum != schemas[name].enum;
    }
  }

  /** Drops from one enum what the type is not served. */
  method DropFrom(schema: EnumSchema, t: Type)
    requires schema.Valid()
    modifies schema, schema.enum
    ensures schema.enum == old(schema.enum) && schema.Valid()
    ensures schema.Entries() == Storage.Filter(old(schema.Entries()), Spared(Dropped(Served(t))))
  {
    var keep, n := RestSortableFields(t);
    schema.n := DeleteFunc(schema.enum, schema.n, Dropped(keep[..n]), Entry("", Storage.None));
  }

  /** A field that every one of the first `n` types with the enum is served. */
  ghost predicate ServedToAll(types: seq<Type>, n: nat, singularize: string -> string, name: string, f: string)
    requires n <= |types|
  {
    forall j :: 0 <= j < n && EnumName(types[j], singularize) == name ==> f in Served(types[j])
  }

  ghost function ServedBy(types: seq<Type>, n: nat, singularize: string -> string, name: string): string -> bool
    requires n <= |types|
  {
    f => ServedToAll(types, n, singularize, name, f)
  }

  ghost function LeftBy(types: seq<Type>, n: nat, singularize: string -> string, name: string): Entry -> bool
    requires n <= |types|
  {
    (v: Entry) => v.decoded.Some? ==> ServedToAll(types, n, singularize, name, v.decoded.value)
  }

  /** The types' deletions, one after the other, are one. */
  lemma {:induction false} LeftIs(types: seq<Type>, n: nat, singularize: string -> string, name: string,
                                  entries: seq<Entry>)
    requires n <= |types|
    ensures Left(types, n, singularize, name, entries) == Storage.Filter(entries, LeftBy(types, n, singularize, name))
  {
    hide Served, EnumName;
    if n == 0 {
      Storage.FilterAll(entries, LeftBy(types, 0, singularize, name));
    } else {
      var before, now := LeftBy(types, n - 1, singularize, name), LeftBy(types, n, singularize, name);
      var spared := Spared(Dropped(Served(types[n - 1])));
      LeftIs(types, n - 1, singularize, name, entries);
      if EnumName(types[n - 1], singularize) == name {
        forall v | v in entries ensures now(v) == (before(v) && spared(v)) {
          OneMoreType(types, n, singularize, name, v);
        }
        Storage.FilterTwice(entries, before, spared, now);
      } else {
        forall v | v in entries ensures now(v) == before(v) {
          OneMoreType(types, n, singularize, name, v);
        }
        Storage.FilterAgree(entries, before, now);
      }
    }
  }

  lemma OneMoreType(types: seq<Type>, n: nat, singularize: string -> string, name: string, v: Entry)
    requires 0 < n <= |types|
    ensures LeftBy(types, n, singularize, name)(v) <==>
              && LeftBy(types, n - 1, singularize, name)(v)
              && (EnumName(types[n - 1], singularize) == name ==> Spared(Dropped(Served(types[n - 1])))(v))
  {
    hide Served, EnumName;
  }

  function Decoding(): Entry -> string {
    (v: Entry) => if v.decoded.Some? then v.decoded.value else ""
  }

  lemma DecodedFilter(entries: seq<Entry>, keep: Entry -> bool, p: string -> bool)
    requires forall v: Entry :: v in entries ==> v.decoded.Some? && (keep(v) <==> p(v.decoded.value))
    ensures forall v: Entry :: v in Storage.Filter(entries, keep) ==> v.decoded.Some?
    ensures Decoded(Storage.Filter(entries, keep)) == Storage.Filter(Decoded(entries), p)
  {
    hide Storage.Filter;
    Storage.FilterMembers(entries, keep);
    Storage.FilterMap(entries, Decoded(entries), Decoding(), keep, p);
  }

  /** Main theorem: a type's enum whose entries decode to the type's base list ends up
      decoding, in order, to what every type with that enum is served; this is the
      list that the type itself is served if and only if no other type with the enum
      is refused a part of it. */
  lemma ListsAgree(types: seq<Type>, i: nat, singularize: string -> string, entries: seq<Entry>)
    requires i < |types|
    requires (forall v: Entry :: v in entries ==> v.decoded.Some?) && Decoded(entries) == types[i].sortable
    ensures var name := singularize(types[i].name) + "SortableFields";
            var left := Left(types, |types|, singularize, name, entries);
            && (forall v: Entry :: v in left ==> v.decoded.Some?)
            && Decoded(left) == Storage.Filter(types[i].sortable, ServedBy(types, |types|, singularize, name))
            && (Decoded(left) == Served(types[i]) <==>
                 forall f :: f in Served(types[i]) ==> ServedToAll(types, |types|, singularize, name, f))
    ensures forall f :: f in Served(types[i]) <==>
              && f in types[i].sortable
              && !exists e, g :: e in types[i].edges && e.policies > 0 && f == e.name + "." + g
  {
    hide Left, Allowed;
    var t, name := types[i], singularize(types[i].name) + "SortableFields";
    var keep := ServedBy(types, |types|, singularize, name);
    Storage.FilterMembers(t.sortable, AllowedBy(t.edges));
    Storage.FilterMembers(t.sortable, keep);
    LeftIs(types, |types|, singularize, name, entries);
    DecodedFilter(entries, LeftBy(types, |types|, singularize, name), keep);
    forall f ensures AllowedBy(t.edges)(f) <==>
                       !exists e, g :: e in t.edges && e.policies > 0 && f == e.name + "." + g
    {
      RefusedExactly(t.edges, f);
    }
    if forall f :: f in Served(t) ==> keep(f) {
      Storage.FilterAgree(t.sortable, keep, AllowedBy(t.edges));
    }
  }
}
