/**
 The campus entity on its way into the database and back: what a create builder's
 defaults and checks guarantee, the node and the specification that it makes of a
 mutation, and the node that scanning the stored row gives.
 */
module Campus {
  import opened Storage

  type Time = int

  const ZERO_TIME: Time := 0

  datatype SocialLink = SocialLink(service: string, identifier: string)

  /** The columns of the table; any other selected column is an `Other`. */
  datatype CampusField =
    | Id | NameFold | OrgID | Aka | City | Country | Logo | Name | NameLong | Notes | SocialMedia
    | State | Website | Zipcode | OrgName | Created | Updated | Status | Other(name: string)

  datatype Mutation = Mutation(
    id: Option<int>, nameFold: Option<string>, organization: Option<int>, aka: Option<string>, city: Option<string>,
    country: Option<string>, logo: Option<string>, name: Option<string>, nameLong: Option<string>,
    notes: Option<string>, socialMedia: Option<seq<SocialLink>>, state: Option<string>, website: Option<string>,
    zipcode: Option<string>, orgName: Option<string>, created: Option<Time>, updated: Option<Time>,
    status: Option<string>, facilities: set<int>)

  datatype Node = Node(
    id: int, nameFold: string, orgID: Option<int>, aka: Option<string>, city: string, country: string,
    logo: Option<string>, name: string, nameLong: Option<string>, notes: string, socialMedia: seq<SocialLink>,
    state: string, website: string, zipcode: string, orgName: string, created: Time, updated: Time, status: string)

  /** A value in the database. JSON is kept decoded: encoding and decoding links
      are taken to be inverse to each other. */
  datatype Stored = NULL | Integer(n: int) | Str(s: string) | Stamp(t: Time) | Json(links: seq<SocialLink>)

  /** What is sent to the database: the ID if there is one, the fields that were
      set, and the edges. */
  datatype CreateSpec = CreateSpec(id: Option<int>, fields: map<CampusField, Stored>, organization: Option<int>,
      facilities: set<int>)

  datatype Problem = Missing(field: CampusField) | NotPositive

  // ----- Defaults and checks --------------------------------------------------

  function Or(o: Option<string>, default: string): Option<string> {
    if o.Some? then o else Some(default)
  }

  function WithDefaults(m: Mutation): Mutation {
    m.(nameFold := Or(m.nameFold, ""), city := Or(m.city, ""), country := Or(m.country, ""), notes := Or(m.notes, ""),
       state := Or(m.state, ""), website := Or(m.website, ""), zipcode := Or(m.zipcode, ""),
       orgName := Or(m.orgName, ""), status := Or(m.status, "ok"))
  }

  /** What `check` looks for: the required fields, and a positive ID if any. */
  predicate Complete(m: Mutation) {
    m.name.Some? && m.created.Some? && m.updated.Some? && m.status.Some? && (m.id.Some? ==> m.id.value > 0)
  }

  // ----- Node and specification -----------------------------------------------

  function ZeroNode(): Node {
    Node(0, "", None, None, "", "", None, "", None, "", [], "", "", "", "", ZERO_TIME, ZERO_TIME, "")
  }

  function Get<T>(o: Option<T>, zero: T): T {
    if o.Some? then o.value else zero
  }

  function NodeOf(m: Mutation): Node {
    Node(Get(m.id, 0), Get(m.nameFold, ""), m.organization, m.aka, Get(m.city, ""), Get(m.country, ""), m.logo,
         Get(m.name, ""), m.nameLong, Get(m.notes, ""), Get(m.socialMedia, []), Get(m.state, ""), Get(m.website, ""),
         Get(m.zipcode, ""), Get(m.orgName, ""), Get(m.created, ZERO_TIME), Get(m.updated, ZERO_TIME),
             Get(m.status, ""))
  }

  function OfText(o: Option<string>): Option<Stored> {
    if o.Some? then Some(Str(o.value)) else None
  }

  /** The value that a mutation sets for a field that is stored as such. */
  function Set(m: Mutation, f: CampusField): Option<Stored> {
    match f
    case NameFold => OfText(m.nameFold)
    case Aka => OfText(m.aka)
    case City => OfText(m.city)
    case Country => OfText(m.country)
    case Logo => OfText(m.logo)
    case Name => OfText(m.name)
    case NameLong => OfText(m.nameLong)
    case Notes => OfText(m.notes)
    case SocialMedia => if m.socialMedia.Some? then Some(Json(m.socialMedia.value)) else None
    case State => OfText(m.state)
    case Website => OfText(m.website)
    case Zipcode => OfText(m.zipcode)
    case OrgName => OfText(m.orgName)
    case Created => if m.created.Some? then Some(Stamp(m.created.value)) else None
    case Updated => if m.updated.Some? then Some(Stamp(m.updated.value)) else None
    case Status => OfText(m.status)
    case _ => None
  }

  /** A specification says exactly what the mutation sets. */
  ghost predicate SpecFor(spec: CreateSpec, m: Mutation) {
    && spec.id == m.id && spec.organization == m.organization && spec.facilities == m.facilities
    && forall f :: if f in spec.fields then Set(m, f) == Some(spec.fields[f]) else Set(m, f) == None
  }

  /** The one specification that says what the mutation sets. */
  ghost function CreateSpecOf(m: Mutation): (spec: CreateSpec)
    ensures SpecFor(spec, m)
  {
    var fields := map f | f in {} + Place() + Names() + Record() && Set(m, f).Some? :: Set(m, f).value;
    var spec := CreateSpec(m.id, fields, m.organization, m.facilities);
    OnlyTheseAreSet(m);
    spec
  }

  /** A mutation has one specification. */
  lemma SpecUnique(a: CreateSpec, b: CreateSpec, m: Mutation)
    requires SpecFor(a, m) && SpecFor(b, m)
    ensures a == b
  {
    MapsEqual(a.fields, b.fields);
  }

  /** Of the given fields, the ones that the mutation sets are in the map. */
  ghost predicate Carries(fields: map<CampusField, Stored>, m: Mutation, fs: set<CampusField>) {
    forall f :: if f in fs && Set(m, f).Some? then f in fields && fields[f] == Set(m, f).value else f !in fields
  }

  /** One `if value, ok := mutation.F(); ok { spec.SetField(…) }`. */
  method SetField(fields: map<CampusField, Stored>, f: CampusField, m: Mutation,
                  ghost fs: set<CampusField>) returns (r: map<CampusField, Stored>)
    requires Carries(fields, m, fs)
    ensures Carries(r, m, fs + {f})
  {
    r := fields;
    if Set(m, f).Some? {
      r := r[f := Set(m, f).value];
    }
  }

  function Place(): set<CampusField> {
    {NameFold, Aka, City, Country, Logo}
  }

  function Names(): set<CampusField> {
    {Name, NameLong, Notes, SocialMedia, State}
  }

  function Record(): set<CampusField> {
    {Website, Zipcode, OrgName, Created, Updated, Status}
  }

  method SetPlace(m: Mutation, n: Node, c: map<CampusField, Stored>, ghost fs: set<CampusField>)
    returns (node: Node, fields: map<CampusField, Stored>)
    requires Carries(c, m, fs)
    ensures node == n.(nameFold := Get(m.nameFold, n.nameFold), aka := if m.aka.Some? then m.aka else n.aka,
                       city := Get(m.city, n.city), country := Get(m.country, n.country),
                       logo := if m.logo.Some? then m.logo else n.logo)
    ensures Carries(fields, m, fs + Place())
  {
    hide Carries, Set;
    node := n;
    fields := SetField(c, NameFold, m, fs);
    node := node.(nameFold := Get(m.nameFold, node.nameFold));
    fields := SetField(fields, Aka, m, fs + {NameFold});
    node := node.(aka := if m.aka.Some? then m.aka else node.aka);
    fields := SetField(fields, City, m, fs + {NameFold} + {Aka});
    node := node.(city := Get(m.city, node.city));
    fields := SetField(fields, Country, m, fs + {NameFold} + {Aka} + {City});
    node := node.(country := Get(m.country, node.country));
    fields := SetField(fields, Logo, m, fs + {NameFold} + {Aka} + {City} + {Country});
    node := node.(logo := if m.logo.Some? then m.logo else node.logo);
    assert fs + {NameFold} + {Aka} + {City} + {Country} + {Logo} == fs + Place();
  }

  method SetNames(m: Mutation, n: Node, c: map<CampusField, Stored>, ghost fs: set<CampusField>)
    returns (node: Node, fields: map<CampusField, Stored>)
    requires Carries(c, m, fs)
    ensures node == n.(name := Get(m.name, n.name),
                       nameLong := if m.nameLong.Some? then m.nameLong else n.nameLong,
                       notes := Get(m.notes, n.notes), socialMedia := Get(m.socialMedia, n.socialMedia),
                       state := Get(m.state, n.state))
    ensures Carries(fields, m, fs + Names())
  {
    hide Carries, Set;
    node := n;
    fields := SetField(c, Name, m, fs);
    node := node.(name := Get(m.name, node.name));
    fields := SetField(fields, NameLong, m, fs + {Name});
    node := node.(nameLong := if m.nameLong.Some? then m.nameLong else node.nameLong);
    fields := SetField(fields, Notes, m, fs + {Name} + {NameLong});
    node := node.(notes := Get(m.notes, node.notes));
    fields := SetField(fields, SocialMedia, m, fs + {Name} + {NameLong} + {Notes});
    node := node.(socialMedia := Get(m.socialMedia, node.socialMedia));
    fields := SetField(fields, State, m, fs + {Name} + {NameLong} + {Notes} + {SocialMedia});
    node := node.(state := Get(m.state, node.state));
    assert fs + {Name} + {NameLong} + {Notes} + {SocialMedia} + {State} == fs + Names();
  }

  method SetRecord(m: Mutation, n: Node, c: map<CampusField, Stored>, ghost fs: set<CampusField>)
    returns (node: Node, fields: map<CampusField, Stored>)
    requires Carries(c, m, fs)
    ensures node == n.(website := Get(m.website, n.website), zipcode := Get(m.zipcode, n.zipcode),
                       orgName := Get(m.orgName, n.orgName), created := Get(m.created, n.created),
                       updated := Get(m.updated, n.updated), status := Get(m.status, n.status))
    ensures Carries(fields, m, fs + Record())
  {
    hide Carries, Set;
    node := n;
    fields := SetField(c, Website, m, fs);
    node := node.(website := Get(m.website, node.website));
    fields := SetField(fields, Zipcode, m, fs + {Website});
    node := node.(zipcode := Get(m.zipcode, node.zipcode));
    fields := SetField(fields, OrgName, m, fs + {Website} + {Zipcode});
    node := node.(orgName := Get(m.orgName, node.orgName));
    fields := SetField(fields, Created, m, fs + {Website} + {Zipcode} + {OrgName});
    node := node.(created := Get(m.created, node.created));
    fields := SetField(fields, Updated, m, fs + {Website} + {Zipcode} + {OrgName} + {Created});
    node := node.(updated := Get(m.updated, node.updated));
    fields := SetField(fields, Status, m, fs + {Website} + {Zipcode} + {OrgName} + {Created} + {Updated});
    node := node.(status := Get(m.status, node.status));
    assert fs + {Website} + {Zipcode} + {OrgName} + {Created} + {Updated} + {Status} == fs + Record();
  }

  method BuildSpec(m: Mutation) returns (node: Node, spec: CreateSpec)
    ensures node == NodeOf(m) && SpecFor(spec, m)
  {
    hide Carries, SpecFor, Set;
    NothingCarried(m);
    var fields: map<CampusField, Stored>;
    node, fields := SetPlace(m, ZeroNode(), map[], {});
    node, fields := SetNames(m, node, fields, {} + Place());
    node, fields := SetRecord(m, node, fields, {} + Place() + Names());
    if m.id.Some? {
      node := node.(id := m.id.value);
    }
    if m.organization.Some? {
      node := node.(orgID := m.organization);
    }
    spec := CreateSpec(m.id, fields, m.organization, m.facilities);
    AllCarried(spec, m);
  }

  lemma NothingCarried(m: Mutation)
    ensures Carries(map[], m, {})
  {
  }

  lemma OnlyTheseAreSet(m: Mutation)
    ensures forall f :: Set(m, f).Some? ==> f in {} + Place() + Names() + Record()
  {
    forall f ensures Set(m, f).Some? ==> f in {} + Place() + Names() + Record() {
    }
  }

  lemma AllCarried(spec: CreateSpec, m: Mutation)
    requires Carries(spec.fields, m, {} + Place() + Names() + Record())
    requires spec.id == m.id && spec.organization == m.organization && spec.facilities == m.facilities
    ensures SpecFor(spec, m)
  {
    hide Set, Place, Names, Record;
    OnlyTheseAreSet(m);
  }

  // ----- Scanning a row -------------------------------------------------------

  /** What `sql.Rows.Scan` fills in, by type. */
  datatype Holder =
    | NullInt64(int64: Option<int>) | NullString(text: Option<string>) | NullTime(time: Option<Time>)
    | Bytes(links: Option<seq<SocialLink>>) | UnknownType

  /** The empty holder for a column. */
  function HolderFor(f: CampusField): Holder {
    match f
    case SocialMedia => Bytes(None)
    case Id => NullInt64(None)
    case OrgID => NullInt64(None)
    case Created => NullTime(None)
    case Updated => NullTime(None)
    case Other(_) => UnknownType
    case _ => NullString(None)
  }

  /** A column is assigned from the type of holder that was made for it only. */
  predicate Accepts(f: CampusField, h: Holder) {
    match HolderFor(f)
    case NullInt64(_) => h.NullInt64?
    case NullString(_) => h.NullString?
    case NullTime(_) => h.NullTime?
    case Bytes(_) => h.Bytes?
    case UnknownType => true
  }

  /** The driver's part: a NULL leaves the holder empty. */
  function Fill(h: Holder, v: Stored): Holder {
    match (h, v)
    case (NullInt64(_), Integer(n)) => NullInt64(Some(n))
    case (NullString(_), Str(t)) => NullString(Some(t))
    case (NullTime(_), Stamp(t)) => NullTime(Some(t))
    case (Bytes(_), Json(links)) => Bytes(Some(links))
    case _ => h
  }

  method ScanValues(columns: seq<CampusField>) returns (values: array<Holder>)
    ensures fresh(values) && values.Length == |columns|
    ensures forall i :: 0 <= i < |columns| ==> values[i] == HolderFor(columns[i])
  {
    values := new Holder[|columns|](i => UnknownType);
    for i := 0 to |columns|
      invariant forall j :: 0 <= j < i ==> values[j] == HolderFor(columns[j])
    {
      values[i] := match columns[i] {
        case SocialMedia => Bytes(None)
        case Id => NullInt64(None)
        case OrgID => NullInt64(None)
        case Created => NullTime(None)
        case Updated => NullTime(None)
        case Other(_) => UnknownType
        case _ => NullString(None)
      };
    }
  }

  /** One case of the switch over the columns. */
  function AssignOne(n: Node, f: CampusField, h: Holder): Node
    requires Accepts(f, h)
  {
    match f
    case Id => n.(id := Get(h.int64, 0))
    case NameFold => if h.text.Some? then n.(nameFold := h.text.value) else n
    case OrgID => if h.int64.Some? then n.(orgID := h.int64) else n
    case Aka => if h.text.Some? then n.(aka := h.text) else n
    case City => if h.text.Some? then n.(city := h.text.value) else n
    case Country => if h.text.Some? then n.(country := h.text.value) else n
    case Logo => if h.text.Some? then n.(logo := h.text) else n
    case Name => if h.text.Some? then n.(name := h.text.value) else n
    case NameLong => if h.text.Some? then n.(nameLong := h.text) else n
    case Notes => if h.text.Some? then n.(notes := h.text.value) else n
    case SocialMedia => if h.links.Some? then n.(socialMedia := h.links.value) else n
    case State => if h.text.Some? then n.(state := h.text.value) else n
    case Website => if h.text.Some? then n.(website := h.text.value) else n
    case Zipcode => if h.text.Some? then n.(zipcode := h.text.value) else n
    case OrgName => if h.text.Some? then n.(orgName := h.text.value) else n
    case Created => if h.time.Some? then n.(created := h.time.value) else n
    case Updated => if h.time.Some? then n.(updated := h.time.value) else n
    case Status => if h.text.Some? then n.(status := h.text.value) else n
    case Other(_) => n
  }

  ghost predicate AllAccepted(columns: seq<CampusField>, values: seq<Holder>) {
    |columns| <= |values| && forall i :: 0 <= i < |columns| ==> Accepts(columns[i], values[i])
  }

  ghost function Assigned(n: Node, columns: seq<CampusField>, values: seq<Holder>): Node
    requires AllAccepted(columns, values)
    decreases columns
  {
    if columns == [] then n
    else
      var last := |columns| - 1;
      AssignOne(Assigned(n, columns[..last], values), columns[last], values[last])
  }

  /** The last value, of the first `n`, of a column that the entity does not know. */
  function LastOther(columns: seq<CampusField>, values: seq<Holder>, n: nat, name: string): Option<Holder>
    requires n <= |columns| && n <= |values|
  {
    if n == 0 then None
    else if columns[n - 1] == Other(name) then Some(values[n - 1])
    else LastOther(columns, values, n - 1, name)
  }

  /** What is kept by name after the first `n` columns. */
  ghost predicate Kept(before: map<string, Holder>, now: map<string, Holder>, columns: seq<CampusField>,
                       values: seq<Holder>, n: nat)
    requires n <= |columns| && n <= |values|
  {
    forall c ::
      var last := LastOther(columns, values, n, c);
      && (c in now <==> c in before || last.Some?)
      && (c in now ==> now[c] == if last.Some? then last.value else before[c])
  }

  class Entity {
    var node: Node
    var selectValues: map<string, Holder>

    constructor ()
      ensures node == ZeroNode() && selectValues == map[]
    {
      node, selectValues := ZeroNode(), map[];
    }

    /** The first `n` columns have been assigned. */
    ghost predicate Holds(was: Node, before: map<string, Holder>, columns: seq<CampusField>, values: seq<Holder>,
                          n: nat)
      requires n <= |columns| && AllAccepted(columns[..n], values)
      reads this
    {
      node == Assigned(was, columns[..n], values) && Kept(before, selectValues, columns, values, n)
    }

    /** Fails exactly when there are too few values or one has another type than
        the column's; then the columns before it have been assigned. */
    method AssignValues(columns: seq<CampusField>, values: seq<Holder>) returns (ok: bool)
      modifies this
      ensures ok <==> AllAccepted(columns, values)
      ensures ok ==> Holds(old(node), old(selectValues), columns, values, |columns|)
      ensures |values| < |columns| ==> node == old(node) && selectValues == old(selectValues)
      ensures forall n :: 0 <= n < |columns| <= |values| && AllAccepted(columns[..n], values)
                          && !Accepts(columns[n], values[n]) ==>
                Holds(old(node), old(selectValues), columns, values, n)
    {
      if |values| < |columns| {
        return false;
      }
      hide Accepts, AssignOne;
      for i := 0 to |columns|
        invariant AllAccepted(columns[..i], values) && Holds(old(node), old(selectValues), columns, values, i)
      {
        assert columns[..i + 1] == columns[..i] + [columns[i]] && columns[..i + 1][..i] == columns[..i];
        if !Accepts(columns[i], values[i]) {
          return false;
        }
        node := AssignOne(node, columns[i], values[i]);
        if columns[i].Other? {
          selectValues := selectValues[columns[i].name := values[i]];
        }
      }
      assert columns[..|columns|] == columns;
      return true;
    }
  }

  // ----- The stored row -------------------------------------------------------

  /** The defaults that the table itself declares. */
  function TableDefault(f: CampusField): Stored {
    match f
    case NameFold => Str("")
    case City => Str("")
    case Country => Str("")
    case Notes => Str("")
    case State => Str("")
    case Website => Str("")
    case Zipcode => Str("")
    case OrgName => Str("")
    case Status => Str("ok")
    case _ => NULL
  }

  /** Columns that may not be NULL and have no default. */
  predicate Insertable(spec: CreateSpec) {
    Name in spec.fields && Created in spec.fields && Updated in spec.fields
  }

  function StoredValue(spec: CreateSpec, id: int, f: CampusField): Stored {
    match f
    case Id => Integer(id)
    case OrgID => if spec.organization.Some? then Integer(spec.organization.value) else NULL
    case Other(_) => NULL
    case _ => if f in spec.fields then spec.fields[f] else TableDefault(f)
  }

  function FilledFrom(spec: CreateSpec, id: int, f: CampusField): (h: Holder)
    ensures Accepts(f, h)
  {
    Fill(HolderFor(f), StoredValue(spec, id, f))
  }

  function ScannedRow(spec: CreateSpec, id: int, columns: seq<CampusField>): (values: seq<Holder>)
    ensures |values| == |columns|
  {
    seq(|columns|, i requires 0 <= i < |columns| => FilledFrom(spec, id, columns[i]))
  }

  // ----- Round trip -----------------------------------------------------------

  /** A node, column by column. */
  function View(n: Node, f: CampusField): Stored {
    match f
    case Id => Integer(n.id)
    case NameFold => Str(n.nameFold)
    case OrgID => if n.orgID.Some? then Integer(n.orgID.value) else NULL
    case Aka => if n.aka.Some? then Str(n.aka.value) else NULL
    case City => Str(n.city)
    case Country => Str(n.country)
    case Logo => if n.logo.Some? then Str(n.logo.value) else NULL
    case Name => Str(n.name)
    case NameLong => if n.nameLong.Some? then Str(n.nameLong.value) else NULL
    case Notes => Str(n.notes)
    case SocialMedia => Json(n.socialMedia)
    case State => Str(n.state)
    case Website => Str(n.website)
    case Zipcode => Str(n.zipcode)
    case OrgName => Str(n.orgName)
    case Created => Stamp(n.created)
    case Updated => Stamp(n.updated)
    case Status => Str(n.status)
    case Other(_) => NULL
  }

  lemma SamePlace(a: Node, b: Node)
    requires View(a, NameFold) == View(b, NameFold) && View(a, Aka) == View(b, Aka) && View(a, City) == View(b, City)
    requires View(a, Country) == View(b, Country) && View(a, Logo) == View(b, Logo)
    ensures a.nameFold == b.nameFold && a.aka == b.aka && a.city == b.city && a.country == b.country && a.logo == b.logo
  {
  }

  lemma SameNames(a: Node, b: Node)
    requires View(a, Name) == View(b, Name) && View(a, NameLong) == View(b, NameLong)
             && View(a, Notes) == View(b, Notes)
    requires View(a, SocialMedia) == View(b, SocialMedia) && View(a, State) == View(b, State)
    ensures a.name == b.name && a.nameLong == b.nameLong && a.notes == b.notes && a.socialMedia == b.socialMedia
    ensures a.state == b.state
  {
  }

  lemma SameRecord(a: Node, b: Node)
    requires View(a, Website) == View(b, Website) && View(a, Zipcode) == View(b, Zipcode)
    requires View(a, OrgName) == View(b, OrgName) && View(a, Created) == View(b, Created)
    requires View(a, Updated) == View(b, Updated) && View(a, Status) == View(b, Status)
    ensures a.website == b.website && a.zipcode == b.zipcode && a.orgName == b.orgName && a.created == b.created
    ensures a.updated == b.updated && a.status == b.status
  {
  }

  lemma SameKeys(a: Node, b: Node)
    requires View(a, Id) == View(b, Id) && View(a, OrgID) == View(b, OrgID)
    ensures a.id == b.id && a.orgID == b.orgID
  {
  }

  lemma SameView(a: Node, b: Node)
    requires forall f :: View(a, f) == View(b, f)
    ensures a == b
  {
    hide View;
    SamePlace(a, b);
    SameNames(a, b);
    SameRecord(a, b);
    SameKeys(a, b);
  }

  /** Assigning a column changes that column only; a NULL changes nothing but the
      ID. */
  lemma AssignOneView(n: Node, f: CampusField, h: Holder, g: CampusField)
    requires Accepts(f, h) && g != f
    ensures View(AssignOne(n, f, h), g) == View(n, g)
  {
  }

  /** What a column of the stored row reads back as: the created node's value,
      except that a status that was never set comes from the table. */
  function Expected(m: Mutation, id: int, f: CampusField): Stored {
    if f.Status? && m.status.None? then Str("ok") else View(NodeOf(m).(id := id), f)
  }

  function Held(h: Holder): Stored {
    match h
    case NullInt64(Some(n)) => Integer(n)
    case NullString(Some(t)) => Str(t)
    case NullTime(Some(t)) => Stamp(t)
    case Bytes(Some(links)) => Json(links)
    case _ => NULL
  }

  /** A column takes the value of its holder; an empty holder leaves it alone,
      unless it is the ID. */
  lemma AssignedView(n: Node, f: CampusField, h: Holder)
    requires Accepts(f, h) && !f.Other?
    ensures View(AssignOne(n, f, h), f) == if Held(h) != NULL then Held(h) else if f.Id? then Integer(0) else View(n, f)
  {
  }

  predicate Typed(f: CampusField, v: Stored) {
    match HolderFor(f)
    case NullInt64(_) => v.Integer? || v.NULL?
    case NullString(_) => v.Str? || v.NULL?
    case NullTime(_) => v.Stamp? || v.NULL?
    case Bytes(_) => v.Json? || v.NULL?
    case UnknownType => v.NULL?
  }

  lemma FilledHolds(f: CampusField, v: Stored)
    requires Typed(f, v)
    ensures Held(Fill(HolderFor(f), v)) == v
  {
  }

  lemma SetView(m: Mutation, id: int, f: CampusField)
    requires !f.Id? && !f.OrgID?
    ensures View(NodeOf(m).(id := id), f) == if Set(m, f).Some? then Set(m, f).value else View(ZeroNode(), f)
    ensures Set(m, f).Some? ==> Typed(f, Set(m, f).value) && Set(m, f).value != NULL
  {
  }

  lemma DefaultView(f: CampusField)
    requires !f.Id? && !f.OrgID?
    ensures Typed(f, TableDefault(f))
    ensures TableDefault(f) == NULL || TableDefault(f) == if f.Status? then Str("ok") else View(ZeroNode(), f)
    ensures f.Status? ==> TableDefault(f) == Str("ok")
  {
  }

  lemma ReadColumn(m: Mutation, spec: CreateSpec, id: int, n: Node, f: CampusField)
    requires spec.organization == m.organization
    requires if f in spec.fields then Set(m, f) == Some(spec.fields[f]) else Set(m, f) == None
    requires View(n, f) == View(ZeroNode(), f) || View(n, f) == Expected(m, id, f)
    ensures View(AssignOne(n, f, FilledFrom(spec, id, f)), f) == Expected(m, id, f)
  {
    if f.Other? {
    } else if f.Id? || f.OrgID? {
      hide TableDefault;
      AssignedView(n, f, FilledFrom(spec, id, f));
    } else {
      hide Set, View, AssignOne, Held, HolderFor, TableDefault, Typed;
      AssignedView(n, f, FilledFrom(spec, id, f));
      SetView(m, id, f);
      StatusSet(m);
      DefaultView(f);
      FilledHolds(f, StoredValue(spec, id, f));
    }
  }

  lemma StatusSet(m: Mutation)
    ensures Set(m, Status).Some? <==> m.status.Some?
  {
  }

  /** The holders that were made for a list of columns are accepted for it,
      whatever the list and whatever the row holds. */
  lemma ScannedAccepted(spec: CreateSpec, id: int, columns: seq<CampusField>)
    ensures AllAccepted(columns, ScannedRow(spec, id, columns))
  {
  }

  /** Reading any list of columns of the stored row gives the created node's value
      in each of them and leaves the others zero. */
  lemma {:induction false} ColumnsReadBack(m: Mutation, spec: CreateSpec, id: int, columns: seq<CampusField>, k: nat,
                                           f: CampusField)
    requires SpecFor(spec, m) && k <= |columns| && AllAccepted(columns[..k], ScannedRow(spec, id, columns))
    ensures View(Assigned(ZeroNode(), columns[..k], ScannedRow(spec, id, columns)), f)
         == if f in columns[..k] then Expected(m, id, f) else View(ZeroNode(), f)
  {
    hide Set, View, Expected, FilledFrom, Accepts, AssignOne;
    if k == 0 {
    } else {
      var values, g := ScannedRow(spec, id, columns), columns[k - 1];
      assert columns[..k][..k - 1] == columns[..k - 1];
      assert AllAccepted(columns[..k - 1], values);
      var n := Assigned(ZeroNode(), columns[..k - 1], values);
      ColumnsReadBack(m, spec, id, columns, k - 1, f);
      if f == g {
        ReadColumn(m, spec, id, n, f);
      } else {
        AssignOneView(n, g, values[k - 1], f);
      }
    }
  }

  /** Main theorem: reading the whole stored row back gives the node that the
      create builder returned, if and only if the status was set: an unset
      status is stored as the table's default and returned as an empty string. */
  lemma RoundTripExact(m: Mutation, spec: CreateSpec, id: int, columns: seq<CampusField>)
    requires SpecFor(spec, m) && forall f: CampusField :: f.Other? || f in columns
    ensures AllAccepted(columns, ScannedRow(spec, id, columns))
    ensures Assigned(ZeroNode(), columns, ScannedRow(spec, id, columns)) == NodeOf(m).(id := id) <==> m.status.Some?
    ensures Insertable(spec) <==> m.name.Some? && m.created.Some? && m.updated.Some?
  {
    hide View, SpecFor, NodeOf, ScannedRow, Assigned, Insertable;
    InsertableExactly(m, spec);
    ScannedAccepted(spec, id, columns);
    assert columns[..|columns|] == columns;
    var n, created := Assigned(ZeroNode(), columns, ScannedRow(spec, id, columns)), NodeOf(m).(id := id);
    forall f ensures View(n, f) == Expected(m, id, f) {
      ColumnsReadBack(m, spec, id, columns, |columns|, f);
      OtherView(ZeroNode(), created, f);
    }
    if m.status.Some? {
      SameView(n, created);
    } else {
      StatusView(m, id);
    }
  }

  lemma InsertableExactly(m: Mutation, spec: CreateSpec)
    requires SpecFor(spec, m)
    ensures Insertable(spec) <==> m.name.Some? && m.created.Some? && m.updated.Some?
  {
  }

  lemma OtherView(a: Node, b: Node, f: CampusField)
    ensures f.Other? ==> View(a, f) == View(b, f)
  {
  }

  lemma StatusView(m: Mutation, id: int)
    requires m.status.None?
    ensures View(NodeOf(m).(id := id), Status) != Str("ok")
  {
  }

  /** The checks that a create builder runs are enough: a mutation that passes is
      accepted by the table and reads back as the returned node. The defaults add
      nothing to that, and they leave nothing but the three fields without one,
      and the sign of the ID, for the checks to reject. */
  lemma CheckedReadsBack(m: Mutation, spec: CreateSpec, id: int, columns: seq<CampusField>)
    requires SpecFor(spec, m) && Complete(m) && forall f: CampusField :: f.Other? || f in columns
    ensures Insertable(spec)
    ensures AllAccepted(columns, ScannedRow(spec, id, columns))
    ensures Assigned(ZeroNode(), columns, ScannedRow(spec, id, columns)) == NodeOf(m).(id := id)
  {
    hide ScannedRow, Assigned, NodeOf;
    RoundTripExact(m, spec, id, columns);
  }

  /** What is set stays; what is not set gets the default that the table declares for it,
      and nothing if there is none. */
  lemma DefaultsFill(m: Mutation)
    ensures forall f :: Set(WithDefaults(m), f) ==
              if Set(m, f).Some? then Set(m, f) else if TableDefault(f) != NULL then Some(TableDefault(f)) else None
    ensures var d := WithDefaults(m);
            d.id == m.id && d.organization == m.organization && d.facilities == m.facilities
  {
  }

  lemma DefaultsLeaveFour(m: Mutation)
    ensures Complete(WithDefaults(m)) <==>
              m.name.Some? && m.created.Some? && m.updated.Some? && (m.id.Some? ==> m.id.value > 0)
    ensures WithDefaults(WithDefaults(m)) == WithDefaults(m)
  {
  }
}
