/**
 The schema of campuses, carriers, the links between carriers and facilities,
 facilities, and organizations, with the link tables that facilities lead to
 (`ix_facilities`, `network_facilities`). Edges to other types are left out.
 */
module PeeringDB {
  import opened Storage
  import opened Query
  import opened NestedLoops
  import opened Extents
  import opened Selection
  import opened Reach
  import Windows
  import Collecting
  import Readback

  function CampusColumns(): set<Column> {
    {
      "id", "name_fold", "org_id", "aka", "city", "country", "logo", "name", "name_long", "notes", "social_media",
      "state", "website", "zipcode", "org_name", "created", "updated", "status"
    }
  }

  function CampusFields(): map<string, Column> {
    map[
      "aka" := "aka", "city" := "city", "country" := "country", "created" := "created", "logo" := "logo",
      "name" := "name", "nameLong" := "name_long", "notes" := "notes", "orgID" := "org_id", "orgName" := "org_name",
      "socialMedia" := "social_media", "state" := "state", "status" := "status", "updated" := "updated",
      "website" := "website", "zipcode" := "zipcode"
    ]
  }

  function CampusEdges(): seq<Edge> {
    [
      Edge("facilities", List, "facilities", "campus_id"),
      Edge("organization", Unique, "organizations", "org_id")
    ]
  }

  function CarrierColumns(): set<Column> {
    {
      "id", "name_fold", "aka_fold", "org_id", "aka", "logo", "name", "name_long", "notes", "social_media", "website",
      "org_name", "fac_count", "created", "updated", "status"
    }
  }

  function CarrierFields(): map<string, Column> {
    map[
      "aka" := "aka", "created" := "created", "facCount" := "fac_count", "logo" := "logo", "name" := "name",
      "nameLong" := "name_long", "notes" := "notes", "orgID" := "org_id", "orgName" := "org_name",
      "socialMedia" := "social_media", "status" := "status", "updated" := "updated", "website" := "website"
    ]
  }

  function CarrierEdges(): seq<Edge> {
    [
      Edge("carrierFacilities", List, "carrier_facilities", "carrier_id"),
      Edge("organization", Unique, "organizations", "org_id")
    ]
  }

  function CarrierFacilityColumns(): set<Column> {
    {
      "id", "carrier_id", "fac_id", "name", "created", "updated", "status"
    }
  }

  function CarrierFacilityFields(): map<string, Column> {
    map[
      "carrierID" := "carrier_id", "created" := "created", "facID" := "fac_id", "name" := "name",
      "status" := "status", "updated" := "updated"
    ]
  }

  function CarrierFacilityEdges(): seq<Edge> {
    [
      Edge("carrier", Unique, "carriers", "carrier_id"),
      Edge("facility", Unique, "facilities", "fac_id")
    ]
  }

  function FacilityColumns(): set<Column> {
    {
      "id", "name_fold", "aka_fold", "city_fold", "campus_id", "org_id", "address1", "address2", "aka",
      "available_voltage_services", "city", "clli", "country", "diverse_serving_substations", "floor", "latitude",
      "logo", "longitude", "name", "name_long", "notes", "npanxx", "property", "region_continent", "rencode",
      "sales_email", "sales_phone", "social_media", "state", "status_dashboard", "suite", "tech_email", "tech_phone",
      "website", "zipcode", "org_name", "net_count", "ix_count", "carrier_count", "created", "updated", "status"
    }
  }

  function FacilityFields(): map<string, Column> {
    map[
      "address1" := "address1", "address2" := "address2", "aka" := "aka",
      "availableVoltageServices" := "available_voltage_services", "campusID" := "campus_id",
      "carrierCount" := "carrier_count", "city" := "city", "clli" := "clli", "country" := "country",
      "created" := "created", "diverseServingSubstations" := "diverse_serving_substations", "floor" := "floor",
      "ixCount" := "ix_count", "latitude" := "latitude", "logo" := "logo", "longitude" := "longitude",
      "name" := "name", "nameLong" := "name_long", "netCount" := "net_count", "notes" := "notes",
      "npanxx" := "npanxx", "orgID" := "org_id", "orgName" := "org_name", "property" := "property",
      "regionContinent" := "region_continent", "rencode" := "rencode", "salesEmail" := "sales_email",
      "salesPhone" := "sales_phone", "socialMedia" := "social_media", "state" := "state", "status" := "status",
      "statusDashboard" := "status_dashboard", "suite" := "suite", "techEmail" := "tech_email",
      "techPhone" := "tech_phone", "updated" := "updated", "website" := "website", "zipcode" := "zipcode"
    ]
  }

  function FacilityEdges(): seq<Edge> {
    [
      Edge("campus", Unique, "campuses", "campus_id"),
      Edge("carrierFacilities", List, "carrier_facilities", "fac_id"),
      Edge("ixFacilities", List, "ix_facilities", "fac_id"),
      Edge("networkFacilities", List, "network_facilities", "fac_id"),
      Edge("organization", Unique, "organizations", "org_id")
    ]
  }

  function IxFacilityColumns(): set<Column> {
    {
      "id", "fac_id", "ix_id", "name", "city", "country", "created", "updated", "status"
    }
  }

  function IxFacilityFields(): map<string, Column> {
    map[
      "city" := "city", "country" := "country", "created" := "created", "facID" := "fac_id", "ixID" := "ix_id",
      "name" := "name", "status" := "status", "updated" := "updated"
    ]
  }

  function IxFacilityEdges(): seq<Edge> {
    [
      Edge("facility", Unique, "facilities", "fac_id")
    ]
  }

  function NetworkFacilityColumns(): set<Column> {
    {
      "id", "fac_id", "net_id", "local_asn", "name", "city", "country", "created", "updated", "status"
    }
  }

  function NetworkFacilityFields(): map<string, Column> {
    map[
      "city" := "city", "country" := "country", "created" := "created", "facID" := "fac_id",
      "localAsn" := "local_asn", "name" := "name", "netID" := "net_id", "status" := "status", "updated" := "updated"
    ]
  }

  function NetworkFacilityEdges(): seq<Edge> {
    [
      Edge("facility", Unique, "facilities", "fac_id")
    ]
  }

  function OrganizationColumns(): set<Column> {
    {
      "id", "name_fold", "aka_fold", "city_fold", "address1", "address2", "aka", "city", "country", "floor",
      "latitude", "logo", "longitude", "name", "name_long", "notes", "social_media", "state", "suite", "website",
      "zipcode", "created", "updated", "status"
    }
  }

  function OrganizationFields(): map<string, Column> {
    map[
      "address1" := "address1", "address2" := "address2", "aka" := "aka", "city" := "city", "country" := "country",
      "created" := "created", "floor" := "floor", "latitude" := "latitude", "logo" := "logo",
      "longitude" := "longitude", "name" := "name", "nameLong" := "name_long", "notes" := "notes",
      "socialMedia" := "social_media", "state" := "state", "status" := "status", "suite" := "suite",
      "updated" := "updated", "website" := "website", "zipcode" := "zipcode"
    ]
  }

  function OrganizationEdges(): seq<Edge> {
    [
      Edge("campuses", List, "campuses", "org_id"),
      Edge("carriers", List, "carriers", "org_id"),
      Edge("facilities", List, "facilities", "org_id")
    ]
  }

  function Tables(): set<Table> {
    {"campuses", "carriers", "carrier_facilities", "facilities", "ix_facilities", "network_facilities", "organizations"}
  }

  function ColumnsOf(t: Table): set<Column> {
    match t
    case "campuses" => CampusColumns()
    case "carriers" => CarrierColumns()
    case "carrier_facilities" => CarrierFacilityColumns()
    case "facilities" => FacilityColumns()
    case "ix_facilities" => IxFacilityColumns()
    case "network_facilities" => NetworkFacilityColumns()
    case "organizations" => OrganizationColumns()
    case _ => {}
  }

  function EdgeList(t: Table): seq<Edge> {
    match t
    case "campuses" => CampusEdges()
    case "carriers" => CarrierEdges()
    case "carrier_facilities" => CarrierFacilityEdges()
    case "facilities" => FacilityEdges()
    case "ix_facilities" => IxFacilityEdges()
    case "network_facilities" => NetworkFacilityEdges()
    case "organizations" => OrganizationEdges()
    case _ => []
  }

  function FieldsOf(t: Table): map<string, Column> {
    match t
    case "campuses" => CampusFields()
    case "carriers" => CarrierFields()
    case "carrier_facilities" => CarrierFacilityFields()
    case "facilities" => FacilityFields()
    case "ix_facilities" => IxFacilityFields()
    case "network_facilities" => NetworkFacilityFields()
    case "organizations" => OrganizationFields()
    case _ => map[]
  }

  function TheSchema(): Schema {
    Schema(map t | t in Tables() :: ColumnsOf(t), map t | t in Tables() :: EdgeList(t),
        map t | t in Tables() :: FieldsOf(t))
  }

  ghost predicate FieldsValid(cols: set<Column>, fields: map<string, Column>) {
    ID in cols && forall f :: f in fields ==> fields[f] in cols
  }

  ghost predicate EdgesValid(cols: set<Column>, edges: seq<Edge>) {
    forall e :: e in edges ==>
      e.target in Tables() && e.column in (if e.kind.Unique? then cols else ColumnsOf(e.target))
  }

  ghost predicate NamesDistinct(edges: seq<Edge>) {
    forall i, j :: 0 <= i < j < |edges| ==> edges[i].name != edges[j].name
  }

  lemma CampusFieldsValid()
    ensures FieldsValid(CampusColumns(), CampusFields())
  {
  }

  lemma CampusEdgesValid()
    ensures EdgesValid(CampusColumns(), CampusEdges())
  {
  }

  lemma CampusNamesDistinct()
    ensures NamesDistinct(CampusEdges())
  {
  }

  lemma CarrierFieldsValid()
    ensures FieldsValid(CarrierColumns(), CarrierFields())
  {
  }

  lemma CarrierEdgesValid()
    ensures EdgesValid(CarrierColumns(), CarrierEdges())
  {
  }

  lemma CarrierNamesDistinct()
    ensures NamesDistinct(CarrierEdges())
  {
  }

  lemma CarrierFacilityFieldsValid()
    ensures FieldsValid(CarrierFacilityColumns(), CarrierFacilityFields())
  {
  }

  lemma CarrierFacilityEdgesValid()
    ensures EdgesValid(CarrierFacilityColumns(), CarrierFacilityEdges())
  {
  }

  lemma CarrierFacilityNamesDistinct()
    ensures NamesDistinct(CarrierFacilityEdges())
  {
  }

  lemma FacilityFieldsValid()
    ensures FieldsValid(FacilityColumns(), FacilityFields())
  {
  }

  lemma FacilityEdgesValid()
    ensures EdgesValid(FacilityColumns(), FacilityEdges())
  {
  }

  lemma FacilityNamesDistinct()
    ensures NamesDistinct(FacilityEdges())
  {
  }

  lemma IxFacilityFieldsValid()
    ensures FieldsValid(IxFacilityColumns(), IxFacilityFields())
  {
  }

  lemma IxFacilityEdgesValid()
    ensures EdgesValid(IxFacilityColumns(), IxFacilityEdges())
  {
  }

  lemma IxFacilityNamesDistinct()
    ensures NamesDistinct(IxFacilityEdges())
  {
  }

  lemma NetworkFacilityFieldsValid()
    ensures FieldsValid(NetworkFacilityColumns(), NetworkFacilityFields())
  {
  }

  lemma NetworkFacilityEdgesValid()
    ensures EdgesValid(NetworkFacilityColumns(), NetworkFacilityEdges())
  {
  }

  lemma NetworkFacilityNamesDistinct()
    ensures NamesDistinct(NetworkFacilityEdges())
  {
  }

  lemma OrganizationFieldsValid()
    ensures FieldsValid(OrganizationColumns(), OrganizationFields())
  {
  }

  lemma OrganizationEdgesValid()
    ensures EdgesValid(OrganizationColumns(), OrganizationEdges())
  {
  }

  lemma OrganizationNamesDistinct()
    ensures NamesDistinct(OrganizationEdges())
  {
  }

  lemma TableValid(t: Table)
    requires t in Tables()
    ensures FieldsValid(ColumnsOf(t), FieldsOf(t)) && EdgesValid(ColumnsOf(t), EdgeList(t))
            && NamesDistinct(EdgeList(t))
  {
    hide FieldsValid, EdgesValid, NamesDistinct;
    hide CampusColumns, CampusEdges, CampusFields, CarrierColumns, CarrierEdges, CarrierFields;
    hide CarrierFacilityColumns, CarrierFacilityEdges, CarrierFacilityFields, FacilityColumns, FacilityEdges;
    hide FacilityFields, IxFacilityColumns, IxFacilityEdges, IxFacilityFields, NetworkFacilityColumns;
    hide NetworkFacilityEdges, NetworkFacilityFields, OrganizationColumns, OrganizationEdges, OrganizationFields;
    match t {
      case "campuses" => CampusFieldsValid(); CampusEdgesValid(); CampusNamesDistinct();
      case "carriers" => CarrierFieldsValid(); CarrierEdgesValid(); CarrierNamesDistinct();
      case "carrier_facilities" => CarrierFacilityFieldsValid(); CarrierFacilityEdgesValid();
          CarrierFacilityNamesDistinct();
      case "facilities" => FacilityFieldsValid(); FacilityEdgesValid(); FacilityNamesDistinct();
      case "ix_facilities" => IxFacilityFieldsValid(); IxFacilityEdgesValid(); IxFacilityNamesDistinct();
      case "network_facilities" => NetworkFacilityFieldsValid(); NetworkFacilityEdgesValid();
          NetworkFacilityNamesDistinct();
      case "organizations" => OrganizationFieldsValid(); OrganizationEdgesValid(); OrganizationNamesDistinct();
      case _ =>
    }
  }

  /** The edge of the other table that runs over the same foreign key, the other way. */
  ghost predicate Returns(t: Table, e: Edge) {
    exists back :: back in TheSchema().EdgesOf(e.target) && GoesBack(t, e, back)
  }

  predicate GoesBack(t: Table, e: Edge, back: Edge) {
    back.target == t && back.column == e.column && back.kind != e.kind
  }

  ghost predicate AllReturn(t: Table, edges: seq<Edge>) {
    forall i :: 0 <= i < |edges| ==> Returns(t, edges[i])
  }

  /** Two edges over one foreign key: `e` of table `a` and `back` of table `b`. */
  ghost predicate Paired(a: Table, e: Edge, b: Table, back: Edge) {
    && e.target == b && back.target == a && e.column == back.column
    && (e.kind == Unique && back.kind == List)
  }

  lemma CampusPairs()
    ensures Paired("facilities", FacilityEdges()[0], "campuses", CampusEdges()[0])
    ensures Paired("campuses", CampusEdges()[1], "organizations", OrganizationEdges()[0])
  {
  }

  lemma CarrierPairs()
    ensures Paired("carrier_facilities", CarrierFacilityEdges()[0], "carriers", CarrierEdges()[0])
    ensures Paired("carriers", CarrierEdges()[1], "organizations", OrganizationEdges()[1])
  {
  }

  lemma FacilityPairs()
    ensures Paired("carrier_facilities", CarrierFacilityEdges()[1], "facilities", FacilityEdges()[1])
    ensures Paired("ix_facilities", IxFacilityEdges()[0], "facilities", FacilityEdges()[2])
    ensures Paired("network_facilities", NetworkFacilityEdges()[0], "facilities", FacilityEdges()[3])
    ensures Paired("facilities", FacilityEdges()[4], "organizations", OrganizationEdges()[2])
  {
  }

  lemma HowMany()
    ensures |CampusEdges()| == |CarrierEdges()| == |CarrierFacilityEdges()| == 2
    ensures |IxFacilityEdges()| == |NetworkFacilityEdges()| == 1
    ensures |FacilityEdges()| == 5 && |OrganizationEdges()| == 3
  {
  }

  lemma EdgeListIs()
    ensures EdgeList("campuses") == CampusEdges() && EdgeList("carriers") == CarrierEdges()
    ensures EdgeList("carrier_facilities") == CarrierFacilityEdges() && EdgeList("facilities") == FacilityEdges()
    ensures EdgeList("ix_facilities") == IxFacilityEdges() && EdgeList("network_facilities") == NetworkFacilityEdges()
    ensures EdgeList("organizations") == OrganizationEdges()
  {
    hide CampusEdges, CarrierEdges, CarrierFacilityEdges, FacilityEdges, IxFacilityEdges;
    hide NetworkFacilityEdges, OrganizationEdges;
  }

  lemma BothReturn(a: Table, i: nat, b: Table, j: nat)
    requires a in Tables() && b in Tables() && i < |EdgeList(a)| && j < |EdgeList(b)|
    requires Paired(a, EdgeList(a)[i], b, EdgeList(b)[j])
    ensures Returns(a, EdgeList(a)[i]) && Returns(b, EdgeList(b)[j])
  {
    hide EdgeList, TheSchema, Tables;
    InSchema(a);
    InSchema(b);
    assert GoesBack(a, EdgeList(a)[i], EdgeList(b)[j]) && GoesBack(b, EdgeList(b)[j], EdgeList(a)[i]);
  }

  lemma AllPaired()
    ensures forall t :: t in Tables() ==> AllReturn(t, EdgeList(t))
  {
    hide EdgeList, Paired, Returns, CampusEdges, CarrierEdges, CarrierFacilityEdges, FacilityEdges, IxFacilityEdges;
    hide NetworkFacilityEdges, OrganizationEdges;
    EdgeListIs();
    HowMany();
    CampusPairs();
    CarrierPairs();
    FacilityPairs();
    BothReturn("facilities", 0, "campuses", 0);
    BothReturn("campuses", 1, "organizations", 0);
    BothReturn("carrier_facilities", 0, "carriers", 0);
    BothReturn("carriers", 1, "organizations", 1);
    BothReturn("carrier_facilities", 1, "facilities", 1);
    BothReturn("ix_facilities", 0, "facilities", 2);
    BothReturn("network_facilities", 0, "facilities", 3);
    BothReturn("facilities", 4, "organizations", 2);
  }

  /** Every edge leads to a declared table, every foreign key and GraphQL field is a
      declared column, and every edge has its way back over the same foreign key. */
  lemma TheSchemaIsValid()
    ensures TheSchema().Valid()
    ensures forall t, e :: t in Tables() && e in TheSchema().EdgesOf(t) ==> Returns(t, e)
  {
    hide Tables, EdgeList, TheSchema, Returns;
    SchemaValid();
    AllPaired();
    forall t, e | t in Tables() && e in TheSchema().EdgesOf(t) ensures Returns(t, e) {
      InSchema(t);
    }
  }

  lemma SchemaValid()
    ensures TheSchema().Valid()
  {
    hide Tables, ColumnsOf, EdgeList, FieldsOf;
    forall t | t in Tables() {
      TableValid(t);
    }
  }

  /** Asking for a campus's organization under two aliases, once for its name and
      once for its website, answers the first alias wrongly on some database. */
  lemma OrganizationAliasesClash()
    ensures var sel := [Field("organization", "a", [Field("name", "x", [])]),
                        Field("organization", "b", [Field("website", "x", [])])];
            !Readback.ReadsBack(TheSchema(), Compile(TheSchema(), "campuses", sel), sel)
  {
    hide Compile, Readback.ReadsBack;
    TheSchemaIsValid();
    OrganizationCases();
    Collecting.AliasesClash(TheSchema(), "campuses", Edge("organization", Unique, "organizations", "org_id"),
                            "name", "name", "website", "website");
  }

  lemma OrganizationCases()
    ensures Classify(TheSchema(), "campuses", "organization")
            == EdgeCase(Edge("organization", Unique, "organizations", "org_id"))
    ensures Classify(TheSchema(), "organizations", "name") == ColumnCase("name")
    ensures Classify(TheSchema(), "organizations", "website") == ColumnCase("website")
  {
    hide TheSchema, CampusEdges, OrganizationEdges, OrganizationFields;
    InSchema("campuses");
    InSchema("organizations");
    OrganizationOf();
    NoSuchEdge();
    FoundEdge(OrganizationEdges(), "name");
    FoundEdge(OrganizationEdges(), "website");
    OrganizationColumnNames();
  }

  lemma InSchema(t: Table)
    requires t in Tables()
    ensures TheSchema().EdgesOf(t) == EdgeList(t)
    ensures t in TheSchema().fields && TheSchema().fields[t] == FieldsOf(t)
  {
    hide Tables, ColumnsOf, EdgeList, FieldsOf;
  }

  lemma OrganizationOf()
    ensures FindEdge(CampusEdges(), "organization") == Some(Edge("organization", Unique, "organizations", "org_id"))
  {
    var edges := CampusEdges();
    assert edges[0].name != "organization";
    assert FindEdge(edges[1..], "organization") == Some(edges[1]);
  }

  lemma NoSuchEdge()
    ensures forall i :: 0 <= i < |OrganizationEdges()| ==>
              OrganizationEdges()[i].name != "name" && OrganizationEdges()[i].name != "website"
  {
  }

  lemma OrganizationColumnNames()
    ensures "name" in OrganizationFields() && OrganizationFields()["name"] == "name"
    ensures "website" in OrganizationFields() && OrganizationFields()["website"] == "website"
  {
  }

  // ----- A window that the way back makes harmless ----------------------------

  const FACILITIES := Plain(Edge("facilities", List, "facilities", "campus_id"))
  const CAMPUS := Plain(Edge("campus", Unique, "campuses", "campus_id"))

  /** Campuses, all their facilities, and for those their campus again. */
  function ThereAndBack(limit: int, backLimit: int): Query {
    var back := Query("campuses", [], [], Some(backLimit), None, [], map[]);
    var there := Query("facilities", [], [], None, None, [], map[CAMPUS := back]);
    Query("campuses", [], [], Some(limit), None, [], map[FACILITIES := there])
  }

  lemma EdgesThereAndBack()
    ensures FACILITIES.edge in TheSchema().EdgesOf("campuses")
    ensures CAMPUS.edge in TheSchema().EdgesOf("facilities")
  {
    hide TheSchema;
    InSchema("campuses");
    InSchema("facilities");
    assert CampusEdges()[..] == CampusEdges();
  }

  lemma ThereAndBackFits(limit: nat, backLimit: nat)
    requires limit > 0 && backLimit > 0
    ensures GoodQuery(TheSchema(), ThereAndBack(limit, backLimit))
    ensures Fits(ThereAndBack(limit, backLimit), RootExtent(ThereAndBack(limit, backLimit))) <==> limit <= backLimit
  {
    hide TheSchema;
    var q := ThereAndBack(limit, backLimit);
    var there := q.loads[FACILITIES];
    var back := there.loads[CAMPUS];
    EdgesThereAndBack();
    var root := RootExtent(q);
    var middle := Below("campuses", FACILITIES, there, root);
    assert middle == Extent(None, ListOf("facilities", "campus_id", root));
    assert GoodQuery(TheSchema(), back) && GoodQuery(TheSchema(), there);
    assert Fits(back, Below("facilities", CAMPUS, back, middle));
    assert Fits(there, middle) <==> Allows("facilities", CAMPUS, back, middle);
    assert Allows("facilities", CAMPUS, back, middle) <==> limit <= backLimit;
  }

  /** However many facilities there are, the way back leads to the campuses it came from,
      so a limit there is harmless if and only if it leaves as many as the first limit. */
  lemma ThereAndBackExact(limit: nat, backLimit: nat)
    requires limit > 0 && backLimit > 0
    ensures (forall db :: WellFormed(db) && db.schema == TheSchema() ==>
               Batched(db, ThereAndBack(limit, backLimit), Top) == Nested(db, ThereAndBack(limit, backLimit)))
            <==> limit <= backLimit
  {
    hide TheSchema, Batched, Nested, Fits, WellFormed;
    var q := ThereAndBack(limit, backLimit);
    TheSchemaIsValid();
    TablesInSchema();
    ThereAndBackFits(limit, backLimit);
    TestsInIt(limit, backLimit);
    Windows.WindowExact(TheSchema(), q);
  }

  lemma TablesInSchema()
    ensures forall t :: t in Tables() ==> t in TheSchema().columns
  {
    hide Tables, ColumnsOf, EdgeList, FieldsOf;
  }

  lemma TestsInIt(limit: int, backLimit: int)
    ensures TestsThroughout(ThereAndBack(limit, backLimit))
  {
    var q := ThereAndBack(limit, backLimit);
    var there := q.loads[FACILITIES];
    assert TestsThroughout(there.loads[CAMPUS]);
    assert TestsThroughout(there);
  }
}
