/**
 * The relational store the importers and the postal-code endpoints write
 * to: four tables, one auto-increment counter, and the two unique
 * constraints of the schema (county name, postal code). Every ORM call the
 * core makes (firstOrCreate, create, save, a `where ... first()` query) is a
 * function on a `Tables` value here; `Database` is the mutable store whose
 * methods perform the same calls in place.
 */
module Store {
  import opened Wrappers

  type Id = nat

  datatype County = County(id: Id, name: string)
  datatype City = City(id: Id, name: string, countyId: Id)
  datatype PostalCode = PostalCode(id: Id, code: string, cityId: Id)
  datatype Settlement = Settlement(id: Id, postalCode: string, name: string, countyId: Id)

  datatype Tables = Tables(
    counties: seq<County>,
    cities: seq<City>,
    postalCodes: seq<PostalCode>,
    settlements: seq<Settlement>,
    nextId: Id)

  /** What a statement that reaches the store can raise. */
  datatype Exception =
    | UniqueConstraintViolation  // an insert would duplicate a unique column
    | RecordNotFound             // firstOrFail found no row (ModelNotFoundException)
    | UndefinedArrayKey          // PHP warning on a missing row field, raised as an exception
    | StorageError               // any other failure of the storage engine

  /** The result of firstOrCreate / create: the new tables and the row's id. */
  datatype Resolved = Resolved(tables: Tables, id: Id)

  // ---------------------------------------------------------------------------
  // Constraints

  /** Primary keys below the counter and distinct; county names unique. */
  predicate CountiesOk(cs: seq<County>, next: Id) {
    && (forall i :: 0 <= i < |cs| ==> cs[i].id < next)
    && (forall i, j :: 0 <= i < j < |cs| ==> cs[i].id != cs[j].id)
    && (forall i, j :: 0 <= i < j < |cs| ==> cs[i].name != cs[j].name)
  }

  predicate CitiesOk(cs: seq<City>, next: Id) {
    && (forall i :: 0 <= i < |cs| ==> cs[i].id < next)
    && (forall i, j :: 0 <= i < j < |cs| ==> cs[i].id != cs[j].id)
  }

  /** Primary keys below the counter and distinct; codes unique. */
  predicate PostalCodesOk(ps: seq<PostalCode>, next: Id) {
    && (forall i :: 0 <= i < |ps| ==> ps[i].id < next)
    && (forall i, j :: 0 <= i < j < |ps| ==> ps[i].id != ps[j].id)
    && (forall i, j :: 0 <= i < j < |ps| ==> ps[i].code != ps[j].code)
  }

  predicate SettlementsOk(ss: seq<Settlement>, next: Id) {
    && (forall i :: 0 <= i < |ss| ==> ss[i].id < next)
    && (forall i, j :: 0 <= i < j < |ss| ==> ss[i].id != ss[j].id)
  }

  /** Everything the storage engine guarantees about the tables. */
  predicate WellFormed(t: Tables) {
    && CountiesOk(t.counties, t.nextId)
    && CitiesOk(t.cities, t.nextId)
    && PostalCodesOk(t.postalCodes, t.nextId)
    && SettlementsOk(t.settlements, t.nextId)
  }

  /** `u` is `t` after inserts only: every table of `t` is a prefix of `u`'s. */
  predicate Extends(t: Tables, u: Tables) {
    && t.counties <= u.counties
    && t.cities <= u.cities
    && t.postalCodes <= u.postalCodes
    && t.settlements <= u.settlements
    && t.nextId <= u.nextId
  }

  // ---------------------------------------------------------------------------
  // Queries: `where(...)->first()`, the first row in table order

  function FindCounty(cs: seq<County>, name: string): (r: Option<nat>)
    ensures r.Some? ==> r.value < |cs| && cs[r.value].name == name
    ensures r.Some? ==> forall j :: 0 <= j < r.value ==> cs[j].name != name
    ensures r.None? <==> forall j :: 0 <= j < |cs| ==> cs[j].name != name
  {
    if cs == [] then None
    else if cs[0].name == name then Some(0)
    else match FindCounty(cs[1..], name)
      case None => None
      case Some(k) => Some(k + 1)
  }

  function FindCountyById(cs: seq<County>, id: Id): (r: Option<nat>)
    ensures r.Some? ==> r.value < |cs| && cs[r.value].id == id
    ensures r.None? <==> forall j :: 0 <= j < |cs| ==> cs[j].id != id
  {
    if cs == [] then None
    else if cs[0].id == id then Some(0)
    else match FindCountyById(cs[1..], id)
      case None => None
      case Some(k) => Some(k + 1)
  }

  function FindCity(cs: seq<City>, name: string, countyId: Id): (r: Option<nat>)
    ensures r.Some? ==> r.value < |cs| && cs[r.value].name == name && cs[r.value].countyId == countyId
    ensures r.Some? ==> forall j :: 0 <= j < r.value ==> !(cs[j].name == name && cs[j].countyId == countyId)
    ensures r.None? <==> forall j :: 0 <= j < |cs| ==> !(cs[j].name == name && cs[j].countyId == countyId)
  {
    if cs == [] then None
    else if cs[0].name == name && cs[0].countyId == countyId then Some(0)
    else match FindCity(cs[1..], name, countyId)
      case None => None
      case Some(k) => Some(k + 1)
  }

  function FindCityById(cs: seq<City>, id: Id): (r: Option<nat>)
    ensures r.Some? ==> r.value < |cs| && cs[r.value].id == id
    ensures r.None? <==> forall j :: 0 <= j < |cs| ==> cs[j].id != id
  {
    if cs == [] then None
    else if cs[0].id == id then Some(0)
    else match FindCityById(cs[1..], id)
      case None => None
      case Some(k) => Some(k + 1)
  }

  function FindCode(ps: seq<PostalCode>, code: string): (r: Option<nat>)
    ensures r.Some? ==> r.value < |ps| && ps[r.value].code == code
    ensures r.Some? ==> forall j :: 0 <= j < r.value ==> ps[j].code != code
    ensures r.None? <==> forall j :: 0 <= j < |ps| ==> ps[j].code != code
  {
    if ps == [] then None
    else if ps[0].code == code then Some(0)
    else match FindCode(ps[1..], code)
      case None => None
      case Some(k) => Some(k + 1)
  }

  function FindCodeInCity(ps: seq<PostalCode>, code: string, cityId: Id): (r: Option<nat>)
    ensures r.Some? ==> r.value < |ps| && ps[r.value].code == code && ps[r.value].cityId == cityId
    ensures r.None? <==> forall j :: 0 <= j < |ps| ==> !(ps[j].code == code && ps[j].cityId == cityId)
  {
    if ps == [] then None
    else if ps[0].code == code && ps[0].cityId == cityId then Some(0)
    else match FindCodeInCity(ps[1..], code, cityId)
      case None => None
      case Some(k) => Some(k + 1)
  }

  function FindPostalCodeById(ps: seq<PostalCode>, id: Id): (r: Option<nat>)
    ensures r.Some? ==> r.value < |ps| && ps[r.value].id == id
    ensures r.None? <==> forall j :: 0 <= j < |ps| ==> ps[j].id != id
  {
    if ps == [] then None
    else if ps[0].id == id then Some(0)
    else match FindPostalCodeById(ps[1..], id)
      case None => None
      case Some(k) => Some(k + 1)
  }

  /** The id of the county with this name, if there is one. */
  function CountyIdOf(cs: seq<County>, name: string): Option<Id> {
    match FindCounty(cs, name)
    case Some(k) => Some(cs[k].id)
    case None => None
  }

  /** The id of the first city with this name in this county, if there is one. */
  function CityIdOf(cs: seq<City>, name: string, countyId: Id): Option<Id> {
    match FindCity(cs, name, countyId)
    case Some(k) => Some(cs[k].id)
    case None => None
  }

  /** Codes of a postal-code table, as a set. */
  function Codes(ps: seq<PostalCode>): set<string> {
    set p | p in ps :: p.code
  }

  /** Names of a county table, as a set. */
  function CountyNames(cs: seq<County>): set<string> {
    set c | c in cs :: c.name
  }

  lemma CodesFind(ps: seq<PostalCode>, code: string)
    ensures FindCode(ps, code).Some? <==> code in Codes(ps)
  {
    if code in Codes(ps) {
      var p :| p in ps && p.code == code;
    }
  }

  lemma CodesAppend(ps: seq<PostalCode>, p: PostalCode)
    ensures Codes(ps + [p]) == Codes(ps) + {p.code}
  {
    assert forall q :: q in ps + [p] <==> q in ps || q == p;
  }

  lemma CountyNamesFind(cs: seq<County>, name: string)
    ensures FindCounty(cs, name).Some? <==> name in CountyNames(cs)
  {
    if name in CountyNames(cs) {
      var c :| c in cs && c.name == name;
    }
  }

  lemma CountyNamesAppend(cs: seq<County>, c: County)
    ensures CountyNames(cs + [c]) == CountyNames(cs) + {c.name}
  {
    assert forall d :: d in cs + [c] <==> d in cs || d == c;
  }

  /** A code no row carried is found at the row appended with it. */
  lemma FindCodeAppend(ps: seq<PostalCode>, p: PostalCode)
    requires FindCode(ps, p.code).None?
    ensures FindCode(ps + [p], p.code) == Some(|ps|)
  {
    assert forall j :: 0 <= j < |ps| ==> (ps + [p])[j] == ps[j];
    assert (ps + [p])[|ps|] == p;
  }

  /** Two rounds of inserts are a round of inserts. */
  lemma ExtendsTrans(t: Tables, u: Tables, w: Tables)
    requires Extends(t, u) && Extends(u, w)
    ensures Extends(t, w)
  {
  }

  /** Inserts never move an existing row, so a name found before is found at the same row after. */
  lemma CountyIdOfExtends(cs: seq<County>, ds: seq<County>, name: string)
    requires cs <= ds && CountyIdOf(cs, name).Some?
    ensures CountyIdOf(ds, name) == CountyIdOf(cs, name)
  {
    var k := FindCounty(cs, name).value;
    assert ds[k] == cs[k];
    assert forall j :: 0 <= j < k ==> ds[j] == cs[j];
  }

  lemma CityIdOfExtends(cs: seq<City>, ds: seq<City>, name: string, countyId: Id)
    requires cs <= ds && CityIdOf(cs, name, countyId).Some?
    ensures CityIdOf(ds, name, countyId) == CityIdOf(cs, name, countyId)
  {
    var k := FindCity(cs, name, countyId).value;
    assert ds[k] == cs[k];
    assert forall j :: 0 <= j < k ==> ds[j] == cs[j];
  }

  lemma FindCodeInCityExtends(ps: seq<PostalCode>, qs: seq<PostalCode>, code: string, cityId: Id)
    requires ps <= qs && FindCodeInCity(ps, code, cityId).Some?
    ensures FindCodeInCity(qs, code, cityId).Some?
  {
    var k := FindCodeInCity(ps, code, cityId).value;
    assert qs[k] == ps[k];
  }

  // ---------------------------------------------------------------------------
  // Writes

  /** County::firstOrCreate(['name' => name]). */
  function CountyFirstOrCreate(t: Tables, name: string): (r: Resolved)
    ensures Extends(t, r.tables)
    ensures r.tables.cities == t.cities && r.tables.postalCodes == t.postalCodes
    ensures r.tables.settlements == t.settlements
    ensures CountyIdOf(r.tables.counties, name) == Some(r.id)
    ensures CountyIdOf(t.counties, name).Some? ==> r.tables == t
    ensures CountyIdOf(t.counties, name).None? ==>
      && r.id == t.nextId && r.tables.nextId == t.nextId + 1
      && r.tables.counties == t.counties + [County(r.id, name)]
    ensures WellFormed(t) ==> WellFormed(r.tables)
  {
    match FindCounty(t.counties, name)
    case Some(k) => Resolved(t, t.counties[k].id)
    case None =>
      var u := t.(counties := t.counties + [County(t.nextId, name)], nextId := t.nextId + 1);
      assert forall j :: 0 <= j < |t.counties| ==> u.counties[j] == t.counties[j];
      assert u.counties[|t.counties|].name == name;
      assert FindCounty(u.counties, name) == Some(|t.counties|);
      Resolved(u, t.nextId)
  }

  /** County::create(['name' => name]): the unique name constraint may reject it. */
  function CountyCreate(t: Tables, name: string): (r: Result<Resolved, Exception>)
    ensures r.Err? <==> name in CountyNames(t.counties)
    ensures r.Err? ==> r.error == UniqueConstraintViolation
    ensures r.Ok? ==> r.value == CountyFirstOrCreate(t, name)
  {
    if FindCounty(t.counties, name).Some? then Err(UniqueConstraintViolation)
    else Ok(CountyFirstOrCreate(t, name))
  }

  /** City::firstOrCreate(['name' => name, 'county_id' => countyId]); cities carry no unique constraint. */
  function CityFirstOrCreate(t: Tables, name: string, countyId: Id): (r: Resolved)
    ensures Extends(t, r.tables)
    ensures r.tables.counties == t.counties && r.tables.postalCodes == t.postalCodes
    ensures r.tables.settlements == t.settlements
    ensures CityIdOf(r.tables.cities, name, countyId) == Some(r.id)
    ensures CityIdOf(t.cities, name, countyId).Some? ==> r.tables == t
    ensures CityIdOf(t.cities, name, countyId).None? ==>
      && r.id == t.nextId && r.tables.nextId == t.nextId + 1
      && r.tables.cities == t.cities + [City(r.id, name, countyId)]
    ensures WellFormed(t) ==> WellFormed(r.tables)
  {
    match FindCity(t.cities, name, countyId)
    case Some(k) => Resolved(t, t.cities[k].id)
    case None =>
      var u := t.(cities := t.cities + [City(t.nextId, name, countyId)], nextId := t.nextId + 1);
      assert forall j :: 0 <= j < |t.cities| ==> u.cities[j] == t.cities[j];
      assert u.cities[|t.cities|] == City(t.nextId, name, countyId);
      assert FindCity(u.cities, name, countyId) == Some(|t.cities|);
      Resolved(u, t.nextId)
  }

  /**
   * PostalCode::create(['code' => code, 'city_id' => cityId]) for a code the
   * caller has checked is free, so the unique constraint cannot fire.
   */
  function PostalCodeInsert(t: Tables, code: string, cityId: Id): (r: Resolved)
    ensures Extends(t, r.tables)
    ensures r.id == t.nextId && r.tables.nextId == t.nextId + 1
    ensures r.tables.postalCodes == t.postalCodes + [PostalCode(r.id, code, cityId)]
    ensures r.tables.counties == t.counties && r.tables.cities == t.cities
    ensures r.tables.settlements == t.settlements
    ensures WellFormed(t) && FindCode(t.postalCodes, code).None? ==> WellFormed(r.tables)
  {
    Resolved(t.(postalCodes := t.postalCodes + [PostalCode(t.nextId, code, cityId)], nextId := t.nextId + 1), t.nextId)
  }

  /**
   * PostalCode::firstOrCreate(['code' => code, 'city_id' => cityId]): nothing
   * happens when the pair exists; otherwise the insert fails exactly when the
   * code is already bound to another city. firstOrCreate inserts through
   * createOrFirst, which catches that unique violation and looks the pair up
   * again with firstOrFail; no row has the pair, so ModelNotFoundException
   * is what the caller sees.
   */
  function PostalCodeFirstOrCreate(t: Tables, code: string, cityId: Id): (r: Result<Tables, Exception>)
    ensures FindCodeInCity(t.postalCodes, code, cityId).Some? ==> r == Ok(t)
    ensures r.Err? <==> FindCodeInCity(t.postalCodes, code, cityId).None? && FindCode(t.postalCodes, code).Some?
    ensures r.Err? ==> r.error == RecordNotFound
    ensures r.Ok? ==> Extends(t, r.value) && FindCodeInCity(r.value.postalCodes, code, cityId).Some?
    ensures r.Ok? ==> r.value.counties == t.counties && r.value.cities == t.cities
    ensures r.Ok? ==> r.value.settlements == t.settlements
    ensures r.Ok? && FindCodeInCity(t.postalCodes, code, cityId).None? ==>
      r.value.postalCodes == t.postalCodes + [PostalCode(t.nextId, code, cityId)]
    ensures WellFormed(t) && r.Ok? ==> WellFormed(r.value)
  {
    if FindCodeInCity(t.postalCodes, code, cityId).Some? then Ok(t)
    else if FindCode(t.postalCodes, code).Some? then Err(RecordNotFound)
    else
      var u := PostalCodeInsert(t, code, cityId).tables;
      assert u.postalCodes[|t.postalCodes|] == PostalCode(t.nextId, code, cityId);
      Ok(u)
  }

  /** Settlement::create([...]); settlements carry no unique constraint. */
  function SettlementInsert(t: Tables, postalCode: string, name: string, countyId: Id): (r: Resolved)
    ensures Extends(t, r.tables)
    ensures r.id == t.nextId && r.tables.nextId == t.nextId + 1
    ensures r.tables.settlements == t.settlements + [Settlement(r.id, postalCode, name, countyId)]
    ensures r.tables.counties == t.counties && r.tables.cities == t.cities
    ensures r.tables.postalCodes == t.postalCodes
    ensures WellFormed(t) ==> WellFormed(r.tables)
  {
    Resolved(t.(settlements := t.settlements + [Settlement(t.nextId, postalCode, name, countyId)], nextId := t.nextId + 1), t.nextId)
  }

  /**
   * $postalCode->save() on an existing row: the row at position k takes the
   * new code and city. The code constraint holds afterwards when no other row
   * carries the new code.
   */
  function PostalCodeSave(t: Tables, k: nat, code: string, cityId: Id): (r: Tables)
    requires k < |t.postalCodes|
    ensures |r.postalCodes| == |t.postalCodes|
    ensures r.postalCodes[k] == PostalCode(t.postalCodes[k].id, code, cityId)
    ensures forall j :: 0 <= j < |t.postalCodes| && j != k ==> r.postalCodes[j] == t.postalCodes[j]
    ensures r.counties == t.counties && r.cities == t.cities && r.settlements == t.settlements
    ensures r.nextId == t.nextId
    ensures WellFormed(t) && (forall j :: 0 <= j < |t.postalCodes| && j != k ==> t.postalCodes[j].code != code) ==>
      WellFormed(r)
  {
    t.(postalCodes := t.postalCodes[k := PostalCode(t.postalCodes[k].id, code, cityId)])
  }

  // ---------------------------------------------------------------------------
  // The store in place

  /** The database connection: the tables as mutable state. */
  class Database {
    var counties: seq<County>
    var cities: seq<City>
    var postalCodes: seq<PostalCode>
    var settlements: seq<Settlement>
    var nextId: Id

    function Contents(): Tables
      reads this
    {
      Tables(counties, cities, postalCodes, settlements, nextId)
    }

    constructor (t: Tables)
      ensures Contents() == t
    {
      counties, cities, postalCodes, settlements, nextId :=
        t.counties, t.cities, t.postalCodes, t.settlements, t.nextId;
    }

    /** DB::rollBack(): every table returns to the snapshot taken when the transaction began. */
    method Restore(snapshot: Tables)
      modifies this
      ensures Contents() == snapshot
    {
      counties, cities, postalCodes, settlements, nextId :=
        snapshot.counties, snapshot.cities, snapshot.postalCodes, snapshot.settlements, snapshot.nextId;
    }

    method FirstOrCreateCounty(name: string) returns (id: Id)
      modifies this
      ensures Contents() == CountyFirstOrCreate(old(Contents()), name).tables
      ensures id == CountyFirstOrCreate(old(Contents()), name).id
    {
      match FindCounty(counties, name) {
        case Some(k) =>
          id := counties[k].id;
        case None =>
          id := nextId;
          counties := counties + [County(id, name)];
          nextId := nextId + 1;
      }
    }

    method CreateCounty(name: string) returns (r: Result<Id, Exception>)
      modifies this
      ensures var c := CountyCreate(old(Contents()), name);
        match c
        case Ok(x) => r == Ok(x.id) && Contents() == x.tables
        case Err(e) => r == Err(e) && Contents() == old(Contents())
    {
      if FindCounty(counties, name).Some? {
        r := Err(UniqueConstraintViolation);
      } else {
        var id := FirstOrCreateCounty(name);
        r := Ok(id);
      }
    }

    method FirstOrCreateCity(name: string, countyId: Id) returns (id: Id)
      modifies this
      ensures Contents() == CityFirstOrCreate(old(Contents()), name, countyId).tables
      ensures id == CityFirstOrCreate(old(Contents()), name, countyId).id
    {
      match FindCity(cities, name, countyId) {
        case Some(k) =>
          id := cities[k].id;
        case None =>
          id := nextId;
          cities := cities + [City(id, name, countyId)];
          nextId := nextId + 1;
      }
    }

    method InsertPostalCode(code: string, cityId: Id) returns (id: Id)
      modifies this
      ensures Contents() == PostalCodeInsert(old(Contents()), code, cityId).tables
      ensures id == PostalCodeInsert(old(Contents()), code, cityId).id
    {
      id := nextId;
      postalCodes := postalCodes + [PostalCode(id, code, cityId)];
      nextId := nextId + 1;
    }

    method FirstOrCreatePostalCode(code: string, cityId: Id) returns (e: Option<Exception>)
      modifies this
      ensures match PostalCodeFirstOrCreate(old(Contents()), code, cityId)
        case Ok(u) => e == None && Contents() == u
        case Err(x) => e == Some(x) && Contents() == old(Contents())
    {
      if FindCodeInCity(postalCodes, code, cityId).Some? {
        e := None;
      } else if FindCode(postalCodes, code).Some? {
        e := Some(RecordNotFound);
      } else {
        var _ := InsertPostalCode(code, cityId);
        e := None;
      }
    }

    method InsertSettlement(postalCode: string, name: string, countyId: Id) returns (id: Id)
      modifies this
      ensures Contents() == SettlementInsert(old(Contents()), postalCode, name, countyId).tables
      ensures id == SettlementInsert(old(Contents()), postalCode, name, countyId).id
    {
      id := nextId;
      settlements := settlements + [Settlement(id, postalCode, name, countyId)];
      nextId := nextId + 1;
    }

    method SavePostalCode(k: nat, code: string, cityId: Id)
      requires k < |postalCodes|
      modifies this
      ensures Contents() == PostalCodeSave(old(Contents()), k, code, cityId)
    {
      postalCodes := postalCodes[k := PostalCode(postalCodes[k].id, code, cityId)];
    }
  }
}
