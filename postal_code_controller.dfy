/**
 * PostalCodeController: the `store`, `update` and `searchByCode` endpoints.
 *
 * A request body is three optional string fields. Validation follows the
 * framework's rules as the controller declares them: `required` fails on an
 * absent field and on a string that is empty after trimming; the other
 * rules (`size:4`, `unique`) are skipped for a blank string unless the field
 * is required; `unique` on update ignores the record's own row. A failed
 * validation answers 422 and writes nothing. The endpoints run no
 * transaction, so an exception raised by the final write leaves the county
 * and city rows created before it in place.
 */
module PostalCodeController {
  import opened Wrappers
  import opened Php
  import opened Store

  /** The fields of a request body; `None` is a field the client did not send. */
  datatype Request = Request(code: Option<string>, cityName: Option<string>, countyName: Option<string>)

  /** What an endpoint answers. `Json` carries the HTTP status and the postal-code row. */
  datatype Response =
    | Json(status: nat, row: PostalCode)
    | ValidationFailed  // 422
    | NotFound          // 404
    | ServerError       // 500: an exception escaped the controller

  const CodeLength: nat := 4

  /** A string the validator treats as missing: empty after trimming. */
  predicate Blank(v: string) {
    Trim(v) == []
  }

  /** The `required` rule. */
  predicate Required(v: Option<string>) {
    v.Some? && !Blank(v.value)
  }

  /**
   * Some row other than the one with this id carries the code: the
   * `unique:postal_codes,code,<id>` rule fails, and so does the unique index
   * on the code when save() writes the row back.
   */
  predicate TakenByOther(ps: seq<PostalCode>, code: string, id: Id) {
    exists j | 0 <= j < |ps| :: ps[j].code == code && ps[j].id != id
  }

  // ---------------------------------------------------------------------------
  // store

  /** The validation of `store`: all three fields required, the code four characters long and not yet used. */
  predicate StoreValid(t: Tables, req: Request) {
    && Required(req.code) && Required(req.cityName) && Required(req.countyName)
    && |req.code.value| == CodeLength
    && FindCode(t.postalCodes, req.code.value).None?
  }

  /** store(): validate, resolve the county, then the city inside it, then create the postal code. */
  function StoreSpec(t: Tables, req: Request): (r: (Tables, Response))
    ensures r.1 == ValidationFailed <==> !StoreValid(t, req)
    ensures r.1 == ValidationFailed ==> r.0 == t
    ensures r.1.Json? ==> r.1.status == 201
    ensures WellFormed(t) ==> WellFormed(r.0)
  {
    if !StoreValid(t, req) then (t, ValidationFailed)
    else
      var county := CountyFirstOrCreate(t, req.countyName.value);
      var city := CityFirstOrCreate(county.tables, req.cityName.value, county.id);
      var created := PostalCodeInsert(city.tables, req.code.value, city.id);
      (created.tables, Json(201, PostalCode(created.id, req.code.value, city.id)))
  }

  /**
   * A valid request reuses the county with the given name or creates it, so
   * the county table grows by at most one row; the city is the first one
   * with the given name in that county, or a new one; exactly one postal
   * code is appended, with the requested code and bound to that city, and it
   * is the row the response carries. Settlements are untouched.
   */
  lemma StoreCreates(t: Tables, req: Request)
    requires StoreValid(t, req)
    ensures
      var (u, resp) := StoreSpec(t, req);
      && resp.Json?
      && u.postalCodes == t.postalCodes + [resp.row]
      && resp.row.code == req.code.value
      && t.counties <= u.counties && |u.counties| <= |t.counties| + 1
      && (CountyIdOf(t.counties, req.countyName.value).Some? ==> u.counties == t.counties)
      && t.cities <= u.cities && |u.cities| <= |t.cities| + 1
      && (exists countyId :: CountyIdOf(u.counties, req.countyName.value) == Some(countyId)
            && CityIdOf(u.cities, req.cityName.value, countyId) == Some(resp.row.cityId))
      && u.settlements == t.settlements
  {
    var county := CountyFirstOrCreate(t, req.countyName.value);
    var city := CityFirstOrCreate(county.tables, req.cityName.value, county.id);
    CountyIdOfExtends(county.tables.counties, city.tables.counties, req.countyName.value);
    var (u, resp) := StoreSpec(t, req);
    assert CountyIdOf(u.counties, req.countyName.value) == Some(county.id);
    assert CityIdOf(u.cities, req.cityName.value, county.id) == Some(resp.row.cityId);
  }

  // ---------------------------------------------------------------------------
  // searchByCode

  /** searchByCode(): the first row carrying the code, or 404. */
  function SearchByCode(t: Tables, code: string): (r: Response)
    ensures r.NotFound? <==> code !in Codes(t.postalCodes)
    ensures r.Json? ==> r.status == 200 && r.row in t.postalCodes && r.row.code == code
    ensures r.Json? || r.NotFound?
  {
    CodesFind(t.postalCodes, code);
    match FindCode(t.postalCodes, code)
    case Some(k) => Json(200, t.postalCodes[k])
    case None => NotFound
  }

  /** A code that store() has just created is found by searchByCode(), as the row store() answered with. */
  lemma StoreThenSearch(t: Tables, req: Request)
    requires StoreSpec(t, req).1.Json?
    ensures SearchByCode(StoreSpec(t, req).0, req.code.value) == Json(200, StoreSpec(t, req).1.row)
  {
    var (u, resp) := StoreSpec(t, req);
    StoreCreates(t, req);
    FindCodeAppend(t.postalCodes, resp.row);
  }

  // ---------------------------------------------------------------------------
  // update

  /** The validation of `update`: a sent, non-blank code has four characters and no other row carries it. */
  predicate UpdateValid(t: Tables, id: Id, req: Request) {
    req.code.Some? && !Blank(req.code.value) ==>
      |req.code.value| == CodeLength && !TakenByOther(t.postalCodes, req.code.value, id)
  }

  /**
   * The city the row ends up bound to. With no name sent it keeps its city.
   * Otherwise both defaults (`$postalCode->city->county->name` and
   * `$postalCode->city->name`) are evaluated first, whether or not they are
   * needed, and raise when the row's city or that city's county is missing;
   * then the county and the city are resolved with firstOrCreate.
   */
  function Rebind(t: Tables, pc: PostalCode, req: Request): (r: Option<Resolved>)
    ensures req.cityName.None? && req.countyName.None? ==> r == Some(Resolved(t, pc.cityId))
    ensures r.Some? ==> Extends(t, r.value.tables)
    ensures r.Some? ==> r.value.tables.postalCodes == t.postalCodes && r.value.tables.settlements == t.settlements
    ensures r.Some? ==> |r.value.tables.counties| <= |t.counties| + 1 && |r.value.tables.cities| <= |t.cities| + 1
    ensures r.Some? && WellFormed(t) ==> WellFormed(r.value.tables)
    ensures r.None? <==>
      && (req.cityName.Some? || req.countyName.Some?)
      && (|| FindCityById(t.cities, pc.cityId).None?
          || FindCountyById(t.counties, t.cities[FindCityById(t.cities, pc.cityId).value].countyId).None?)
  {
    if req.cityName.None? && req.countyName.None? then Some(Resolved(t, pc.cityId))
    else
      match FindCityById(t.cities, pc.cityId)
      case None => None
      case Some(ci) =>
        match FindCountyById(t.counties, t.cities[ci].countyId)
        case None => None
        case Some(co) =>
          var countyName := if req.countyName.Some? then req.countyName.value else t.counties[co].name;
          var cityName := if req.cityName.Some? then req.cityName.value else t.cities[ci].name;
          var county := CountyFirstOrCreate(t, countyName);
          var city := CityFirstOrCreate(county.tables, cityName, county.id);
          ExtendsTrans(t, county.tables, city.tables);
          Some(city)
  }

  /**
   * update(): route-model binding by id (404 when absent), validation,
   * the optional re-binding to another city, the optional new code, then
   * save(), which the unique index on the code can still reject.
   */
  function UpdateSpec(t: Tables, id: Id, req: Request): (r: (Tables, Response))
    ensures r.1 == NotFound <==> FindPostalCodeById(t.postalCodes, id).None?
    ensures r.1 == NotFound || r.1 == ValidationFailed ==> r.0 == t
    ensures r.1 == ValidationFailed <==> FindPostalCodeById(t.postalCodes, id).Some? && !UpdateValid(t, id, req)
    ensures r.1.Json? ==> r.1.status == 200 && r.1.row.id == id
    ensures !r.1.Json? ==> r.0.postalCodes == t.postalCodes
    ensures WellFormed(t) ==> WellFormed(r.0)
    ensures r.1 == ServerError <==>
      && FindPostalCodeById(t.postalCodes, id).Some? && UpdateValid(t, id, req)
      && var pc := t.postalCodes[FindPostalCodeById(t.postalCodes, id).value];
         var city := Rebind(t, pc, req);
         || city.None?
         || TakenByOther(city.value.tables.postalCodes, if req.code.Some? then req.code.value else pc.code, id)
  {
    match FindPostalCodeById(t.postalCodes, id)
    case None => (t, NotFound)
    case Some(k) =>
      var pc := t.postalCodes[k];
      if !UpdateValid(t, id, req) then (t, ValidationFailed)
      else
        match Rebind(t, pc, req)
        case None => (t, ServerError)
        case Some(city) =>
          var code := if req.code.Some? then req.code.value else pc.code;
          if TakenByOther(city.tables.postalCodes, code, id) then (city.tables, ServerError)
          else (PostalCodeSave(city.tables, k, code, city.id), Json(200, PostalCode(id, code, city.id)))
  }

  /**
   * Re-sending a record's current code (four characters long, as the schema
   * allows shorter ones) is accepted because the uniqueness check ignores
   * the record itself, and it changes nothing.
   */
  lemma UpdateOwnCode(t: Tables, k: nat)
    requires WellFormed(t) && k < |t.postalCodes| && |t.postalCodes[k].code| == CodeLength
    ensures
      var pc := t.postalCodes[k];
      UpdateSpec(t, pc.id, Request(Some(pc.code), None, None)) == (t, Json(200, pc))
  {
    var pc := t.postalCodes[k];
    var ps := t.postalCodes;
    assert forall j :: 0 <= j < |ps| && ps[j].id == pc.id ==> j == k;
    assert forall j :: 0 <= j < |ps| && ps[j].code == pc.code ==> j == k;
    assert FindPostalCodeById(ps, pc.id) == Some(k);
    assert !TakenByOther(ps, pc.code, pc.id);
    assert PostalCodeSave(t, k, pc.code, pc.cityId) == t by {
      assert ps[k := PostalCode(pc.id, pc.code, pc.cityId)] == ps;
    }
  }

  /**
   * A successful update rewrites only the bound row: every other postal
   * code is as before, the row keeps its id, its code changes only when one
   * was sent, and its city changes only when a city or county name was sent.
   */
  lemma UpdateTouchesOneRow(t: Tables, id: Id, req: Request)
    requires UpdateSpec(t, id, req).1.Json?
    ensures
      var (u, resp) := UpdateSpec(t, id, req);
      var k := FindPostalCodeById(t.postalCodes, id).value;
      && |u.postalCodes| == |t.postalCodes|
      && (forall j :: 0 <= j < |t.postalCodes| && j != k ==> u.postalCodes[j] == t.postalCodes[j])
      && u.postalCodes[k] == resp.row
      && resp.row.id == t.postalCodes[k].id
      && (req.code.None? ==> resp.row.code == t.postalCodes[k].code)
      && (req.code.Some? ==> resp.row.code == req.code.value)
      && (req.cityName.None? && req.countyName.None? ==>
            resp.row.cityId == t.postalCodes[k].cityId && u.counties == t.counties && u.cities == t.cities)
  {
  }

  /**
   * When only one of the two names is sent, the other one is the current
   * city's (or its county's) name: the row ends up in a city that carries
   * the sent or the current city name, inside the county that carries the
   * sent or the current county name.
   */
  lemma UpdateDefaultsNames(t: Tables, id: Id, req: Request)
    requires UpdateSpec(t, id, req).1.Json? && (req.cityName.Some? || req.countyName.Some?)
    ensures
      var (u, resp) := UpdateSpec(t, id, req);
      var pc := t.postalCodes[FindPostalCodeById(t.postalCodes, id).value];
      var oldCity := t.cities[FindCityById(t.cities, pc.cityId).value];
      var oldCounty := t.counties[FindCountyById(t.counties, oldCity.countyId).value];
      var countyName := if req.countyName.Some? then req.countyName.value else oldCounty.name;
      var cityName := if req.cityName.Some? then req.cityName.value else oldCity.name;
      exists countyId :: CountyIdOf(u.counties, countyName) == Some(countyId)
        && CityIdOf(u.cities, cityName, countyId) == Some(resp.row.cityId)
  {
    var (u, resp) := UpdateSpec(t, id, req);
    var pc := t.postalCodes[FindPostalCodeById(t.postalCodes, id).value];
    var ci := FindCityById(t.cities, pc.cityId).value;
    var co := FindCountyById(t.counties, t.cities[ci].countyId).value;
    var countyName := if req.countyName.Some? then req.countyName.value else t.counties[co].name;
    var cityName := if req.cityName.Some? then req.cityName.value else t.cities[ci].name;
    var county := CountyFirstOrCreate(t, countyName);
    var city := CityFirstOrCreate(county.tables, cityName, county.id);
    CountyIdOfExtends(county.tables.counties, city.tables.counties, countyName);
    assert CityIdOf(u.cities, cityName, county.id) == Some(resp.row.cityId);
  }

  // ---------------------------------------------------------------------------
  // The endpoints against the database

  /** POST /api/postal-codes. */
  method StorePostalCode(db: Database, req: Request) returns (resp: Response)
    modifies db
    ensures (db.Contents(), resp) == StoreSpec(old(db.Contents()), req)
  {
    if !Required(req.code) || !Required(req.cityName) || !Required(req.countyName)
      || |req.code.value| != CodeLength || FindCode(db.postalCodes, req.code.value).Some? {
      return ValidationFailed;
    }
    var countyId := db.FirstOrCreateCounty(req.countyName.value);
    var cityId := db.FirstOrCreateCity(req.cityName.value, countyId);
    var id := db.InsertPostalCode(req.code.value, cityId);
    resp := Json(201, PostalCode(id, req.code.value, cityId));
  }

  /** Re-binds the row to the city the request names, as Rebind says; false when a default raised. */
  method RebindCity(db: Database, pc: PostalCode, req: Request) returns (ok: bool, cityId: Id)
    modifies db
    ensures var r := Rebind(old(db.Contents()), pc, req);
      if r.Some? then ok && db.Contents() == r.value.tables && cityId == r.value.id
      else !ok && db.Contents() == old(db.Contents())
  {
    if req.cityName.None? && req.countyName.None? {
      return true, pc.cityId;
    }
    var ci := FindCityById(db.cities, pc.cityId);
    if ci.None? {
      return false, 0;
    }
    var co := FindCountyById(db.counties, db.cities[ci.value].countyId);
    if co.None? {
      return false, 0;
    }
    var countyName := if req.countyName.Some? then req.countyName.value else db.counties[co.value].name;
    var cityName := if req.cityName.Some? then req.cityName.value else db.cities[ci.value].name;
    var countyId := db.FirstOrCreateCounty(countyName);
    cityId := db.FirstOrCreateCity(cityName, countyId);
    ok := true;
  }

  /** PUT /api/postal-codes/{id}. */
  method UpdatePostalCode(db: Database, id: Id, req: Request) returns (resp: Response)
    modifies db
    ensures (db.Contents(), resp) == UpdateSpec(old(db.Contents()), id, req)
  {
    var found := FindPostalCodeById(db.postalCodes, id);
    if found.None? {
      return NotFound;
    }
    var k := found.value;
    var pc := db.postalCodes[k];
    if req.code.Some? && !Blank(req.code.value)
      && (|req.code.value| != CodeLength || TakenByOther(db.postalCodes, req.code.value, id)) {
      return ValidationFailed;
    }
    var ok, cityId := RebindCity(db, pc, req);
    if !ok {
      return ServerError;
    }
    var code := if req.code.Some? then req.code.value else pc.code;
    if TakenByOther(db.postalCodes, code, id) {
      return ServerError;
    }
    db.SavePostalCode(k, code, cityId);
    resp := Json(200, PostalCode(id, code, cityId));
  }
}
