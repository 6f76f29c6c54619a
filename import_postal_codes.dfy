/**
 * The `import:postal-codes {file}` console command (ImportPostalCodes).
 *
 * handle() answers 1 when the file is missing; otherwise importFromCsv()
 * discards the header line and, inside one transaction, destructures each
 * row into (code, city, county), resolves the county through a cache keyed
 * by the raw county name and the city through a cache keyed by
 * city . '_' . county, and calls PostalCode::firstOrCreate on
 * (code, city id). Any exception rolls the transaction back and is
 * rethrown, so handle() then never returns.
 */
module ImportPostalCodes {
  import opened Wrappers
  import opened Store
  import opened Csv
  import opened ImportCache

  const HeaderLines: nat := 1

  /** The loop's variables: the tables and the two caches. */
  datatype State = State(tables: Tables, counties: map<string, Id>, cities: map<string, Id>)

  /** How handle() ends: the value it returns, or the exception importFromCsv rethrew. */
  datatype Outcome = Returned(code: int) | Thrown(error: Exception)

  function Start(t: Tables): State {
    State(t, map[], map[])
  }

  /** `$cityName . '_' . $countyName`, on the raw fields. */
  function CityKey(cityName: string, countyName: string): string {
    cityName + "_" + countyName
  }

  /** Each cached raw county name maps to the county of that exact name. */
  predicate CountyCacheSound(s: State) {
    forall name :: name in s.counties ==> CountyIdOf(s.tables.counties, name) == Some(s.counties[name])
  }

  /** The county-cache and city-cache blocks, on the raw names. */
  function Resolve(s: State, row: Row): (r: State)
    requires Complete(row)
    ensures row[2] in r.counties && CityKey(row[1], row[2]) in r.cities
    ensures Extends(s.tables, r.tables) && Grows(s.counties, r.counties) && Grows(s.cities, r.cities)
    ensures r.tables.postalCodes == s.tables.postalCodes && r.tables.settlements == s.tables.settlements
    ensures row[2] !in s.counties ==> CountyIdOf(r.tables.counties, row[2]) == Some(r.counties[row[2]])
    ensures CityKey(row[1], row[2]) !in s.cities ==>
      CityIdOf(r.tables.cities, row[1], r.counties[row[2]]) == Some(r.cities[CityKey(row[1], row[2])])
    ensures WellFormed(s.tables) ==> WellFormed(r.tables)
  {
    var county := CacheCounty(s.tables, s.counties, row[2], row[2]);
    var key := CityKey(row[1], row[2]);
    var city := CacheCity(county.tables, s.cities, key, row[1], county.cache[row[2]]);
    State(city.tables, county.cache, city.cache)
  }

  /**
   * What the cache blocks may change: each cache gains exactly the row's key,
   * at most one county and one city are appended, with consecutive ids.
   */
  lemma ResolveFrame(s: State, row: Row)
    requires Complete(row)
    ensures var r := Resolve(s, row);
      r.counties.Keys == s.counties.Keys + {row[2]} && r.cities.Keys == s.cities.Keys + {CityKey(row[1], row[2])}
    ensures var r := Resolve(s, row);
      r.tables.counties == s.tables.counties
          || r.tables.counties == s.tables.counties + [County(s.tables.nextId, row[2])]
    ensures var r := Resolve(s, row);
      |r.tables.cities| <= |s.tables.cities| + 1
    ensures var r := Resolve(s, row);
      |r.tables.cities| > |s.tables.cities| ==>
        r.tables.cities[|s.tables.cities|] == City(s.tables.nextId + |r.tables.counties| - |s.tables.counties|, row[1], r.counties[row[2]])
    ensures var r := Resolve(s, row);
      r.tables.nextId == s.tables.nextId + (|r.tables.counties| - |s.tables.counties|) + (|r.tables.cities| - |s.tables.cities|)
  {
    var county := CacheCounty(s.tables, s.counties, row[2], row[2]);
    CacheCountyFrame(s.tables, s.counties, row[2], row[2]);
    CacheCityFrame(county.tables, s.cities, CityKey(row[1], row[2]), row[1], county.cache[row[2]]);
  }

  /** One pass of the while loop. */
  function Step(s: State, row: Row): (r: Result<State, Exception>)
    ensures !Complete(row) ==> r == Err(UndefinedArrayKey)
    ensures r.Ok? ==>
      && Complete(row) && CityKey(row[1], row[2]) in r.value.cities
      && FindCodeInCity(r.value.tables.postalCodes, row[0], r.value.cities[CityKey(row[1], row[2])]).Some?
    ensures r.Ok? ==> Extends(s.tables, r.value.tables) && Grows(s.counties, r.value.counties) && Grows(s.cities, r.value.cities)
    ensures r.Ok? ==> r.value.tables.settlements == s.tables.settlements
    ensures r.Ok? && WellFormed(s.tables) ==> WellFormed(r.value.tables)
  {
    if !Complete(row) then Err(UndefinedArrayKey)
    else
      var m := Resolve(s, row);
      CodesFind(m.tables.postalCodes, row[0]);
      match PostalCodeFirstOrCreate(m.tables, row[0], m.cities[CityKey(row[1], row[2])])
      case Ok(t) => Ok(m.(tables := t))
      case Err(e) => Err(e)
  }

  /**
   * A complete row fails exactly when its code is already bound to a city
   * other than the one the row resolves to: the unique index on the code
   * rejects the insert, and createOrFirst's second lookup of the pair then
   * raises ModelNotFoundException.
   */
  lemma StepConflict(s: State, row: Row)
    requires Complete(row)
    ensures
      var m := Resolve(s, row);
      var cityId := m.cities[CityKey(row[1], row[2])];
      && (Step(s, row).Err? <==> FindCodeInCity(m.tables.postalCodes, row[0], cityId).None? && row[0] in Codes(m.tables.postalCodes))
      && (Step(s, row).Err? ==> Step(s, row).error == RecordNotFound)
  {
    CodesFind(Resolve(s, row).tables.postalCodes, row[0]);
  }

  /** The loop over the data rows; the first exception ends it. */
  function Fold(s: State, rows: seq<Row>): (r: Result<State, Exception>)
    ensures r.Ok? ==> Extends(s.tables, r.value.tables) && Grows(s.counties, r.value.counties) && Grows(s.cities, r.value.cities)
    ensures r.Ok? ==> r.value.tables.settlements == s.tables.settlements
    ensures r.Ok? && WellFormed(s.tables) ==> WellFormed(r.value.tables)
    decreases |rows|
  {
    if rows == [] then Ok(s)
    else match Fold(s, rows[..|rows| - 1])
      case Err(e) => Err(e)
      case Ok(m) => Step(m, rows[|rows| - 1])
  }

  /**
   * importFromCsv() after the header: the transaction around the loop.
   * `storageFailsAt` names the data row at which the storage engine raises,
   * if any. On any exception the tables are rolled back and the exception
   * is returned for rethrowing.
   */
  function ImportRows(t: Tables, data: seq<Row>, storageFailsAt: Option<nat>): (r: (Tables, Option<Exception>))
    ensures r.1.Some? ==> r.0 == t
    ensures r.1.None? ==> storageFailsAt.None? || storageFailsAt.value >= |data|
    ensures r.1.None? <==> (storageFailsAt.None? || storageFailsAt.value >= |data|) && Fold(Start(t), data).Ok?
    ensures WellFormed(t) ==> WellFormed(r.0)
  {
    var upto := Reached(data, storageFailsAt);
    assert upto == |data| ==> data[..upto] == data;
    match Fold(Start(t), data[..upto])
    case Err(e) => (t, Some(e))
    case Ok(s) => if upto < |data| then (t, Some(StorageError)) else (s.tables, None)
  }

  /** handle(): returns 1 for a missing file and 0 after a commit, otherwise lets the rethrown exception through. */
  function Import(t: Tables, lines: seq<Row>, fileExists: bool, storageFailsAt: Option<nat>): (r: (Tables, Outcome))
    ensures r.1 == Returned(1) <==> !fileExists
    ensures r.1 != Returned(0) ==> r.0 == t
    ensures r.1.Returned? ==> r.1.code == 0 || r.1.code == 1
    ensures WellFormed(t) ==> WellFormed(r.0)
  {
    if !fileExists then (t, Returned(1))
    else
      var (u, e) := ImportRows(t, SkipLines(lines, HeaderLines), storageFailsAt);
      if e.None? then (u, Returned(0)) else (u, Thrown(e.value))
  }

  // ---------------------------------------------------------------------------
  // Properties of the loop

  /** Once the loop has thrown, later rows do not matter. */
  lemma {:induction false} FoldErrSticks(s: State, rows: seq<Row>, k: nat)
    requires k <= |rows| && Fold(s, rows[..k]).Err?
    ensures Fold(s, rows) == Fold(s, rows[..k])
    decreases |rows|
  {
    if k < |rows| {
      var prefix := rows[..|rows| - 1];
      assert prefix[..k] == rows[..k];
      FoldErrSticks(s, prefix, k);
    } else {
      assert rows[..k] == rows;
    }
  }

  /** The exception of row `i` is the exception of the whole loop. */
  lemma RowErrSticks(s: State, rows: seq<Row>, i: nat)
    requires i < |rows| && Fold(s, rows[..i]).Ok? && Step(Fold(s, rows[..i]).value, rows[i]).Err?
    ensures Fold(s, rows) == Step(Fold(s, rows[..i]).value, rows[i])
  {
    PrefixSnoc(rows, i);
    FoldErrSticks(s, rows, i + 1);
  }

  /** A committed loop saw only rows with all three fields. */
  lemma {:induction false} FoldOkComplete(s: State, rows: seq<Row>)
    requires Fold(s, rows).Ok?
    ensures AllComplete(rows)
    decreases |rows|
  {
    if rows != [] {
      var prefix, last := rows[..|rows| - 1], rows[|rows| - 1];
      FoldOkComplete(s, prefix);
      assert Fold(s, rows) == Step(Fold(s, prefix).value, last);
      SplitLast(rows);
      AllCompleteSnoc(prefix, last);
    }
  }

  /** The cache holds both of the row's keys, and its code is bound to the cached city. */
  predicate CoveredRow(s: State, row: Row) {
    && Complete(row) && row[2] in s.counties && CityKey(row[1], row[2]) in s.cities
    && FindCodeInCity(s.tables.postalCodes, row[0], s.cities[CityKey(row[1], row[2])]).Some?
  }

  predicate Covers(s: State, rows: seq<Row>) {
    forall i :: 0 <= i < |rows| ==> CoveredRow(s, rows[i])
  }

  /** Inserts and new cache entries never undo what earlier rows established. */
  lemma CoversExtends(m: State, n: State, rows: seq<Row>)
    requires Covers(m, rows)
    requires Extends(m.tables, n.tables) && Grows(m.counties, n.counties) && Grows(m.cities, n.cities)
    ensures Covers(n, rows)
  {
    forall i | 0 <= i < |rows| ensures CoveredRow(n, rows[i]) {
      var row := rows[i];
      FindCodeInCityExtends(m.tables.postalCodes, n.tables.postalCodes, row[0], m.cities[CityKey(row[1], row[2])]);
    }
  }

  lemma StepKeepsCountyCache(s: State, row: Row)
    requires CountyCacheSound(s) && Step(s, row).Ok?
    ensures CountyCacheSound(Step(s, row).value)
  {
    var r := Step(s, row).value;
    forall name | name in r.counties
      ensures CountyIdOf(r.tables.counties, name) == Some(r.counties[name])
    {
      var m := Resolve(s, row);
      if name in s.counties {
        CountyIdOfExtends(s.tables.counties, r.tables.counties, name);
      } else {
        assert name == row[2];
        CountyIdOfExtends(m.tables.counties, r.tables.counties, name);
      }
    }
  }

  /** One more committed row keeps everything earlier rows established and covers the new row. */
  lemma StepCovers(m: State, prefix: seq<Row>, row: Row)
    requires Covers(m, prefix) && Step(m, row).Ok?
    ensures Covers(Step(m, row).value, prefix + [row])
  {
    var r := Step(m, row).value;
    var rows := prefix + [row];
    CoversExtends(m, r, prefix);
    forall i | 0 <= i < |rows| ensures CoveredRow(r, rows[i]) {
      if i < |prefix| {
        assert rows[i] == prefix[i];
      } else {
        assert rows[i] == row;
      }
    }
  }

  /** A committed loop leaves every row's code bound to the city its key resolved to. */
  lemma {:induction false} FoldCovers(s: State, rows: seq<Row>)
    requires Fold(s, rows).Ok?
    ensures Covers(Fold(s, rows).value, rows)
    decreases |rows|
  {
    if rows != [] {
      var prefix, row := rows[..|rows| - 1], rows[|rows| - 1];
      FoldCovers(s, prefix);
      var m := Fold(s, prefix).value;
      assert Fold(s, rows) == Step(m, row);
      StepCovers(m, prefix, row);
      SplitLast(rows);
    }
  }

  /** A committed loop leaves every cached county name naming its county. */
  lemma {:induction false} FoldKeepsCountyCache(s: State, rows: seq<Row>)
    requires CountyCacheSound(s) && Fold(s, rows).Ok?
    ensures CountyCacheSound(Fold(s, rows).value)
    decreases |rows|
  {
    if rows != [] {
      var prefix := rows[..|rows| - 1];
      FoldKeepsCountyCache(s, prefix);
      StepKeepsCountyCache(Fold(s, prefix).value, rows[|rows| - 1]);
    }
  }

  /**
   * After a successful run, every data row's code is in the table and
   * every data row's county exists under its raw name.
   */
  lemma ImportCovers(t: Tables, lines: seq<Row>, storageFailsAt: Option<nat>)
    requires Import(t, lines, true, storageFailsAt).1 == Returned(0)
    ensures
      var u := Import(t, lines, true, storageFailsAt).0;
      forall row :: row in SkipLines(lines, HeaderLines) ==>
        Complete(row) && row[0] in Codes(u.postalCodes) && row[2] in CountyNames(u.counties)
  {
    var data := SkipLines(lines, HeaderLines);
    FoldCovers(Start(t), data);
    FoldKeepsCountyCache(Start(t), data);
    var s := Fold(Start(t), data).value;
    assert Import(t, lines, true, storageFailsAt).0 == s.tables by {
      WholePrefix(data);
    }
    forall row | row in data
      ensures Complete(row) && row[0] in Codes(s.tables.postalCodes) && row[2] in CountyNames(s.tables.counties)
    {
      var i :| 0 <= i < |data| && data[i] == row;
      assert CoveredRow(s, data[i]);
      var k := FindCodeInCity(s.tables.postalCodes, row[0], s.cities[CityKey(row[1], row[2])]).value;
      assert s.tables.postalCodes[k] in s.tables.postalCodes;
      CountyNamesFind(s.tables.counties, row[2]);
    }
  }

  /**
   * Replaying a row on tables that already hold everything the row produced,
   * with the same caches, succeeds and changes nothing but the caches.
   */
  lemma StepReplay(s: State, row: Row, t: Tables)
    requires Step(s, row).Ok? && Extends(Step(s, row).value.tables, t)
    ensures Step(State(t, s.counties, s.cities), row) == Ok(State(t, Step(s, row).value.counties, Step(s, row).value.cities))
  {
    var m := Resolve(s, row);
    var key := CityKey(row[1], row[2]);
    var r := Step(s, row).value;
    assert r.counties == m.counties && r.cities == m.cities;
    if row[2] !in s.counties {
      CountyIdOfExtends(m.tables.counties, t.counties, row[2]);
    }
    if key !in s.cities {
      CityIdOfExtends(m.tables.cities, t.cities, row[1], m.counties[row[2]]);
    }
    assert Resolve(State(t, s.counties, s.cities), row) == State(t, m.counties, m.cities);
    FindCodeInCityExtends(r.tables.postalCodes, t.postalCodes, row[0], m.cities[key]);
  }

  lemma {:induction false} FoldReplay(s: State, rows: seq<Row>, t: Tables)
    requires Fold(s, rows).Ok? && Extends(Fold(s, rows).value.tables, t)
    ensures Fold(State(t, s.counties, s.cities), rows) == Ok(State(t, Fold(s, rows).value.counties, Fold(s, rows).value.cities))
    decreases |rows|
  {
    if rows != [] {
      var prefix := rows[..|rows| - 1];
      var m := Fold(s, prefix).value;
      FoldReplay(s, prefix, t);
      StepReplay(m, rows[|rows| - 1], t);
    }
  }

  /**
   * Every insert is a firstOrCreate: running the command again on the same
   * file, after it committed, succeeds and leaves the tables as they are.
   */
  lemma RerunChangesNothing(t: Tables, lines: seq<Row>)
    requires Import(t, lines, true, None).1 == Returned(0)
    ensures
      var u := Import(t, lines, true, None).0;
      Import(u, lines, true, None) == (u, Returned(0))
  {
    var data := SkipLines(lines, HeaderLines);
    WholePrefix(data);
    FoldReplay(Start(t), data, Fold(Start(t), data).value.tables);
  }

  /** The header line is discarded unread: its content never matters. */
  lemma HeaderIgnored(t: Tables, h1: Row, h2: Row, rows: seq<Row>, storageFailsAt: Option<nat>)
    ensures Import(t, [h1] + rows, true, storageFailsAt) == Import(t, [h2] + rows, true, storageFailsAt)
  {
    assert SkipLines([h1] + rows, HeaderLines) == rows == SkipLines([h2] + rows, HeaderLines);
  }

  /** One more row of a committed prefix is one more Step. */
  lemma FoldPrefixSnoc(s: State, data: seq<Row>, i: nat)
    requires i < |data| && Fold(s, data[..i]).Ok?
    ensures Fold(s, data[..i + 1]) == Step(Fold(s, data[..i]).value, data[i])
  {
    PrefixSnoc(data, i);
  }

  // The three ways out of importFromCsv's loop.

  lemma ImportRowsFault(t: Tables, data: seq<Row>, i: nat)
    requires i < |data| && Fold(Start(t), data[..i]).Ok?
    ensures ImportRows(t, data, Some(i)) == (t, Some(StorageError))
  {
  }

  lemma ImportRowsThrow(t: Tables, data: seq<Row>, storageFailsAt: Option<nat>, i: nat)
    requires i < Reached(data, storageFailsAt) && Fold(Start(t), data[..i]).Ok?
    requires Step(Fold(Start(t), data[..i]).value, data[i]).Err?
    ensures ImportRows(t, data, storageFailsAt) == (t, Some(Step(Fold(Start(t), data[..i]).value, data[i]).error))
  {
    var upto := Reached(data, storageFailsAt);
    assert data[..upto][..i] == data[..i] && data[..upto][i] == data[i];
    RowErrSticks(Start(t), data[..upto], i);
  }

  lemma ImportRowsCommit(t: Tables, data: seq<Row>, storageFailsAt: Option<nat>)
    requires Reached(data, storageFailsAt) == |data| && Fold(Start(t), data).Ok?
    ensures ImportRows(t, data, storageFailsAt) == (Fold(Start(t), data).value.tables, None)
  {
    WholePrefix(data);
  }

  // ---------------------------------------------------------------------------
  // The command as it runs

  /** The loop body: destructuring, both caches, and PostalCode::firstOrCreate. */
  method ImportRow(db: Database, row: Row, counties: map<string, Id>, cities: map<string, Id>)
    returns (counties': map<string, Id>, cities': map<string, Id>, thrown: Option<Exception>)
    modifies db
    ensures match Step(State(old(db.Contents()), counties, cities), row)
      case Ok(s) => thrown.None? && State(db.Contents(), counties', cities') == s
      case Err(e) => thrown == Some(e)
  {
    counties', cities' := counties, cities;
    if |row| < 3 {
      return counties', cities', Some(UndefinedArrayKey);
    }
    ghost var pre := State(db.Contents(), counties, cities);
    counties' := ResolveCounty(db, counties, row[2], row[2]);
    var cityKey := row[1] + "_" + row[2];
    cities' := ResolveCity(db, cities, cityKey, row[1], counties'[row[2]]);
    assert State(db.Contents(), counties', cities') == Resolve(pre, row);
    thrown := db.FirstOrCreatePostalCode(row[0], cities'[cityKey]);
  }

  /** importFromCsv() after the header: the transaction and the loop. */
  method ImportFromCsv(db: Database, data: seq<Row>, storageFailsAt: Option<nat>) returns (thrown: Option<Exception>)
    modifies db
    ensures (db.Contents(), thrown) == ImportRows(old(db.Contents()), data, storageFailsAt)
  {
    var before := db.Contents();
    var counties: map<string, Id> := map[];
    var cities: map<string, Id> := map[];
    var i := 0;
    while i < |data|
      invariant 0 <= i <= Reached(data, storageFailsAt)
      invariant Fold(Start(before), data[..i]) == Ok(State(db.Contents(), counties, cities))
    {
      if storageFailsAt == Some(i) {
        ImportRowsFault(before, data, i);
        db.Restore(before);
        return Some(StorageError);
      }
      FoldPrefixSnoc(Start(before), data, i);
      var e;
      counties, cities, e := ImportRow(db, data[i], counties, cities);
      if e.Some? {
        ImportRowsThrow(before, data, storageFailsAt, i);
        db.Restore(before);
        return e;
      }
      i := i + 1;
    }
    WholePrefix(data);
    ImportRowsCommit(before, data, storageFailsAt);
    return None;
  }

  /** handle(). */
  method Handle(db: Database, lines: seq<Row>, fileExists: bool, storageFailsAt: Option<nat>) returns (outcome: Outcome)
    modifies db
    ensures (db.Contents(), outcome) == Import(old(db.Contents()), lines, fileExists, storageFailsAt)
  {
    if !fileExists {
      return Returned(1);
    }
    var thrown := ImportFromCsv(db, SkipLines(lines, HeaderLines), storageFailsAt);
    if thrown.Some? {
      return Thrown(thrown.value);
    }
    return Returned(0);
  }
}
