/**
 * PostalCodeSeeder::run — the main CSV import of (code, city, county) rows.
 *
 * Inside one transaction it discards the header line, skips every row with
 * a PHP-empty field, left-pads the code with '0' to four bytes (str_pad counts bytes),
 * resolves the county through a cache keyed by the raw county name and the
 * city through a cache keyed by trim(city) + "_" + trim(county), and then
 * inserts the postal code unless a row with that code already exists,
 * counting created rows and duplicates.
 */
module PostalCodeSeeder {
  import opened Wrappers
  import opened Php
  import opened Store
  import opened Csv
  import opened ImportCache

  const HeaderLines: nat := 1
  const CodeWidth: nat := 4

  /** The loop's variables: the tables, the two caches and the two counters. */
  datatype State = State(
    tables: Tables,
    counties: map<string, Id>,
    cities: map<string, Id>,
    count: nat,
    duplicates: nat)

  /** How run() ends: the file is missing, the transaction commits, or it rolls back and rethrows. */
  datatype Outcome = MissingFile | Imported(count: nat, duplicates: nat) | Aborted

  function Start(t: Tables): State {
    State(t, map[], map[], 0, 0)
  }

  /** `empty($row[0]) || empty($row[1]) || empty($row[2])`, on the raw fields. */
  predicate Skipped(row: Row) {
    EmptyField(row, 0) || EmptyField(row, 1) || EmptyField(row, 2)
  }

  function ZeroPad(code: string): string {
    PadLeft(code, CodeWidth, '0')
  }

  function CityKey(cityName: string, countyName: string): string {
    Trim(cityName) + "_" + Trim(countyName)
  }

  /** Each cached raw county name maps to the county that carries its trimmed name. */
  predicate CountyCacheSound(s: State) {
    forall raw :: raw in s.counties ==> CountyIdOf(s.tables.counties, Trim(raw)) == Some(s.counties[raw])
  }

  /** The two cache blocks of the loop body, for a row that is not skipped. */
  function Resolve(s: State, row: Row): (r: State)
    requires !Skipped(row)
    ensures row[2] in r.counties && CityKey(row[1], row[2]) in r.cities
    ensures Extends(s.tables, r.tables) && Grows(s.counties, r.counties) && Grows(s.cities, r.cities)
    ensures r.tables.postalCodes == s.tables.postalCodes && r.tables.settlements == s.tables.settlements
    ensures r.count == s.count && r.duplicates == s.duplicates
    ensures row[2] !in s.counties ==> CountyIdOf(r.tables.counties, Trim(row[2])) == Some(r.counties[row[2]])
    ensures CityKey(row[1], row[2]) !in s.cities ==>
      CityIdOf(r.tables.cities, Trim(row[1]), r.counties[row[2]]) == Some(r.cities[CityKey(row[1], row[2])])
    ensures WellFormed(s.tables) ==> WellFormed(r.tables)
  {
    var county := CacheCounty(s.tables, s.counties, row[2], Trim(row[2]));
    var key := CityKey(row[1], row[2]);
    var city := CacheCity(county.tables, s.cities, key, Trim(row[1]), county.cache[row[2]]);
    State(city.tables, county.cache, city.cache, s.count, s.duplicates)
  }

  /**
   * What the cache blocks may change: each cache gains exactly the row's key,
   * at most one county and one city are appended, with consecutive ids.
   */
  lemma ResolveFrame(s: State, row: Row)
    requires !Skipped(row)
    ensures var r := Resolve(s, row);
      r.counties.Keys == s.counties.Keys + {row[2]} && r.cities.Keys == s.cities.Keys + {CityKey(row[1], row[2])}
    ensures var r := Resolve(s, row);
      r.tables.counties == s.tables.counties
          || r.tables.counties == s.tables.counties + [County(s.tables.nextId, Trim(row[2]))]
    ensures var r := Resolve(s, row);
      |r.tables.cities| <= |s.tables.cities| + 1
    ensures var r := Resolve(s, row);
      |r.tables.cities| > |s.tables.cities| ==>
        r.tables.cities[|s.tables.cities|] == City(s.tables.nextId + |r.tables.counties| - |s.tables.counties|, Trim(row[1]), r.counties[row[2]])
    ensures var r := Resolve(s, row);
      r.tables.nextId == s.tables.nextId + (|r.tables.counties| - |s.tables.counties|) + (|r.tables.cities| - |s.tables.cities|)
    ensures var r := Resolve(s, row);
      CityKey(row[1], row[2]) in s.cities ==> r.cities == s.cities && r.tables.cities == s.tables.cities
  {
    var county := CacheCounty(s.tables, s.counties, row[2], Trim(row[2]));
    CacheCountyFrame(s.tables, s.counties, row[2], Trim(row[2]));
    CacheCityFrame(county.tables, s.cities, CityKey(row[1], row[2]), Trim(row[1]), county.cache[row[2]]);
  }

  /** `PostalCode::where('code', $code)->first()`: insert and count, or count a duplicate. */
  function RecordCode(s: State, code: string, cityId: Id): (r: State)
    ensures r.count + r.duplicates == s.count + s.duplicates + 1
    ensures r.count == s.count + 1 <==> code !in Codes(s.tables.postalCodes)
    ensures code in Codes(s.tables.postalCodes) ==> r.count == s.count && r.duplicates == s.duplicates + 1
    ensures code !in Codes(s.tables.postalCodes) ==>
      && r.duplicates == s.duplicates
      && r.tables.counties == s.tables.counties && r.tables.cities == s.tables.cities
    ensures code in Codes(s.tables.postalCodes) ==> r.tables == s.tables
    ensures code !in Codes(s.tables.postalCodes) ==>
      && r.tables.postalCodes == s.tables.postalCodes + [PostalCode(s.tables.nextId, code, cityId)]
      && r.tables.nextId == s.tables.nextId + 1
    ensures r.counties == s.counties && r.cities == s.cities
    ensures Extends(s.tables, r.tables) && r.tables.settlements == s.tables.settlements
    ensures WellFormed(s.tables) ==> WellFormed(r.tables)
  {
    CodesFind(s.tables.postalCodes, code);
    if FindCode(s.tables.postalCodes, code).None? then
      State(PostalCodeInsert(s.tables, code, cityId).tables, s.counties, s.cities, s.count + 1, s.duplicates)
    else
      s.(duplicates := s.duplicates + 1)
  }

  /** One pass of the while loop. */
  function Step(s: State, row: Row): (r: State)
    ensures Skipped(row) ==> r == s
    ensures Extends(s.tables, r.tables) && Grows(s.counties, r.counties) && Grows(s.cities, r.cities)
    ensures r.tables.settlements == s.tables.settlements
    ensures WellFormed(s.tables) ==> WellFormed(r.tables)
  {
    if Skipped(row) then s
    else
      var m := Resolve(s, row);
      RecordCode(m, ZeroPad(row[0]), m.cities[CityKey(row[1], row[2])])
  }

  /** The loop over the data rows, from the first to the last. */
  function Fold(s: State, rows: seq<Row>): (r: State)
    ensures Extends(s.tables, r.tables) && Grows(s.counties, r.counties) && Grows(s.cities, r.cities)
    ensures r.tables.settlements == s.tables.settlements
    ensures WellFormed(s.tables) ==> WellFormed(r.tables)
    decreases |rows|
  {
    if rows == [] then s else Step(Fold(s, rows[..|rows| - 1]), rows[|rows| - 1])
  }

  /** One more row of the loop is one more Step. */
  lemma FoldPrefixSnoc(s: State, data: seq<Row>, i: nat)
    requires i < |data|
    ensures Fold(s, data[..i + 1]) == Step(Fold(s, data[..i]), data[i])
  {
    PrefixSnoc(data, i);
  }

  /** The data rows the loop does not skip. */
  function Kept(rows: seq<Row>): (r: seq<Row>)
    decreases |rows|
  {
    if rows == [] then []
    else Kept(rows[..|rows| - 1]) + if Skipped(rows[|rows| - 1]) then [] else [rows[|rows| - 1]]
  }

  /** The padded codes of the rows the loop does not skip. */
  function FileCodes(rows: seq<Row>): set<string>
    decreases |rows|
  {
    if rows == [] then {}
    else
      var last := rows[|rows| - 1];
      FileCodes(rows[..|rows| - 1]) + if Skipped(last) then {} else {ZeroPad(last[0])}
  }

  /** run(): the file check, the header skip and the transaction around the loop. */
  function Seed(t: Tables, lines: seq<Row>, fileExists: bool, storageFailsAt: Option<nat>): (r: (Tables, Outcome))
    ensures r.1.MissingFile? <==> !fileExists
    ensures !r.1.Imported? ==> r.0 == t
    ensures r.1.Aborted? <==>
      fileExists && storageFailsAt.Some? && storageFailsAt.value < |SkipLines(lines, HeaderLines)|
    ensures WellFormed(t) ==> WellFormed(r.0)
  {
    if !fileExists then (t, MissingFile)
    else
      var data := SkipLines(lines, HeaderLines);
      if storageFailsAt.Some? && storageFailsAt.value < |data| then (t, Aborted)
      else
        var s := Fold(Start(t), data);
        (s.tables, Imported(s.count, s.duplicates))
  }

  // ---------------------------------------------------------------------------
  // Properties of the loop

  /** Each data row that is not skipped adds one to exactly one counter. */
  lemma {:induction false} FoldCounts(s: State, rows: seq<Row>)
    ensures Fold(s, rows).count + Fold(s, rows).duplicates == s.count + s.duplicates + |Kept(rows)|
    decreases |rows|
  {
    if rows != [] {
      FoldCounts(s, rows[..|rows| - 1]);
    }
  }

  /** A row that is not skipped adds its padded code to the codes of the table, and nothing else. */
  lemma StepCodes(s: State, row: Row)
    requires !Skipped(row)
    ensures Codes(Step(s, row).tables.postalCodes) == Codes(s.tables.postalCodes) + {ZeroPad(row[0])}
  {
    var n := Resolve(s, row);
    var code, cityId := ZeroPad(row[0]), n.cities[CityKey(row[1], row[2])];
    assert Step(s, row) == RecordCode(n, code, cityId);
    if code !in Codes(n.tables.postalCodes) {
      CodesAppend(n.tables.postalCodes, PostalCode(n.tables.nextId, code, cityId));
    }
  }

  /** The codes in the table afterwards are the codes before plus the padded codes of the file. */
  lemma {:induction false} FoldCodes(s: State, rows: seq<Row>)
    ensures Codes(Fold(s, rows).tables.postalCodes) == Codes(s.tables.postalCodes) + FileCodes(rows)
    decreases |rows|
  {
    if rows != [] {
      var prefix, row := rows[..|rows| - 1], rows[|rows| - 1];
      FoldCodes(s, prefix);
      if !Skipped(row) {
        StepCodes(Fold(s, prefix), row);
      }
    }
  }

  /** A row adds one to `count`, and one row to the table, exactly when its padded code is new. */
  lemma StepCreated(s: State, row: Row)
    ensures
      var r := Step(s, row);
      && r.count == s.count + (if !Skipped(row) && ZeroPad(row[0]) !in Codes(s.tables.postalCodes) then 1 else 0)
      && |r.tables.postalCodes| == |s.tables.postalCodes| + r.count - s.count
  {
    if !Skipped(row) {
      var n := Resolve(s, row);
      var r := RecordCode(n, ZeroPad(row[0]), n.cities[CityKey(row[1], row[2])]);
      assert r == Step(s, row);
    }
  }

  /** Adding one code to the file's codes adds one new code exactly when the table did not hold it. */
  lemma NewCodesGrow(c0: set<string>, file: set<string>, code: string)
    ensures |(file + {code}) - c0| == |file - c0| + (if code in c0 + file then 0 else 1)
  {
    if code in c0 + file {
      assert (file + {code}) - c0 == file - c0;
    } else {
      assert (file + {code}) - c0 == (file - c0) + {code};
    }
  }

  /**
   * `count` grows by the number of the file's padded codes that were not in
   * the table before, and the table grows by exactly that many rows.
   */
  lemma {:induction false} FoldCreated(s: State, rows: seq<Row>)
    ensures Fold(s, rows).count == s.count + |FileCodes(rows) - Codes(s.tables.postalCodes)|
    ensures |Fold(s, rows).tables.postalCodes| == |s.tables.postalCodes| + Fold(s, rows).count - s.count
    decreases |rows|
  {
    if rows != [] {
      var prefix, row := rows[..|rows| - 1], rows[|rows| - 1];
      var m := Fold(s, prefix);
      assert Fold(s, rows) == Step(m, row);
      FoldCreated(s, prefix);
      FoldCodes(s, prefix);
      StepCreated(m, row);
      if !Skipped(row) {
        NewCodesGrow(Codes(s.tables.postalCodes), FileCodes(prefix), ZeroPad(row[0]));
      }
    }
  }

  /** Processing a row keeps every cached county id pointing at the county with the trimmed name. */
  lemma StepKeepsCountyCache(s: State, row: Row)
    requires CountyCacheSound(s)
    ensures CountyCacheSound(Step(s, row))
  {
    var r := Step(s, row);
    forall raw | raw in r.counties
      ensures CountyIdOf(r.tables.counties, Trim(raw)) == Some(r.counties[raw])
    {
      if raw in s.counties {
        CountyIdOfExtends(s.tables.counties, r.tables.counties, Trim(raw));
      }
    }
  }

  lemma {:induction false} FoldKeepsCountyCache(s: State, rows: seq<Row>)
    requires CountyCacheSound(s)
    ensures CountyCacheSound(Fold(s, rows))
    decreases |rows|
  {
    if rows != [] {
      FoldKeepsCountyCache(s, rows[..|rows| - 1]);
      StepKeepsCountyCache(Fold(s, rows[..|rows| - 1]), rows[|rows| - 1]);
    }
  }

  /** Every row the loop has not skipped has its raw county name cached. */
  lemma {:induction false} FoldCachesCounties(s: State, rows: seq<Row>)
    ensures forall i :: 0 <= i < |rows| && !Skipped(rows[i]) ==> rows[i][2] in Fold(s, rows).counties
    decreases |rows|
  {
    if rows != [] {
      var init, last := rows[..|rows| - 1], rows[|rows| - 1];
      FoldCachesCounties(s, init);
      if !Skipped(last) {
        StepCachesRow(Fold(s, init), last);
      }
      forall i | 0 <= i < |rows| && !Skipped(rows[i])
        ensures rows[i][2] in Fold(s, rows).counties
      {
        if i < |init| {
          assert rows[i] == init[i];
        }
      }
    }
  }

  /**
   * After a committed run, the counties table holds the trimmed county name
   * of every data row the loop did not skip.
   */
  lemma KeptCountiesExist(t: Tables, rows: seq<Row>)
    ensures forall i :: 0 <= i < |rows| && !Skipped(rows[i]) ==>
      Trim(rows[i][2]) in CountyNames(Fold(Start(t), rows).tables.counties)
  {
    var u := Fold(Start(t), rows);
    FoldCachesCounties(Start(t), rows);
    FoldKeepsCountyCache(Start(t), rows);
    forall i | 0 <= i < |rows| && !Skipped(rows[i])
      ensures Trim(rows[i][2]) in CountyNames(u.tables.counties)
    {
      assert CountyIdOf(u.tables.counties, Trim(rows[i][2])).Some?;
      CountyNamesFind(u.tables.counties, Trim(rows[i][2]));
    }
  }

  /**
   * Raw county names that trim to the same name share one county id, and the
   * counties table never holds two rows with one name.
   */
  lemma TrimmedCountyNamesShareId(t: Tables, rows: seq<Row>, a: string, b: string)
    requires WellFormed(t)
    requires a in Fold(Start(t), rows).counties && b in Fold(Start(t), rows).counties
    requires Trim(a) == Trim(b)
    ensures Fold(Start(t), rows).counties[a] == Fold(Start(t), rows).counties[b]
    ensures CountiesOk(Fold(Start(t), rows).tables.counties, Fold(Start(t), rows).tables.nextId)
  {
    FoldKeepsCountyCache(Start(t), rows);
  }

  /** A name with no trimmable character at either end; trim() leaves it alone. */
  predicate Tidy(name: string) {
    name != [] && !IsTrimmable(name[0]) && !IsTrimmable(name[|name| - 1])
  }

  /**
   * Different (city, county) pairs can share one cache key: a city
   * "x_y" in county "z" and a city "x" in county "y_z" both give "x_y_z".
   */
  lemma CityKeysCollide(x: string, y: string, z: string)
    requires Tidy(x) && Tidy(y) && Tidy(z)
    ensures (x + "_" + y, z) != (x, y + "_" + z)
    ensures CityKey(x + "_" + y, z) == CityKey(x, y + "_" + z)
  {
    var xy, yz := x + "_" + y, y + "_" + z;
    assert xy[0] == x[0] && xy[|xy| - 1] == y[|y| - 1];
    assert yz[0] == y[0] && yz[|yz| - 1] == z[|z| - 1];
    assert Trim(xy) == xy && Trim(yz) == yz && Trim(x) == x && Trim(z) == z;
    assert xy + "_" + z == x + "_" + yz;
  }

  /** A row that is not skipped leaves its raw county name and its city key cached. */
  lemma StepCachesRow(s: State, row: Row)
    requires !Skipped(row)
    ensures row[2] in Step(s, row).counties && CityKey(row[1], row[2]) in Step(s, row).cities
  {
    var n := Resolve(s, row);
    assert Step(s, row) == RecordCode(n, ZeroPad(row[0]), n.cities[CityKey(row[1], row[2])]);
  }

  /**
   * With its city key already cached, a row resolves no city: the cache and
   * the cities stay as they are, and a new code is bound to the cached city.
   */
  lemma StepCachedCity(m: State, row: Row)
    requires !Skipped(row) && CityKey(row[1], row[2]) in m.cities
    ensures Step(m, row).cities == m.cities
    ensures Step(m, row).tables.cities == m.tables.cities
    ensures var r := Step(m, row); ZeroPad(row[0]) !in Codes(m.tables.postalCodes) ==>
      r.tables.postalCodes[|r.tables.postalCodes| - 1].cityId == m.cities[CityKey(row[1], row[2])]
  {
    var n := Resolve(m, row);
    ResolveFrame(m, row);
    assert Step(m, row) == RecordCode(n, ZeroPad(row[0]), n.cities[CityKey(row[1], row[2])]);
  }

  /**
   * The city cache is keyed by a string: once a row has cached a key, a later
   * row with the same key reuses that city id, whatever its own city and county
   * names are. No city of the later row's name is created, and its postal
   * code, if new, is bound to the earlier row's city.
   */
  lemma SharedCityKey(s: State, r1: Row, r2: Row)
    requires !Skipped(r1) && !Skipped(r2)
    requires CityKey(r1[1], r1[2]) == CityKey(r2[1], r2[2])
    ensures
      var key, m := CityKey(r1[1], r1[2]), Step(s, r1);
      var r := Step(m, r2);
      && r.cities[key] == m.cities[key]
      && r.tables.cities == m.tables.cities
      && (ZeroPad(r2[0]) !in Codes(m.tables.postalCodes) ==>
            r.tables.postalCodes[|r.tables.postalCodes| - 1].cityId == m.cities[key])
  {
    StepCachesRow(s, r1);
    StepCachedCity(Step(s, r1), r2);
  }

  /** A code and the same code with one more leading zero are the same code to the import. */
  lemma LeadingZeroCodesCollide(code: string)
    requires ByteLength(code) < CodeWidth
    ensures ZeroPad(code) == ZeroPad("0" + code)
  {
    PadLeftAbsorbsPad(code, CodeWidth, '0');
  }

  /** The width counts bytes: a two-byte letter takes the room of two digits. */
  lemma ZeroPadCountsBytes()
    ensures ZeroPad("\U{E9}") == "00\U{E9}"
    ensures ZeroPad("12\U{E9}") == "12\U{E9}"
  {
    assert ByteLength("\U{E9}") == 2;
    assert ByteLength("0\U{E9}") == 3;
    assert ByteLength("00\U{E9}") == 4;
    assert ByteLength("12\U{E9}") == 4 by {
      assert "12\U{E9}"[1..] == "2\U{E9}" && "2\U{E9}"[1..] == "\U{E9}";
    }
  }

  /**
   * What a committed run reports: every non-skipped data row is counted once,
   * as created or as duplicate; `count` is the number of distinct padded codes
   * of the file that were not in the table before, and the table now holds
   * exactly the old codes plus the file's codes, each once; every kept row's
   * trimmed county name is now a county.
   */
  lemma ImportSummary(t: Tables, lines: seq<Row>, storageFailsAt: Option<nat>)
    requires WellFormed(t)
    requires Seed(t, lines, true, storageFailsAt).1.Imported?
    ensures
      var (u, out) := Seed(t, lines, true, storageFailsAt);
      var data := SkipLines(lines, HeaderLines);
      && out.count + out.duplicates == |Kept(data)|
      && out.count == |FileCodes(data) - Codes(t.postalCodes)|
      && Codes(u.postalCodes) == Codes(t.postalCodes) + FileCodes(data)
      && |u.postalCodes| == |t.postalCodes| + out.count
      && (forall i :: 0 <= i < |data| && !Skipped(data[i]) ==> Trim(data[i][2]) in CountyNames(u.counties))
      && WellFormed(u)
  {
    var data := SkipLines(lines, HeaderLines);
    KeptCountiesExist(t, data);
    FoldCounts(Start(t), data);
    FoldCodes(Start(t), data);
    FoldCreated(Start(t), data);
  }

  /** The header line is discarded unread: its content never matters. */
  lemma HeaderIgnored(t: Tables, h1: Row, h2: Row, rows: seq<Row>, storageFailsAt: Option<nat>)
    ensures Seed(t, [h1] + rows, true, storageFailsAt) == Seed(t, [h2] + rows, true, storageFailsAt)
  {
    assert SkipLines([h1] + rows, HeaderLines) == rows == SkipLines([h2] + rows, HeaderLines);
  }

  // ---------------------------------------------------------------------------
  // The seeder as it runs

  /** Both cache blocks of the loop body. */
  method ResolveRow(db: Database, row: Row, counties: map<string, Id>, cities: map<string, Id>,
                    ghost count: nat, ghost duplicates: nat)
    returns (counties': map<string, Id>, cities': map<string, Id>)
    requires !Skipped(row)
    modifies db
    ensures State(db.Contents(), counties', cities', count, duplicates)
         == Resolve(State(old(db.Contents()), counties, cities, count, duplicates), row)
  {
    counties' := ResolveCounty(db, counties, row[2], Trim(row[2]));
    var cityKey := Trim(row[1]) + "_" + Trim(row[2]);
    cities' := ResolveCity(db, cities, cityKey, Trim(row[1]), counties'[row[2]]);
  }

  /** The existence check on the code, then the insert or the duplicate count. */
  method RecordRow(db: Database, code: string, cityId: Id, ghost counties: map<string, Id>,
                   ghost cities: map<string, Id>, count: nat, duplicates: nat)
    returns (count': nat, duplicates': nat)
    modifies db
    ensures State(db.Contents(), counties, cities, count', duplicates')
         == RecordCode(State(old(db.Contents()), counties, cities, count, duplicates), code, cityId)
  {
    ghost var recorded := RecordCode(State(db.Contents(), counties, cities, count, duplicates), code, cityId);
    count', duplicates' := count, duplicates;
    if FindCode(db.postalCodes, code).None? {
      var _ := db.InsertPostalCode(code, cityId);
      assert db.Contents() == recorded.tables;
      count' := count + 1;
    } else {
      duplicates' := duplicates + 1;
    }
  }

  /** One pass of the while loop body. */
  method ProcessRow(db: Database, row: Row, counties: map<string, Id>, cities: map<string, Id>, count: nat, duplicates: nat)
    returns (counties': map<string, Id>, cities': map<string, Id>, count': nat, duplicates': nat)
    modifies db
    ensures State(db.Contents(), counties', cities', count', duplicates')
         == Step(State(old(db.Contents()), counties, cities, count, duplicates), row)
  {
    counties', cities', count', duplicates' := counties, cities, count, duplicates;
    if EmptyField(row, 0) || EmptyField(row, 1) || EmptyField(row, 2) {
      return;
    }
    var code := PadLeft(row[0], CodeWidth, '0');
    counties', cities' := ResolveRow(db, row, counties, cities, count, duplicates);
    var cityKey := Trim(row[1]) + "_" + Trim(row[2]);
    count', duplicates' := RecordRow(db, code, cities'[cityKey], counties', cities', count, duplicates);
  }

  /**
   * The while loop over fgetcsv rows. `storageFailsAt` names the data row at
   * which the storage engine raises, if any; DB::transaction then rolls back
   * and rethrows.
   */
  method Run(db: Database, lines: seq<Row>, fileExists: bool, storageFailsAt: Option<nat>)
    returns (outcome: Outcome)
    modifies db
    ensures (db.Contents(), outcome) == Seed(old(db.Contents()), lines, fileExists, storageFailsAt)
  {
    if !fileExists {
      return MissingFile;
    }
    var before := db.Contents();
    var data := SkipLines(lines, HeaderLines);
    var counties: map<string, Id> := map[];
    var cities: map<string, Id> := map[];
    var count, duplicates := 0, 0;
    var i := 0;
    while i < |data|
      invariant 0 <= i <= |data|
      invariant storageFailsAt.Some? && storageFailsAt.value < |data| ==> i <= storageFailsAt.value
      invariant Fold(Start(before), data[..i]) == State(db.Contents(), counties, cities, count, duplicates)
    {
      if storageFailsAt == Some(i) {
        db.Restore(before);
        return Aborted;
      }
      FoldPrefixSnoc(Start(before), data, i);
      counties, cities, count, duplicates := ProcessRow(db, data[i], counties, cities, count, duplicates);
      i := i + 1;
    }
    WholePrefix(data);
    return Imported(count, duplicates);
  }
}
