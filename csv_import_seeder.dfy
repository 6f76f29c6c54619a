/**
 * CsvImportSeeder::run — the settlement import.
 *
 * It discards two lines (a header and a blank line), loads every county
 * into a name => id cache before the transaction, then for each row trims
 * the three fields, skips the row if any trimmed field is PHP-empty,
 * creates the county (County::create, not firstOrCreate) when its trimmed
 * name is not cached, and creates one settlement per row. Any exception
 * rolls the transaction back and is reported, not rethrown.
 */
module CsvImportSeeder {
  import opened Wrappers
  import opened Php
  import opened Store
  import opened Csv

  const HeaderLines: nat := 2

  /** The loop's variables: the tables, the county cache and the counter. */
  datatype State = State(tables: Tables, counties: map<string, Id>, count: nat)

  /** How run() ends: the file is missing, the transaction commits, or it rolls back. */
  datatype Outcome = MissingFile | Imported(count: nat) | RolledBack(error: Exception)

  /** `County::pluck('id', 'name')->toArray()`: one entry per row in table order, a later row winning. */
  function NameIndex(cs: seq<County>): map<string, Id>
    decreases |cs|
  {
    if cs == [] then map[]
    else NameIndex(cs[..|cs| - 1])[cs[|cs| - 1].name := cs[|cs| - 1].id]
  }

  /** The cache holds exactly the county names of the table, each with its county's id. */
  ghost predicate CacheMatches(s: State) {
    && (forall name :: name in s.counties <==> name in CountyNames(s.tables.counties))
    && (forall name :: name in s.counties ==> CountyIdOf(s.tables.counties, name) == Some(s.counties[name]))
  }

  function Start(t: Tables): State {
    State(t, NameIndex(t.counties), 0)
  }

  /** `empty($zip) || empty($cityName) || empty($countyName)`, on the trimmed fields. */
  predicate Blank(row: Row)
    requires Complete(row)
  {
    Empty(Trim(row[0])) || Empty(Trim(row[1])) || Empty(Trim(row[2]))
  }

  /** `if (!isset($counties[$countyName]))`: the cached id, or County::create on a miss. */
  function CachedCounty(s: State, name: string): (r: Result<Resolved, Exception>)
    ensures name in s.counties ==> r == Ok(Resolved(s.tables, s.counties[name]))
    ensures r.Ok? ==> Extends(s.tables, r.value.tables) && r.value.tables.settlements == s.tables.settlements
    ensures r.Ok? ==> r.value.tables.cities == s.tables.cities && r.value.tables.postalCodes == s.tables.postalCodes
    ensures r.Ok? && WellFormed(s.tables) ==> WellFormed(r.value.tables)
    ensures name !in s.counties ==> (r.Err? <==> name in CountyNames(s.tables.counties))
    ensures name !in s.counties && r.Ok? ==>
      && CountyIdOf(r.value.tables.counties, name) == Some(r.value.id)
      && CountyNames(r.value.tables.counties) == CountyNames(s.tables.counties) + {name}
  {
    if name in s.counties then Ok(Resolved(s.tables, s.counties[name]))
    else
      CountyNamesFind(s.tables.counties, name);
      CountyNamesAppend(s.tables.counties, County(s.tables.nextId, name));
      CountyCreate(s.tables, name)
  }

  /** The body of a kept row: resolve the county through the cache, then Settlement::create. */
  function Settle(s: State, zip: string, cityName: string, countyName: string): (r: Result<State, Exception>)
    ensures countyName in s.counties ==> r.Ok?
    ensures r.Ok? ==> Extends(s.tables, r.value.tables) && r.value.count == s.count + 1
    ensures r.Ok? ==> r.value.tables.cities == s.tables.cities && r.value.tables.postalCodes == s.tables.postalCodes
    ensures r.Ok? && WellFormed(s.tables) ==> WellFormed(r.value.tables)
  {
    match CachedCounty(s, countyName)
    case Err(e) => Err(e)
    case Ok(c) =>
      var t := SettlementInsert(c.tables, zip, cityName, c.id).tables;
      ExtendsTrans(s.tables, c.tables, t);
      Ok(State(t, s.counties[countyName := c.id], s.count + 1))
  }

  /** One pass of the while loop. */
  function Step(s: State, row: Row): (r: Result<State, Exception>)
    ensures !Complete(row) ==> r == Err(UndefinedArrayKey)
    ensures Complete(row) && Blank(row) ==> r == Ok(s)
    ensures r.Ok? ==> Extends(s.tables, r.value.tables)
    ensures r.Ok? ==> r.value.tables.cities == s.tables.cities && r.value.tables.postalCodes == s.tables.postalCodes
    ensures r.Ok? && WellFormed(s.tables) ==> WellFormed(r.value.tables)
  {
    if !Complete(row) then Err(UndefinedArrayKey)
    else
      var zip, cityName, countyName := Trim(row[0]), Trim(row[1]), Trim(row[2]);
      if Empty(zip) || Empty(cityName) || Empty(countyName) then Ok(s)
      else Settle(s, zip, cityName, countyName)
  }

  /** The loop over the data rows; the first exception ends it. */
  function Fold(s: State, rows: seq<Row>): (r: Result<State, Exception>)
    ensures r.Ok? ==> Extends(s.tables, r.value.tables)
    ensures r.Ok? && WellFormed(s.tables) ==> WellFormed(r.value.tables)
    decreases |rows|
  {
    if rows == [] then Ok(s)
    else match Fold(s, rows[..|rows| - 1])
      case Err(e) => Err(e)
      case Ok(m) => Step(m, rows[|rows| - 1])
  }

  /** One more row of a committed prefix is one more Step. */
  lemma FoldPrefixSnoc(s: State, data: seq<Row>, i: nat)
    requires i < |data| && Fold(s, data[..i]).Ok?
    ensures Fold(s, data[..i + 1]) == Step(Fold(s, data[..i]).value, data[i])
  {
    PrefixSnoc(data, i);
  }

  /**
   * The transaction around the loop. `storageFailsAt` names the data row at
   * which the storage engine raises, if any. Any exception rolls back and is
   * reported instead of rethrown.
   */
  function SeedRows(t: Tables, data: seq<Row>, storageFailsAt: Option<nat>): (r: (Tables, Outcome))
    ensures !r.1.MissingFile?
    ensures !r.1.Imported? ==> r.0 == t
    ensures WellFormed(t) ==> WellFormed(r.0)
  {
    var upto := Reached(data, storageFailsAt);
    match Fold(Start(t), data[..upto])
    case Err(e) => (t, RolledBack(e))
    case Ok(s) => if upto < |data| then (t, RolledBack(StorageError)) else (s.tables, Imported(s.count))
  }

  /** run(): the file check, the two discarded lines, then the transaction. */
  function Seed(t: Tables, lines: seq<Row>, fileExists: bool, storageFailsAt: Option<nat>): (r: (Tables, Outcome))
    ensures r.1.MissingFile? <==> !fileExists
    ensures !r.1.Imported? ==> r.0 == t
    ensures WellFormed(t) ==> WellFormed(r.0)
  {
    if !fileExists then (t, MissingFile)
    else SeedRows(t, SkipLines(lines, HeaderLines), storageFailsAt)
  }

  /** The rows that create a settlement: all three fields present and none of them empty after trimming. */
  function Kept(rows: seq<Row>): (r: seq<Row>)
    ensures forall i :: 0 <= i < |r| ==> Complete(r[i]) && !Blank(r[i])
    decreases |rows|
  {
    if rows == [] then []
    else
      var last := rows[|rows| - 1];
      Kept(rows[..|rows| - 1]) + if Complete(last) && !Blank(last) then [last] else []
  }

  /** The trimmed county names of the rows that create a settlement. */
  function KeptCounties(rows: seq<Row>): set<string>
    decreases |rows|
  {
    if rows == [] then {}
    else
      var last := rows[|rows| - 1];
      KeptCounties(rows[..|rows| - 1]) + if Complete(last) && !Blank(last) then {Trim(last[2])} else {}
  }

  /** A settlement row carries the row's trimmed code and name and the id of the county named by its trimmed county field. */
  predicate SettledAs(t: Tables, st: Settlement, row: Row)
    requires Complete(row)
  {
    st.postalCode == Trim(row[0]) && st.name == Trim(row[1]) && CountyIdOf(t.counties, Trim(row[2])) == Some(st.countyId)
  }

  // ---------------------------------------------------------------------------
  // Properties of the loop

  /** The pluck cache has one key per county name of the table. */
  lemma {:induction false} NameIndexKeys(cs: seq<County>)
    ensures forall name :: name in NameIndex(cs) <==> name in CountyNames(cs)
    decreases |cs|
  {
    if cs != [] {
      var prefix, last := cs[..|cs| - 1], cs[|cs| - 1];
      NameIndexKeys(prefix);
      CountyNamesAppend(prefix, last);
      assert cs == prefix + [last];
    }
  }

  /** On a table with unique county names, each key of the pluck cache maps to its county's id. */
  lemma {:induction false} NameIndexMatches(cs: seq<County>, next: Id)
    requires CountiesOk(cs, next)
    ensures forall name :: name in NameIndex(cs) ==> CountyIdOf(cs, name) == Some(NameIndex(cs)[name])
    decreases |cs|
  {
    if cs != [] {
      var prefix, last := cs[..|cs| - 1], cs[|cs| - 1];
      NameIndexMatches(prefix, next);
      forall name | name in NameIndex(cs) ensures CountyIdOf(cs, name) == Some(NameIndex(cs)[name]) {
        if name == last.name {
          assert forall j :: 0 <= j < |prefix| ==> cs[j] == prefix[j] && cs[j].name != name;
          assert FindCounty(cs, name) == Some(|prefix|);
        } else {
          CountyIdOfExtends(prefix, cs, name);
        }
      }
    }
  }

  lemma StartMatches(t: Tables)
    requires WellFormed(t)
    ensures CacheMatches(Start(t))
  {
    NameIndexKeys(t.counties);
    NameIndexMatches(t.counties, t.nextId);
  }

  /**
   * With a matching cache, County::create is only called for a name the table
   * does not hold, so a complete row never fails; the cache keeps matching.
   */
  lemma StepKeepsCache(s: State, row: Row)
    requires CacheMatches(s) && Complete(row)
    ensures Step(s, row).Ok? && CacheMatches(Step(s, row).value)
  {
    if !Blank(row) {
      var r := Step(s, row).value;
      var name := Trim(row[2]);
      if name !in s.counties {
        var c := CountyFirstOrCreate(s.tables, name);
        CountyNamesFind(s.tables.counties, name);
        CountyNamesAppend(s.tables.counties, County(c.id, name));
        assert r.tables.counties == c.tables.counties;
      }
      forall other | other in s.counties ensures CountyIdOf(r.tables.counties, other) == Some(r.counties[other]) {
        CountyIdOfExtends(s.tables.counties, r.tables.counties, other);
      }
    }
  }

  /** The loop commits exactly when every row has three fields; the cache keeps matching. */
  lemma {:induction false} FoldOkIffComplete(s: State, rows: seq<Row>)
    requires CacheMatches(s)
    ensures Fold(s, rows).Ok? <==> AllComplete(rows)
    ensures Fold(s, rows).Ok? ==> CacheMatches(Fold(s, rows).value)
    decreases |rows|
  {
    if rows != [] {
      var prefix, last := rows[..|rows| - 1], rows[|rows| - 1];
      SplitLast(rows);
      FoldOkIffComplete(s, prefix);
      AllCompleteSnoc(prefix, last);
      if Fold(s, prefix).Ok? {
        var m := Fold(s, prefix).value;
        assert Fold(s, rows) == Step(m, last);
        if Complete(last) {
          StepKeepsCache(m, last);
        }
      } else {
        assert Fold(s, rows).Err?;
      }
    }
  }

  /** A kept row appends one settlement as the row says and counts it; other rows change nothing. */
  ghost predicate RowSettled(s: State, row: Row, r: State)
    requires Complete(row)
  {
    if Blank(row) then r == s
    else
      && Extends(s.tables, r.tables)
      && r.count == s.count + 1
      && |r.tables.settlements| == |s.tables.settlements| + 1
      && SettledAs(r.tables, r.tables.settlements[|s.tables.settlements|], row)
      && CountyNames(r.tables.counties) == CountyNames(s.tables.counties) + {Trim(row[2])}
  }

  lemma StepSettles(s: State, row: Row)
    requires CacheMatches(s) && Complete(row)
    ensures Step(s, row).Ok? && RowSettled(s, row, Step(s, row).value)
  {
    StepKeepsCache(s, row);
    if !Blank(row) {
      var name := Trim(row[2]);
      var r := Step(s, row).value;
      if name !in s.counties {
        var c := CountyFirstOrCreate(s.tables, name);
        CountyNamesFind(s.tables.counties, name);
        CountyNamesAppend(s.tables.counties, County(c.id, name));
      }
      assert r.tables.settlements[|s.tables.settlements|].countyId == r.counties[name];
    }
  }

  lemma KeptSnoc(prefix: seq<Row>, last: Row)
    ensures Kept(prefix + [last]) == Kept(prefix) + if Complete(last) && !Blank(last) then [last] else []
    ensures KeptCounties(prefix + [last]) == KeptCounties(prefix) + if Complete(last) && !Blank(last) then {Trim(last[2])} else {}
  {
    assert (prefix + [last])[..|prefix|] == prefix;
  }

  /** From position `n` on, the settlements are those of `kept`, one per row, in order. */
  predicate SettlesFrom(t: Tables, n: nat, kept: seq<Row>) {
    && |t.settlements| == n + |kept|
    && forall j :: 0 <= j < |kept| ==> Complete(kept[j]) && SettledAs(t, t.settlements[n + j], kept[j])
  }

  /** Appending one settlement for `row` extends what the settlements record. */
  lemma SettlesSnoc(t: Tables, u: Tables, n: nat, kept: seq<Row>, row: Row)
    requires SettlesFrom(t, n, kept) && Extends(t, u) && Complete(row)
    requires |u.settlements| == |t.settlements| + 1 && SettledAs(u, u.settlements[|t.settlements|], row)
    ensures SettlesFrom(u, n, kept + [row])
  {
    var all := kept + [row];
    forall j | 0 <= j < |all| ensures Complete(all[j]) && SettledAs(u, u.settlements[n + j], all[j]) {
      if j < |kept| {
        assert all[j] == kept[j];
        assert u.settlements[n + j] == t.settlements[n + j];
        CountyIdOfExtends(t.counties, u.counties, Trim(kept[j][2]));
      } else {
        assert all[j] == row;
      }
    }
  }

  /** What a committed loop has done so far: kept rows counted, settled in order, their counties added. */
  ghost predicate SettledRows(s: State, rows: seq<Row>, r: State) {
    && r.count == s.count + |Kept(rows)|
    && SettlesFrom(r.tables, |s.tables.settlements|, Kept(rows))
    && CountyNames(r.tables.counties) == CountyNames(s.tables.counties) + KeptCounties(rows)
  }

  /** Nothing is settled before the first row. */
  lemma SettledRowsEmpty(s: State)
    ensures SettledRows(s, [], s)
  {
    assert Kept([]) == [];
  }

  /** One more committed row keeps the count equal to the number of kept rows. */
  lemma CountedSnoc(s: State, prefix: seq<Row>, last: Row, m: State, r: State)
    requires Complete(last) && RowSettled(m, last, r)
    requires m.count == s.count + |Kept(prefix)|
    ensures r.count == s.count + |Kept(prefix + [last])|
  {
    KeptSnoc(prefix, last);
  }

  /** One more committed row adds its county name, if it is kept, to the county names. */
  lemma CountiesSnoc(s: State, prefix: seq<Row>, last: Row, m: State, r: State)
    requires Complete(last) && RowSettled(m, last, r)
    requires CountyNames(m.tables.counties) == CountyNames(s.tables.counties) + KeptCounties(prefix)
    ensures CountyNames(r.tables.counties) == CountyNames(s.tables.counties) + KeptCounties(prefix + [last])
  {
    KeptSnoc(prefix, last);
    if !Blank(last) {
      UnionSnoc(CountyNames(r.tables.counties), CountyNames(m.tables.counties),
                CountyNames(s.tables.counties), KeptCounties(prefix), KeptCounties(prefix + [last]), {Trim(last[2])});
    }
  }

  lemma UnionSnoc<T>(after: set<T>, mid: set<T>, start: set<T>, seen: set<T>, seenAfter: set<T>, added: set<T>)
    requires after == mid + added && mid == start + seen && seenAfter == seen + added
    ensures after == start + seenAfter
  {
  }

  /** One more committed row appends its settlement after those of the earlier kept rows. */
  lemma SettlesFromSnoc(s: State, prefix: seq<Row>, last: Row, m: State, r: State)
    requires Complete(last) && RowSettled(m, last, r)
    requires SettlesFrom(m.tables, |s.tables.settlements|, Kept(prefix))
    ensures SettlesFrom(r.tables, |s.tables.settlements|, Kept(prefix + [last]))
  {
    KeptSnoc(prefix, last);
    if !Blank(last) {
      SettlesSnoc(m.tables, r.tables, |s.tables.settlements|, Kept(prefix), last);
    }
  }

  /** One more committed row keeps SettledRows. */
  lemma SettledRowsSnoc(s: State, prefix: seq<Row>, last: Row, m: State)
    requires CacheMatches(m) && Complete(last) && SettledRows(s, prefix, m)
    ensures SettledRows(s, prefix + [last], Step(m, last).value)
  {
    StepSettles(m, last);
    var r := Step(m, last).value;
    CountedSnoc(s, prefix, last, m, r);
    CountiesSnoc(s, prefix, last, m, r);
    SettlesFromSnoc(s, prefix, last, m, r);
  }

  /**
   * A committed loop counts the kept rows, appends one settlement per kept
   * row, in file order, carrying that row's data, and adds exactly the
   * kept rows' county names to the counties.
   */
  lemma {:induction false} FoldSettles(s: State, rows: seq<Row>)
    requires CacheMatches(s) && Fold(s, rows).Ok?
    ensures SettledRows(s, rows, Fold(s, rows).value)
    decreases |rows|
  {
    if rows == [] {
      SettledRowsEmpty(s);
    } else {
      var prefix, last := rows[..|rows| - 1], rows[|rows| - 1];
      assert Fold(s, prefix).Ok?;
      FoldOkIffComplete(s, prefix);
      FoldSettles(s, prefix);
      var m := Fold(s, prefix).value;
      assert Fold(s, rows) == Step(m, last);
      SplitLast(rows);
      SettledRowsSnoc(s, prefix, last, m);
    }
  }

  /**
   * What a committed run does: `count` is the number of kept rows, one
   * settlement is appended per kept row with that row's data, and the
   * counties gain exactly the kept rows' county names, each once.
   */
  lemma SeedSummary(t: Tables, lines: seq<Row>, storageFailsAt: Option<nat>)
    requires WellFormed(t) && Seed(t, lines, true, storageFailsAt).1.Imported?
    ensures
      var (u, out) := Seed(t, lines, true, storageFailsAt);
      var kept := Kept(SkipLines(lines, HeaderLines));
      && out.count == |kept|
      && u.settlements[..|t.settlements|] == t.settlements
      && SettlesFrom(u, |t.settlements|, kept)
      && CountyNames(u.counties) == CountyNames(t.counties) + KeptCounties(SkipLines(lines, HeaderLines))
      && CountiesOk(u.counties, u.nextId)
  {
    var data := SkipLines(lines, HeaderLines);
    assert Reached(data, storageFailsAt) == |data|;
    WholePrefix(data);
    StartMatches(t);
    FoldSettles(Start(t), data);
    var r := Fold(Start(t), data).value;
    assert Seed(t, lines, true, storageFailsAt) == (r.tables, Imported(r.count));
  }

  /** A row without three fields rolls the whole import back, even after rows that were stored. */
  lemma ShortRowRollsBack(t: Tables, lines: seq<Row>, i: nat)
    requires WellFormed(t)
    requires i < |SkipLines(lines, HeaderLines)| && !Complete(SkipLines(lines, HeaderLines)[i])
    ensures Seed(t, lines, true, None) == (t, RolledBack(UndefinedArrayKey))
  {
    var data := SkipLines(lines, HeaderLines);
    WholePrefix(data);
    StartMatches(t);
    FoldOkIffComplete(Start(t), data);
    FoldFirstError(Start(t), data);
  }

  /** With a matching cache, the only exception the loop raises is the missing-field one. */
  lemma {:induction false} FoldFirstError(s: State, rows: seq<Row>)
    requires CacheMatches(s)
    ensures Fold(s, rows).Err? ==> Fold(s, rows).error == UndefinedArrayKey
    decreases |rows|
  {
    if rows != [] {
      var prefix, last := rows[..|rows| - 1], rows[|rows| - 1];
      FoldFirstError(s, prefix);
      FoldOkIffComplete(s, prefix);
      if Fold(s, prefix).Ok? && Complete(last) {
        StepKeepsCache(Fold(s, prefix).value, last);
      }
    }
  }

  /**
   * Settlements carry no unique constraint: running the seeder again on the
   * same file appends the same number of settlements a second time.
   */
  lemma RerunDuplicatesSettlements(t: Tables, lines: seq<Row>)
    requires WellFormed(t) && Seed(t, lines, true, None).1.Imported?
    ensures
      var u := Seed(t, lines, true, None).0;
      var (w, out) := Seed(u, lines, true, None);
      && out == Seed(t, lines, true, None).1
      && |w.settlements| == |t.settlements| + 2 * out.count
    ensures
      var u := Seed(t, lines, true, None).0;
      var w := Seed(u, lines, true, None).0;
      && w.settlements[..|u.settlements|] == u.settlements
      && SettlesFrom(w, |u.settlements|, Kept(SkipLines(lines, HeaderLines)))
  {
    var data := SkipLines(lines, HeaderLines);
    WholePrefix(data);
    var u := Seed(t, lines, true, None).0;
    StartMatches(t);
    FoldOkIffComplete(Start(t), data);
    StartMatches(u);
    FoldOkIffComplete(Start(u), data);
    SeedSummary(t, lines, None);
    SeedSummary(u, lines, None);
  }

  /** The two discarded lines are never read. */
  lemma HeaderIgnored(t: Tables, h: seq<Row>, k: seq<Row>, rows: seq<Row>, storageFailsAt: Option<nat>)
    requires |h| == HeaderLines && |k| == HeaderLines
    ensures Seed(t, h + rows, true, storageFailsAt) == Seed(t, k + rows, true, storageFailsAt)
  {
    assert SkipLines(h + rows, HeaderLines) == rows == SkipLines(k + rows, HeaderLines);
  }

  /** The three ways out of the loop. */
  lemma SeedRowsFault(t: Tables, data: seq<Row>, i: nat)
    requires i < |data| && Fold(Start(t), data[..i]).Ok?
    ensures SeedRows(t, data, Some(i)) == (t, RolledBack(StorageError))
  {
  }

  lemma SeedRowsThrow(t: Tables, data: seq<Row>, storageFailsAt: Option<nat>, i: nat)
    requires i < Reached(data, storageFailsAt) && Fold(Start(t), data[..i]).Ok?
    requires Step(Fold(Start(t), data[..i]).value, data[i]).Err?
    ensures SeedRows(t, data, storageFailsAt) == (t, RolledBack(Step(Fold(Start(t), data[..i]).value, data[i]).error))
  {
    var upto := Reached(data, storageFailsAt);
    assert data[..upto][..i] == data[..i] && data[..upto][i] == data[i];
    RowErrSticks(Start(t), data[..upto], i);
  }

  lemma SeedRowsCommit(t: Tables, data: seq<Row>, storageFailsAt: Option<nat>)
    requires Reached(data, storageFailsAt) == |data| && Fold(Start(t), data).Ok?
    ensures SeedRows(t, data, storageFailsAt) == (Fold(Start(t), data).value.tables, Imported(Fold(Start(t), data).value.count))
  {
    WholePrefix(data);
  }

  /** Once the loop has thrown, later rows do not matter. */
  lemma {:induction false} FoldErrSticks(s: State, rows: seq<Row>, k: nat)
    requires k <= |rows| && Fold(s, rows[..k]).Err?
    ensures Fold(s, rows) == Fold(s, rows[..k])
    decreases |rows|
  {
    if k < |rows| {
      var prefix := rows[..|rows| - 1];
      assert prefix[..k] == rows[..k];
      FoldErrSticks(s, prefix, k);
    } else {
      assert rows[..k] == rows;
    }
  }

  lemma RowErrSticks(s: State, rows: seq<Row>, i: nat)
    requires i < |rows| && Fold(s, rows[..i]).Ok? && Step(Fold(s, rows[..i]).value, rows[i]).Err?
    ensures Fold(s, rows) == Step(Fold(s, rows[..i]).value, rows[i])
  {
    PrefixSnoc(rows, i);
    FoldErrSticks(s, rows, i + 1);
  }

  // ---------------------------------------------------------------------------
  // The seeder as it runs

  /** The loop body: trim, the empty check, the county cache and Settlement::create. */
  method SeedRow(db: Database, row: Row, counties: map<string, Id>, count: nat)
    returns (counties': map<string, Id>, count': nat, thrown: Option<Exception>)
    modifies db
    ensures match Step(State(old(db.Contents()), counties, count), row)
      case Ok(s) => thrown.None? && State(db.Contents(), counties', count') == s
      case Err(e) => thrown == Some(e)
  {
    counties', count', thrown := counties, count, None;
    if |row| < 3 {
      return counties', count', Some(UndefinedArrayKey);
    }
    var zip, cityName, countyName := Trim(row[0]), Trim(row[1]), Trim(row[2]);
    if Empty(zip) || Empty(cityName) || Empty(countyName) {
      return counties', count', None;
    }
    if countyName !in counties {
      var created := db.CreateCounty(countyName);
      if created.Err? {
        return counties', count', Some(created.error);
      }
      counties' := counties[countyName := created.value];
    }
    var countyId := counties'[countyName];
    var _ := db.InsertSettlement(zip, cityName, countyId);
    count' := count + 1;
  }

  /** The transaction block of run(): the loop, then commit, or roll back on any exception. */
  method SeedData(db: Database, data: seq<Row>, storageFailsAt: Option<nat>) returns (outcome: Outcome)
    modifies db
    ensures (db.Contents(), outcome) == SeedRows(old(db.Contents()), data, storageFailsAt)
  {
    var count := 0;
    var counties := NameIndex(db.counties);
    var before := db.Contents();
    var i := 0;
    while i < |data|
      invariant 0 <= i <= Reached(data, storageFailsAt)
      invariant Fold(Start(before), data[..i]) == Ok(State(db.Contents(), counties, count))
    {
      if storageFailsAt == Some(i) {
        SeedRowsFault(before, data, i);
        db.Restore(before);
        return RolledBack(StorageError);
      }
      ghost var pre := State(db.Contents(), counties, count);
      FoldPrefixSnoc(Start(before), data, i);
      var e;
      counties, count, e := SeedRow(db, data[i], counties, count);
      if e.Some? {
        assert Step(pre, data[i]) == Err(e.value);
        SeedRowsThrow(before, data, storageFailsAt, i);
        db.Restore(before);
        return RolledBack(e.value);
      }
      i := i + 1;
    }
    WholePrefix(data);
    SeedRowsCommit(before, data, storageFailsAt);
    return Imported(count);
  }

  /** run(). */
  method Run(db: Database, lines: seq<Row>, fileExists: bool, storageFailsAt: Option<nat>) returns (outcome: Outcome)
    modifies db
    ensures (db.Contents(), outcome) == Seed(old(db.Contents()), lines, fileExists, storageFailsAt)
  {
    if !fileExists {
      return MissingFile;
    }
    outcome := SeedData(db, SkipLines(lines, HeaderLines), storageFailsAt);
  }
}
