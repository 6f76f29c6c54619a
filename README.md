# Postal-code import and endpoints, modelled in Dafny

This project models the part of the postal-code application that moves data
into the four tables `counties`, `cities`, `postal_codes` and `settlements`.
It covers three CSV importers and three endpoints.

- **PostalCodeSeeder::run** is the main seeder. It:
  - discards one header line;
  - skips a row when any of its three raw fields is PHP-empty (`""`, `"0"` or absent);
  - left-pads the code with `'0'` to four bytes, as `str_pad` counts them;
  - caches counties by the raw county name;
  - caches cities by `trim(city) . '_' . trim(county)`;
  - inserts a postal code only when the code is new, counting created rows and duplicates.
- **ImportPostalCodes** is the `import:postal-codes` console command, `handle` and `importFromCsv`. It:
  - discards one header line;
  - uses every field as it is;
  - caches counties by the raw name and cities by `city . '_' . county`;
  - calls `PostalCode::firstOrCreate` on (code, city id).

  A code already bound to another city violates the unique index. `firstOrCreate` inserts through `createOrFirst`, which catches that violation and looks the pair up again with `firstOrFail`. No row has the pair, so a `ModelNotFoundException` (`Store.RecordNotFound`) is raised. The run then rolls back and rethrows it.
- **CsvImportSeeder::run** is the settlement seeder. It:
  - discards two lines;
  - preloads a name-to-id cache of every county;
  - trims the three fields before the empty check;
  - calls `County::create` for a county name it has not cached;
  - inserts one settlement per kept row.

  Any exception rolls the transaction back and is reported, not rethrown.
- **PostalCodeController** has three endpoints:
  - `store` validates the request, then resolves county, city and postal code;
  - `update` validates the request (the uniqueness check excludes the record's own id), optionally re-binds the row to another city using the current names as defaults, sets the code if one was sent, and saves;
  - `searchByCode` returns the first row with the code, or 404.

## How the model is built

- **Tables.** The database is the `Store.Tables` value. It has the four tables and an auto-increment counter `nextId`.
- **Constraints.** The schema's two unique constraints are part of `Store.WellFormed`: county `name` and postal-code `code`. Every operation is proved to preserve `Store.WellFormed`.
- **ORM calls.** Each ORM call the core makes is a function on `Tables`:
  - `firstOrCreate` returns the first matching row, or appends a new row with the next id; when that insert hits a unique constraint, the row is looked up again and `ModelNotFoundException` is raised;
  - `create` appends a row, or fails on a unique constraint;
  - `save` rewrites one row;
  - `where(...)->first()` returns the first row in table order.
- **The database in place.** `Store.Database` is the mutable connection. Its methods perform the same calls on its fields and are proved equal to those functions.
- **Importers.** Each importer's `while` loop is a method with loop invariants. The method is proved equal to a left fold (`Fold`) of a one-row function (`Step`) over the data rows. The properties of the importer are lemmas about `Step`, `Fold` and the run function (`Seed` or `Import`).
- **Transactions.** A transaction is a snapshot of the tables plus `Database.Restore`.
- **Storage faults.** A storage failure is an input, `storageFailsAt`: the index of the data row at which the storage engine raises. This lets the rollback paths be stated.
- **Missing fields.** A row with fewer than three fields raises "Undefined array key" wherever the source indexes the row unguarded.
- **Inputs.** File existence and the file's rows, already split into fields, are parameters.
- **Strings.** Fields are Unicode text decoded from a UTF-8 file. Where PHP counts bytes (`strlen` inside `str_pad`), `Php.ByteLength` counts the UTF-8 bytes of the text.

Behaviour of the code that a reader might not expect:
- PostalCodeSeeder runs `empty()` on the raw fields, before any trimming. It never trims the code. So a whitespace-only field is not skipped.
- Not every kept row has a city with its own (name, county) pair. Two different (city, county) pairs can share a city-cache key, and then the second pair reuses the first pair's city (`PostalCodeSeeder.CityKeysCollide`, `PostalCodeSeeder.SharedCityKey`).
- ImportPostalCodes deduplicates on the pair (code, city id), not on the code alone. A code already used by another city aborts the whole run.

## Model

| member | source | states |
|---|---|---|
| Php.TrimStart | database/seeders/CsvImportSeeder.php:47-49 | ltrim: the result does not start with a trimmable character; a string that does not start with one is returned as it is |
| Php.TrimEnd | database/seeders/CsvImportSeeder.php:47-49 | rtrim: the result is no longer than the input and does not end with a trimmable character; a string that does not end with one is returned as it is |
| Php.Trim | database/seeders/CsvImportSeeder.php:47-49 | trim: neither end of the result is trimmable; a string with no trimmable character at either end is returned as it is |
| Php.TrimStartDropsPrefix | database/seeders/CsvImportSeeder.php:47-49 | ltrim returns a suffix of its input, and every character it drops is trimmable |
| Php.TrimEndDropsSuffix | database/seeders/CsvImportSeeder.php:47-49 | rtrim returns a prefix of its input, and every character it drops is trimmable |
| Php.TrimKeepsMiddle | database/seeders/CsvImportSeeder.php:47-49 | trim returns a contiguous substring of its input, and every character before or after it is trimmable |
| Php.ByteLength | database/seeders/PostalCodeSeeder.php:41 | strlen: the UTF-8 length in bytes, never less than the number of characters |
| Php.PadLeft | database/seeders/PostalCodeSeeder.php:41 | str_pad with STR_PAD_LEFT and a one-byte pad: lengths are counted in UTF-8 bytes, as strlen does. The result ends with the input, everything before it is the pad character, and it adds exactly as many pad characters as the input's byte length falls short of the width, so its byte length is the width or the input's, whichever is larger |
| Php.PadLeftWide | database/seeders/PostalCodeSeeder.php:41 | a string of at least the width in bytes is returned unchanged |
| Php.PadLeftAbsorbsPad | database/seeders/PostalCodeSeeder.php:41 | a string shorter than the width in bytes and the same string with one more leading pad character pad to the same result |
| Csv.SkipLines | database/seeders/PostalCodeSeeder.php:26 | discarding n lines with fgetcsv: what is left is the lines after the first n, and nothing when the file has n lines or fewer |
| Csv.Reached | app/Console/Commands/ImportPostalCodes.php:49-84 | the loop reaches every row, or stops exactly at the row where the storage engine raises |
| Store.FindCounty | app/Http/Controllers/Api/PostalCodeController.php:315 | the first county with the name; None exactly when no county has it |
| Store.FindCountyById | app/Http/Controllers/Api/PostalCodeController.php:396 | the county with the id; None exactly when no county has it |
| Store.FindCity | app/Http/Controllers/Api/PostalCodeController.php:317-320 | the first city with the name in that county; None exactly when there is none |
| Store.FindCityById | app/Http/Controllers/Api/PostalCodeController.php:396-397 | the city with the id; None exactly when no city has it |
| Store.FindCode | database/seeders/PostalCodeSeeder.php:60 | the first postal code with the code; None exactly when no row has it |
| Store.FindCodeInCity | app/Console/Commands/ImportPostalCodes.php:69-72 | a postal code with the code and city id; None exactly when there is none |
| Store.FindPostalCodeById | app/Http/Controllers/Api/PostalCodeController.php:387 | the row bound to the route id; None exactly when no row has it |
| Store.CountyFirstOrCreate | app/Http/Controllers/Api/PostalCodeController.php:315 | County::firstOrCreate: an existing name changes nothing and returns that county's id. Otherwise a county with the next id is appended. Either way the name then resolves to the returned id, the other tables are untouched, and the unique name constraint still holds |
| Store.CountyCreate | database/seeders/CsvImportSeeder.php:59 | County::create fails with a unique violation exactly when the name exists; otherwise it appends like firstOrCreate |
| Store.CityFirstOrCreate | app/Http/Controllers/Api/PostalCodeController.php:317-320 | City::firstOrCreate on (name, county id): an existing pair changes nothing, otherwise one city with the next id is appended; the pair then resolves to the returned id |
| Store.PostalCodeInsert | app/Http/Controllers/Api/PostalCodeController.php:322-325 | PostalCode::create appends exactly one row with the next id, the code and the city; the constraints still hold when the code was free |
| Store.PostalCodeFirstOrCreate | app/Console/Commands/ImportPostalCodes.php:69-72 | PostalCode::firstOrCreate on (code, city id): an existing pair changes nothing. The call fails exactly when the code is bound to another city, and then with RecordNotFound (the insert's unique violation is caught by createOrFirst, whose firstOrFail finds no row with the pair). Otherwise exactly one row is appended |
| Store.SettlementInsert | database/seeders/CsvImportSeeder.php:67-71 | Settlement::create appends exactly one settlement with the given fields and touches no other table |
| Store.PostalCodeSave | app/Http/Controllers/Api/PostalCodeController.php:412 | save() rewrites only row k: it keeps its id and takes the new code and city; every other row and table is unchanged; the constraints hold when no other row has the code |
| Store.Database.Restore | database/seeders/CsvImportSeeder.php:85 | rollback: the tables are exactly the snapshot taken when the transaction began |
| Store.Database.FirstOrCreateCounty | database/seeders/PostalCodeSeeder.php:45 | the in-place call leaves the tables and returns the id that CountyFirstOrCreate gives |
| Store.Database.CreateCounty | database/seeders/CsvImportSeeder.php:59 | the in-place call agrees with CountyCreate, and on failure leaves the tables unchanged |
| Store.Database.FirstOrCreateCity | database/seeders/PostalCodeSeeder.php:52-55 | the in-place call agrees with CityFirstOrCreate |
| Store.Database.InsertPostalCode | database/seeders/PostalCodeSeeder.php:63-66 | the in-place call agrees with PostalCodeInsert |
| Store.Database.FirstOrCreatePostalCode | app/Console/Commands/ImportPostalCodes.php:69-72 | the in-place call agrees with PostalCodeFirstOrCreate, and reports its exception without writing |
| Store.Database.InsertSettlement | database/seeders/CsvImportSeeder.php:67-71 | the in-place call agrees with SettlementInsert |
| Store.Database.SavePostalCode | app/Http/Controllers/Api/PostalCodeController.php:412 | the in-place call agrees with PostalCodeSave |
| ImportCache.CacheCounty | app/Console/Commands/ImportPostalCodes.php:53-56 | a cached key changes nothing. A miss resolves the county by firstOrCreate and caches its id under the key. Existing entries are never overwritten |
| ImportCache.CacheCountyFrame | app/Console/Commands/ImportPostalCodes.php:53-56 | the county block's frame: the cache gains exactly the key, and the counties table either stays as it is or gains one county with the given name and the next id, which the counter then passes |
| ImportCache.CacheCity | app/Console/Commands/ImportPostalCodes.php:59-66 | a cached key changes nothing. A miss resolves the city by firstOrCreate on (name, county id) and caches its id. Existing entries are never overwritten |
| ImportCache.CacheCityFrame | app/Console/Commands/ImportPostalCodes.php:59-66 | the city block's frame: the cache gains exactly the key, and the cities table either stays as it is or gains one city with the given name, the county id and the next id, which the counter then passes |
| ImportCache.ResolveCounty | database/seeders/PostalCodeSeeder.php:44-47 | the county-cache block, run against the database, agrees with CacheCounty |
| ImportCache.ResolveCity | database/seeders/PostalCodeSeeder.php:51-57 | the city-cache block, run against the database, agrees with CacheCity |
| PostalCodeSeeder.Resolve | database/seeders/PostalCodeSeeder.php:43-57 | after the cache blocks the raw county name and the city key are cached. A fresh county entry names the county with the trimmed name. A fresh city entry names the city with the trimmed name in that county. No postal code or counter changes |
| PostalCodeSeeder.ResolveFrame | database/seeders/PostalCodeSeeder.php:43-57 | each cache gains exactly the row's key; at most one county (with the trimmed county name) and at most one city (with the trimmed city name and the cached county id) are appended, with consecutive ids; with the city key already cached, the city cache and the cities table stay as they are |
| PostalCodeSeeder.RecordCode | database/seeders/PostalCodeSeeder.php:59-71 | exactly one of count and duplicates grows by one, the other staying as it was. count grows exactly when the code is new, and then one row with the code and the cached city is appended while counties and cities stay as they are. An existing code leaves the tables untouched |
| PostalCodeSeeder.Step | database/seeders/PostalCodeSeeder.php:34-71 | a row with an empty raw field changes no table and no counter; any row only inserts, keeps cache entries and never touches settlements |
| PostalCodeSeeder.Fold | database/seeders/PostalCodeSeeder.php:33-77 | the loop only inserts, never overwrites a cache entry, and keeps the constraints |
| PostalCodeSeeder.Seed | database/seeders/PostalCodeSeeder.php:13-85 | a missing file, and only that, returns without touching the tables; a storage exception at any data row leaves every table exactly as before the run |
| PostalCodeSeeder.FoldCounts | database/seeders/PostalCodeSeeder.php:62-71 | count + duplicates grows by the number of data rows that are not skipped |
| PostalCodeSeeder.StepCodes | database/seeders/PostalCodeSeeder.php:60-71 | a kept row adds its padded code to the table's codes and no other code |
| PostalCodeSeeder.FoldCodes | database/seeders/PostalCodeSeeder.php:33-71 | after the loop the table's codes are the old codes plus the padded codes of the kept rows |
| PostalCodeSeeder.StepCreated | database/seeders/PostalCodeSeeder.php:60-71 | count grows by one, and the table by one row, exactly when the row is kept and its padded code is new |
| PostalCodeSeeder.FoldCreated | database/seeders/PostalCodeSeeder.php:59-71 | count equals the number of distinct padded codes of the file that the table did not hold, and the table grows by exactly that many rows, so a repeated code is inserted once |
| PostalCodeSeeder.StepKeepsCountyCache | database/seeders/PostalCodeSeeder.php:44-47 | each cached raw county name keeps naming the county with its trimmed name |
| PostalCodeSeeder.FoldKeepsCountyCache | database/seeders/PostalCodeSeeder.php:44-47 | the county cache stays sound over the whole loop |
| PostalCodeSeeder.TrimmedCountyNamesShareId | database/seeders/PostalCodeSeeder.php:44-47 | raw county names that trim to the same name are cached with the same id, and the counties table never holds one name twice |
| PostalCodeSeeder.FoldCachesCounties | database/seeders/PostalCodeSeeder.php:44-47 | after the loop, the raw county name of every row it did not skip is cached |
| PostalCodeSeeder.KeptCountiesExist | database/seeders/PostalCodeSeeder.php:44-47 | after the loop, the counties table holds the trimmed county name of every row it did not skip |
| PostalCodeSeeder.StepCachesRow | database/seeders/PostalCodeSeeder.php:43-57 | a kept row leaves its raw county name and its city key cached |
| PostalCodeSeeder.StepCachedCity | database/seeders/PostalCodeSeeder.php:50-71 | a row whose city key is already cached creates no city and leaves the city cache as it is; a new code is bound to the cached city id |
| PostalCodeSeeder.CityKeysCollide | database/seeders/PostalCodeSeeder.php:50 | the distinct pairs ("x_y", "z") and ("x", "y_z") have one city-cache key |
| PostalCodeSeeder.SharedCityKey | database/seeders/PostalCodeSeeder.php:50-57 | a later row with an already-cached key reuses that city id, creates no city, and binds its new code to the earlier row's city |
| PostalCodeSeeder.LeadingZeroCodesCollide | database/seeders/PostalCodeSeeder.php:41 | a code shorter than four bytes and the same code with one more leading zero become the same code |
| PostalCodeSeeder.ZeroPadCountsBytes | database/seeders/PostalCodeSeeder.php:41 | padding counts bytes: the one-character, two-byte code "é" gets two zeros, and the three-character, four-byte "12é" gets none |
| PostalCodeSeeder.ImportSummary | database/seeders/PostalCodeSeeder.php:24-84 | a committed run reports each kept row once, as created or duplicate. count is the number of new distinct padded codes. The table ends with the old codes plus the file's codes, one row per new code, and the constraints hold. The trimmed county name of every kept row is a county |
| PostalCodeSeeder.HeaderIgnored | database/seeders/PostalCodeSeeder.php:26 | exactly one leading line is discarded, and its content never matters |
| PostalCodeSeeder.ResolveRow | database/seeders/PostalCodeSeeder.php:43-57 | both cache blocks, run against the database, agree with Resolve |
| PostalCodeSeeder.RecordRow | database/seeders/PostalCodeSeeder.php:59-71 | the existence check and insert, run against the database, agree with RecordCode |
| PostalCodeSeeder.ProcessRow | database/seeders/PostalCodeSeeder.php:33-77 | one pass of the loop body, run against the database, agrees with Step |
| PostalCodeSeeder.Run | database/seeders/PostalCodeSeeder.php:13-85 | the seeder, run against the database, leaves the tables and returns the outcome Seed gives |
| ImportPostalCodes.Resolve | app/Console/Commands/ImportPostalCodes.php:52-66 | the raw county name and the raw city key are cached. A fresh county entry names the county with the raw name. A fresh city entry names the city with the raw name in that county. No postal code changes |
| ImportPostalCodes.ResolveFrame | app/Console/Commands/ImportPostalCodes.php:52-66 | each cache gains exactly the row's key; at most one county (with the raw county name) and at most one city (with the raw city name and the cached county id) are appended, with consecutive ids |
| ImportPostalCodes.Step | app/Console/Commands/ImportPostalCodes.php:49-72 | a row with fewer than three fields raises. A successful row leaves its code bound to the cached city, only inserts, and keeps cache entries |
| ImportPostalCodes.StepConflict | app/Console/Commands/ImportPostalCodes.php:69-72 | a complete row fails exactly when its code exists but not under the city the row resolves to, and the exception is RecordNotFound (ModelNotFoundException from createOrFirst's firstOrFail after the unique violation) |
| ImportPostalCodes.Fold | app/Console/Commands/ImportPostalCodes.php:49-75 | a committed loop only inserts, keeps cache entries and the constraints, and never touches settlements |
| ImportPostalCodes.ImportRows | app/Console/Commands/ImportPostalCodes.php:42-84 | any exception leaves the tables exactly as before and is passed on. The run commits exactly when no fault occurs and every row succeeds |
| ImportPostalCodes.Import | app/Console/Commands/ImportPostalCodes.php:16-35 | `handle()` returns 1 exactly for a missing file. Any outcome other than returning 0 (returning 1, or letting a rethrown exception through) leaves the tables untouched. The only values it returns are 0 and 1 |
| ImportPostalCodes.FoldErrSticks | app/Console/Commands/ImportPostalCodes.php:80-84 | once a row has thrown, later rows do not matter |
| ImportPostalCodes.RowErrSticks | app/Console/Commands/ImportPostalCodes.php:80-84 | the exception of the first failing row is the exception of the run |
| ImportPostalCodes.FoldOkComplete | app/Console/Commands/ImportPostalCodes.php:50 | a committed loop saw only rows with three fields |
| ImportPostalCodes.StepKeepsCountyCache | app/Console/Commands/ImportPostalCodes.php:53-56 | each cached raw county name keeps naming the county of that exact name |
| ImportPostalCodes.StepCovers | app/Console/Commands/ImportPostalCodes.php:53-72 | one more committed row keeps every earlier row's code bound to its cached city and binds its own |
| ImportPostalCodes.FoldCovers | app/Console/Commands/ImportPostalCodes.php:53-72 | after a committed loop every row's code is bound to the city its key resolved to |
| ImportPostalCodes.FoldKeepsCountyCache | app/Console/Commands/ImportPostalCodes.php:53-56 | the county cache stays sound over a committed loop |
| ImportPostalCodes.ImportCovers | app/Console/Commands/ImportPostalCodes.php:37-87 | after `handle()` returns 0, every data row had three fields, its code is in the table and its raw county name is a county |
| ImportPostalCodes.StepReplay | app/Console/Commands/ImportPostalCodes.php:53-72 | replaying a row on tables that already hold its result succeeds and writes nothing |
| ImportPostalCodes.FoldReplay | app/Console/Commands/ImportPostalCodes.php:53-72 | replaying committed rows on tables that already hold their results succeeds and writes nothing |
| ImportPostalCodes.RerunChangesNothing | app/Console/Commands/ImportPostalCodes.php:53-72 | running the command again on the same file after a commit returns 0 again and leaves every table unchanged |
| ImportPostalCodes.HeaderIgnored | app/Console/Commands/ImportPostalCodes.php:40 | exactly one leading line is discarded, and its content never matters |
| ImportPostalCodes.ImportRowsFault | app/Console/Commands/ImportPostalCodes.php:80-84 | a storage fault reached by the loop rolls back and is rethrown |
| ImportPostalCodes.ImportRowsThrow | app/Console/Commands/ImportPostalCodes.php:80-84 | a row that throws rolls back, and its exception is rethrown |
| ImportPostalCodes.ImportRowsCommit | app/Console/Commands/ImportPostalCodes.php:77 | with no fault and every row succeeding, the loop's tables are committed |
| ImportPostalCodes.ImportRow | app/Console/Commands/ImportPostalCodes.php:49-75 | the loop body, run against the database, agrees with Step |
| ImportPostalCodes.ImportFromCsv | app/Console/Commands/ImportPostalCodes.php:37-87 | importFromCsv, run against the database, agrees with ImportRows |
| ImportPostalCodes.Handle | app/Console/Commands/ImportPostalCodes.php:16-35 | handle, run against the database, agrees with Import |
| CsvImportSeeder.CachedCounty | database/seeders/CsvImportSeeder.php:58-64 | a cached trimmed name gives its cached id and writes nothing. On a miss, County::create fails exactly when the counties table already holds the name; otherwise the returned id is that of the county with the name, and the table's names gain exactly that name |
| CsvImportSeeder.Settle | database/seeders/CsvImportSeeder.php:58-73 | a cached county name always succeeds; success inserts only and adds one to count |
| CsvImportSeeder.Step | database/seeders/CsvImportSeeder.php:41-77 | a row with fewer than three fields raises; a row with a field that is empty after trimming changes nothing; success only inserts and never touches cities or postal codes |
| CsvImportSeeder.Fold | database/seeders/CsvImportSeeder.php:41-77 | a committed loop only inserts and keeps the constraints |
| CsvImportSeeder.SeedRows | database/seeders/CsvImportSeeder.php:38-87 | any exception leaves the tables exactly as before and is reported as a rollback |
| CsvImportSeeder.Seed | database/seeders/CsvImportSeeder.php:12-88 | a missing file, and only that, is reported as such. Anything but a commit leaves the tables untouched |
| CsvImportSeeder.Kept | database/seeders/CsvImportSeeder.php:47-54 | every kept row has three fields, and none of them is empty after trimming |
| CsvImportSeeder.NameIndexKeys | database/seeders/CsvImportSeeder.php:36 | the pluck cache has exactly the county names of the table as keys |
| CsvImportSeeder.NameIndexMatches | database/seeders/CsvImportSeeder.php:36 | with unique county names, every pluck cache entry is the id of its county |
| CsvImportSeeder.StartMatches | database/seeders/CsvImportSeeder.php:36 | the preloaded cache matches the counties table |
| CsvImportSeeder.StepKeepsCache | database/seeders/CsvImportSeeder.php:58-62 | with a matching cache, County::create is only called for a name the table lacks, so a complete row never fails, and the cache keeps matching |
| CsvImportSeeder.FoldOkIffComplete | database/seeders/CsvImportSeeder.php:41-49 | the loop commits exactly when every row has three fields |
| CsvImportSeeder.StepSettles | database/seeders/CsvImportSeeder.php:64-73 | a kept row appends one settlement with its trimmed code and name and the id of its trimmed county, adds that county name, and counts one |
| CsvImportSeeder.FoldSettles | database/seeders/CsvImportSeeder.php:41-77 | a committed loop counts the kept rows. It appends one settlement per kept row, in file order, carrying that row's data. The counties gain exactly the kept rows' county names |
| CsvImportSeeder.SeedSummary | database/seeders/CsvImportSeeder.php:12-88 | a committed run reports the number of kept rows as count. The old settlements stay. One settlement per kept row follows them. The counties gain exactly the kept county names, each once |
| CsvImportSeeder.ShortRowRollsBack | database/seeders/CsvImportSeeder.php:47-87 | a data row with fewer than three fields rolls the whole run back, even after rows that were stored |
| CsvImportSeeder.FoldFirstError | database/seeders/CsvImportSeeder.php:58-62 | with a matching cache, the only exception the loop raises is the missing-field one |
| CsvImportSeeder.RerunDuplicatesSettlements | database/seeders/CsvImportSeeder.php:67-71 | running the seeder again on the same file reports the same count, keeps every settlement of the first run, and appends after them one settlement per kept row again, each as that row says, so the settlement count grows by twice the count |
| CsvImportSeeder.HeaderIgnored | database/seeders/CsvImportSeeder.php:29-30 | exactly two leading lines are discarded, and their content never matters |
| CsvImportSeeder.SeedRowsFault | database/seeders/CsvImportSeeder.php:84-87 | a storage fault reached by the loop rolls back and is reported, not rethrown |
| CsvImportSeeder.SeedRowsThrow | database/seeders/CsvImportSeeder.php:84-87 | a row that throws rolls back, and its exception is reported |
| CsvImportSeeder.SeedRowsCommit | database/seeders/CsvImportSeeder.php:79 | with no fault and every row succeeding, the loop's tables are committed and its count reported |
| CsvImportSeeder.FoldErrSticks | database/seeders/CsvImportSeeder.php:84-87 | once a row has thrown, later rows do not matter |
| CsvImportSeeder.RowErrSticks | database/seeders/CsvImportSeeder.php:84-87 | the exception of the first failing row is the exception of the run |
| CsvImportSeeder.SeedRow | database/seeders/CsvImportSeeder.php:41-77 | the loop body, run against the database, agrees with Step |
| CsvImportSeeder.SeedData | database/seeders/CsvImportSeeder.php:36-87 | the transaction block, run against the database, agrees with SeedRows |
| CsvImportSeeder.Run | database/seeders/CsvImportSeeder.php:12-88 | run, against the database, agrees with Seed |
| PostalCodeController.StoreSpec | app/Http/Controllers/Api/PostalCodeController.php:307-330 | validation fails exactly when a field is missing or blank, the code is not 4 characters, or the code exists; a failed validation writes nothing; success answers 201 and keeps the constraints |
| PostalCodeController.StoreCreates | app/Http/Controllers/Api/PostalCodeController.php:315-325 | a valid store reuses or creates the county, growing counties by at most one; it reuses or creates the city in that county; it appends exactly one postal code with the requested code, bound to that city, which is the row answered; settlements are untouched |
| PostalCodeController.SearchByCode | app/Http/Controllers/Api/PostalCodeController.php:227-234 | 404 exactly when no row has the code; otherwise 200 with a row of the table carrying the code |
| PostalCodeController.StoreThenSearch | app/Http/Controllers/Api/PostalCodeController.php:229-231 | a code just stored is found by searchByCode as the row store answered with |
| PostalCodeController.Rebind | app/Http/Controllers/Api/PostalCodeController.php:395-406 | with no name sent the row keeps its city and nothing is written; otherwise only counties and cities grow, by at most one row each. It fails (a server error) exactly when a name is sent and the row's city, or that city's county, is missing |
| PostalCodeController.UpdateSpec | app/Http/Controllers/Api/PostalCodeController.php:387-416 | 404 exactly for an unknown id; validation fails exactly when a sent code is not 4 characters or another row has it; 404 and 422 write nothing; success answers 200 with the same id; a failure never changes a postal code. A 500 comes exactly from a valid request whose re-binding fails or whose final code another row already holds |
| PostalCodeController.UpdateOwnCode | app/Http/Controllers/Api/PostalCodeController.php:390 | re-sending a record's own current code is accepted and changes nothing |
| PostalCodeController.UpdateTouchesOneRow | app/Http/Controllers/Api/PostalCodeController.php:395-412 | a successful update rewrites only the bound row. The row keeps its id. Its code changes only when sent. With no name sent it keeps its city, and counties and cities are unchanged |
| PostalCodeController.UpdateDefaultsNames | app/Http/Controllers/Api/PostalCodeController.php:395-406 | when a name is sent, the row ends in the city carrying the sent name or the current city name. That city lies inside the county carrying the sent name or the current county name |
| PostalCodeController.StorePostalCode | app/Http/Controllers/Api/PostalCodeController.php:307-330 | store, run against the database, agrees with StoreSpec |
| PostalCodeController.RebindCity | app/Http/Controllers/Api/PostalCodeController.php:395-406 | the re-binding block, run against the database, agrees with Rebind and writes nothing when a default raises |
| PostalCodeController.UpdatePostalCode | app/Http/Controllers/Api/PostalCodeController.php:387-416 | update, run against the database, agrees with UpdateSpec |

## Left out

- **Files.** Reading the CSV file (`fopen`, `fgetcsv`, `fclose`) is not modelled; the input is a sequence of rows already split into fields. A blank line, which fgetcsv returns as `[null]`, is a one-field row `[""]`. The 1000-byte line limit that CsvImportSeeder passes to `fgetcsv` is not modelled. File existence is a boolean parameter.
- **Console output.** Progress dots, info and error messages, and the `Processed N records` lines print only and change no state.
- **The unused array.** ImportPostalCodes' `$postalCodes` array is never read.
- **Storage faults.** The storage engine's own failures are reduced to one parameter: the data row at which it raises. Which statement of that row raises, and why, is not modelled. The model aborts at that row even when the row itself would write nothing (a skipped row, or a cached duplicate); this admits more rollbacks than the engine can cause, and every run that commits is still exact.
- **Settlements column.** The settlements migration declares no `postal_code` column, yet the seeder writes one. The model gives settlements that field. An insert that fails for this reason is one of the faults above.
- **Storage engine duties.** Foreign keys, cascade deletes, timestamps, the `string(4)` column width and database collation are not modelled. Name and code comparisons are exact string equality, with no case folding.
- **Framework version.** `firstOrCreate` is modelled as the framework does it from Laravel 10.20 on: the insert goes through `createOrFirst`, which runs it under a savepoint and answers a unique violation with a second lookup by `firstOrFail`. Older versions raise the unique violation itself; the failing rows, the rollback and the final tables are the same either way.
- **Per-table ids.** One counter, `Tables.nextId`, numbers the rows of every table, where the database keeps one auto-increment sequence per table. No contract compares ids across tables.
- **Auto-increment gaps.** Ids consumed by a rolled-back transaction are reused in the model; a real engine may skip them.
- **HTTP.** Routing, authentication middleware, JSON rendering and the eager-loaded `city.county` relation of a response are not modelled. The other endpoints of PostalCodeController (`index`, `show`, `destroy`) and the other controllers are not part of this model.
- **Request middleware.** The framework's request middleware is not modelled. It would trim request strings and turn empty strings into null. Request fields are strings or absent; the `string` rule's rejection of non-string JSON values is not modelled.
- **Update with a blank code.** On update, a code that is blank after trimming skips the `size` and `unique` rules. It is then saved as sent. The middleware that would turn it into null is not modelled.
- **Encodings.** The CSV file is taken to be valid UTF-8; byte sequences that are not, and other encodings, are not modelled.
- Php.PadLeft: requires a one-byte (ASCII) pad character, the only kind the core passes (`'0'`); str_pad's cutting of a multi-byte pad string mid-character is not modelled.
- **Concurrency.** Concurrent runs and races between the caches and the tables are not modelled. The core runs in a single process.
- PostalCodeController.Rebind: a city or county row missing from under the postal code is modelled as an exception raised by the default-name expression. Its message and type are not modelled.
