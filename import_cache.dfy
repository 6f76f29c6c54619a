/**
 * The in-memory lookup caches of the CSV importers: a PHP array from a
 * string key to a row id, consulted before each firstOrCreate so that a
 * county or city is looked up in the store only the first time its key is
 * seen. The importers differ in which key and which name they pass.
 */
module ImportCache {
  import opened Wrappers
  import opened Store

  /** The tables together with one cache. */
  datatype Cached = Cached(tables: Tables, cache: map<string, Id>)

  /** Entries once made keep their value. */
  predicate Grows(m: map<string, Id>, n: map<string, Id>) {
    forall k :: k in m ==> k in n && n[k] == m[k]
  }

  /** `if (!isset($counties[$key]))`: on a miss, County::firstOrCreate on `name`, cached under `key`. */
  function CacheCounty(t: Tables, counties: map<string, Id>, key: string, name: string): (r: Cached)
    ensures key in r.cache && Grows(counties, r.cache) && Extends(t, r.tables)
    ensures key in counties ==> r == Cached(t, counties)
    ensures key !in counties ==> CountyIdOf(r.tables.counties, name) == Some(r.cache[key])
    ensures r.tables.cities == t.cities && r.tables.postalCodes == t.postalCodes
    ensures r.tables.settlements == t.settlements
    ensures WellFormed(t) ==> WellFormed(r.tables)
  {
    if key in counties then Cached(t, counties)
    else
      var c := CountyFirstOrCreate(t, name);
      Cached(c.tables, counties[key := c.id])
  }

  /** `if (!isset($cities[$key]))`: on a miss, City::firstOrCreate on (name, county id), cached under `key`. */
  function CacheCity(t: Tables, cities: map<string, Id>, key: string, name: string, countyId: Id): (r: Cached)
    ensures key in r.cache && Grows(cities, r.cache) && Extends(t, r.tables)
    ensures key in cities ==> r == Cached(t, cities)
    ensures key !in cities ==> CityIdOf(r.tables.cities, name, countyId) == Some(r.cache[key])
    ensures r.tables.counties == t.counties && r.tables.postalCodes == t.postalCodes
    ensures r.tables.settlements == t.settlements
    ensures WellFormed(t) ==> WellFormed(r.tables)
  {
    if key in cities then Cached(t, cities)
    else
      var c := CityFirstOrCreate(t, name, countyId);
      Cached(c.tables, cities[key := c.id])
  }

  /**
   * What the county cache block may change: the cache gains exactly the key,
   * and the counties table gains at most one county, with that name and the next id.
   */
  lemma CacheCountyFrame(t: Tables, counties: map<string, Id>, key: string, name: string)
    ensures var r := CacheCounty(t, counties, key, name);
      r.cache.Keys == counties.Keys + {key}
    ensures var r := CacheCounty(t, counties, key, name);
      r.tables.counties == t.counties || r.tables.counties == t.counties + [County(t.nextId, name)]
    ensures var r := CacheCounty(t, counties, key, name);
      r.tables.nextId == t.nextId + (|r.tables.counties| - |t.counties|)
  {
  }

  /**
   * What the city cache block may change: the cache gains exactly the key,
   * and the cities table gains at most one city, with that name, that county and the next id.
   */
  lemma CacheCityFrame(t: Tables, cities: map<string, Id>, key: string, name: string, countyId: Id)
    ensures var r := CacheCity(t, cities, key, name, countyId);
      r.cache.Keys == cities.Keys + {key}
    ensures var r := CacheCity(t, cities, key, name, countyId);
      r.tables.cities == t.cities || r.tables.cities == t.cities + [City(t.nextId, name, countyId)]
    ensures var r := CacheCity(t, cities, key, name, countyId);
      r.tables.nextId == t.nextId + (|r.tables.cities| - |t.cities|)
  {
  }

  /** The county-cache block, run against the store. */
  method ResolveCounty(db: Database, counties: map<string, Id>, key: string, name: string)
    returns (updated: map<string, Id>)
    modifies db
    ensures Cached(db.Contents(), updated) == CacheCounty(old(db.Contents()), counties, key, name)
  {
    updated := counties;
    if key !in counties {
      var id := db.FirstOrCreateCounty(name);
      updated := counties[key := id];
    }
  }

  /** The city-cache block, run against the store. */
  method ResolveCity(db: Database, cities: map<string, Id>, key: string, name: string, countyId: Id)
    returns (updated: map<string, Id>)
    modifies db
    ensures Cached(db.Contents(), updated) == CacheCity(old(db.Contents()), cities, key, name, countyId)
  {
    updated := cities;
    if key !in cities {
      var id := db.FirstOrCreateCity(name, countyId);
      updated := cities[key := id];
    }
  }
}
