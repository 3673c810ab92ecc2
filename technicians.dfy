/**
 * routes/technicians.py: the technician listing, the per-city technician
 * counts, and the recursive conversion of store values to transport-safe ones.
 */
module Technicians {
  import opened Wrappers
  import opened DocStore

  /** Class names whose values are turned into their `str()`. */
  const StringifiedClasses: set<string> := {"datetime", "Decimal", "BSON"}

  /**
   * Transport-safe: no ObjectId and no object of a stringified class is left,
   * except inside tuples, which the conversion does not enter.
   */
  predicate Transportable(v: Value) {
    match v
    case ObjectId(_) => false
    case Dict(es) => forall i :: 0 <= i < |es| ==> Transportable(es[i].1)
    case List(xs) => forall i :: 0 <= i < |xs| ==> Transportable(xs[i])
    case Object(cls, _) => cls !in StringifiedClasses
    case _ => true
  }

  /**
   * `convert_objectid_to_str`: an ObjectId becomes its hex string; a dict keeps
   * its keys, in order, with every value converted; a list keeps its length,
   * converted element by element; a datetime, Decimal or BSON value becomes its
   * string; everything else (tuples, strings, numbers, None) is returned as is.
   */
  function ConvertObjectIdToStr(v: Value): (r: Value)
    ensures v.ObjectId? ==> r == Str(v.hex)
    ensures v.Object? && v.className in StringifiedClasses ==> r == Str(v.text)
    ensures v.Dict? ==>
              (r.Dict? && |r.entries| == |v.entries| &&
               forall i :: 0 <= i < |v.entries| ==> r.entries[i] == (v.entries[i].0, ConvertObjectIdToStr(v.entries[i].1)))
    ensures v.List? ==>
              (r.List? && |r.items| == |v.items| &&
               forall i :: 0 <= i < |v.items| ==> r.items[i] == ConvertObjectIdToStr(v.items[i]))
    ensures !v.ObjectId? && !v.Dict? && !v.List? && !(v.Object? && v.className in StringifiedClasses) ==> r == v
    ensures Transportable(r)
  {
    match v
    case ObjectId(h) => Str(h)
    case Dict(es) => Dict(seq(|es|, i requires 0 <= i < |es| => (es[i].0, ConvertObjectIdToStr(es[i].1))))
    case List(xs) => List(seq(|xs|, i requires 0 <= i < |xs| => ConvertObjectIdToStr(xs[i])))
    case Object(cls, text) => if cls in StringifiedClasses then Str(text) else v
    case _ => v
  }

  /** A transport-safe value is left unchanged. */
  lemma {:induction false} ConvertFixesTransportable(v: Value)
    requires Transportable(v)
    ensures ConvertObjectIdToStr(v) == v
  {
    match v
    case Dict(es) =>
      var r := ConvertObjectIdToStr(v);
      forall i | 0 <= i < |es| ensures r.entries[i] == es[i] {
        ConvertFixesTransportable(es[i].1);
      }
      assert r.entries == es;
    case List(xs) =>
      var r := ConvertObjectIdToStr(v);
      forall i | 0 <= i < |xs| ensures r.items[i] == xs[i] {
        ConvertFixesTransportable(xs[i]);
      }
      assert r.items == xs;
    case _ =>
  }

  /** Converting twice is converting once. */
  lemma ConvertIdempotent(v: Value)
    ensures ConvertObjectIdToStr(ConvertObjectIdToStr(v)) == ConvertObjectIdToStr(v)
  {
    ConvertFixesTransportable(ConvertObjectIdToStr(v));
  }

  /** Conversion works element by element: element i of a converted list is element i converted. */
  lemma ConvertListElements(xs: seq<Value>, i: int)
    requires 0 <= i < |xs|
    ensures ConvertObjectIdToStr(List(xs)).items[i] == ConvertObjectIdToStr(xs[i])
  {
  }

  /** A tuple is not entered: an ObjectId inside it survives the conversion. */
  lemma TupleNotEntered(h: string)
    ensures ConvertObjectIdToStr(Tuple([ObjectId(h)])) == Tuple([ObjectId(h)])
  {
  }

  /** The converted documents of a list, as the handlers apply the conversion to the fetched list. */
  function ConvertAll(docs: seq<Value>): (r: seq<Value>)
    ensures |r| == |docs|
    ensures forall i :: 0 <= i < |docs| ==> r[i] == ConvertObjectIdToStr(docs[i]) && Transportable(r[i])
  {
    var converted := ConvertObjectIdToStr(List(docs));
    assert forall i :: 0 <= i < |docs| ==> converted.items[i] == ConvertObjectIdToStr(docs[i]);
    converted.items
  }

  // ---- GET /technicians ----

  const TechnicianRole := "Technician"
  const MsgTechniciansPrefix := "Error fetching technicians: "
  const MsgByLocationPrefix := "Error fetching technicians by location: "

  /** `{"role": "Technician"}`: the filter of every technician query. */
  function RoleFilter(): (f: Filter)
    ensures f.Keys == {"role"} && f["role"] == Is(Str("Technician"))
  {
    map["role" := Is(Str(TechnicianRole))]
  }

  /** The body of `/technicians`. */
  datatype TechniciansPage = TechniciansPage(
    success: bool,
    data: seq<Value>,
    totalCount: nat,
    limit: int,
    returnedCount: nat,
    filteredByRole: string)

  /**
   * `get_technicians`. `database` is the outcome of fetching the store handle;
   * `countDocuments` and `find` are the store's answers to a filter (`find`
   * gives every matching document, in cursor order).
   */
  function GetTechnicians(
    limit: int,
    database: Result<(), Exc>,
    countDocuments: Filter -> Result<nat, Exc>,
    find: Filter -> Result<seq<Value>, Exc>): (r: Reply<TechniciansPage>)
    ensures !LimitInRange(limit) <==> r.Unprocessable?
    ensures LimitInRange(limit) && database.Failure? ==>
      r == HttpError(500, MsgTechniciansPrefix + database.error.msg)
    ensures LimitInRange(limit) && database.Success? && countDocuments(RoleFilter()).Failure? ==>
      r == HttpError(500, MsgTechniciansPrefix + countDocuments(RoleFilter()).error.msg)
    ensures LimitInRange(limit) && database.Success? && countDocuments(RoleFilter()).Success? &&
            find(RoleFilter()).Failure? ==>
      r == HttpError(500, MsgTechniciansPrefix + find(RoleFilter()).error.msg)
    ensures r.HttpError? ==>
              (r.status == 500 && |r.detail| >= |MsgTechniciansPrefix| &&
               r.detail[..|MsgTechniciansPrefix|] == MsgTechniciansPrefix)
    ensures r.Ok? <==>
              (LimitInRange(limit) && database.Success? &&
               countDocuments(RoleFilter()).Success? && find(RoleFilter()).Success?)
    ensures r.Ok? ==>
      var p := r.body;
      p.success && p.filteredByRole == "Technician" && p.limit == limit && 1 <= p.limit <= 1000 &&
      p.returnedCount == |p.data| <= limit &&
      p.totalCount == countDocuments(RoleFilter()).value &&
      p.data == ConvertAll(Take(find(RoleFilter()).value, limit))
  {
    if !LimitInRange(limit) then Unprocessable
    else if database.Failure? then HttpError(500, MsgTechniciansPrefix + database.error.msg)
    else
      match countDocuments(RoleFilter())
      case Failure(e) => HttpError(500, MsgTechniciansPrefix + e.msg)
      case Success(total) =>
        match find(RoleFilter())
        case Failure(e) => HttpError(500, MsgTechniciansPrefix + e.msg)
        case Success(docs) =>
          var data := ConvertAll(Take(docs, limit));
          Ok(TechniciansPage(true, data, total, limit, |data|, TechnicianRole))
  }

  // ---- GET /technicians/location ----

  /** One row of the per-city breakdown: `{"city": .., "count": ..}`. */
  datatype CityCount = CityCount(city: Value, count: nat)

  /** The body of `/technicians/location`; `filteredBy` is present with a city, `citiesCount` without. */
  datatype LocationSummary = LocationSummary(
    success: bool,
    data: seq<CityCount>,
    total: nat,
    filteredBy: Option<string>,
    citiesCount: Option<nat>)

  /** `sum(item["count"] for item in result)`: no row counts more than the total. */
  function SumCounts(rows: seq<CityCount>): (total: nat)
    ensures forall i :: 0 <= i < |rows| ==> rows[i].count <= total
  {
    if rows == [] then 0 else rows[0].count + SumCounts(rows[1..])
  }

  /** The filter for one city: the raw city as a case-insensitive regular expression, no trimming or escaping. */
  function CityFilter(city: string): (f: Filter)
    ensures f.Keys == {"role", "location"}
    ensures f["role"] == RoleFilter()["role"] && f["location"] == RegexOp(city, "i")
  {
    RoleFilter()["location" := RegexOp(city, "i")]
  }

  /** `$match role`, `$group` by `$location` counting 1 each, `$project` city/count, `$sort` by city ascending. */
  function CityPipeline(): (p: seq<Stage>)
    ensures |p| == 4 && p[0] == Match(RoleFilter()) && p[3] == Sort("city", 1)
    ensures p[1] == GroupSumOne("$location", "count")
    ensures p[2] == Project([("city", FromField("$_id")), ("count", Include), ("_id", Exclude)])
  {
    [ Match(RoleFilter()),
      GroupSumOne("$location", "count"),
      Project([("city", FromField("$_id")), ("count", Include), ("_id", Exclude)]),
      Sort("city", 1) ]
  }

  /**
   * `get_technicians_by_location`. With a non-empty `city`, the count for that
   * city; otherwise the aggregation's rows with their total. `limit` is only
   * validated.
   */
  function GetTechniciansByLocation(
    city: Option<string>,
    limit: int,
    database: Result<(), Exc>,
    countDocuments: Filter -> Result<nat, Exc>,
    aggregate: seq<Stage> -> Result<seq<CityCount>, Exc>): (r: Reply<LocationSummary>)
    ensures !LimitInRange(limit) <==> r.Unprocessable?
    ensures r.Ok? <==>
              (LimitInRange(limit) && database.Success? &&
               if city.Some? && city.value != "" then countDocuments(CityFilter(city.value)).Success?
               else aggregate(CityPipeline()).Success?)
    ensures LimitInRange(limit) && database.Failure? ==>
      r == HttpError(500, MsgByLocationPrefix + database.error.msg)
    ensures LimitInRange(limit) && database.Success? && city.Some? && city.value != "" &&
            countDocuments(CityFilter(city.value)).Failure? ==>
      r == HttpError(500, MsgByLocationPrefix + countDocuments(CityFilter(city.value)).error.msg)
    ensures LimitInRange(limit) && database.Success? && (city.None? || city.value == "") &&
            aggregate(CityPipeline()).Failure? ==>
      r == HttpError(500, MsgByLocationPrefix + aggregate(CityPipeline()).error.msg)
    ensures r.HttpError? ==>
              (r.status == 500 && |r.detail| >= |MsgByLocationPrefix| &&
               r.detail[..|MsgByLocationPrefix|] == MsgByLocationPrefix)
    ensures r.Ok? && city.Some? && city.value != "" ==>
      var s := r.body;
      countDocuments(CityFilter(city.value)).Success? &&
      s.data == [CityCount(Str(city.value), countDocuments(CityFilter(city.value)).value)] &&
      s.total == s.data[0].count && s.filteredBy == city && s.citiesCount.None?
    ensures r.Ok? && (city.None? || city.value == "") ==>
      var s := r.body;
      aggregate(CityPipeline()) == Success(s.data) &&
      s.total == SumCounts(s.data) && s.citiesCount == Some(|s.data|) && s.filteredBy.None?
  {
    if !LimitInRange(limit) then Unprocessable
    else if database.Failure? then HttpError(500, MsgByLocationPrefix + database.error.msg)
    else if city.Some? && city.value != "" then
      match countDocuments(CityFilter(city.value))
      case Failure(e) => HttpError(500, MsgByLocationPrefix + e.msg)
      case Success(count) =>
        Ok(LocationSummary(true, [CityCount(Str(city.value), count)], count, city, None))
    else
      match aggregate(CityPipeline())
      case Failure(e) => HttpError(500, MsgByLocationPrefix + e.msg)
      case Success(rows) =>
        Ok(LocationSummary(true, rows, SumCounts(rows), None, Some(|rows|)))
  }

  /** `limit` does not affect the answer once it is within range. */
  lemma ByLocationIgnoresLimit(
    city: Option<string>, limit1: int, limit2: int,
    database: Result<(), Exc>,
    countDocuments: Filter -> Result<nat, Exc>,
    aggregate: seq<Stage> -> Result<seq<CityCount>, Exc>)
    requires LimitInRange(limit1) && LimitInRange(limit2)
    ensures GetTechniciansByLocation(city, limit1, database, countDocuments, aggregate)
         == GetTechniciansByLocation(city, limit2, database, countDocuments, aggregate)
  {
  }

  /** Without a city, the answer carries the aggregation's rows as they come, their total and their number. */
  lemma AllCitiesAnswer(
    rows: seq<CityCount>,
    database: Result<(), Exc>,
    countDocuments: Filter -> Result<nat, Exc>,
    aggregate: seq<Stage> -> Result<seq<CityCount>, Exc>)
    requires database.Success? && aggregate(CityPipeline()) == Success(rows)
    ensures GetTechniciansByLocation(None, DefaultLimit, database, countDocuments, aggregate)
         == Ok(LocationSummary(true, rows, SumCounts(rows), None, Some(|rows|)))
  {
  }

  /** With no rows the total and the number of cities are both 0. */
  lemma NoTechnicians(
    database: Result<(), Exc>,
    countDocuments: Filter -> Result<nat, Exc>,
    aggregate: seq<Stage> -> Result<seq<CityCount>, Exc>)
    requires database.Success? && aggregate(CityPipeline()) == Success([])
    ensures GetTechniciansByLocation(None, DefaultLimit, database, countDocuments, aggregate)
         == Ok(LocationSummary(true, [], 0, None, Some(0)))
  {
  }

  /** Each `$group` row counts at least one technician, so the total is at least the number of cities, and 0 only without rows. */
  lemma {:induction false} TotalBoundsCities(rows: seq<CityCount>)
    requires forall i :: 0 <= i < |rows| ==> rows[i].count >= 1
    ensures SumCounts(rows) >= |rows|
    ensures SumCounts(rows) == 0 <==> rows == []
  {
    if rows != [] {
      TotalBoundsCities(rows[1..]);
    }
  }

  /** The total splits over concatenated rows. */
  lemma {:induction false} SumCountsAppend(a: seq<CityCount>, b: seq<CityCount>)
    ensures SumCounts(a + b) == SumCounts(a) + SumCounts(b)
  {
    if a == [] {
      assert a + b == b;
    } else {
      assert (a + b)[1..] == a[1..] + b;
      SumCountsAppend(a[1..], b);
    }
  }

  /** Taking one row out lowers the total by that row's count. */
  lemma SumCountsRemove(b: seq<CityCount>, j: int)
    requires 0 <= j < |b|
    ensures SumCounts(b) == b[j].count + SumCounts(b[..j] + b[j + 1..])
  {
    assert b == b[..j] + ([b[j]] + b[j + 1..]);
    SumCountsAppend(b[..j], [b[j]] + b[j + 1..]);
    assert ([b[j]] + b[j + 1..])[1..] == b[j + 1..];
    SumCountsAppend(b[..j], b[j + 1..]);
  }

  /** The total does not depend on the order of the rows, so the `$sort` stage leaves it alone. */
  lemma {:induction false} SumCountsPermutation(a: seq<CityCount>, b: seq<CityCount>)
    requires multiset(a) == multiset(b)
    ensures SumCounts(a) == SumCounts(b)
    decreases |a|
  {
    if a == [] {
      assert |b| == |multiset(b)| == 0;
    } else {
      var x := a[0];
      assert x in multiset(b) by { assert x in multiset(a); }
      var j :| 0 <= j < |b| && b[j] == x;
      var rest := b[..j] + b[j + 1..];
      assert multiset(a[1..]) == multiset(rest) by {
        assert a == [x] + a[1..];
        assert b == b[..j] + [x] + b[j + 1..];
        assert multiset(a[1..]) == multiset(a) - multiset{x};
        assert multiset(rest) == multiset(b) - multiset{x};
      }
      SumCountsPermutation(a[1..], rest);
      SumCountsRemove(b, j);
    }
  }

  // ---- What the `$group` stage computes ----

  /** The cities that have a row. */
  function Cities(rows: seq<CityCount>): set<Value> {
    if rows == [] then {} else {rows[0].city} + Cities(rows[1..])
  }

  /** No city has two rows: the first row's city is in no later row, and so on. */
  predicate Distinct(rows: seq<CityCount>) {
    rows == [] || (rows[0].city !in Cities(rows[1..]) && Distinct(rows[1..]))
  }

  /** How many technicians the rows count at city `k`. */
  function CountOf(rows: seq<CityCount>, k: Value): nat {
    if rows == [] then 0
    else (if rows[0].city == k then rows[0].count else 0) + CountOf(rows[1..], k)
  }

  /** A city without a row has nothing counted at it. */
  lemma {:induction false} CountOfAbsent(rows: seq<CityCount>, k: Value)
    requires k !in Cities(rows)
    ensures CountOf(rows, k) == 0
  {
    if rows != [] {
      CountOfAbsent(rows[1..], k);
    }
  }

  /** With distinct cities, the row of a city holds everything counted at it. */
  lemma {:induction false} CountOfDistinct(rows: seq<CityCount>, i: int)
    requires Distinct(rows) && 0 <= i < |rows|
    ensures CountOf(rows, rows[i].city) == rows[i].count
  {
    if i == 0 {
      CountOfAbsent(rows[1..], rows[0].city);
    } else {
      assert rows[1..][i - 1] == rows[i];
      CitiesHasEveryRow(rows[1..], i - 1);
      CountOfDistinct(rows[1..], i - 1);
    }
  }

  lemma {:induction false} CitiesHasEveryRow(rows: seq<CityCount>, i: int)
    requires 0 <= i < |rows|
    ensures rows[i].city in Cities(rows)
  {
    if i > 0 {
      assert rows[1..][i - 1] == rows[i];
      CitiesHasEveryRow(rows[1..], i - 1);
    }
  }

  /** Distinct rows have as many cities as rows. */
  lemma {:induction false} DistinctCities(rows: seq<CityCount>)
    requires Distinct(rows)
    ensures |Cities(rows)| == |rows|
  {
    if rows != [] {
      DistinctCities(rows[1..]);
    }
  }

  /**
   * Adds one technician at `key`: the first row of that city goes up by one,
   * or, when no row has it, a row with count 1 is appended; the rows already
   * there keep their cities and their places.
   */
  function CountOne(rows: seq<CityCount>, key: Value): (r: seq<CityCount>)
    ensures |rows| <= |r| <= |rows| + 1
    ensures forall i :: 0 <= i < |rows| ==> r[i].city == rows[i].city
    ensures key !in Cities(rows) ==> r == rows + [CityCount(key, 1)]
    ensures key in Cities(rows) ==> |r| == |rows|
  {
    if rows == [] then
      [CityCount(key, 1)]
    else
      var head, tail := rows[0], rows[1..];
      if head.city == key then
        var r := [CityCount(key, head.count + 1)] + tail;
        assert r[1..] == tail;
        r
      else
        var t := CountOne(tail, key);
        var r := [head] + t;
        assert r[1..] == t;
        assert forall i :: 1 <= i < |rows| ==> r[i] == t[i - 1] && rows[i] == tail[i - 1];
        r
  }

  /** Counting one more technician at `key` adds one at `key` and nothing elsewhere. */
  lemma {:induction false} CountOneCountOf(rows: seq<CityCount>, key: Value, k: Value)
    ensures CountOf(CountOne(rows, key), k) == CountOf(rows, k) + (if k == key then 1 else 0)
  {
    var r := CountOne(rows, key);
    if rows == [] {
      assert r == [CityCount(key, 1)] && r[1..] == [];
    } else if rows[0].city == key {
      assert r == [CityCount(key, rows[0].count + 1)] + rows[1..];
      assert r[1..] == rows[1..];
    } else {
      var t := CountOne(rows[1..], key);
      assert r == [rows[0]] + t;
      assert r[1..] == t;
      CountOneCountOf(rows[1..], key, k);
    }
  }

  /** The total goes up by one, and no row is left counting nobody. */
  lemma {:induction false} CountOneTotal(rows: seq<CityCount>, key: Value)
    ensures SumCounts(CountOne(rows, key)) == SumCounts(rows) + 1
    ensures (forall i :: 0 <= i < |rows| ==> rows[i].count >= 1) ==>
              forall i :: 0 <= i < |CountOne(rows, key)| ==> CountOne(rows, key)[i].count >= 1
  {
    var r := CountOne(rows, key);
    if rows == [] {
      assert r[1..] == [];
    } else if rows[0].city == key {
      assert r[1..] == rows[1..];
    } else {
      CountOneTotal(rows[1..], key);
      assert r[1..] == CountOne(rows[1..], key);
    }
  }

  /** Counting one more technician adds its city to the cities and keeps them distinct. */
  lemma {:induction false} CountOneCities(rows: seq<CityCount>, key: Value)
    ensures Cities(CountOne(rows, key)) == Cities(rows) + {key}
    ensures Distinct(rows) ==> Distinct(CountOne(rows, key))
  {
    if rows != [] && rows[0].city != key {
      CountOneCities(rows[1..], key);
      assert CountOne(rows, key)[1..] == CountOne(rows[1..], key);
    } else if rows != [] {
      assert CountOne(rows, key)[1..] == rows[1..];
    }
  }

  /**
   * `{"$group": {"_id": "$location", "count": {"$sum": 1}}}` over the
   * technicians' locations: one row per distinct location, each counting the
   * technicians at it. (This model lists the rows in order of first
   * appearance; the store promises no order, which the `$sort` stage fixes.)
   */
  function GroupByLocation(locations: seq<Value>): (rows: seq<CityCount>)
    ensures Distinct(rows)
    ensures forall k :: CountOf(rows, k) == multiset(locations)[k]
    ensures forall i :: 0 <= i < |rows| ==> rows[i].count >= 1
    ensures SumCounts(rows) == |locations|
  {
    if locations == [] then []
    else
      var init, last := locations[..|locations| - 1], locations[|locations| - 1];
      assert locations == init + [last];
      assert forall k :: multiset(locations)[k] == multiset(init)[k] + (if k == last then 1 else 0);
      var rows := CountOne(GroupByLocation(init), last);
      CountOneCities(GroupByLocation(init), last);
      CountOneTotal(GroupByLocation(init), last);
      forall k ensures CountOf(rows, k) == multiset(locations)[k] {
        CountOneCountOf(GroupByLocation(init), last, k);
      }
      rows
  }

  /** The grouping has a row for every location and for nothing else. */
  lemma {:induction false} GroupCities(locations: seq<Value>)
    ensures Cities(GroupByLocation(locations)) == set x | x in locations
  {
    if locations != [] {
      var init, last := locations[..|locations| - 1], locations[|locations| - 1];
      assert locations == init + [last];
      assert (set x | x in locations) == (set x | x in init) + {last};
      GroupCities(init);
      CountOneCities(GroupByLocation(init), last);
    }
  }

  /** Each row of the grouping counts exactly the technicians at its city. */
  lemma GroupCountsOccurrences(locations: seq<Value>, i: int)
    requires 0 <= i < |GroupByLocation(locations)|
    ensures GroupByLocation(locations)[i].count == multiset(locations)[GroupByLocation(locations)[i].city]
  {
    CountOfDistinct(GroupByLocation(locations), i);
  }

  /** The grouping, in any order, has one row per distinct location. */
  lemma GroupSize(locations: seq<Value>, rows: seq<CityCount>)
    requires multiset(rows) == multiset(GroupByLocation(locations))
    ensures |rows| == |set x | x in locations|
  {
    var g := GroupByLocation(locations);
    DistinctCities(g);
    GroupCities(locations);
    assert |rows| == |multiset(rows)| && |g| == |multiset(g)|;
  }

  /** Rows that are the grouping in some order still count, row by row, the technicians at each city. */
  lemma ReorderedCountsOccurrences(locations: seq<Value>, rows: seq<CityCount>)
    requires multiset(rows) == multiset(GroupByLocation(locations))
    ensures forall i :: 0 <= i < |rows| ==> rows[i].count == multiset(locations)[rows[i].city]
  {
    var g := GroupByLocation(locations);
    forall i | 0 <= i < |rows| ensures rows[i].count == multiset(locations)[rows[i].city] {
      assert rows[i] in multiset(g) by { assert rows[i] in multiset(rows); }
      var j :| 0 <= j < |g| && g[j] == rows[i];
      GroupCountsOccurrences(locations, j);
    }
  }

  /**
   * When the store answers the pipeline with the `$group` rows in any order
   * (the `$sort` stage only reorders them), the total is the number of
   * technicians and there is one row per distinct location; each row counts
   * the technicians at its city by `ReorderedCountsOccurrences`.
   */
  lemma TotalCountsEveryTechnician(
    locations: seq<Value>,
    rows: seq<CityCount>,
    database: Result<(), Exc>,
    countDocuments: Filter -> Result<nat, Exc>,
    aggregate: seq<Stage> -> Result<seq<CityCount>, Exc>)
    requires database.Success? && aggregate(CityPipeline()) == Success(rows)
    requires multiset(rows) == multiset(GroupByLocation(locations))
    ensures var r := GetTechniciansByLocation(None, DefaultLimit, database, countDocuments, aggregate);
      r.Ok? && r.body.data == rows && r.body.total == |locations| &&
      r.body.citiesCount == Some(|set x | x in locations|)
  {
    AllCitiesAnswer(rows, database, countDocuments, aggregate);
    SumCountsPermutation(rows, GroupByLocation(locations));
    GroupSize(locations, rows);
  }
}
