# EVeez command-centre backend: the reporting core, modelled in Dafny

This project models the core of the EVeez service back end. It is a set of
read-only HTTP endpoints over a MongoDB store, with helpers for normalising
city names and caching responses:

- **Done-count summary** (`routes/analytics.py`). A range keyword (`today`,
  `yesterday`, `last_7`, `last_30`, `custom`) or an explicit
  `start_date`/`end_date` pair becomes a window of India Standard Time
  wall-clock instants. The window is moved to UTC and becomes the
  `count_documents` filter, together with an optional location. Errors give
  400 for a `ValueError` and 500 for anything else.
- **City normalisers** (`utils/city_alias.py`, `utils/city_aliases.py`). These
  trim the input, look it up case-insensitively in a one-entry alias table
  ("bengaluru" → "Bangalore"), and otherwise keep the trimmed input.
- **Technician endpoints** (`routes/technicians.py`). These list technicians
  and count technicians per city, either with a regular-expression filter or
  through a `$match`/`$group`/`$project`/`$sort` pipeline. They also hold the
  recursive conversion of store values (ObjectId, datetime, Decimal, BSON) to
  strings.
- **Service-ticket listing** (`routes/service_tickets.py`). It keeps its own
  copy of that conversion.
- **Response cache decorator** (`utils/cache.py`). The key is `"cache:"`
  followed by a digest of the path and the *sorted* query pairs. A cached
  value that is usable and decodes is returned without calling the endpoint.
  Otherwise the endpoint's result is stored, best effort.

Modules:

- `Wrappers`: Option and Result.
- `Text`: Python `strip`, and `lower`/`casefold` on ASCII.
- `Civil`: proleptic Gregorian day numbers, and `strptime("%Y-%m-%d")` with
  its real leniency.
- `DocStore`: BSON-like values, filters, pipeline stages and HTTP replies.
- `Analytics`, `CityAlias`, `CityAliases`, `Technicians`, `ServiceTickets` and
  `Cache`: one module per core file.

Time is integer microseconds since 1970-01-01T00:00. The current time is a
parameter. Asia/Kolkata is the fixed offset +05:30. The store, the database
handle, the JSON codec and SHA-256 are function parameters. A failure of any
of them is a value (`Exc`, or an error string). So is the `OverflowError`
that pytz's `localize` raises for the first and the last date `datetime` can
hold (0001-01-01 and 9999-12-31, the "edge days" below): it is not a
`ValueError`, so it becomes a 500.

Some behaviours of the code that the model keeps as they are:

- The technician-count normaliser has no "all"/"All Cities" sentinel. Both
  are returned trimmed (`CityAliases.AllCitiesNotSpecial`,
  `CityAliases.AllNotSpecial`).
- A whitespace-only city gives `""` there, not `None`
  (`CityAliases.BlankGivesEmpty`).
- The "All Cities" check of the summary endpoint is case-sensitive
  (`Analytics.OtherCasingAddsClause`).
- Both ends of the done-count window are inclusive (`$gte`/`$lte`).
- Explicit dates that both parse, one of them 0001-01-01 or 9999-12-31,
  give 500 "Error fetching analytics: date value out of range", not 400
  (`Analytics.EdgeDateIs500`). When the other date does not parse, the
  answer is the 400 of the date-format error.

## Model

| member | source | states |
|---|---|---|
| Text.Strip | utils/city_alias.py:20 | `strip()` returns a slice of the input with only whitespace cut off on both sides, and neither end of the result is whitespace |
| Text.StripPadded | routes/analytics.py:113-114 | stripping a whitespace-padded trimmed word returns exactly that word |
| Text.StripAllSpace | utils/city_alias.py:20-22 | the stripped text is empty exactly when the input is all whitespace |
| Text.StripOfStripped | utils/city_aliases.py:18-20 | stripping is idempotent on already-trimmed text |
| Text.Lower | utils/city_alias.py:24 | `lower()` keeps the length and lower-cases each ASCII letter, leaving other characters alone |
| CityAlias.NormalizeCity | utils/city_alias.py:9-27 | None for a missing or blank city; the alias with flag True when the lower-cased trimmed city is in the table; otherwise the trimmed city with flag False; a returned city is never empty and has no surrounding whitespace |
| CityAlias.BengaluruInAnyForm | utils/city_alias.py:4-6 | "bengaluru" in any casing and with any padding gives ("Bangalore", True) |
| CityAlias.OtherCityKeptTrimmed | utils/city_alias.py:27 | a city outside the table comes back trimmed, casing kept, flag False |
| CityAlias.NormalizeCityIdempotent | utils/city_alias.py:9-27 | normalising a returned city gives the same city back |
| CityAlias.AliasIsCanonical | utils/city_alias.py:4-6 | the alias target "Bangalore" is a fixed point, with flag False |
| CityAliases.NormalizeCityForTechnicianCount | utils/city_aliases.py:10-20 | None stays None and "" stays ""; otherwise the case-folded trimmed city's alias, or else the trimmed city; the result has no surrounding whitespace, and is empty exactly for blank input |
| CityAliases.BlankGivesEmpty | utils/city_aliases.py:16-20 | whitespace-only input gives "", not None |
| CityAliases.BengaluruInAnyForm | utils/city_aliases.py:5-8 | "bengaluru" in any casing and with any padding gives "Bangalore" |
| CityAliases.OrdinaryCityKeptTrimmed | utils/city_aliases.py:20 | a city outside the table comes back trimmed whatever its padding |
| CityAliases.AllCitiesNotSpecial | utils/city_aliases.py:18-20 | "All Cities" is not a sentinel: it is returned trimmed |
| CityAliases.AllNotSpecial | utils/city_aliases.py:18-20 | "all" is not a sentinel: it is returned trimmed |
| CityAliases.NormalizeIdempotent | utils/city_aliases.py:10-20 | normalising a returned city gives the same city back |
| CityAliases.AgreesWithNormalizeCity | utils/city_aliases.py:18-20 | on non-blank input the two normalisers return the same city |
| Civil.ParseYmd | routes/analytics.py:85-86 | `strptime(s, "%Y-%m-%d")` succeeds only on a real date, and only on a text that spells it: four year digits, '-', the month as two digits or one digit 1-9, '-', the day as two digits, one digit 1-9 or a space and one digit 1-9, and nothing after |
| Civil.ParseSpelled | routes/analytics.py:85-86 | `strptime` gives a date exactly when the date is real and the text is one of its spellings, so every such spelling is accepted |
| Civil.ParseCanonical | routes/analytics.py:85-86 | parsing the zero-padded `YYYY-MM-DD` text of any date gives that date back |
| Civil.LenientForms | routes/analytics.py:43-44 | a single-digit month and day ("2025-1-5") and a space-padded day ("2025-01- 5") are accepted |
| Civil.MixedWidthForms | routes/analytics.py:43-44 | a one-digit field beside a two-digit one ("2025-1-15", "2025-10-5") is accepted |
| Civil.RefusedForms | routes/analytics.py:48-49 | "invalid-date", 29 February of a common year, year 0, a trailing digit and '/' separators are all refused |
| Civil.NextDateNumber | routes/analytics.py:26 | the day number of the next calendar date is one more, so `timedelta(days=1)` moves one calendar day |
| Analytics.DayWindow | routes/analytics.py:43-44 | the window starts at the local midnight of day `first`, ends at 23:59:59.999999 of day `last`, and covers last − first + 1 whole days |
| Analytics.ExplicitWindow | routes/analytics.py:83-91 | succeeds exactly when both dates parse and neither is 0001-01-01 or 9999-12-31, and then gives the window from the first date's midnight to the second date's last microsecond; a date that does not parse fails with the ValueError "Invalid date format. Use YYYY-MM-DD"; a parsed edge date fails with the non-ValueError "date value out of range" |
| Analytics.GetDateRange | routes/analytics.py:14-54 | every keyword range succeeds with a non-empty window from a local midnight to the last microsecond of today (of yesterday for `yesterday`); `custom` without both dates fails with its ValueError, and with both is the explicit-date window; any other keyword fails with the ValueError "Invalid range type: <kw>" |
| Analytics.ResolveWindow | routes/analytics.py:81-96 | a window comes only from two explicit dates or a range; with neither, the ValueError "Either range or start_date/end_date must be provided" |
| Analytics.LocalDayContainsNow | routes/analytics.py:18-19 | the local day of now contains now on the IST clock |
| Analytics.TodayWindow | routes/analytics.py:21-23 | `today` runs from local midnight through 23:59:59.999999 of the current local date and contains now |
| Analytics.YesterdayIsTodayShifted | routes/analytics.py:25-28 | `yesterday` is the `today` window moved back by exactly one day |
| Analytics.LastNWindow | routes/analytics.py:30-36 | `last_7`/`last_30` start at local midnight N days back, end where `today` ends, and cover N + 1 days |
| Analytics.ExplicitDatesUnordered | routes/analytics.py:85-89 | dates are not checked for order: a start after the end (neither an edge day) gives a window that ends before it starts |
| Analytics.ExplicitDatesWin | routes/analytics.py:81-91 | when both `start_date` and `end_date` are non-empty they decide the window, and `range`, `start` and `end` are ignored |
| Analytics.RangeOtherwise | routes/analytics.py:92-94 | without both explicit dates, a non-empty `range` goes through `get_date_range` |
| Analytics.ToUtc | routes/analytics.py:99-100 | both ends of the window move back by exactly 5 h 30 min |
| Analytics.SingleDateInUtc | routes/analytics.py:85-100 | a single date D other than the two edge days becomes (D−1) 18:30:00 UTC through D 18:29:59.999999 UTC |
| Analytics.ExplicitSpanInUtc | routes/analytics.py:85-100 | dates D1..D2, neither an edge day, give a UTC window of D2 − D1 + 1 days less one microsecond |
| Analytics.FirstWeekOf2025 | routes/analytics.py:85-86 | 2025-01-01 through 2025-01-07 spans exactly seven days |
| Analytics.ExplicitTodayIsToday | routes/analytics.py:81-94 | explicit dates naming today's local date (not an edge day) resolve to exactly the `today` window |
| Analytics.LocationClause | routes/analytics.py:112-115 | a location clause exists exactly when the location is present, not blank, and not exactly "All Cities" after trimming; its value is the trimmed location |
| Analytics.LocationClausePadded | routes/analytics.py:113-114 | with whitespace padding around a trimmed word, blank or "All Cities" adds no clause and any other word adds itself |
| Analytics.AllCitiesAddsNoClause | routes/analytics.py:112-113 | "All Cities", padded or not, adds no location clause |
| Analytics.OtherCasingAddsClause | routes/analytics.py:113 | "all cities" in lower case does add a clause: the sentinel is case-sensitive |
| Analytics.BlankAddsNoClause | routes/analytics.py:113 | an empty or whitespace-only location adds no clause |
| Analytics.DoneFilter | routes/analytics.py:104-115 | the filter has exactly the keys `status.done.check` (true) and `date` (`$gte` start, `$lte` end), plus `location` (`$eq` the trimmed location) exactly when a clause exists |
| Analytics.LocationDoneFilter | routes/analytics.py:104-115 | with a trimmed location other than "All Cities", the filter is exactly the three-clause map |
| Analytics.ErrorResponse | routes/analytics.py:125-128 | a ValueError becomes 400 with its message; any other exception becomes 500 with "Error fetching analytics: " and its message |
| Analytics.Summary | routes/analytics.py:76-128 | a failed database handle gives its error first; a window that cannot be resolved gives its error response (400 for a ValueError, 500 "Error fetching analytics: …" for the overflow); a failing count gives its error response; otherwise the answer is `done_count`, exactly the count of the filter |
| Analytics.StoreFailureComesFirst | routes/analytics.py:76-77 | a failure to get the store handle gives 500 even when the dates are bad |
| Analytics.SingleDateWindow | routes/analytics.py:81-89 | equal explicit dates, not an edge day, resolve to the single-day window of that date |
| Analytics.ExplicitWindowInRange | routes/analytics.py:85-100 | the UTC window of explicit dates that resolve lies within 0001-01-01T00:00 and 9999-12-31T23:59:59.999999, so `astimezone` cannot overflow |
| Analytics.EdgeDateIs500 | routes/analytics.py:81-128 | explicit dates that parse, one of them on the first or last day `datetime` holds, give 500 "Error fetching analytics: date value out of range" |
| Analytics.EdgeDatesParse | routes/analytics.py:85-86 | "0001-01-01" and "9999-12-31" parse, and are those edge days |
| Analytics.KolkataFilter | routes/analytics.py:104-118 | for one date other than the edge days and location "Kolkata", the store is asked about exactly `{status.done.check: true, date: [start, end], location: {$eq: "Kolkata"}}` and its count is returned |
| DocStore.Take | routes/technicians.py:44-45 | `find(...).limit(n)` returns a prefix of the cursor: all of it when it holds no more than n documents, otherwise exactly the first n |
| Technicians.ConvertObjectIdToStr | routes/technicians.py:11-24 | an ObjectId becomes its hex string, and a datetime, Decimal or BSON value its string; a dict keeps its keys in order with each value converted; a list keeps its length with each item converted; everything else is unchanged; the result is transport-safe |
| Technicians.ConvertFixesTransportable | routes/technicians.py:11-24 | a transport-safe value is left unchanged |
| Technicians.ConvertIdempotent | routes/technicians.py:11-24 | converting twice is the same as converting once |
| Technicians.ConvertListElements | routes/technicians.py:19-20 | element i of a converted list is element i converted |
| Technicians.TupleNotEntered | routes/technicians.py:23-24 | tuples are not entered: an ObjectId inside one survives |
| Technicians.ConvertAll | routes/technicians.py:48 | converting the fetched list converts each document and keeps their number and order |
| Technicians.RoleFilter | routes/technicians.py:38 | the filter is exactly `{"role": "Technician"}` |
| Technicians.GetTechnicians | routes/technicians.py:26-61 | a limit outside 1..1000 is rejected before anything else; a failure of the handle, then of the count, then of the find gives 500 "Error fetching technicians: " followed by that failure's message; success holds exactly when the handle, count and find succeed, with the role count, at most `limit` converted documents in cursor order, `returned_count` equal to their number, and the echoed limit and role |
| Technicians.CityFilter | routes/technicians.py:79-84 | the city filter is the role plus the raw city as a case-insensitive `$regex` |
| Technicians.CityPipeline | routes/technicians.py:96-112 | the pipeline is exactly: `$match` the role, `$group` by `$location` summing 1 into `count`, `$project` `city` from `$_id` with `count` and without `_id`, `$sort` by city ascending |
| Technicians.GetTechniciansByLocation | routes/technicians.py:63-129 | a limit outside 1..1000 is rejected; success holds exactly when the handle and the city count (with a non-empty city) or the aggregation (without) succeed; each failure gives 500 "Error fetching technicians by location: " and that failure's message; with a city: one row of that city with its count, the same total, and `filtered_by`; without: the aggregation's rows, their summed total and the number of cities |
| Technicians.AllCitiesAnswer | routes/technicians.py:115-125 | without a city, the answer is the aggregation's rows as they come, their summed count and their number |
| Technicians.SumCounts | routes/technicians.py:118 | no row counts more than the total |
| Technicians.ByLocationIgnoresLimit | routes/technicians.py:66 | `limit` is only validated: within range it does not change the answer |
| Technicians.NoTechnicians | routes/technicians.py:115-125 | with no rows, both the total and `cities_count` are 0 |
| Technicians.TotalBoundsCities | routes/technicians.py:118 | when every row counts at least one technician, the total is at least the number of rows, and 0 only without rows |
| Technicians.SumCountsAppend | routes/technicians.py:118 | the total splits over concatenated rows |
| Technicians.SumCountsPermutation | routes/technicians.py:111-118 | rows in any order have the same total, so `$sort` does not change it |
| Technicians.CountOfDistinct | routes/technicians.py:99-103 | when no city has two rows, a city's row holds everything counted at that city |
| Technicians.CountOne | routes/technicians.py:99-103 | adding one technician keeps the existing rows' cities in place; a city without a row gets a new last row with count 1; a city with a row adds no row |
| Technicians.CountOneCountOf | routes/technicians.py:99-103 | adding one technician at a city counts one more there and nothing more anywhere else |
| Technicians.CountOneTotal | routes/technicians.py:99-103 | adding one technician raises the total by one and leaves no row counting nobody |
| Technicians.CountOneCities | routes/technicians.py:99-103 | adding one technician adds its city to the cities and keeps the cities distinct |
| Technicians.GroupByLocation | routes/technicians.py:99-103 | the `$group` rows have distinct cities, count at each location exactly its number of technicians, all count at least one, and total the number of technicians |
| Technicians.GroupCities | routes/technicians.py:99-103 | the `$group` rows have a row for every location and for nothing else |
| Technicians.GroupCountsOccurrences | routes/technicians.py:99-103 | each `$group` row's count is the number of technicians at its city |
| Technicians.GroupSize | routes/technicians.py:99-124 | the `$group` rows, in any order, number as many as the distinct locations |
| Technicians.ReorderedCountsOccurrences | routes/technicians.py:99-111 | after any reordering of the `$group` rows, each row still counts the technicians at its city |
| Technicians.TotalCountsEveryTechnician | routes/technicians.py:96-124 | when the store answers with the `$group` rows in any order, the answer carries those rows, the total is the number of technicians, and `cities_count` is the number of distinct locations |
| ServiceTickets.ConvertObjectIdToStr | routes/service_tickets.py:11-24 | this module's copy: an ObjectId becomes its hex string, and a datetime, Decimal or BSON value its string; a dict keeps its keys in order with each value converted; a list keeps its length with each item converted; everything else is unchanged |
| ServiceTickets.SameAsTechniciansCopy | routes/service_tickets.py:11-24 | the duplicated conversion agrees with the technicians copy on every value |
| ServiceTickets.ConvertIdempotent | routes/service_tickets.py:11-24 | this copy, too, is idempotent and leaves nothing to stringify outside tuples |
| ServiceTickets.AllTickets | routes/service_tickets.py:38 | the filter is empty, so every ticket matches |
| ServiceTickets.ConvertTickets | routes/service_tickets.py:48 | the fetched tickets are converted one by one, in order |
| ServiceTickets.GetServiceTickets | routes/service_tickets.py:26-60 | a limit outside 1..1000 is rejected; a failure of the handle, then of the count, then of the find gives 500 "Error fetching service tickets: " followed by that failure's message; success holds exactly when the handle, count and find succeed, with the collection count and at most `limit` converted, transport-safe tickets |
| Cache.StrLeTotal | utils/cache.py:57 | Python string order is total |
| Cache.StrLeAntisymmetric | utils/cache.py:57 | Python string order is antisymmetric |
| Cache.StrLeTransitive | utils/cache.py:57 | Python string order is transitive |
| Cache.PairLeTransitive | utils/cache.py:57 | tuple order on (name, value) pairs is transitive |
| Cache.PairLeAntisymmetric | utils/cache.py:57 | tuple order on (name, value) pairs is antisymmetric |
| Cache.Insert | utils/cache.py:57 | inserting into sorted pairs keeps them sorted and adds exactly that pair |
| Cache.SortPairs | utils/cache.py:57 | `sorted(pairs)` is sorted and a permutation of the pairs |
| Cache.SortedUnique | utils/cache.py:57 | two sorted arrangements of the same pairs are equal |
| Cache.CacheKey | utils/cache.py:57-59 | the key is "cache:" followed by the digest of the path and the query pairs in sorted order, whichever sorted arrangement of them is taken |
| Cache.KeyIgnoresQueryOrder | utils/cache.py:57-59 | the same path with the same query pairs in any order gives the same key |
| Cache.FirstScoped | utils/cache.py:48-52 | a request found among the positional arguments is one of them |
| Cache.RequestOf | utils/cache.py:46-52 | the `request` keyword argument wins; nothing is found exactly when there is no keyword request and no positional argument is scoped; otherwise the request of the first scoped positional argument, no earlier one being scoped |
| Cache.FirstScopedIsEarliest | utils/cache.py:46-52 | the scan finds the earliest scoped argument, and finds nothing exactly when no argument is scoped |
| Cache.FindRequest | utils/cache.py:46-52 | the loop returns the `request` keyword argument, or else the first positional argument with a scope |
| Cache.CacheClient.Lookup | utils/cache.py:12-14 | a value is found only on an enabled client that holds the key; the no-op cache never finds one |
| Cache.CacheClient.Get | utils/cache.py:61 | a failing server raises; otherwise the stored value, or None on a no-op cache |
| Cache.CacheClient.Setex | utils/cache.py:69-72 | an enabled client without a fault stores the value under the key with the TTL and changes nothing else; otherwise nothing changes |
| Cache.Hit | utils/cache.py:61-66 | a hit exactly when the cached value is present, non-empty and decodes, and then it is the decoded value |
| Cache.CachedCall | utils/cache.py:34-77 | without a request, the endpoint is called and the cache is untouched; a failing `get` propagates; a truthy cached value that decodes is returned without a call; otherwise the endpoint's result or error is returned and, when it encodes and the server does not fail, stored under the key with the TTL |

## Left out

- Router wiring (`main.py`) is not part of this model. Neither is the analytics router, which `main.py` does not mount.
- The Redis and MongoDB servers, the network, logging, and `load_dotenv` are left out. Store answers are function parameters, with failures as values.
- MongoDB operator semantics are left out: `$regex` matching, `$sort` and `$project` are described as data, not evaluated. `$group` has a reference semantics (`Technicians.GroupByLocation`). The per-city lemmas assume the store answers with its rows in some order; they do not assume the order `$sort` gives.
- Redis TTL expiry is left out: an entry records its TTL but never expires.
- `get_cache_client`'s environment handling is left out. The client's `enabled` flag stands for "ENABLE_REDIS_CACHE is set and the redis package imported".
- A non-`Request` object with a truthy `scope`, or a `request` keyword argument that is not a Request, is not modelled. Arguments are either scoped requests or not.
- JSON encoding and SHA-256 are parameters (`dumps`, `loads`, `digest`). The key is stated in terms of `digest`; the hexadecimal text SHA-256 gives is not modelled.
- `strip`, `lower` and `casefold` are modelled on ASCII only. Non-ASCII whitespace and Unicode case folding are not, nor Unicode digits accepted by `strptime`.
- pytz's `localize` is modelled as the fixed +05:30 offset, plus its overflow on 0001-01-01 and 9999-12-31. Asia/Kolkata has had no transitions since 1945, and earlier dates are not modelled with historical offsets.
- The clock reading `nowUtc` is taken to be an instant a real clock gives. The keyword windows are not checked against the limits of `datetime`, which such a reading never comes near.
- FastAPI's 422 body for an out-of-range `limit` is left out: the model only says the request is rejected (`Unprocessable`).
- `routes/hubs.py`, `config/database.py`, `gunicorn_conf.py` and the scripts are not part of this model.
- The decorator's default `ttl_seconds=60` is not modelled as a constant. `Cache.CachedCall` takes the TTL as a parameter, and no endpoint in these files applies the decorator.
