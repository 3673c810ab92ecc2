/**
 * The document store as the route handlers see it: BSON-like values, query
 * filters and aggregation stages as plain data, and the exceptions a store
 * call may raise. How the store evaluates a filter is not modelled.
 */
module DocStore {

  /** A decoded document value. `Object` is any other Python object: its class name and its `str()`. */
  datatype Value =
    | ObjectId(hex: string)
    | Dict(entries: seq<(string, Value)>)
    | List(items: seq<Value>)
    | Tuple(items: seq<Value>)
    | Str(s: string)
    | Int(i: int)
    | Bool(b: bool)
    | Null
    | Object(className: string, text: string)

  /** The condition a filter places on one field. Dates are UTC microseconds since 1970-01-01. */
  datatype Cond =
    | Is(value: Value)                        // "field": value
    | Between(gte: int, lte: int)             // "field": {"$gte": .., "$lte": ..}
    | EqOp(value: Value)                      // "field": {"$eq": value}
    | RegexOp(pattern: string, options: string)  // "field": {"$regex": .., "$options": ..}

  /** A query filter: field path to condition; all conditions must hold. */
  type Filter = map<string, Cond>

  /** How a `$project` stage treats one output field. */
  datatype Projection = FromField(path: string) | Include | Exclude

  /** One stage of an aggregation pipeline. */
  datatype Stage =
    | Match(filter: Filter)                                 // {"$match": filter}
    | GroupSumOne(key: string, countAs: string)             // {"$group": {"_id": key, countAs: {"$sum": 1}}}
    | Project(fields: seq<(string, Projection)>)            // {"$project": {...}}
    | Sort(field: string, direction: int)                   // {"$sort": {field: direction}}

  /**
   * An exception raised while a handler runs (a store call, date parsing or
   * time-zone arithmetic); the handlers map `ValueError` and the rest differently.
   */
  datatype Exc = ValueError(msg: string) | OtherError(msg: string)

  /**
   * An endpoint's answer: the JSON body, a 422 from the framework's query
   * parameter validation, or an HTTPException with its status and detail.
   */
  datatype Reply<+T> = Ok(body: T) | Unprocessable | HttpError(status: int, detail: string)

  /** `Query(100, ge=1, le=1000)`: the bounds on `limit` that the framework enforces. */
  const DefaultLimit: int := 100
  predicate LimitInRange(limit: int) {
    1 <= limit <= 1000
  }

  /** `find(filter).limit(n)`: the first `n` documents of the cursor, or all of them if fewer. */
  function Take(docs: seq<Value>, n: int): (r: seq<Value>)
    requires n >= 1
    ensures |r| <= n && |r| <= |docs| && r == docs[..|r|]
    ensures |docs| <= n ==> r == docs
    ensures |docs| > n ==> |r| == n
  {
    if |docs| <= n then docs else docs[..n]
  }
}
