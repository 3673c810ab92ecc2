/**
 * utils/cache.py: the response-caching decorator. The key is derived from the
 * request path and its sorted query pairs; a usable cached value is returned
 * without calling the endpoint; otherwise the endpoint runs and its result is
 * stored, best effort. JSON encoding, SHA-256 and the Redis server are
 * parameters of the model.
 */
module Cache {
  import opened Wrappers

  /** A query parameter as `multi_items()` yields it: (name, value). */
  type QueryPair = (string, string)

  /** What the decorator reads from a request: its URL path and its query pairs, in order. */
  datatype Request = Request(path: string, query: seq<QueryPair>)

  /** A positional argument; one with a truthy `scope` attribute is taken for the request. */
  datatype Arg = Scoped(request: Request) | Unscoped

  const KeyPrefix := "cache:"

  // ---- Python's ordering of strings and of (name, value) tuples ----

  /** `a <= b` for Python strings: lexicographic by code point, a prefix first. */
  predicate StrLe(a: string, b: string) {
    a == [] || (b != [] && (a[0] < b[0] || (a[0] == b[0] && StrLe(a[1..], b[1..]))))
  }

  lemma {:induction false} StrLeReflexive(a: string)
    ensures StrLe(a, a)
  {
    if a != [] {
      StrLeReflexive(a[1..]);
    }
  }

  lemma {:induction false} StrLeTotal(a: string, b: string)
    ensures StrLe(a, b) || StrLe(b, a)
  {
    if a != [] && b != [] && a[0] == b[0] {
      StrLeTotal(a[1..], b[1..]);
    }
  }

  lemma {:induction false} StrLeAntisymmetric(a: string, b: string)
    requires StrLe(a, b) && StrLe(b, a)
    ensures a == b
  {
    if a != [] && b != [] {
      StrLeAntisymmetric(a[1..], b[1..]);
      assert a == [a[0]] + a[1..] && b == [b[0]] + b[1..];
    }
  }

  lemma {:induction false} StrLeTransitive(a: string, b: string, c: string)
    requires StrLe(a, b) && StrLe(b, c)
    ensures StrLe(a, c)
  {
    if a != [] && b != [] && c != [] && a[0] == b[0] && b[0] == c[0] {
      StrLeTransitive(a[1..], b[1..], c[1..]);
    }
  }

  /** Tuple comparison: by name, then by value. */
  predicate PairLe(p: QueryPair, q: QueryPair) {
    (p.0 != q.0 && StrLe(p.0, q.0)) || (p.0 == q.0 && StrLe(p.1, q.1))
  }

  lemma PairLeReflexive(p: QueryPair)
    ensures PairLe(p, p)
  {
    StrLeReflexive(p.1);
  }

  lemma PairLeTotal(p: QueryPair, q: QueryPair)
    ensures PairLe(p, q) || PairLe(q, p)
  {
    StrLeTotal(p.0, q.0);
    StrLeTotal(p.1, q.1);
  }

  lemma PairLeAntisymmetric(p: QueryPair, q: QueryPair)
    requires PairLe(p, q) && PairLe(q, p)
    ensures p == q
  {
    if p.0 != q.0 {
      StrLeAntisymmetric(p.0, q.0);
    } else {
      StrLeAntisymmetric(p.1, q.1);
    }
  }

  lemma PairLeTransitive(p: QueryPair, q: QueryPair, r: QueryPair)
    requires PairLe(p, q) && PairLe(q, r)
    ensures PairLe(p, r)
  {
    if p.0 == q.0 && q.0 == r.0 {
      StrLeTransitive(p.1, q.1, r.1);
    } else if p.0 != q.0 && q.0 != r.0 {
      StrLeTransitive(p.0, q.0, r.0);
      if p.0 == r.0 {
        StrLeAntisymmetric(p.0, q.0);
      }
    }
  }

  predicate Sorted(s: seq<QueryPair>) {
    forall i, j :: 0 <= i < j < |s| ==> PairLe(s[i], s[j])
  }

  /** Inserts `x` into a sorted sequence, before the first element it precedes. */
  function Insert(x: QueryPair, s: seq<QueryPair>): (r: seq<QueryPair>)
    requires Sorted(s)
    ensures Sorted(r) && multiset(r) == multiset(s) + multiset{x}
  {
    if s == [] then [x]
    else if PairLe(x, s[0]) then
      forall j | 0 <= j < |s| ensures PairLe(x, s[j]) {
        if j > 0 { PairLeTransitive(x, s[0], s[j]); }
      }
      [x] + s
    else
      PairLeTotal(x, s[0]);
      assert forall k :: 0 <= k < |s[1..]| ==> s[1..][k] == s[k + 1];
      var t := Insert(x, s[1..]);
      LowerBoundKept(s[0], x, s[1..], t);
      assert s == [s[0]] + s[1..];
      [s[0]] + t
  }

  /** A pair that precedes `x` and all of `s` precedes all of any arrangement `t` of `s` with `x` added. */
  lemma LowerBoundKept(y: QueryPair, x: QueryPair, s: seq<QueryPair>, t: seq<QueryPair>)
    requires multiset(t) == multiset(s) + multiset{x}
    requires PairLe(y, x) && forall k :: 0 <= k < |s| ==> PairLe(y, s[k])
    ensures forall k :: 0 <= k < |t| ==> PairLe(y, t[k])
  {
    forall k | 0 <= k < |t| ensures PairLe(y, t[k]) {
      assert t[k] in multiset(t);
      if t[k] != x {
        assert t[k] in multiset(s);
        var m :| 0 <= m < |s| && s[m] == t[k];
      }
    }
  }

  /** `sorted(pairs)`: the pairs in ascending order, the same multiset. */
  function SortPairs(ps: seq<QueryPair>): (r: seq<QueryPair>)
    ensures Sorted(r) && multiset(r) == multiset(ps)
  {
    if ps == [] then []
    else
      assert ps == [ps[0]] + ps[1..];
      Insert(ps[0], SortPairs(ps[1..]))
  }

  lemma TailMultiset(a: seq<QueryPair>)
    requires a != []
    ensures multiset(a[1..]) == multiset(a) - multiset{a[0]}
  {
    assert a == [a[0]] + a[1..];
    assert multiset(a) == multiset{a[0]} + multiset(a[1..]);
  }

  /** The first element of a sorted sequence precedes every element of it. */
  lemma SortedHeadLeast(a: seq<QueryPair>, x: QueryPair)
    requires Sorted(a) && x in multiset(a)
    ensures PairLe(a[0], x)
  {
    var i :| 0 <= i < |a| && a[i] == x;
    if i == 0 { PairLeReflexive(x); }
  }

  /** Two sorted sequences of the same pairs are the same sequence. */
  lemma {:induction false} SortedUnique(a: seq<QueryPair>, b: seq<QueryPair>)
    requires Sorted(a) && Sorted(b) && multiset(a) == multiset(b)
    ensures a == b
  {
    if a != [] {
      assert |b| == |a| by { assert |multiset(a)| == |multiset(b)|; }
      assert a[0] in multiset(a) && b[0] in multiset(b);
      SortedHeadLeast(a, b[0]);
      SortedHeadLeast(b, a[0]);
      PairLeAntisymmetric(a[0], b[0]);
      TailMultiset(a);
      TailMultiset(b);
      SortedUnique(a[1..], b[1..]);
      assert a == [a[0]] + a[1..] && b == [b[0]] + b[1..];
    }
  }

  /**
   * The cache key: "cache:" followed by `digest` of the path and the sorted
   * query pairs. `digest` stands for `sha256(json.dumps([path, pairs])).hexdigest()`.
   */
  function CacheKey(path: string, query: seq<QueryPair>, digest: (string, seq<QueryPair>) -> string): (k: string)
    ensures |k| >= |KeyPrefix| && k[..|KeyPrefix|] == KeyPrefix
    ensures forall s :: Sorted(s) && multiset(s) == multiset(query) ==> k == KeyPrefix + digest(path, s)
  {
    SortedIsSortPairs(query);
    KeyPrefix + digest(path, SortPairs(query))
  }

  /** Every sorted arrangement of `query` is the one `SortPairs` gives. */
  lemma SortedIsSortPairs(query: seq<QueryPair>)
    ensures forall s :: Sorted(s) && multiset(s) == multiset(query) ==> s == SortPairs(query)
  {
    forall s | Sorted(s) && multiset(s) == multiset(query) ensures s == SortPairs(query) {
      SortedUnique(s, SortPairs(query));
    }
  }

  /** The same path with the same query pairs in any order gives the same key. */
  lemma KeyIgnoresQueryOrder(path: string, q1: seq<QueryPair>, q2: seq<QueryPair>, digest: (string, seq<QueryPair>) -> string)
    requires multiset(q1) == multiset(q2)
    ensures CacheKey(path, q1, digest) == CacheKey(path, q2, digest)
  {
    SortedUnique(SortPairs(q1), SortPairs(q2));
  }

  // ---- Finding the request ----

  /** The first positional argument that has a scope, if any. */
  function FirstScoped(args: seq<Arg>): (r: Option<Request>)
    ensures r.Some? ==> Scoped(r.value) in args
  {
    if args == [] then None
    else if args[0].Scoped? then Some(args[0].request)
    else FirstScoped(args[1..])
  }

  /** The request the decorator finds: the `request` keyword argument, else the first scoped positional one. */
  function RequestOf(kwRequest: Option<Request>, args: seq<Arg>): (r: Option<Request>)
    ensures kwRequest.Some? ==> r == kwRequest
    ensures r.None? <==> kwRequest.None? && forall i :: 0 <= i < |args| ==> !args[i].Scoped?
    ensures r.Some? && kwRequest.None? ==>
      exists i :: 0 <= i < |args| && args[i] == Scoped(r.value) && forall j :: 0 <= j < i ==> !args[j].Scoped?
  {
    FirstScopedIsEarliest(args);
    if kwRequest.Some? then kwRequest else FirstScoped(args)
  }

  /** `FirstScoped` finds the earliest scoped argument, and finds nothing only when none is scoped. */
  lemma {:induction false} FirstScopedIsEarliest(args: seq<Arg>)
    ensures FirstScoped(args).None? <==> forall i :: 0 <= i < |args| ==> !args[i].Scoped?
    ensures FirstScoped(args).Some? ==>
      exists i :: 0 <= i < |args| && args[i] == Scoped(FirstScoped(args).value) &&
        forall j :: 0 <= j < i ==> !args[j].Scoped?
  {
    if args != [] {
      FirstScopedIsEarliest(args[1..]);
      if !args[0].Scoped? && FirstScoped(args).Some? {
        var i :| 0 <= i < |args[1..]| && args[1..][i] == Scoped(FirstScoped(args).value) &&
          forall j :: 0 <= j < i ==> !args[1..][j].Scoped?;
        assert args[i + 1] == Scoped(FirstScoped(args).value);
        assert forall j :: 0 <= j < i + 1 ==> !args[j].Scoped? by {
          forall j | 0 <= j < i + 1 ensures !args[j].Scoped? {
            if j > 0 { assert args[j] == args[1..][j - 1]; }
          }
        }
      }
      if FirstScoped(args).None? {
        forall i | 0 <= i < |args| ensures !args[i].Scoped? {
          if i > 0 { assert args[i] == args[1..][i - 1]; }
        }
      }
    }
  }

  /** The request lookup of `wrapper`: the keyword argument, else a scan of the positional ones. */
  method FindRequest(kwRequest: Option<Request>, args: seq<Arg>) returns (req: Option<Request>)
    ensures req == RequestOf(kwRequest, args)
  {
    req := kwRequest;
    if req.None? && |args| > 0 {
      var i := 0;
      while i < |args|
        invariant 0 <= i <= |args|
        invariant req.None?
        invariant FirstScoped(args[i..]) == FirstScoped(args)
      {
        if args[i].Scoped? {
          req := Some(args[i].request);
          break;
        }
        assert args[i..][1..] == args[i + 1..];
        i := i + 1;
      }
    }
  }

  // ---- The cache store ----

  /** A stored value with the time-to-live it was stored under; expiry itself is not modelled. */
  datatype Entry = Entry(value: string, ttl: int)

  /**
   * The client `get_cache_client` returns: a Redis client when `enabled`,
   * otherwise a `NoOpCache`, whose `get` answers None and whose `setex` stores
   * nothing.
   */
  class CacheClient {
    const enabled: bool
    var entries: map<string, Entry>

    constructor (enabled: bool)
      ensures this.enabled == enabled && entries == map[]
    {
      this.enabled := enabled;
      entries := map[];
    }

    /** What `get(key)` answers when the server does not fail. */
    function Lookup(key: string): (v: Option<string>)
      reads this
      ensures v.Some? <==> enabled && key in entries
      ensures v.Some? ==> v.value == entries[key].value
    {
      if enabled && key in entries then Some(entries[key].value) else None
    }

    /** `get(key)`; `fault` is the error a failing Redis server raises (a NoOpCache never raises). */
    method Get(key: string, fault: Option<string>) returns (v: Result<Option<string>, string>)
      ensures enabled && fault.Some? ==> v == Failure(fault.value)
      ensures !(enabled && fault.Some?) ==> v == Success(Lookup(key))
      ensures !enabled ==> v == Success(None)
    {
      if !enabled {
        v := Success(None);
      } else if fault.Some? {
        v := Failure(fault.value);
      } else {
        v := Success(Lookup(key));
      }
    }

    /** `setex(key, ttl, value)`; `fault` says the Redis server raises instead of storing. */
    method Setex(key: string, ttl: int, value: string, fault: bool) returns (stored: bool)
      modifies this
      ensures stored <==> enabled && !fault
      ensures entries == if stored then old(entries)[key := Entry(value, ttl)] else old(entries)
    {
      stored := enabled && !fault;
      if stored {
        entries := entries[key := Entry(value, ttl)];
      }
    }
  }

  /** A cached value counts as a hit when it is truthy (non-empty) and decodes. */
  function Hit<V>(cached: Option<string>, loads: string -> Option<V>): (r: Option<V>)
    ensures r.Some? <==> cached.Some? && cached.value != "" && loads(cached.value).Some?
    ensures r.Some? ==> r == loads(cached.value)
  {
    if cached.Some? && cached.value != "" then loads(cached.value) else None
  }

  /**
   * `wrapper`, the function `cache_response(ttl)` wraps around an endpoint.
   * `call` is what the endpoint returns (or the exception it raises) when it is
   * called; `called` says whether it was. `loads` and `dumps` are the JSON
   * codec; `getFault` and `setexFault` are failures of the Redis server.
   */
  method CachedCall<V>(
    cache: CacheClient, ttl: int,
    kwRequest: Option<Request>, args: seq<Arg>,
    digest: (string, seq<QueryPair>) -> string,
    loads: string -> Option<V>, dumps: V -> Option<string>,
    call: Result<V, string>,
    getFault: Option<string>, setexFault: bool)
    returns (r: Result<V, string>, called: bool)
    modifies cache
    ensures RequestOf(kwRequest, args).None? ==>
      r == call && called && cache.entries == old(cache.entries)
    ensures RequestOf(kwRequest, args).Some? ==>
      var req := RequestOf(kwRequest, args).value;
      var key := CacheKey(req.path, req.query, digest);
      var hit := Hit(old(cache.Lookup(key)), loads);
      if cache.enabled && getFault.Some? then
        r == Failure(getFault.value) && !called && cache.entries == old(cache.entries)
      else if hit.Some? then
        r == Success(hit.value) && !called && cache.entries == old(cache.entries)
      else
        r == call && called &&
        cache.entries ==
          if cache.enabled && !setexFault && call.Success? && dumps(call.value).Some?
          then old(cache.entries)[key := Entry(dumps(call.value).value, ttl)]
          else old(cache.entries)
    ensures !cache.enabled ==> called && r == call
  {
    var request := FindRequest(kwRequest, args);
    if request.None? {
      return call, true;
    }
    var key := CacheKey(request.value.path, request.value.query, digest);
    var cached := cache.Get(key, getFault);
    if cached.Failure? {
      return Failure(cached.error), false;
    }
    var hit := Hit(cached.value, loads);
    if hit.Some? {
      return Success(hit.value), false;
    }
    r, called := call, true;
    if call.Success? {
      var encoded := dumps(call.value);
      if encoded.Some? {
        var _ := cache.Setex(key, ttl, encoded.value, setexFault);
      }
    }
  }
}
