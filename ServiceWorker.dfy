/** The offline cache of the service worker: a store of named buckets, each
    mapping a request URL to a stored response, and the `install`, `activate`
    and `fetch` handlers that change it. The network's answer to a request is
    an input; each handler runs as one step, its cache writes included. */
module ServiceWorker {
  import opened Common

  /** The name of the one bucket the worker owns. */
  const CACHE_NAME: string := "sports-hub-v1"

  /** The application shell stored at install time. */
  const STATIC_ASSETS: seq<string> := [
    "./",
    "./index.html",
    "./styles.css",
    "./app.js",
    "./manifest.json",
    "./data/teams.json",
    "./data/sample-events.json"]

  /** The page a document request falls back to when offline. */
  const OFFLINE_PAGE: string := "./index.html"

  /** A response: its HTTP status, its `type` (`basic` for a same-origin
      answer) and its body. */
  datatype Response = Response(status: int, kind: string, body: string)

  /** A request: its URL, whether its origin is the worker's own, and its
      `destination` (`document` for a page navigation). */
  datatype Request = Request(url: string, sameOrigin: bool, destination: string)

  /** What the network does with a request. */
  datatype NetworkOutcome = Delivered(response: Response) | NetworkError

  /** `response.ok`, which `cache.addAll` demands of every asset. */
  predicate IsOk(r: Response) {
    200 <= r.status <= 299
  }

  /** A same-origin answer is stored only with status 200 and type `basic`. */
  predicate SameOriginCacheable(r: Response) {
    r.status == 200 && r.kind == "basic"
  }

  /** A cross-origin answer is stored whenever its status is 200. */
  predicate CrossOriginCacheable(r: Response) {
    r.status == 200
  }

  /** `caches.match(url)`: the entry for `url` in the first bucket, in creation
      order, that has one. */
  function MatchIn(names: seq<string>, buckets: map<string, map<string, Response>>, url: string): (r: Option<Response>)
    ensures r.None? <==> forall n :: n in names && n in buckets ==> url !in buckets[n]
    ensures r.Some? ==> exists k :: 0 <= k < |names| && names[k] in buckets && url in buckets[names[k]]
                                    && buckets[names[k]][url] == r.value
                                    && forall j :: 0 <= j < k ==> !(names[j] in buckets && url in buckets[names[j]])
  {
    if names == [] then None
    else if names[0] in buckets && url in buckets[names[0]] then Some(buckets[names[0]][url])
    else
      assert forall n :: n in names <==> n == names[0] || n in names[1..];
      var r := MatchIn(names[1..], buckets, url);
      if r.Some? then
        var k :| 0 <= k < |names[1..]| && names[1..][k] in buckets && url in buckets[names[1..][k]]
                 && buckets[names[1..][k]][url] == r.value
                 && forall j :: 0 <= j < k ==> !(names[1..][j] in buckets && url in buckets[names[1..][j]]);
        assert forall j :: 0 <= j < k + 1 ==> !(names[j] in buckets && url in buckets[names[j]]) by {
          forall j | 0 <= j < k + 1 ensures !(names[j] in buckets && url in buckets[names[j]]) {
            if j > 0 {
              assert names[j] == names[1..][j - 1];
            }
          }
        }
        assert names[k + 1] == names[1..][k];
        r
      else r
  }

  /** `s.filter(y => y !== x)`: the elements other than `x`, in their order. */
  function Without(s: seq<string>, x: string): (r: seq<string>)
    ensures IsSubsequence(r, s)
    ensures forall y :: y in r <==> y in s && y != x
    ensures Distinct(s) ==> Distinct(r)
    ensures forall y :: multiset(r)[y] == if y == x then 0 else multiset(s)[y]
  {
    if s == [] then []
    else
      assert forall y :: y in s <==> y == s[0] || y in s[1..];
      assert s == [s[0]] + s[1..];
      var rest := Without(s[1..], x);
      if s[0] == x then rest
      else
        assert ([s[0]] + rest)[1..] == rest;
        assert Distinct(s) ==> Distinct([s[0]] + rest) by {
          if Distinct(s) {
            assert s[0] !in s[1..];
            forall i, j | 0 <= i < j < |[s[0]] + rest|
              ensures ([s[0]] + rest)[i] != ([s[0]] + rest)[j]
            {
              if i == 0 {
                assert ([s[0]] + rest)[j] in rest;
              }
            }
          }
        }
        [s[0]] + rest
  }

  /** The entries of `bucket` after storing `values[k]` under `keys[k]`, one
      after another. */
  function PutAll(bucket: map<string, Response>, keys: seq<string>, values: seq<Response>): map<string, Response>
    requires |keys| == |values|
  {
    if keys == [] then bucket
    else PutAll(bucket, keys[..|keys| - 1], values[..|values| - 1])[keys[|keys| - 1] := values[|values| - 1]]
  }

  /** With distinct keys, every key ends up holding its own value, and
      every other entry is left as it was. */
  lemma {:induction false} PutAllStores(bucket: map<string, Response>, keys: seq<string>, values: seq<Response>)
    requires |keys| == |values| && Distinct(keys)
    ensures forall k :: 0 <= k < |keys| ==>
              (keys[k] in PutAll(bucket, keys, values) && PutAll(bucket, keys, values)[keys[k]] == values[k])
    ensures forall u :: u !in keys ==> (u in PutAll(bucket, keys, values) <==> u in bucket)
    ensures forall u :: u !in keys && u in bucket ==> PutAll(bucket, keys, values)[u] == bucket[u]
  {
    if keys != [] {
      var n := |keys| - 1;
      var front := keys[..n];
      var vs := values[..n];
      assert Distinct(front);
      PutAllStores(bucket, front, vs);
      var p := PutAll(bucket, front, vs);
      var r := PutAll(bucket, keys, values);
      assert r == p[keys[n] := values[n]];
      forall k | 0 <= k < |keys|
        ensures keys[k] in r && r[keys[k]] == values[k]
      {
        if k < n {
          assert front[k] == keys[k] && vs[k] == values[k];
          assert keys[k] != keys[n];
        }
      }
      forall u | u !in keys
        ensures (u in r <==> u in bucket) && (u in bucket ==> r[u] == bucket[u])
      {
        assert u != keys[n];
        assert keys == front + [keys[n]];
      }
    }
  }

  /** Every asset download succeeded with an `ok` status. */
  predicate AllFetched(fetched: seq<NetworkOutcome>) {
    forall k :: 0 <= k < |fetched| ==> fetched[k].Delivered? && IsOk(fetched[k].response)
  }

  /** The responses of successful downloads. */
  function Responses(fetched: seq<NetworkOutcome>): (r: seq<Response>)
    requires AllFetched(fetched)
    ensures |r| == |fetched| && forall k :: 0 <= k < |r| ==> r[k] == fetched[k].response
  {
    seq(|fetched|, k requires 0 <= k < |fetched| && AllFetched(fetched) => fetched[k].response)
  }

  /** The browser's store of named buckets. `names` lists the buckets in the
      order they were created. */
  class CacheStorage {
    var names: seq<string>
    var buckets: map<string, map<string, Response>>

    ghost predicate Valid()
      reads this
    {
      Distinct(names) && forall n :: n in buckets <==> n in names
    }

    constructor()
      ensures Valid() && names == [] && buckets == map[]
    {
      names := [];
      buckets := map[];
    }

    function Match(url: string): Option<Response>
      reads this
    {
      MatchIn(names, buckets, url)
    }

    /** The entries of bucket `name`, none if it does not exist. */
    function Bucket(name: string): map<string, Response>
      reads this
    {
      if name in buckets then buckets[name] else map[]
    }

    /** `caches.open(name)`: creates the bucket if it does not exist yet. */
    method Open(name: string)
      requires Valid()
      modifies this
      ensures Valid()
      ensures name in old(buckets) ==> names == old(names) && buckets == old(buckets)
      ensures name !in old(buckets) ==> names == old(names) + [name] && buckets == old(buckets)[name := map[]]
    {
      if name !in buckets {
        names := names + [name];
        buckets := buckets[name := map[]];
      }
    }

    /** `cache.put(url, response)` on bucket `name`. */
    method Put(name: string, url: string, response: Response)
      requires Valid() && name in buckets
      modifies this
      ensures Valid()
      ensures names == old(names)
      ensures buckets == old(buckets)[name := old(buckets)[name][url := response]]
    {
      buckets := buckets[name := buckets[name][url := response]];
    }

    /** `caches.delete(name)`: whether a bucket was removed. The other
        buckets keep their creation order. */
    method Delete(name: string) returns (deleted: bool)
      requires Valid()
      modifies this
      ensures Valid()
      ensures deleted <==> name in old(buckets)
      ensures IsSubsequence(names, old(names))
      ensures forall n :: n in names <==> n in old(names) && n != name
      ensures buckets == old(buckets) - {name}
    {
      deleted := name in buckets;
      names := Without(names, name);
      buckets := buckets - {name};
    }
  }

  /** The asset paths are pairwise different. */
  lemma AssetsDistinct()
    ensures Distinct(STATIC_ASSETS)
  {
  }

  /** The storing step of `cache.addAll`: puts `values[k]` under `keys[k]` in
      bucket `name`, one after another. */
  method PutEach(caches: CacheStorage, name: string, keys: seq<string>, values: seq<Response>)
    requires caches.Valid() && name in caches.buckets && |keys| == |values|
    modifies caches
    ensures caches.Valid() && caches.names == old(caches.names)
    ensures caches.buckets == old(caches.buckets)[name := PutAll(old(caches.buckets[name]), keys, values)]
  {
    for i := 0 to |keys|
      invariant caches.Valid() && caches.names == old(caches.names)
      invariant caches.buckets == old(caches.buckets)[name := PutAll(old(caches.buckets[name]), keys[..i], values[..i])]
    {
      assert keys[..i + 1][..i] == keys[..i];
      assert values[..i + 1][..i] == values[..i];
      caches.Put(name, keys[i], values[i]);
    }
    assert keys[..|keys|] == keys && values[..|values|] == values;
  }

  /** The `install` handler: opens the worker's bucket and stores the
      application shell with `addAll`, which stores nothing unless every
      download succeeds. `fetched[k]` is the network's answer for
      `STATIC_ASSETS[k]`. */
  method Install(caches: CacheStorage, fetched: seq<NetworkOutcome>) returns (installed: bool)
    requires caches.Valid() && |fetched| == |STATIC_ASSETS|
    modifies caches
    ensures caches.Valid()
    ensures installed <==> AllFetched(fetched)
    ensures caches.names == if CACHE_NAME in old(caches.buckets) then old(caches.names)
                            else old(caches.names) + [CACHE_NAME]
    ensures forall n :: n != CACHE_NAME ==> (n in caches.buckets <==> n in old(caches.buckets))
    ensures forall n :: n != CACHE_NAME && n in caches.buckets ==> caches.buckets[n] == old(caches.buckets[n])
    ensures CACHE_NAME in caches.buckets
    ensures !installed ==> caches.buckets[CACHE_NAME] == old(caches.Bucket(CACHE_NAME))
    ensures installed ==> caches.buckets[CACHE_NAME] == PutAll(old(caches.Bucket(CACHE_NAME)), STATIC_ASSETS, Responses(fetched))
    ensures installed ==> forall k :: 0 <= k < |STATIC_ASSETS| ==>
              && STATIC_ASSETS[k] in caches.buckets[CACHE_NAME]
              && caches.buckets[CACHE_NAME][STATIC_ASSETS[k]] == fetched[k].response
    ensures installed ==> caches.Match(OFFLINE_PAGE).Some?
  {
    caches.Open(CACHE_NAME);
    if !AllFetched(fetched) {
      return false;
    }
    var responses := Responses(fetched);
    PutEach(caches, CACHE_NAME, STATIC_ASSETS, responses);
    AssetsDistinct();
    PutAllStores(old(caches.Bucket(CACHE_NAME)), STATIC_ASSETS, responses);
    assert STATIC_ASSETS[1] == OFFLINE_PAGE;
    assert CACHE_NAME in caches.names;
    return true;
  }

  /** Deletes the buckets named in `doomed`, one after another
      (`Promise.all` over `caches.delete`). */
  method DeleteEach(caches: CacheStorage, doomed: seq<string>)
    requires caches.Valid()
    modifies caches
    ensures caches.Valid()
    ensures forall n :: n in caches.buckets <==> n in old(caches.buckets) && n !in doomed
    ensures forall n :: n in caches.buckets ==> caches.buckets[n] == old(caches.buckets[n])
    ensures IsSubsequence(caches.names, old(caches.names))
  {
    ghost var b0 := caches.buckets;
    ghost var n0 := caches.names;
    SubsequenceReflexive(n0);
    for i := 0 to |doomed|
      invariant caches.Valid()
      invariant IsSubsequence(caches.names, n0)
      invariant forall k :: 0 <= k < i ==> doomed[k] !in caches.buckets
      invariant forall n :: n in b0 && n !in doomed ==> n in caches.buckets
      invariant forall n :: n in caches.buckets ==> n in b0 && caches.buckets[n] == b0[n]
    {
      ghost var before := caches.names;
      var _ := caches.Delete(doomed[i]);
      SubsequenceTransitive(caches.names, before, n0);
    }
  }

  /** The `activate` handler: deletes every bucket not named `CACHE_NAME`.
      Afterwards the worker's bucket, if it existed, is the only one left and
      holds what it held before. */
  method Activate(caches: CacheStorage)
    requires caches.Valid()
    modifies caches
    ensures caches.Valid()
    ensures forall n :: n in caches.buckets <==> n == CACHE_NAME && n in old(caches.buckets)
    ensures CACHE_NAME in caches.buckets ==> caches.buckets[CACHE_NAME] == old(caches.buckets[CACHE_NAME])
    ensures forall n :: n in caches.names <==> n == CACHE_NAME && n in old(caches.buckets)
    ensures IsSubsequence(caches.names, old(caches.names))
  {
    var stale := Without(caches.names, CACHE_NAME);
    DeleteEach(caches, stale);
  }

  /** The write of the `fetch` handler,
      `caches.open(CACHE_NAME).then(cache => cache.put(url, response))`: the
      worker's bucket is created at the end of the order if it is missing,
      and the response is stored in it under `url`. */
  method StoreResponse(caches: CacheStorage, url: string, response: Response)
    requires caches.Valid()
    modifies caches
    ensures caches.Valid()
    ensures caches.names == if CACHE_NAME in old(caches.buckets) then old(caches.names)
                            else old(caches.names) + [CACHE_NAME]
    ensures caches.buckets == old(caches.buckets)[CACHE_NAME := old(caches.Bucket(CACHE_NAME))[url := response]]
  {
    caches.Open(CACHE_NAME);
    caches.Put(CACHE_NAME, url, response);
  }

  /** The `fetch` handler. A same-origin request is answered from the cache
      when it can be, otherwise from the network, storing a 200 `basic`
      answer; when the network fails a page navigation gets the offline page
      and anything else gets nothing. A cross-origin request goes to the
      network first, storing any 200 answer, and falls back to the cache.
      Only the worker's own bucket is ever written. */
  method HandleFetch(caches: CacheStorage, req: Request, net: NetworkOutcome) returns (answer: Option<Response>)
    requires caches.Valid()
    modifies caches
    ensures caches.Valid()
    ensures forall n :: n != CACHE_NAME ==> (n in caches.buckets <==> n in old(caches.buckets))
    ensures forall n :: n != CACHE_NAME && n in caches.buckets ==> caches.buckets[n] == old(caches.buckets[n])
    // same origin, cache hit: the stored answer, nothing written
    ensures req.sameOrigin && old(caches.Match(req.url)).Some? ==>
              answer == old(caches.Match(req.url)) && unchanged(caches)
    // same origin, cache miss: the network's answer, stored only when 200 and basic
    ensures req.sameOrigin && old(caches.Match(req.url)).None? && net.Delivered? ==>
              && answer == Some(net.response)
              && (SameOriginCacheable(net.response) ==>
                    && caches.names == (if CACHE_NAME in old(caches.buckets) then old(caches.names)
                                        else old(caches.names) + [CACHE_NAME])
                    && caches.buckets == old(caches.buckets)[CACHE_NAME := old(caches.Bucket(CACHE_NAME))[req.url := net.response]])
              && (!SameOriginCacheable(net.response) ==> unchanged(caches))
    // same origin, cache miss, network failure: the offline page for a navigation
    ensures req.sameOrigin && old(caches.Match(req.url)).None? && net.NetworkError? ==>
              && answer == (if req.destination == "document" then old(caches.Match(OFFLINE_PAGE)) else None)
              && unchanged(caches)
    // cross origin, network answer: returned, stored whenever 200
    ensures !req.sameOrigin && net.Delivered? ==>
              && answer == Some(net.response)
              && (CrossOriginCacheable(net.response) ==>
                    && caches.names == (if CACHE_NAME in old(caches.buckets) then old(caches.names)
                                        else old(caches.names) + [CACHE_NAME])
                    && caches.buckets == old(caches.buckets)[CACHE_NAME := old(caches.Bucket(CACHE_NAME))[req.url := net.response]])
              && (!CrossOriginCacheable(net.response) ==> unchanged(caches))
    // cross origin, network failure: whatever the cache holds
    ensures !req.sameOrigin && net.NetworkError? ==>
              answer == old(caches.Match(req.url)) && unchanged(caches)
  {
    if req.sameOrigin {
      var cached := caches.Match(req.url);
      if cached.Some? {
        return cached;
      }
      match net {
        case Delivered(response) =>
          if SameOriginCacheable(response) {
            StoreResponse(caches, req.url, response);
          }
          return Some(response);
        case NetworkError =>
          if req.destination == "document" {
            return caches.Match(OFFLINE_PAGE);
          }
          return None;
      }
    } else {
      match net {
        case Delivered(response) =>
          if CrossOriginCacheable(response) {
            StoreResponse(caches, req.url, response);
          }
          return Some(response);
        case NetworkError =>
          return caches.Match(req.url);
      }
    }
  }
}
