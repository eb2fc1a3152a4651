/**
 * The service worker (public/sw.js): a classifier that routes each request
 * by its pathname, and the three event handlers that maintain the
 * worker's cache storage (install, activate, fetch).
 *
 * Requests and cache entries are identified by their pathname. The network
 * is a parameter `network: string -> Response`; promises are taken to have
 * settled by the time a handler returns.
 */
module ServiceWorker {
  import opened Wrappers
  import opened Strings

  const CacheName := "contwre-v4"

  /** The paths the install handler pre-caches. */
  const CriticalAssets: seq<string> :=
    ["/", "/assets/contwre-logo-white.png", "/assets/engine-gif.gif", "/assets/founder-together.jpg"]

  /** The alternatives of `/\.(png|jpg|jpeg|gif|svg|webp|avif|mp4)$/i`. */
  const CacheableExtensions: seq<string> := ["png", "jpg", "jpeg", "gif", "svg", "webp", "avif", "mp4"]

  /** What the network gives back for a request: a response, or a rejected fetch. */
  datatype Response = Response(status: int, body: string) | NetworkError {
    /** `response.ok`. */
    predicate Ok() { Response? && 200 <= status <= 299 }

    /** A response `addAll` accepts into the cache: ok, and not a 206 partial response. */
    predicate Storable() { Ok() && status != 206 }
  }

  /** The three branches of the fetch handler. */
  datatype Route =
    | ModuleNetworkOnly   // scripts and stylesheets: always from the network
    | CacheFirst          // pages and images: cache, then network
    | NetworkOnly         // everything else

  /** The test of the first branch, as written, `/assets/` clause included. */
  predicate IsModule(path: string) {
    EndsWith(path, ".js") || EndsWith(path, ".css")
    || (Contains(path, "/assets/") && (EndsWith(path, ".js") || EndsWith(path, ".css")))
  }

  /** The case-insensitive image/media test, used both to route and to decide a cache write. */
  predicate IsCacheableMedia(path: string) {
    EndsWithExtension(path, CacheableExtensions)
  }

  /** The route the fetch handler takes for a pathname, first match first. */
  function Classify(path: string): (r: Route)
    ensures r == ModuleNetworkOnly <==> EndsWith(path, ".js") || EndsWith(path, ".css")
    ensures r == CacheFirst <==>
      !EndsWith(path, ".js") && !EndsWith(path, ".css")
      && (EndsWith(path, ".html") || path == "/" || IsCacheableMedia(path))
  {
    if IsModule(path) then ModuleNetworkOnly
    else if EndsWith(path, ".html") || path == "/" || IsCacheableMedia(path) then CacheFirst
    else NetworkOnly
  }

  /** The entries `addAll(CriticalAssets)` stores: each asset with what the network gave for it. */
  function Prefetched(network: string -> Response): (m: map<string, Response>)
  {
    map a | a in CriticalAssets :: network(a)
  }

  /** With a single cache, `caches.match` is a lookup in that cache. */
  lemma MatchOnlyCache(order: seq<string>, store: map<string, map<string, Response>>, path: string)
    requires |order| == 1 && order[0] in store
    ensures MatchIn(order, store, path) == if path in store[order[0]] then Some(store[order[0]][path]) else None
  {
  }

  /** A sequence without repetitions (the names `caches.keys()` returns). */
  predicate Distinct(s: seq<string>) {
    forall i, j :: 0 <= i < j < |s| ==> s[i] != s[j]
  }

  /** `s` with every occurrence of `x` taken out. */
  function Remove(s: seq<string>, x: string): (r: seq<string>)
    ensures forall y :: y in r <==> y in s && y != x
    ensures Distinct(s) ==> Distinct(r)
  {
    if s == [] then []
    else if s[0] == x then Remove(s[1..], x)
    else
      var rest := Remove(s[1..], x);
      assert Distinct(s) ==> s[0] !in rest by { HeadNotInTail(s); }
      assert forall j :: 0 <= j < |rest| ==> ([s[0]] + rest)[j + 1] == rest[j];
      [s[0]] + rest
  }

  /**
   * `caches.match(path)`: the entry of the first cache, in creation order,
   * that holds `path`.
   */
  function MatchIn(order: seq<string>, store: map<string, map<string, Response>>, path: string): (r: Option<Response>)
    requires forall n :: n in order ==> n in store
    ensures r.None? <==> forall n :: n in order ==> path !in store[n]
    ensures r.Some? ==> exists k :: (0 <= k < |order| && path in store[order[k]] && r.value == store[order[k]][path]
      && forall j :: 0 <= j < k ==> path !in store[order[j]])
  {
    if order == [] then None
    else if path in store[order[0]] then Some(store[order[0]][path])
    else
      var r := MatchIn(order[1..], store, path);
      if r.Some? then
        var k :| 0 <= k < |order[1..]| && path in store[order[1..][k]] && r.value == store[order[1..][k]][path]
          && forall j :: 0 <= j < k ==> path !in store[order[1..][j]];
        assert path in store[order[k + 1]] && forall j :: 0 <= j < k + 1 ==> path !in store[order[j]];
        r
      else r
  }

  /** The head of a sequence without repetitions does not occur again in its tail. */
  lemma HeadNotInTail(s: seq<string>)
    ensures Distinct(s) && |s| > 0 ==> s[0] !in s[1..]
  {
  }

  /** A sequence without repetitions that holds only `x` is `[x]`. */
  lemma DistinctSingleton(s: seq<string>, x: string)
    requires Distinct(s) && x in s && forall y :: y in s ==> y == x
    ensures s == [x]
  {
    assert s[0] in s;
    HeadNotInTail(s);
    assert forall y :: y in s[1..] ==> y in s;
    NoMembers(s[1..]);
    assert s == [s[0]] + s[1..];
  }

  /** A sequence with no members is empty. */
  lemma NoMembers(s: seq<string>)
    requires forall y :: y !in s
    ensures s == []
  {
    assert forall t: seq<string> :: |t| > 0 ==> t[0] in t;
  }

  /** Distinct names, exactly the keys of a store holding at most `name`, are `[name]` or nothing. */
  lemma OnlyNameLeft(order: seq<string>, store: map<string, map<string, Response>>, name: string)
    requires Distinct(order) && (forall n :: n in order <==> n in store)
    requires forall n :: n in store ==> n == name
    ensures order == if name in store then [name] else []
  {
    if name in store {
      DistinctSingleton(order, name);
    } else {
      NoMembers(order);
    }
  }

  /** The worker's `CacheStorage`: named caches in creation order. */
  class CacheStorage {
    var order: seq<string>
    var store: map<string, map<string, Response>>

    ghost predicate Valid()
      reads this
    {
      Distinct(order) && (forall n :: n in order <==> n in store)
    }

    constructor ()
      ensures Valid() && order == [] && store == map[]
    {
      order := [];
      store := map[];
    }

    /** `caches.match(path)`. */
    function Match(path: string): (r: Option<Response>)
      reads this
      requires Valid()
      ensures r.None? <==> forall n :: n in store ==> path !in store[n]
    {
      MatchIn(order, store, path)
    }

    /** `caches.open(name)`: the cache is created, last in order, when it does not exist. */
    method Open(name: string)
      requires Valid()
      modifies this
      ensures Valid() && name in store
      ensures name in old(store) ==> store == old(store) && order == old(order)
      ensures name !in old(store) ==> store == old(store)[name := map[]] && order == old(order) + [name]
    {
      if name !in store {
        order := order + [name];
        store := store[name := map[]];
      }
    }

    /** `caches.delete(name)`. */
    method Delete(name: string)
      requires Valid()
      modifies this
      ensures Valid() && store == old(store) - {name} && order == Remove(old(order), name)
    {
      order := Remove(order, name);
      store := store - {name};
    }

    /**
     * The install handler: open `CacheName`, then `addAll(CriticalAssets)`.
     * `addAll` stores nothing unless every fetch gives an ok response other
     * than 206; the cache itself has been created either way.
     */
    method Install(network: string -> Response) returns (installed: bool)
      requires Valid()
      modifies this
      ensures Valid() && CacheName in store
      ensures order == if CacheName in old(store) then old(order) else old(order) + [CacheName]
      ensures installed <==> forall a :: a in CriticalAssets ==> network(a).Storable()
      ensures forall n :: n != CacheName ==> (n in store <==> n in old(store)) && (n in store ==> store[n] == old(store)[n])
      ensures var before := if CacheName in old(store) then old(store)[CacheName] else map[];
        store[CacheName] == if installed then before + Prefetched(network) else before
    {
      Open(CacheName);
      installed := true;
      var i := 0;
      while i < |CriticalAssets|
        invariant 0 <= i <= |CriticalAssets|
        invariant installed <==> forall k :: 0 <= k < i ==> network(CriticalAssets[k]).Storable()
      {
        if !network(CriticalAssets[i]).Storable() {
          installed := false;
        }
        i := i + 1;
      }
      if installed {
        store := store[CacheName := store[CacheName] + Prefetched(network)];
      }
    }

    /** The activate handler: every cache except `CacheName` is deleted. */
    method Activate()
      requires Valid()
      modifies this
      ensures Valid()
      ensures store == if CacheName in old(store) then map[CacheName := old(store)[CacheName]] else map[]
      ensures order == if CacheName in old(store) then [CacheName] else []
    {
      DeleteAllBut(CacheName);
      OnlyNameLeft(order, store, CacheName);
    }

    /** Deletes, one by one in creation order, every cache whose name is not `keep`. */
    method DeleteAllBut(keep: string)
      requires Valid()
      modifies this
      ensures Valid()
      ensures forall n :: n in store <==> n in old(store) && n == keep
      ensures forall n :: n in store ==> store[n] == old(store)[n]
    {
      var names := order;
      var i := 0;
      while i < |names|
        invariant 0 <= i <= |names| && Valid() && names == old(order)
        invariant forall n :: n in store <==> n in old(store) && (n == keep || n !in names[..i])
        invariant forall n :: n in store ==> store[n] == old(store)[n]
      {
        if names[i] != keep {
          Delete(names[i]);
        }
        i := i + 1;
      }
      assert names[..i] == names;
    }

    /**
     * The fetch handler for a request to `path`. Returns the response given
     * to the page and whether the network was asked. On a cache-first miss the
     * fetched response is put into `CacheName` (opened, and so created, when
     * missing) only when the path has an image or media extension, the fetch
     * did not fail and the status is not 206, which `cache.put` refuses.
     */
    method HandleFetch(path: string, network: string -> Response) returns (resp: Response, usedNetwork: bool)
      requires Valid()
      modifies this
      ensures Valid()
      ensures Classify(path) != CacheFirst ==>
        resp == network(path) && usedNetwork && store == old(store) && order == old(order)
      ensures Classify(path) == CacheFirst && old(Match(path)).Some? ==>
        resp == old(Match(path)).value && !usedNetwork && store == old(store) && order == old(order)
      ensures Classify(path) == CacheFirst && old(Match(path)).None? ==>
        resp == network(path) && usedNetwork
      ensures (!IsCacheableMedia(path) || old(Match(path)).Some? || resp.NetworkError? || resp.status == 206) ==>
        store == old(store) && order == old(order)
      ensures (Classify(path) == CacheFirst && old(Match(path)).None? && IsCacheableMedia(path)
        && resp.Response? && resp.status != 206) ==>
        CacheName in store
        && store[CacheName] == (if CacheName in old(store) then old(store)[CacheName] else map[])[path := resp]
        && (order == if CacheName in old(store) then old(order) else old(order) + [CacheName])
        && forall n :: n != CacheName ==> (n in store <==> n in old(store)) && (n in store ==> store[n] == old(store)[n])
    {
      var route := Classify(path);
      if route != CacheFirst {
        resp, usedNetwork := network(path), true;
        return;
      }
      var hit := Match(path);
      if hit.Some? {
        resp, usedNetwork := hit.value, false;
        return;
      }
      resp, usedNetwork := network(path), true;
      if IsCacheableMedia(path) && resp.Response? && resp.status != 206 {
        Open(CacheName);
        store := store[CacheName := store[CacheName][path := resp]];
      }
    }
  }

  /** The `/assets/` clause of the first test adds nothing: it is subsumed by the first two. */
  lemma AssetsClauseSubsumed(path: string)
    ensures IsModule(path) <==> EndsWith(path, ".js") || EndsWith(path, ".css")
  {
  }

  /** A path ending in `"." + ext`, for a listed lower-case `ext`, is cacheable media. */
  lemma MediaBySuffix(path: string, ext: string)
    requires ext in CacheableExtensions && Lower(ext) == ext && EndsWith(path, "." + ext)
    ensures IsCacheableMedia(path)
  {
    var dotted := "." + ext;
    assert dotted[1..] == ext;
    assert Lower(dotted) == dotted;
    LowerKeepsSuffix(path, dotted);
    var i :| 0 <= i < |CacheableExtensions| && CacheableExtensions[i] == ext;
  }

  /** Every pre-cached asset is served by the cache-first branch. */
  lemma CriticalAssetsAreCacheFirst()
    ensures forall k :: 0 <= k < |CriticalAssets| ==> Classify(CriticalAssets[k]) == CacheFirst
  {
    forall k | 0 <= k < |CriticalAssets|
      ensures Classify(CriticalAssets[k]) == CacheFirst
    {
      if k == 0 {
        assert CriticalAssets[0] == "/";
        RootIsCacheFirst();
      } else if k == 1 {
        assert CriticalAssets[1] == "/assets/contwre-logo-white.png";
        LogoIsCacheFirst();
      } else if k == 2 {
        assert CriticalAssets[2] == "/assets/engine-gif.gif";
        EngineIsCacheFirst();
      } else {
        assert CriticalAssets[3] == "/assets/founder-together.jpg";
        FounderIsCacheFirst();
      }
    }
  }

  /** The root page is cache-first by its `=== '/'` test. */
  lemma RootIsCacheFirst()
    ensures Classify("/") == CacheFirst
  {
  }

  /** The logo is cache-first by its `.png` extension. */
  lemma LogoIsCacheFirst()
    ensures Classify("/assets/contwre-logo-white.png") == CacheFirst
  {
    var path := "/assets/contwre-logo-white.png";
    assert CacheableExtensions[0] == "png" && Lower("png") == "png";
    assert path[|path| - 4..] == ".png" == "." + "png";
    MediaSuffixIsCacheFirst(path, "png");
  }

  /** The engine animation is cache-first by its `.gif` extension. */
  lemma EngineIsCacheFirst()
    ensures Classify("/assets/engine-gif.gif") == CacheFirst
  {
    var path := "/assets/engine-gif.gif";
    assert CacheableExtensions[3] == "gif" && Lower("gif") == "gif";
    assert path[|path| - 4..] == ".gif" == "." + "gif";
    MediaSuffixIsCacheFirst(path, "gif");
  }

  /** The founder photo is cache-first by its `.jpg` extension. */
  lemma FounderIsCacheFirst()
    ensures Classify("/assets/founder-together.jpg") == CacheFirst
  {
    var path := "/assets/founder-together.jpg";
    assert CacheableExtensions[1] == "jpg" && Lower("jpg") == "jpg";
    assert path[|path| - 4..] == ".jpg" == "." + "jpg";
    MediaSuffixIsCacheFirst(path, "jpg");
  }

  /**
   * A name that passes an extension test does not end in a dot-free
   * extension whose lower case is none of the alternatives.
   */
  lemma ExtensionExcludes(path: string, exts: seq<string>, e: string)
    requires forall i :: 0 <= i < |exts| ==> '.' !in exts[i]
    requires '.' !in e && Lower(e) !in exts
    requires EndsWithExtension(path, exts)
    ensures !EndsWith(path, "." + e)
  {
    ExtensionTest(path, exts);
    DottedSuffix(path, e);
  }

  /**
   * Every image or media path is cache-first: no listed extension is `js`
   * or `css`, so such a path never reaches the module branch.
   */
  lemma MediaIsCacheFirst(path: string)
    requires IsCacheableMedia(path)
    ensures Classify(path) == CacheFirst
  {
    assert forall i :: 0 <= i < |CacheableExtensions| ==> '.' !in CacheableExtensions[i];
    assert Lower("js") == "js" && "js" !in CacheableExtensions;
    assert Lower("css") == "css" && "css" !in CacheableExtensions;
    ExtensionExcludes(path, CacheableExtensions, "js");
    ExtensionExcludes(path, CacheableExtensions, "css");
    assert "." + "js" == ".js" && "." + "css" == ".css";
  }

  /** A path ending in `"." + ext`, for a listed lower-case `ext`, is cache-first. */
  lemma MediaSuffixIsCacheFirst(path: string, ext: string)
    requires ext in CacheableExtensions && Lower(ext) == ext && EndsWith(path, "." + ext)
    ensures Classify(path) == CacheFirst
  {
    MediaBySuffix(path, ext);
    MediaIsCacheFirst(path);
  }

  /**
   * A worker installed and activated in a fresh origin serves every
   * pre-cached asset from the cache without asking the network, provided
   * install succeeded; the response is the one fetched at install time.
   * When install fails the browser discards the worker: it never activates
   * nor handles a fetch, and the page's request goes to the network.
   */
  method ServeAfterInstall(path: string, network: string -> Response)
    returns (installed: bool, resp: Response, usedNetwork: bool)
    requires path in CriticalAssets
    ensures installed <==> forall a :: a in CriticalAssets ==> network(a).Storable()
    ensures installed ==> !usedNetwork && resp == network(path)
    ensures !installed ==> usedNetwork && resp == network(path)
  {
    var caches := new CacheStorage();
    ghost var fetched := Prefetched(network);
    assert path in fetched && fetched[path] == network(path);
    installed := caches.Install(network);
    if !installed {
      resp, usedNetwork := network(path), true;
      return;
    }
    caches.Activate();
    assert Classify(path) == CacheFirst by {
      var k :| 0 <= k < |CriticalAssets| && CriticalAssets[k] == path;
      CriticalAssetsAreCacheFirst();
    }
    ghost var cached := caches.store[CacheName];
    assert cached == map[] + fetched;
    assert path in cached && cached[path] == network(path);
    assert caches.Match(path) == Some(network(path)) by {
      assert caches.order == [CacheName];
      MatchOnlyCache(caches.order, caches.store, path);
    }
    resp, usedNetwork := caches.HandleFetch(path, network);
  }
}
