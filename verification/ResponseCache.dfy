/**
 The response cache in front of public catalogue reads
 (backend/src/middleware/responseCache.js): which requests it serves, under which
 key and for how long, and when a cached answer agrees with the handler behind it.
 */
module ResponseCache {
  import opened Wrappers
  import opened JsStrings
  import opened Http
  import BoundedCache
  import JsMap
  import Sorting

  /** `tenantId` and `authorization` are empty when absent. */
  datatype Request = Request(verb: string, url: string, tenantId: string, authorization: string)

  /** What the key is made of. */
  datatype Identity = Identity(tenant: string, tag: string, url: string)

  type Store = BoundedCache.Store<Response>

  // ---------------------------------------------------------------- paths

  function Path(url: string): string {
    match IndexOf(url, '?')
    case None => url
    case Some(i) => url[..i]
  }

  /** What follows `prefix` when a path segment ends there. */
  predicate Below(path: string, prefix: string) {
    StartsWith(path, prefix) && (|path| == |prefix| || path[|prefix|] == '/')
  }

  const CATALOG := "/api/v1/catalog"
  const STORE_INFO := "/api/v1/store/info"

  predicate Allowed(path: string) {
    || (Below(path, CATALOG)
        && !Contains(path[|CATALOG|..], "/admin") && !Contains(path[|CATALOG|..], "/tenant"))
    || Below(path, STORE_INFO)
  }

  predicate Cacheable(req: Request) { req.verb == "GET" && Allowed(Path(req.url)) }

  // ---------------------------------------------------------------- time to live

  datatype Pattern = Has(text: string) | Ends(text: string)

  predicate Matches(p: Pattern, path: string) {
    match p
    case Has(t) => Contains(path, t)
    case Ends(t) => EndsWith(path, t)
  }

  const TTL_OVERRIDES: seq<(Pattern, int)> := [
    (Has("/catalog/categories"), 300000),
    (Has("/catalog/brands"), 300000),
    (Has("/search"), 30000),
    (Ends("/catalog"), 60000),
    (Has("/store/info"), 600000),
    (Has("/health"), 10000)]

  const DEFAULT_TTL := 60000

  function FirstTtl(table: seq<(Pattern, int)>, path: string): int {
    if table == [] then DEFAULT_TTL
    else if Matches(table[0].0, path) then table[0].1
    else FirstTtl(table[1..], path)
  }

  function Ttl(path: string): int { FirstTtl(TTL_OVERRIDES, path) }

  method GetTtl(path: string) returns (ttl: int)
    ensures ttl == Ttl(path)
    ensures || (ttl == DEFAULT_TTL && forall i :: 0 <= i < |TTL_OVERRIDES| ==> !Matches(TTL_OVERRIDES[i].0, path))
            || exists i :: 0 <= i < |TTL_OVERRIDES| && Matches(TTL_OVERRIDES[i].0, path) && ttl == TTL_OVERRIDES[i].1
                 && forall j :: 0 <= j < i ==> !Matches(TTL_OVERRIDES[j].0, path)
  {
    hide Matches;
    var n := 0;
    assert Ttl(path) == FirstTtl(TTL_OVERRIDES[n..], path);
    hide Ttl;
    while n < |TTL_OVERRIDES|
      invariant 0 <= n <= |TTL_OVERRIDES|
      invariant forall j :: 0 <= j < n ==> !Matches(TTL_OVERRIDES[j].0, path)
      invariant Ttl(path) == FirstTtl(TTL_OVERRIDES[n..], path)
    {
      if Matches(TTL_OVERRIDES[n].0, path) { return TTL_OVERRIDES[n].1; }
      n := n + 1;
    }
    return DEFAULT_TTL;
  }

  // ---------------------------------------------------------------- keys

  /** `digest` is the 16-character hash prefix. */
  function IdentityOf(req: Request, digest: string -> string): Identity {
    Identity(if req.tenantId != "" then req.tenantId else "public",
             if req.authorization != "" then digest(req.authorization) else "anon",
             req.url)
  }

  function KeyText(id: Identity): string {
    "GET:" + id.tenant + ":" + id.tag + ":" + id.url
  }

  predicate Clean(id: Identity) { ':' !in id.tenant && ':' !in id.tag }

  /** With no colon in tenant and tag, a key belongs to one tenant, one credential and one URL. */
  lemma KeyIsInjective(a: Identity, b: Identity)
    requires Clean(a) && Clean(b) && KeyText(a) == KeyText(b)
    ensures a == b
  {
    var (pa, pb) := (a.tag + ":" + a.url, b.tag + ":" + b.url);
    assert KeyText(a) == "GET:" + (a.tenant + [':'] + pa);
    assert KeyText(b) == "GET:" + (b.tenant + [':'] + pb);
    assert KeyText(a)[4..] == a.tenant + [':'] + pa && KeyText(b)[4..] == b.tenant + [':'] + pb;
    SplitAtFirst(a.tenant, ':', pa, b.tenant, pb);
    SplitAtFirst(a.tag, ':', a.url, b.tag, b.url);
  }

  /** The same URL, the same credential and the same tenant, where no tenant counts as `public`. */
  predicate SameSender(a: Request, b: Request) {
    && a.url == b.url && a.authorization == b.authorization
    && (a.tenantId == b.tenantId || (a.tenantId in {"", "public"} && b.tenantId in {"", "public"}))
  }

  /** The hash tells credentials apart, from each other and from none. */
  ghost predicate TellsApart(digest: string -> string) {
    && (forall x, y :: x != "" && y != "" && digest(x) == digest(y) ==> x == y)
    && (forall x :: x != "" ==> digest(x) != "anon")
  }

  /** Requests share a key exactly when they are of the same sender. */
  lemma SameKeyIff(a: Request, b: Request, digest: string -> string)
    requires TellsApart(digest) && Clean(IdentityOf(a, digest)) && Clean(IdentityOf(b, digest))
    ensures KeyText(IdentityOf(a, digest)) == KeyText(IdentityOf(b, digest)) <==> SameSender(a, b)
  {
    hide KeyText, Clean;
    if KeyText(IdentityOf(a, digest)) == KeyText(IdentityOf(b, digest)) {
      KeyIsInjective(IdentityOf(a, digest), IdentityOf(b, digest));
    }
  }

  /** Which paths are cached: the catalogue without its admin and tenant parts, and the store's own page. */
  lemma AllowedIs(path: string, tail: string)
    ensures Allowed("/api/v1/catalog" + tail)
            <==> (tail == "" || tail[0] == '/') && !Contains(tail, "/admin") && !Contains(tail, "/tenant")
    ensures Allowed("/api/v1/store/info" + tail) <==> tail == "" || tail[0] == '/'
    ensures Allowed(path) ==> StartsWith(path, "/api/v1/catalog") || StartsWith(path, "/api/v1/store/info")
  {
    hide Contains;
    var (p, q) := ("/api/v1/catalog" + tail, "/api/v1/store/info" + tail);
    assert p[..15] == "/api/v1/catalog" && p[15..] == tail && q[..18] == "/api/v1/store/info" && q[18..] == tail;
    assert p[8] == 'c' && q[8] == 's';
    assert StartsWith(p, CATALOG) && StartsWith(q, STORE_INFO);
    assert !StartsWith(p, STORE_INFO) && !StartsWith(q, CATALOG);
  }

  // ---------------------------------------------------------------- the middleware

  function Hit(cache: Store, req: Request, digest: string -> string, t: int): Option<Response> {
    if Cacheable(req) then BoundedCache.Answer(cache, KeyText(IdentityOf(req, digest)), t) else None
  }

  /** Served from the cache are exactly the GETs of an allowed path, up to its query, whose key is live. */
  lemma HitIff(cache: Store, req: Request, digest: string -> string, t: int, path: string, query: string)
    requires '?' !in path && (req.url == path || req.url == path + "?" + query)
    ensures Hit(cache, req, digest, t).Some?
            <==> req.verb == "GET" && Allowed(path) && BoundedCache.Live(cache, KeyText(IdentityOf(req, digest)), t)
  {
    hide Allowed, KeyText, IdentityOf;
    PathIs(path, query);
  }

  lemma PathIs(path: string, query: string)
    requires '?' !in path
    ensures Path(path) == path && Path(path + "?" + query) == path
  {
    IndexOfPiece(path, '?', query);
    assert (path + "?" + query)[..|path|] == path;
  }

  function AfterLookup(cache: Store, req: Request, digest: string -> string, t: int): Store {
    if Cacheable(req) then BoundedCache.Touch(cache, KeyText(IdentityOf(req, digest)), t) else cache
  }

  function AfterReply(cache: Store, max: nat, id: Identity, response: Response, t: int): Store
    requires max > 0
  {
    if Successful(response) then BoundedCache.Insert(cache, max, KeyText(id), response, t + Ttl(Path(id.url)), t)
    else cache
  }

  /** The live keys that contain `pattern`. */
  function Matching(cache: Store, pattern: string, t: int): set<string> {
    set k | k in cache.entries && BoundedCache.Live(cache, k, t) && Contains(k, pattern)
  }

  function Except(keys: seq<string>, gone: set<string>): seq<string> {
    if keys == [] then []
    else if keys[0] in gone then Except(keys[1..], gone)
    else [keys[0]] + Except(keys[1..], gone)
  }

  lemma {:induction false} ExceptOne(keys: seq<string>, gone: set<string>, k: string)
    ensures JsMap.Without(Except(keys, gone), k) == Except(keys, gone + {k})
  {
    if keys != [] { ExceptOne(keys[1..], gone, k); }
  }

  lemma {:induction false} ExceptNone(keys: seq<string>, gone: set<string>)
    requires gone == {}
    ensures Except(keys, gone) == keys
  {
    if keys != [] {
      ExceptNone(keys[1..], gone);
      assert keys == [keys[0]] + keys[1..];
    }
  }

  class Middleware {
    const cache: BoundedCache.Cache<Response>

    ghost predicate Valid() reads this, cache { cache.Valid() }

    constructor ()
      ensures Valid() && fresh(cache) && cache.store == JsMap.Empty() && cache.max == 2000
    {
      cache := new BoundedCache.Cache(2000, DEFAULT_TTL);
    }

    /** Before the handler: `Some` is a HIT, answered without running it. */
    method Begin(req: Request, digest: string -> string, t: int) returns (hit: Option<Response>)
      requires Valid()
      modifies cache
      ensures Valid()
      ensures hit == Hit(old(cache.store), req, digest, t)
      ensures cache.store == AfterLookup(old(cache.store), req, digest, t)
    {
      if req.verb != "GET" || !Allowed(Path(req.url)) { return None; }
      hit := cache.Get(KeyText(IdentityOf(req, digest)), t);
    }

    /** The patched `res.json` of a miss. */
    method Reply(id: Identity, response: Response, t: int)
      requires Valid()
      modifies cache
      ensures Valid()
      ensures cache.store == AfterReply(old(cache.store), cache.max, id, response, t)
    {
      hide FirstTtl, BoundedCache.Insert, KeyText, Path;
      if 200 <= response.status < 300 {
        var ttl := GetTtl(Path(id.url));
        cache.Put(KeyText(id), response, Some(ttl), t);
      }
    }

    /** `invalidateCache(pattern)`: removes the live matching keys and nothing else, and counts them. */
    method InvalidateMatching(pattern: string, t: int) returns (n: nat)
      requires Valid()
      modifies cache
      ensures Valid()
      ensures var gone := Matching(old(cache.store), pattern, t);
              && cache.store.entries == old(cache.store.entries) - gone
              && cache.store.order == Except(old(cache.store.order), gone)
              && n == |gone|
    {
      hide Contains, Except, JsMap.Delete, JsMap.Without;
      n := 0;
      ghost var before := cache.store;
      ghost var gone: set<string> := {};
      var keys := cache.store.order;
      ExceptNone(keys, {});
      var i := 0;
      while i < |keys|
        invariant 0 <= i <= |keys|
        invariant Valid()
        invariant gone == set k | k in keys[..i] && BoundedCache.Live(before, k, t) && Contains(k, pattern)
        invariant cache.store.entries == before.entries - gone
        invariant cache.store.order == Except(keys, gone)
        invariant n == |gone|
      {
        var key := keys[i];
        assert keys[..i + 1] == keys[..i] + [key];
        assert key !in keys[..i] by { assert Sorting.NoDup(before.order); }
        assert key in before.order;
        if cache.store.entries[key].expiresAt >= t && Contains(key, pattern) {
          ExceptOne(keys, gone, key);
          assert before.entries - gone - {key} == before.entries - (gone + {key});
          cache.Remove(key);
          gone := gone + {key};
          n := n + 1;
        }
        i := i + 1;
      }
      assert keys[..|keys|] == keys;
      assert gone == Matching(before, pattern, t);
    }

    /** `invalidateAll()`, what the `catalog-write` listener runs. */
    method InvalidateAll() returns (n: nat)
      requires Valid()
      modifies cache
      ensures Valid() && cache.store == JsMap.Empty() && n == |old(cache.store.entries)|
    {
      JsMap.SizeIsCardinality(cache.store);
      n := JsMap.Size(cache.store);
      cache.Clear();
    }
  }

  // ---------------------------------------------------------------- cache, handlers and writers together

  /** A handler that missed: it reads the store once, then answers from what it read. */
  datatype Pending<D> = Pending(req: Request, snapshot: Option<D>)

  /** `unpublished`: the store changed and the listener has not run since. */
  datatype State<D> = State(db: D, unpublished: bool, cache: Store, pending: map<nat, Pending<D>>, now: int)

  datatype Config<!D> = Config(max: nat, digest: string -> string, handler: (Request, D) -> Response)

  /** Handlers answer the same sender alike, and the hash tells senders apart. */
  ghost predicate Fair<D(!new)>(c: Config<D>) {
    && TellsApart(c.digest)
    && forall a, b, db :: SameSender(a, b) ==> c.handler(a, db) == c.handler(b, db)
  }

  function KeyFor<D>(c: Config<D>, req: Request): string { KeyText(IdentityOf(req, c.digest)) }

  predicate CleanFor<D>(c: Config<D>, req: Request) { Clean(IdentityOf(req, c.digest)) }

  datatype Event<D> =
    | Arrive(r: nat, req: Request, t: int)
    | Read(r: nat, t: int)
    | Reply(r: nat, t: int)
    | Change(db: D, t: int)      // a catalogue write commits
    | Publish(t: int)            // its event is published and the listener clears the cache
    | Invalidate(gone: set<string>, t: int)
    | Sweep(t: int)

  function Initial<D>(db: D, now: int): State<D> { State(db, false, JsMap.Empty(), map[], now) }

  predicate Enabled<D>(s: State<D>, c: Config<D>, e: Event<D>) {
    && s.now <= e.t
    && match e
       case Arrive(r, req, _) => r !in s.pending && CleanFor(c, req)
       case Read(r, _) => r in s.pending
       case Reply(r, _) => r in s.pending && s.pending[r].snapshot.Some?
       case _ => true
  }

  /** What the handler of `r` computed. */
  function Computed<D>(s: State<D>, c: Config<D>, r: nat): Response
    requires r in s.pending && s.pending[r].snapshot.Some?
  {
    c.handler(s.pending[r].req, s.pending[r].snapshot.value)
  }

  function Remove(cache: Store, gone: set<string>): (after: Store)
    ensures after.entries == cache.entries - gone
  {
    ExceptValid(cache.order, gone);
    JsMap.Raw(Except(cache.order, gone), cache.entries - gone)
  }

  lemma {:induction false} ExceptValid(keys: seq<string>, gone: set<string>)
    ensures forall k :: k in Except(keys, gone) <==> k in keys && k !in gone
    ensures Sorting.NoDup(keys) ==> Sorting.NoDup(Except(keys, gone))
  {
    if keys != [] {
      assert keys == [keys[0]] + keys[1..];
      ExceptValid(keys[1..], gone);
      if Sorting.NoDup(keys) {
        assert Sorting.NoDup(keys[1..]) && keys[0] !in keys[1..];
      }
    }
  }

  function Step<D>(s: State<D>, c: Config<D>, e: Event<D>): State<D>
    requires c.max > 0 && Enabled(s, c, e)
  {
    match e
    case Arrive(r, req, t) =>
      var s' := s.(cache := AfterLookup(s.cache, req, c.digest, t), now := t);
      if Cacheable(req) && Hit(s.cache, req, c.digest, t).None?
      then s'.(pending := s.pending[r := Pending(req, None)])
      else s'
    case Read(r, t) => s.(pending := s.pending[r := s.pending[r].(snapshot := Some(s.db))], now := t)
    case Reply(r, t) =>
      s.(cache := AfterReply(s.cache, c.max, IdentityOf(s.pending[r].req, c.digest), Computed(s, c, r), t),
         pending := s.pending - {r}, now := t)
    case Change(db, t) => s.(db := db, unpublished := true, now := t)
    case Publish(t) => s.(cache := JsMap.Empty(), unpublished := false, now := t)
    case Invalidate(gone, t) => s.(cache := Remove(s.cache, gone), now := t)
    case Sweep(t) => s.(cache := BoundedCache.Cleanup(s.cache, t), now := t)
  }

  ghost predicate Admissible<D>(s: State<D>, c: Config<D>, es: seq<Event<D>>)
    requires c.max > 0
    decreases |es|
  {
    es == [] || (Enabled(s, c, es[0]) && Admissible(Step(s, c, es[0]), c, es[1..]))
  }

  ghost function Run<D>(s: State<D>, c: Config<D>, es: seq<Event<D>>): State<D>
    requires c.max > 0 && Admissible(s, c, es)
    decreases |es|
  {
    if es == [] then s else Run(Step(s, c, es[0]), c, es[1..])
  }

  // ---------------------------------------------------------------- coherence

  /** Every cached answer is what the handler would compute now. */
  ghost predicate Agrees<D(!new)>(s: State<D>, c: Config<D>) {
    forall req :: CleanFor(c, req) && KeyFor(c, req) in s.cache.entries ==>
      s.cache.entries[KeyFor(c, req)].value == c.handler(req, s.db)
  }

  /** Agreement is only promised once every change has been published. */
  ghost predicate Coherent<D(!new)>(s: State<D>, c: Config<D>) { !s.unpublished ==> Agrees(s, c) }

  ghost predicate PendingClean<D>(s: State<D>, c: Config<D>) {
    forall r :: r in s.pending ==> CleanFor(c, s.pending[r].req)
  }

  /** A handler stores an answer that the current, fully published store no longer gives. */
  predicate StoresStale<D>(s: State<D>, c: Config<D>, e: Event<D>)
    requires Enabled(s, c, e)
  {
    && e.Reply? && !s.unpublished
    && Successful(Computed(s, c, e.r))
    && Computed(s, c, e.r) != c.handler(s.pending[e.r].req, s.db)
  }

  lemma StepKeepsClean<D(!new)>(s: State<D>, c: Config<D>, e: Event<D>)
    requires c.max > 0 && PendingClean(s, c) && Enabled(s, c, e)
    ensures PendingClean(Step(s, c, e), c)
  {
  }

  /** A reply leaves the cache in agreement exactly when what it stored still holds. */
  lemma ReplyKeepsAgreement<D(!new)>(s: State<D>, c: Config<D>, e: Event<D>)
    requires c.max > 0 && Fair(c) && PendingClean(s, c) && Agrees(s, c) && e.Reply? && Enabled(s, c, e)
    ensures Agrees(Step(s, c, e), c)
            <==> (Successful(Computed(s, c, e.r)) ==> Computed(s, c, e.r) == c.handler(s.pending[e.r].req, s.db))
  {
    var s' := Step(s, c, e);
    var stored := s.pending[e.r].req;
    var response := Computed(s, c, e.r);
    hide BoundedCache.Evict, Ttl, IdentityOf, KeyText, Clean, SameSender, TellsApart;
    if Successful(response) {
      assert s'.cache.entries[KeyFor(c, stored)].value == response;
      if response == c.handler(stored, s.db) {
        forall req | CleanFor(c, req) && KeyFor(c, req) in s'.cache.entries
          ensures s'.cache.entries[KeyFor(c, req)].value == c.handler(req, s'.db)
        {
          SameKeyIff(req, stored, c.digest);
        }
      }
    }
  }

  /** Losing entries keeps the rest in agreement. */
  lemma FewerEntriesAgree<D(!new)>(s: State<D>, s': State<D>, c: Config<D>)
    requires Agrees(s, c) && s'.db == s.db
    requires forall k :: k in s'.cache.entries ==>
               k in s.cache.entries && s'.cache.entries[k].value == s.cache.entries[k].value
    ensures Agrees(s', c)
  {
  }

  lemma {:induction false} CoherenceKeptIff<D(!new)>(s: State<D>, c: Config<D>, e: Event<D>)
    requires c.max > 0 && Fair(c) && PendingClean(s, c) && Coherent(s, c) && Enabled(s, c, e)
    ensures Coherent(Step(s, c, e), c) <==> !StoresStale(s, c, e)
  {
    var s' := Step(s, c, e);
    match e
    case Reply(r, t) => if !s.unpublished { ReplyKeepsAgreement(s, c, e); }
    case Change(_, _) =>
    case Publish(_) =>
    case Sweep(t) =>
      if !s.unpublished {
        forall k | k in s'.cache.entries ensures k in s.cache.entries && s'.cache.entries[k] == s.cache.entries[k] {
          BoundedCache.CleanupKeepsLive(s.cache, t, k);
        }
        FewerEntriesAgree(s, s', c);
      }
    case _ => if !s.unpublished { FewerEntriesAgree(s, s', c); }
  }

  /** No change was committed and published between a handler's read and its reply. */
  ghost predicate NoOverlap<D>(s: State<D>, c: Config<D>, es: seq<Event<D>>)
    requires c.max > 0 && Admissible(s, c, es)
    decreases |es|
  {
    es == []
    || ((es[0].Reply? && !s.unpublished ==> s.pending[es[0].r].snapshot == Some(s.db))
        && NoOverlap(Step(s, c, es[0]), c, es[1..]))
  }

  lemma {:induction false} RunStaysCoherent<D(!new)>(s: State<D>, c: Config<D>, es: seq<Event<D>>)
    requires c.max > 0 && Fair(c) && PendingClean(s, c) && Coherent(s, c) && Admissible(s, c, es) && NoOverlap(s, c, es)
    ensures Coherent(Run(s, c, es), c)
    decreases |es|
  {
    if es != [] {
      StepKeepsClean(s, c, es[0]);
      CoherenceKeptIff(s, c, es[0]);
      RunStaysCoherent(Step(s, c, es[0]), c, es[1..]);
    }
  }

  /**
   Coherence: with no write falling between a handler's read and its reply, a HIT on a
   published store is exactly what the handler would compute for this very request from that store.
   */
  lemma HitsAreCurrent<D(!new)>(db: D, now: int, c: Config<D>, es: seq<Event<D>>, req: Request, t: int)
    requires c.max > 0 && Fair(c)
    requires Admissible(Initial(db, now), c, es) && NoOverlap(Initial(db, now), c, es)
    requires CleanFor(c, req) && !Run(Initial(db, now), c, es).unpublished
    ensures var s := Run(Initial(db, now), c, es);
            var hit := Hit(s.cache, req, c.digest, t);
            hit.Some? ==> hit.value == c.handler(req, s.db)
  {
    RunStaysCoherent(Initial(db, now), c, es);
    var s := Run(Initial(db, now), c, es);
    assert KeyFor(c, req) in s.cache.entries ==> s.cache.entries[KeyFor(c, req)].value == c.handler(req, s.db);
  }

  // ---------------------------------------------------------------- bounded staleness

  datatype Stored = Stored(req: Request, response: Response, at: int)

  /** Everything the replies of a run put into the cache. */
  ghost function Stores<D>(s: State<D>, c: Config<D>, es: seq<Event<D>>): seq<Stored>
    requires c.max > 0 && Admissible(s, c, es)
    decreases |es|
  {
    if es == [] then []
    else
      (if es[0].Reply? && Successful(Computed(s, c, es[0].r))
       then [Stored(s.pending[es[0].r].req, Computed(s, c, es[0].r), es[0].t)] else [])
      + Stores(Step(s, c, es[0]), c, es[1..])
  }

  /** The entry was put there by that reply. */
  predicate From<D>(c: Config<D>, value: Response, expiresAt: int, k: string, log: Stored) {
    && CleanFor(c, log.req) && KeyFor(c, log.req) == k
    && log.response == value
    && expiresAt == log.at + Ttl(Path(log.req.url))
  }

  ghost predicate Accounted<D>(s: State<D>, c: Config<D>, log: seq<Stored>) {
    forall k :: k in s.cache.entries ==>
      exists i :: 0 <= i < |log| && From(c, s.cache.entries[k].value, s.cache.entries[k].expiresAt, k, log[i])
  }

  lemma AccountedGrows<D(!new)>(s: State<D>, s': State<D>, c: Config<D>, log: seq<Stored>, more: seq<Stored>)
    requires Accounted(s, c, log)
    requires forall k :: k in s'.cache.entries ==>
               || (k in s.cache.entries && s'.cache.entries[k].value == s.cache.entries[k].value
                   && s'.cache.entries[k].expiresAt == s.cache.entries[k].expiresAt)
               || exists i :: 0 <= i < |more|
                    && From(c, s'.cache.entries[k].value, s'.cache.entries[k].expiresAt, k, more[i])
    ensures Accounted(s', c, log + more)
  {
    hide From;
    forall k | k in s'.cache.entries
      ensures exists i :: 0 <= i < |log + more|
                && From(c, s'.cache.entries[k].value, s'.cache.entries[k].expiresAt, k, (log + more)[i])
    {
      if i :| 0 <= i < |more| && From(c, s'.cache.entries[k].value, s'.cache.entries[k].expiresAt, k, more[i]) {
        assert (log + more)[|log| + i] == more[i];
      } else {
        var i :| 0 <= i < |log| && From(c, s.cache.entries[k].value, s.cache.entries[k].expiresAt, k, log[i]);
        assert (log + more)[i] == log[i];
      }
    }
  }

  lemma ReplyAccounted<D(!new)>(s: State<D>, c: Config<D>, r: nat, t: int, log: seq<Stored>)
    requires c.max > 0 && PendingClean(s, c) && Accounted(s, c, log) && Enabled(s, c, Reply(r, t))
    requires Successful(Computed(s, c, r))
    ensures Accounted(Step(s, c, Reply(r, t)), c, log + [Stored(s.pending[r].req, Computed(s, c, r), t)])
  {
    hide BoundedCache.Evict, Ttl, KeyText, Path, Computed;
    var s' := Step(s, c, Reply(r, t));
    var k := KeyFor(c, s.pending[r].req);
    var stored := Stored(s.pending[r].req, Computed(s, c, r), t);
    assert From(c, s'.cache.entries[k].value, s'.cache.entries[k].expiresAt, k, [stored][0]);
    hide From, Accounted;
    AccountedGrows(s, s', c, log, [stored]);
  }

  lemma StepAccounted<D(!new)>(s: State<D>, c: Config<D>, e: Event<D>, log: seq<Stored>)
    requires c.max > 0 && PendingClean(s, c) && Accounted(s, c, log) && Enabled(s, c, e)
    ensures Accounted(Step(s, c, e), c, log + Stores(s, c, [e]))
  {
    hide From, Accounted, KeyText, IdentityOf, Cacheable, PendingClean, Computed, BoundedCache.Evict;
    var s' := Step(s, c, e);
    assert [e][1..] == [];
    if e.Reply? && Successful(Computed(s, c, e.r)) {
      ReplyAccounted(s, c, e.r, e.t, log);
      assert Stores(s, c, [e]) == [Stored(s.pending[e.r].req, Computed(s, c, e.r), e.t)];
    } else {
      if e.Sweep? {
        forall k | k in s'.cache.entries ensures k in s.cache.entries && s'.cache.entries[k] == s.cache.entries[k] {
          BoundedCache.CleanupKeepsLive(s.cache, e.t, k);
        }
      }
      AccountedGrows(s, s', c, log, Stores(s, c, [e]));
    }
  }

  lemma {:induction false} RunAccounted<D(!new)>(s: State<D>, c: Config<D>, es: seq<Event<D>>, log: seq<Stored>)
    requires c.max > 0 && PendingClean(s, c) && Accounted(s, c, log) && Admissible(s, c, es)
    ensures Accounted(Run(s, c, es), c, log + Stores(s, c, es))
    decreases |es|
  {
    hide Step, Enabled, Accounted, PendingClean, Computed, Successful;
    if es == [] {
      assert log + Stores(s, c, es) == log;
    } else {
      StepKeepsClean(s, c, es[0]);
      StepAccounted(s, c, es[0], log);
      var more := Stores(s, c, [es[0]]);
      assert [es[0]][1..] == [];
      RunAccounted(Step(s, c, es[0]), c, es[1..], log + more);
      assert log + Stores(s, c, es) == (log + more) + Stores(Step(s, c, es[0]), c, es[1..]);
    }
  }

  /** A cacheable request arrives. */
  predicate Asks<D>(e: Event<D>, r: nat, req: Request) {
    e.Arrive? && e.r == r && e.req == req && req.verb == "GET" && Allowed(Path(req.url))
  }

  predicate Replies<D>(e: Event<D>, r: nat, t: int) { e.Reply? && e.r == r && e.t == t }

  /** The answer is the reply to a request that was being handled, ... */
  ghost predicate Handled<D(!new)>(s: State<D>, es: seq<Event<D>>, x: Stored) {
    exists r, j :: 0 <= j < |es| && r in s.pending && s.pending[r].req == x.req && Replies(es[j], r, x.at)
  }

  /** ... or to one that arrived earlier in the run. */
  ghost predicate Asked<D(!new)>(es: seq<Event<D>>, x: Stored) {
    exists r, i, j :: 0 <= i < j < |es| && Asks(es[i], r, x.req) && Replies(es[j], r, x.at)
  }

  lemma AskedLater<D(!new)>(es: seq<Event<D>>, x: Stored)
    requires es != [] && Asked(es[1..], x)
    ensures Asked(es, x)
  {
    var r, i, j :| 0 <= i < j < |es[1..]| && Asks(es[1..][i], r, x.req) && Replies(es[1..][j], r, x.at);
    assert Asks(es[i + 1], r, x.req) && Replies(es[j + 1], r, x.at);
  }

  lemma HandledLater<D(!new)>(s: State<D>, c: Config<D>, es: seq<Event<D>>, x: Stored)
    requires c.max > 0 && es != [] && Enabled(s, c, es[0]) && Handled(Step(s, c, es[0]), es[1..], x)
    ensures Handled(s, es, x) || Asked(es, x)
  {
    hide AfterReply, Remove, Hit, AfterLookup;
    var s' := Step(s, c, es[0]);
    var r, j :| 0 <= j < |es[1..]| && r in s'.pending && s'.pending[r].req == x.req && Replies(es[1..][j], r, x.at);
    assert Replies(es[j + 1], r, x.at);
    if !(r in s.pending && s.pending[r].req == x.req) { assert Asks(es[0], r, x.req); }
  }

  /** Every stored answer is the handler's, for a request that the run answered. */
  lemma {:induction false} StoresAreAsked<D(!new)>(s: State<D>, c: Config<D>, es: seq<Event<D>>, x: Stored)
    requires c.max > 0 && Admissible(s, c, es) && x in Stores(s, c, es)
    ensures Handled(s, es, x) || Asked(es, x)
    ensures 200 <= x.response.status < 300 && exists d :: x.response == c.handler(x.req, d)
    decreases |es|
  {
    if x in Stores(Step(s, c, es[0]), c, es[1..]) {
      StoresAreAsked(Step(s, c, es[0]), c, es[1..], x);
      hide Step, Enabled, Handled, Asked;
      if Asked(es[1..], x) { AskedLater(es, x); } else { HandledLater(s, c, es, x); }
    } else {
      assert Replies(es[0], es[0].r, x.at) && s.pending[es[0].r].req == x.req;
    }
  }

  /**
   Whatever writes overlap with handlers: a HIT repeats an answer that was computed for an
   earlier request of the same sender, and stored no longer ago than the path's time to live.
   */
  lemma HitsAreRecent<D(!new)>(db: D, now: int, c: Config<D>, es: seq<Event<D>>, req: Request, t: int)
    requires c.max > 0 && TellsApart(c.digest) && Admissible(Initial(db, now), c, es) && CleanFor(c, req)
    ensures var s := Run(Initial(db, now), c, es);
            var hit := Hit(s.cache, req, c.digest, t);
            hit.Some? ==>
              exists x :: && x in Stores(Initial(db, now), c, es) && x.response == hit.value
                          && SameSender(x.req, req) && t - x.at <= Ttl(Path(req.url))
                          && 200 <= x.response.status < 300
                          && Asked(es, x) && exists d :: x.response == c.handler(x.req, d)
  {
    hide IdentityOf, Ttl, SameSender, TellsApart, Asked, Stores, Cacheable, KeyText, Clean;
    var s0 := Initial(db, now);
    RunAccounted(s0, c, es, []);
    assert [] + Stores(s0, c, es) == Stores(s0, c, es);
    var s := Run(s0, c, es);
    if Hit(s.cache, req, c.digest, t).Some? {
      var k := KeyFor(c, req);
      var i :| 0 <= i < |Stores(s0, c, es)|
               && From(c, s.cache.entries[k].value, s.cache.entries[k].expiresAt, k, Stores(s0, c, es)[i]);
      var x := Stores(s0, c, es)[i];
      SameKeyIff(x.req, req, c.digest);
      assert x in Stores(s0, c, es);
      StoresAreAsked(s0, c, es, x);
      SameUrl(x.req, req);
    }
  }

  lemma SameUrl(a: Request, b: Request)
    requires SameSender(a, b)
    ensures a.url == b.url
  {
  }

  // ---------------------------------------------------------------- a stale hit

  lemma RunCons<D(!new)>(s: State<D>, c: Config<D>, e: Event<D>, es: seq<Event<D>>)
    requires c.max > 0 && Enabled(s, c, e) && Admissible(Step(s, c, e), c, es)
    ensures Admissible(s, c, [e] + es) && Run(s, c, [e] + es) == Run(Step(s, c, e), c, es)
  {
    assert ([e] + es)[1..] == es;
  }

  /**
   A write published while a handler is between its read and its reply always leaves the
   old answer behind: whatever the write changed, the next request gets the pre-write reply.
   */
  lemma OverlappingWriteServesStale<D(!new)>(c: Config<D>, req: Request, before: D, after: D)
    requires c.max > 0 && Cacheable(req) && CleanFor(c, req)
    requires 200 <= c.handler(req, before).status < 300
    ensures var es := [Arrive(1, req, 0), Read(1, 1), Change(after, 2), Publish(3), Reply(1, 4)];
            && Admissible(Initial(before, 0), c, es)
            && var s := Run(Initial(before, 0), c, es);
            && s.db == after && !s.unpublished
            && Hit(s.cache, req, c.digest, 5) == Some(c.handler(req, before))
  {
    hide Cacheable, Ttl, KeyText, BoundedCache.Evict, IdentityOf, Clean;
    var s0 := Initial(before, 0);
    var s1 := Step(s0, c, Arrive(1, req, 0));
    assert s1.pending[1] == Pending(req, None);
    var s2 := Step(s1, c, Read(1, 1));
    assert s2.pending[1] == Pending(req, Some(before));
    var s3 := Step(s2, c, Change(after, 2));
    var s4 := Step(s3, c, Publish(3));
    assert s4.pending[1] == Pending(req, Some(before));
    var s5 := Step(s4, c, Reply(1, 4));
    assert BoundedCache.Answer(s5.cache, KeyFor(c, req), 5) == Some(c.handler(req, before)) by {
      TtlIsLong(Path(IdentityOf(req, c.digest).url));
    }
    hide Step, Enabled, Admissible, Run, BoundedCache.Answer;
    NothingToRun(s5, c);
    RunCons(s4, c, Reply(1, 4), []);
    RunCons(s3, c, Publish(3), [Reply(1, 4)]);
    RunCons(s2, c, Change(after, 2), [Publish(3), Reply(1, 4)]);
    RunCons(s1, c, Read(1, 1), [Change(after, 2), Publish(3), Reply(1, 4)]);
    RunCons(s0, c, Arrive(1, req, 0), [Read(1, 1), Change(after, 2), Publish(3), Reply(1, 4)]);
  }

  lemma NothingToRun<D(!new)>(s: State<D>, c: Config<D>)
    requires c.max > 0
    ensures Admissible(s, c, []) && Run(s, c, []) == s
  {
  }

  lemma TtlIsLong(path: string)
    ensures Ttl(path) >= 10000
  {
    hide Matches;
    FirstTtlIsLong(TTL_OVERRIDES, path);
  }

  lemma {:induction false} FirstTtlIsLong(table: seq<(Pattern, int)>, path: string)
    requires forall i :: 0 <= i < |table| ==> table[i].1 >= 10000
    ensures FirstTtl(table, path) >= 10000
  {
    if table != [] { FirstTtlIsLong(table[1..], path); }
  }
}
