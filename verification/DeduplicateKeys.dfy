/**
 Which requests are deduplicated and under which key
 (backend/src/middleware/deduplicate.js:40-99).
 */
module DeduplicateKeys {
  import opened Wrappers
  import opened JsStrings

  // ---------------------------------------------------------------- keys

  type Headers = map<string, string>

  datatype Request = Request(verb: string, path: string, originalUrl: string, headers: Headers, body: string)

  function Header(headers: Headers, name: string): string {
    if name in headers then headers[name] else ""
  }

  predicate Skipped(req: Request) {
    || req.verb in {"GET", "HEAD", "OPTIONS"}
    || StartsWith(req.path, "/healthz") || StartsWith(req.path, "/readyz")
    || StartsWith(req.path, "/metrics") || StartsWith(req.path, "/api/v1/health")
  }

  /** The first configured header that carries a usable key. */
  function ExplicitKey(headers: Headers, names: seq<string>): string {
    if names == [] then ""
    else
      var v := Header(headers, names[0]);
      if v != "" && |v| <= 200 then v else ExplicitKey(headers, names[1..])
  }

  function TenantHeader(headers: Headers): string {
    var id := Header(headers, "x-tenant-id");
    if id != "" then id else Header(headers, "x-tenant-slug")
  }

  function ScopeText(req: Request): string {
    Header(req.headers, "host") + "|" + TenantHeader(req.headers) + "|" + Header(req.headers, "authorization")
  }

  function FingerprintText(req: Request): string {
    req.verb + ":" + req.originalUrl + ":" + req.body
  }

  /** `digest` is the 16-character hash prefix. */
  function KeyOf(req: Request, names: seq<string>, digest: string -> string): Option<string> {
    if Skipped(req) then None
    else
      var explicit := ExplicitKey(req.headers, names);
      var scope := "s:" + digest(ScopeText(req));
      if explicit != "" then Some(scope + ":k:" + explicit)
      else if req.verb == "POST" then Some(scope + ":fp:" + digest(FingerprintText(req)))
      else None
  }

  method DedupKey(req: Request, names: seq<string>, digest: string -> string) returns (key: Option<string>)
    ensures key == KeyOf(req, names, digest)
  {
    if Skipped(req) { return None; }
    var explicit := "";
    var i := 0;
    while i < |names|
      invariant 0 <= i <= |names|
      invariant explicit == ""
      invariant ExplicitKey(req.headers, names) == ExplicitKey(req.headers, names[i..])
    {
      var v := Header(req.headers, names[i]);
      assert names[i..][1..] == names[i + 1..];
      if v != "" && |v| <= 200 {
        explicit := v;
        break;
      }
      i := i + 1;
    }
    if explicit != "" { return Some("s:" + digest(ScopeText(req)) + ":k:" + explicit); }
    if req.verb == "POST" {
      return Some("s:" + digest(ScopeText(req)) + ":fp:" + digest(FingerprintText(req)));
    }
    return None;
  }

  /**
   Requests of different hosts, tenants or credentials never share a key, as long as
   the digest tells their scope texts apart and `|` is absent from host and tenant header.
   */
  lemma KeysAreScoped(a: Request, b: Request, names: seq<string>, digest: string -> string)
    requires KeyOf(a, names, digest).Some? && KeyOf(a, names, digest) == KeyOf(b, names, digest)
    requires |digest(ScopeText(a))| == |digest(ScopeText(b))| == 16
    requires digest(ScopeText(a)) == digest(ScopeText(b)) ==> ScopeText(a) == ScopeText(b)
    requires forall r <- [a, b] :: '|' !in Header(r.headers, "host") && '|' !in TenantHeader(r.headers)
    ensures Header(a.headers, "host") == Header(b.headers, "host")
    ensures TenantHeader(a.headers) == TenantHeader(b.headers)
    ensures Header(a.headers, "authorization") == Header(b.headers, "authorization")
    ensures ExplicitKey(a.headers, names) == ExplicitKey(b.headers, names)
  {
    var (ta, tb) := (KeyTail(a, names, digest), KeyTail(b, names, digest));
    KeyIsScopeThenTail(a, names, digest);
    KeyIsScopeThenTail(b, names, digest);
    SamePrefixLength(digest(ScopeText(a)), ta, digest(ScopeText(b)), tb);
    TailsDiffer(ExplicitKey(a.headers, names), digest(FingerprintText(a)),
                ExplicitKey(b.headers, names), digest(FingerprintText(b)));
    assert a in [a, b] && b in [a, b];
    ScopeDetermines(a, b);
  }

  function KeyTail(req: Request, names: seq<string>, digest: string -> string): string {
    var explicit := ExplicitKey(req.headers, names);
    if explicit != "" then ":k:" + explicit else ":fp:" + digest(FingerprintText(req))
  }

  lemma KeyIsScopeThenTail(req: Request, names: seq<string>, digest: string -> string)
    requires KeyOf(req, names, digest).Some?
    ensures KeyOf(req, names, digest).value == "s:" + (digest(ScopeText(req)) + KeyTail(req, names, digest))
  {
  }

  lemma SamePrefixLength(d: string, t: string, d': string, t': string)
    requires |d| == |d'| && "s:" + (d + t) == "s:" + (d' + t')
    ensures d == d' && t == t'
  {
    assert ("s:" + (d + t))[2..] == d + t && ("s:" + (d' + t'))[2..] == d' + t';
    assert (d + t)[..|d|] == d && (d' + t')[..|d|] == d';
    assert (d + t)[|d|..] == t && (d' + t')[|d|..] == t';
  }

  /** An explicit key and a fingerprint never look alike. */
  lemma TailsDiffer(e: string, f: string, e': string, f': string)
    requires (if e != "" then ":k:" + e else ":fp:" + f) == (if e' != "" then ":k:" + e' else ":fp:" + f')
    ensures e == e'
  {
    assert (":k:" + e)[1] == 'k' && (":fp:" + f)[1] == 'f';
    assert (":k:" + e)[3..] == e && (":k:" + e')[3..] == e';
  }

  lemma ScopeDetermines(a: Request, b: Request)
    requires ScopeText(a) == ScopeText(b)
    requires '|' !in Header(a.headers, "host") && '|' !in TenantHeader(a.headers)
    requires '|' !in Header(b.headers, "host") && '|' !in TenantHeader(b.headers)
    ensures Header(a.headers, "host") == Header(b.headers, "host")
    ensures TenantHeader(a.headers) == TenantHeader(b.headers)
    ensures Header(a.headers, "authorization") == Header(b.headers, "authorization")
  {
    hide TenantHeader, Header;
    var (ha, ta, aa) := (Header(a.headers, "host"), TenantHeader(a.headers), Header(a.headers, "authorization"));
    var (hb, tb, ab) := (Header(b.headers, "host"), TenantHeader(b.headers), Header(b.headers, "authorization"));
    assert ScopeText(a) == ha + "|" + (ta + "|" + aa);
    assert ScopeText(b) == hb + "|" + (tb + "|" + ab);
    SplitAtFirst(ha, '|', ta + "|" + aa, hb, tb + "|" + ab);
    SplitAtFirst(ta, '|', aa, tb, ab);
  }

  /** A configured header is usable if it has a value of at most 200 characters. */
  predicate Usable(headers: Headers, name: string) {
    name in headers && 1 <= |headers[name]| <= 200
  }

  /** The explicit key is the value of the first usable header, if there is one. */
  lemma {:induction false} ExplicitKeyIsFirst(headers: Headers, names: seq<string>)
    ensures ExplicitKey(headers, names) == "" <==> forall i :: 0 <= i < |names| ==> !Usable(headers, names[i])
    ensures ExplicitKey(headers, names) != "" ==>
              exists i :: && 0 <= i < |names| && Usable(headers, names[i])
                          && ExplicitKey(headers, names) == headers[names[i]]
                          && forall j :: 0 <= j < i ==> !Usable(headers, names[j])
  {
    if names != [] {
      var v := Header(headers, names[0]);
      if v != "" && |v| <= 200 {
        assert Usable(headers, names[0]);
      } else {
        ExplicitKeyIsFirst(headers, names[1..]);
        if i :| 0 <= i < |names[1..]| && Usable(headers, names[1..][i])
                && ExplicitKey(headers, names[1..]) == headers[names[1..][i]]
                && forall j :: 0 <= j < i ==> !Usable(headers, names[1..][j])
        {
          assert names[i + 1] == names[1..][i];
          assert forall j :: 1 <= j < i + 1 ==> names[j] == names[1..][j - 1];
        }
      }
    }
  }

  /** Which requests are deduplicated at all: writes with a usable header, and every POST. */
  lemma KeyExistsIff(req: Request, names: seq<string>, digest: string -> string)
    ensures KeyOf(req, names, digest).Some?
            <==> && req.verb != "GET" && req.verb != "HEAD" && req.verb != "OPTIONS"
                 && (forall p <- ["/healthz", "/readyz", "/metrics", "/api/v1/health"] :: !StartsWith(req.path, p))
                 && (req.verb == "POST" || exists i :: 0 <= i < |names| && Usable(req.headers, names[i]))
  {
    ExplicitKeyIsFirst(req.headers, names);
    var prefixes := ["/healthz", "/readyz", "/metrics", "/api/v1/health"];
    assert prefixes[0] in prefixes && prefixes[1] in prefixes && prefixes[2] in prefixes && prefixes[3] in prefixes;
    hide ExplicitKey, StartsWith;
  }

  predicate NoneUsable(headers: Headers, names: seq<string>) {
    forall i :: 0 <= i < |names| ==> !Usable(headers, names[i])
  }

  /**
   Without an explicit key only the very same POST shares a key: two requests with one key and
   no usable header are both POSTs, and agree on URL and body written one after the other.
   */
  lemma FingerprintIdentifies(a: Request, b: Request, names: seq<string>, digest: string -> string)
    requires KeyOf(a, names, digest).Some? && KeyOf(a, names, digest) == KeyOf(b, names, digest)
    requires NoneUsable(a.headers, names) && NoneUsable(b.headers, names)
    requires forall t :: |digest(t)| == 16
    requires var (x, y) := (a.verb + ":" + a.originalUrl + ":" + a.body, b.verb + ":" + b.originalUrl + ":" + b.body);
             digest(x) == digest(y) ==> x == y
    ensures a.verb == b.verb == "POST"
    ensures a.originalUrl + ":" + a.body == b.originalUrl + ":" + b.body
    ensures a.originalUrl == b.originalUrl ==> a.body == b.body
    ensures ':' !in a.originalUrl && ':' !in b.originalUrl ==> a.originalUrl == b.originalUrl && a.body == b.body
  {
    ExplicitKeyIsFirst(a.headers, names);
    ExplicitKeyIsFirst(b.headers, names);
    var (ta, tb) := (KeyTail(a, names, digest), KeyTail(b, names, digest));
    KeyIsScopeThenTail(a, names, digest);
    KeyIsScopeThenTail(b, names, digest);
    SamePrefixLength(digest(ScopeText(a)), ta, digest(ScopeText(b)), tb);
    assert ta[4..] == digest(FingerprintText(a)) && tb[4..] == digest(FingerprintText(b));
    var (x, y) := (a.originalUrl + ":" + a.body, b.originalUrl + ":" + b.body);
    assert FingerprintText(a) == "POST:" + x && FingerprintText(b) == "POST:" + y;
    assert ("POST:" + x)[5..] == x && ("POST:" + y)[5..] == y;
    if a.originalUrl == b.originalUrl {
      assert x[|a.originalUrl| + 1..] == a.body && y[|b.originalUrl| + 1..] == b.body;
    }
    if ':' !in a.originalUrl && ':' !in b.originalUrl {
      SplitAtFirst(a.originalUrl, ':', a.body, b.originalUrl, b.body);
    }
  }

  /** A retry finds its first attempt: same sender, and the same explicit key or the same URL and body. */
  lemma RetryGetsSameKey(a: Request, b: Request, names: seq<string>, digest: string -> string)
    requires a.verb == b.verb && a.path == b.path
    requires forall n <- ["host", "x-tenant-id", "x-tenant-slug", "authorization"] ::
               Header(a.headers, n) == Header(b.headers, n)
    requires forall i :: 0 <= i < |names| ==> Header(a.headers, names[i]) == Header(b.headers, names[i])
    requires NoneUsable(a.headers, names) ==> a.originalUrl == b.originalUrl && a.body == b.body
    ensures KeyOf(a, names, digest) == KeyOf(b, names, digest)
  {
    var scope := ["host", "x-tenant-id", "x-tenant-slug", "authorization"];
    assert scope[0] in scope && scope[1] in scope && scope[2] in scope && scope[3] in scope;
    ExplicitKeyIsFirst(a.headers, names);
    SameExplicitKey(a.headers, b.headers, names);
  }

  lemma {:induction false} SameExplicitKey(x: Headers, y: Headers, names: seq<string>)
    requires forall i :: 0 <= i < |names| ==> Header(x, names[i]) == Header(y, names[i])
    ensures ExplicitKey(x, names) == ExplicitKey(y, names)
  {
    if names != [] { SameExplicitKey(x, y, names[1..]); }
  }

  /** Different tenant ids, tenant slugs, hosts or credentials never share a key. */
  lemma SendersNeverShare(a: Request, b: Request, names: seq<string>, digest: string -> string)
    requires KeyOf(a, names, digest).Some? && KeyOf(a, names, digest) == KeyOf(b, names, digest)
    requires forall t :: |digest(t)| == 16
    requires digest(ScopeText(a)) == digest(ScopeText(b)) ==> ScopeText(a) == ScopeText(b)
    requires forall r <- [a, b], n <- ["host", "x-tenant-id", "x-tenant-slug"] :: '|' !in Header(r.headers, n)
    ensures Header(a.headers, "host") == Header(b.headers, "host")
    ensures Header(a.headers, "authorization") == Header(b.headers, "authorization")
    ensures var (x, y) := (Header(a.headers, "x-tenant-id"), Header(b.headers, "x-tenant-id"));
            && (x != "" && y != "" ==> x == y)
            && (x == "" && y == "" ==> Header(a.headers, "x-tenant-slug") == Header(b.headers, "x-tenant-slug"))
  {
    var scope := ["host", "x-tenant-id", "x-tenant-slug"];
    assert scope[0] in scope && scope[1] in scope && scope[2] in scope && a in [a, b] && b in [a, b];
    KeysAreScoped(a, b, names, digest);
  }
}
