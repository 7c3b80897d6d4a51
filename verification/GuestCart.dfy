/**
 Guest-cart identity (backend/src/middleware/guestCart.js): parsing the Cookie header,
 finding the guest key, printing and attaching the guest cookie. `decode` is
 `decodeURIComponent`; `None` is a throw.
 */
module GuestCart {
  import opened Wrappers
  import opened JsStrings

  const GUEST_COOKIE := "fm_guest"
  const PROTO := "__proto__"

  type Decoder = string -> Option<string>

  /** Text without percent signs decodes to itself. */
  ghost predicate KeepsPlain(decode: Decoder) {
    forall v: string :: '%' !in v ==> decode(v) == Some(v)
  }

  // ---------------------------------------------------------------- parsing

  /** Name and value of one piece of the header, if it names a cookie. */
  function Piece(part: string, decode: Decoder): Option<(string, string)> {
    match IndexOf(part, '=')
    case None => None
    case Some(i) =>
      var k := Trim(part[..i]);
      var v := Trim(part[i + 1..]);
      if k == "" then None else Some((k, match decode(v) case Some(d) => d case None => v))
  }

  /**
   A piece is split at its first equals sign and trimmed on both sides; the value is decoded,
   and kept as it is where decoding fails. A piece without a name says nothing.
   */
  lemma PieceIs(name: string, value: string, decode: Decoder)
    requires '=' !in name
    ensures Piece(name, decode).None?
    ensures Trim(name) == "" ==> Piece(name + "=" + value, decode).None?
    ensures Trim(name) != "" ==>
              var d := decode(Trim(value));
              Piece(name + "=" + value, decode) == Some((Trim(name), if d.Some? then d.value else Trim(value)))
  {
    hide Trim;
    IndexOfPiece(name, '=', value);
    var part := name + "=" + value;
    assert part[..|name|] == name && part[|name| + 1..] == value;
    NoneIndexed(name, '=');
  }

  lemma {:induction false} NoneIndexed(a: string, c: char)
    requires c !in a
    ensures IndexOf(a, c).None?
  {
    if a != [] { NoneIndexed(a[1..], c); }
  }

  /** Assigning a string to `__proto__` of an object literal is ignored. */
  function Assign(out: map<string, string>, k: string, v: string): map<string, string> {
    if k == PROTO then out else out[k := v]
  }

  function Add(out: map<string, string>, part: string, decode: Decoder): map<string, string> {
    match Piece(part, decode)
    case None => out
    case Some((k, v)) => Assign(out, k, v)
  }

  function AddAll(out: map<string, string>, parts: seq<string>, decode: Decoder): map<string, string>
    decreases |parts|
  {
    if parts == [] then out else AddAll(Add(out, parts[0], decode), parts[1..], decode)
  }

  /** The specification of `parseCookieHeader`; a missing header is empty. */
  function Cookies(header: string, decode: Decoder): map<string, string> {
    AddAll(map[], Split(header, ';'), decode)
  }

  method ParseCookieHeader(header: string, decode: Decoder) returns (out: map<string, string>)
    ensures out == Cookies(header, decode)
  {
    out := map[];
    var parts := Split(header, ';');
    var n := 0;
    while n < |parts|
      invariant 0 <= n <= |parts|
      invariant AddAll(out, parts[n..], decode) == Cookies(header, decode)
    {
      var part := parts[n];
      assert parts[n..][1..] == parts[n + 1..];
      n := n + 1;
      var at := IndexOf(part, '=');
      if at.None? { continue; }
      var k := Trim(part[..at.value]);
      var v := Trim(part[at.value + 1..]);
      if k == "" { continue; }
      var decoded := decode(v);
      out := Assign(out, k, if decoded.Some? then decoded.value else v);
    }
  }

  // ---------------------------------------------------------------- the last cookie of a name wins

  /** What the pieces say about `name`: the last one that names it, if any. */
  function LastValue(was: Option<string>, parts: seq<string>, name: string, decode: Decoder): Option<string>
    decreases |parts|
  {
    if parts == [] then was
    else
      var p := Piece(parts[0], decode);
      LastValue(if p.Some? && p.value.0 == name then Some(p.value.1) else was, parts[1..], name, decode)
  }

  function Lookup(out: map<string, string>, name: string): Option<string> {
    if name in out then Some(out[name]) else None
  }

  lemma {:induction false} LookupIsLast(out: map<string, string>, parts: seq<string>, name: string, decode: Decoder)
    requires name != PROTO
    ensures Lookup(AddAll(out, parts, decode), name) == LastValue(Lookup(out, name), parts, name, decode)
    decreases |parts|
  {
    hide Piece;
    if parts != [] { LookupIsLast(Add(out, parts[0], decode), parts[1..], name, decode); }
  }

  /** `name=value` as a client writes it: no separators or escapes inside, no white space at the edges. */
  predicate WellFormed(p: (string, string)) {
    && p.0 != "" && p.0 != PROTO && Trimmed(p.0) && '=' !in p.0 && ';' !in p.0
    && Trimmed(p.1) && ';' !in p.1 && '%' !in p.1
  }

  function PairText(p: (string, string)): string { p.0 + "=" + p.1 }

  function PairTexts(ps: seq<(string, string)>): seq<string> {
    if ps == [] then [] else [PairText(ps[0])] + PairTexts(ps[1..])
  }

  function LastWins(out: map<string, string>, ps: seq<(string, string)>): map<string, string>
    decreases |ps|
  {
    if ps == [] then out else LastWins(out[ps[0].0 := ps[0].1], ps[1..])
  }

  lemma PieceAt(name: string, v: string, k: string, decode: Decoder)
    requires '=' !in name && Trim(name) == k && k != "" && Trim(v) == v && '%' !in v && KeepsPlain(decode)
    ensures Piece(name + "=" + v, decode) == Some((k, v))
  {
    hide Trim, IndexOf;
    assert decode(v) == Some(v);
    IndexOfPiece(name, '=', v);
    var s := name + ['='] + v;
    assert s[..|name|] == name && s[|name| + 1..] == v;
  }

  lemma PieceOfPair(p: (string, string), decode: Decoder)
    requires WellFormed(p) && KeepsPlain(decode)
    ensures Piece(PairText(p), decode) == Some(p) && Piece(" " + PairText(p), decode) == Some(p)
  {
    hide Trim, Trimmed, Piece, KeepsPlain;
    TrimmedStays(p.0);
    TrimmedStays(p.1);
    PieceAt(p.0, p.1, p.0, decode);
    PieceAt(" " + p.0, p.1, p.0, decode);
    assert " " + PairText(p) == (" " + p.0) + "=" + p.1;
  }

  /** Joined with `; `, the pieces after the first keep a leading space. */
  function Spaced(texts: seq<string>): seq<string> {
    if texts == [] then [] else [" " + texts[0]] + Spaced(texts[1..])
  }

  lemma {:induction false} SplitJoined(texts: seq<string>)
    requires texts != [] && forall i :: 0 <= i < |texts| ==> ';' !in texts[i]
    ensures Split(Join(texts, "; "), ';') == [texts[0]] + Spaced(texts[1..])
  {
    if |texts| == 1 {
      SplitWhole(texts[0], ';');
      assert Spaced(texts[1..]) == [];
    } else {
      var rest := Join(texts[1..], "; ");
      assert Join(texts, "; ") == texts[0] + [';'] + (" " + rest);
      SplitPiece(texts[0], ';', " " + rest);
      SplitJoined(texts[1..]);
      SplitLeadingSpace(rest);
      var pieces := Split(rest, ';');
      assert pieces == [texts[1]] + Spaced(texts[2..]);
      assert texts[1..][1..] == texts[2..];
      assert Spaced(texts[1..]) == [" " + texts[1]] + Spaced(texts[2..]);
    }
  }

  lemma SplitLeadingSpace(s: string)
    ensures Split(" " + s, ';') == [" " + Split(s, ';')[0]] + Split(s, ';')[1..]
  {
    assert (" " + s)[1..] == s && (" " + s)[0] == ' ';
  }

  lemma {:induction false} AddAllPairs(out: map<string, string>, ps: seq<(string, string)>, decode: Decoder)
    requires KeepsPlain(decode) && forall i :: 0 <= i < |ps| ==> WellFormed(ps[i])
    ensures AddAll(out, Spaced(PairTexts(ps)), decode) == LastWins(out, ps)
    decreases |ps|
  {
    if ps != [] {
      PieceOfPair(ps[0], decode);
      hide Piece, PairText, KeepsPlain;
      assert PairTexts(ps)[1..] == PairTexts(ps[1..]);
      assert Spaced(PairTexts(ps))[1..] == Spaced(PairTexts(ps[1..]));
      AddAllPairs(out[ps[0].0 := ps[0].1], ps[1..], decode);
    }
  }

  lemma {:induction false} PairTextsClean(ps: seq<(string, string)>)
    requires forall i :: 0 <= i < |ps| ==> WellFormed(ps[i])
    ensures |PairTexts(ps)| == |ps|
    ensures forall i :: 0 <= i < |ps| ==> ';' !in PairTexts(ps)[i]
  {
    if ps != [] { PairTextsClean(ps[1..]); }
  }

  /** Round trip: well-formed pairs joined with `; ` parse to the map where the last value of a name wins. */
  lemma ParseJoined(ps: seq<(string, string)>, decode: Decoder)
    requires KeepsPlain(decode) && forall i :: 0 <= i < |ps| ==> WellFormed(ps[i])
    ensures Cookies(Join(PairTexts(ps), "; "), decode) == LastWins(map[], ps)
  {
    if ps == [] {
      NoCookies(decode);
    } else {
      hide Piece, Split, KeepsPlain;
      PairTextsClean(ps);
      SplitJoined(PairTexts(ps));
      PieceOfPair(ps[0], decode);
      var texts := PairTexts(ps);
      assert texts[1..] == PairTexts(ps[1..]);
      assert ([texts[0]] + Spaced(texts[1..]))[1..] == Spaced(texts[1..]);
      AddAllPairs(map[][ps[0].0 := ps[0].1], ps[1..], decode);
    }
  }

  lemma NoCookies(decode: Decoder)
    ensures Cookies("", decode) == map[]
  {
    assert Split("", ';') == [""];
    assert Piece("", decode) == None;
    assert AddAll(map[], [""], decode) == AddAll(map[], [""][1..], decode);
  }

  // ---------------------------------------------------------------- the guest key

  predicate KeyChar(c: char) { 'A' <= c <= 'Z' || 'a' <= c <= 'z' || IsDigit(c) || c == '_' || c == '-' }

  predicate IsKey(s: string) { 16 <= |s| <= 64 && forall i :: 0 <= i < |s| ==> KeyChar(s[i]) }

  /** The two spellings of the guest header and the Cookie header; empty when absent. */
  datatype Headers = Headers(guestKey: string, guestKeyTitle: string, cookie: string)

  function GuestKeyOf(h: Headers, decode: Decoder): Option<string> {
    var header := if h.guestKey != "" then h.guestKey else h.guestKeyTitle;
    if header != "" && IsKey(header) then Some(header)
    else
      match Lookup(Cookies(h.cookie, decode), GUEST_COOKIE)
      case None => None
      case Some(c) => if IsKey(c) then Some(c) else None
  }

  method ParseGuestKey(h: Headers, decode: Decoder) returns (key: Option<string>)
    ensures key == GuestKeyOf(h, decode)
    ensures key.Some? ==> IsKey(key.value)
  {
    var header := if h.guestKey != "" then h.guestKey else h.guestKeyTitle;
    if header != "" && IsKey(header) { return Some(header); }
    var cookies := ParseCookieHeader(h.cookie, decode);
    if GUEST_COOKIE in cookies && IsKey(cookies[GUEST_COOKIE]) { return Some(cookies[GUEST_COOKIE]); }
    return None;
  }

  /** 16 to 64 characters out of letters, digits, `_` and `-`. */
  predicate WellFormedKey(s: string) {
    && 16 <= |s| && |s| <= 64
    && forall c :: c in s ==> ('A' <= c && c <= 'Z') || ('a' <= c && c <= 'z') || ('0' <= c && c <= '9') || c in "_-"
  }

  /**
   Which key a request carries: the guest header if it is well-formed, the lower-case spelling
   before the other; with no such header, whatever the cookie of that name carries, if well-formed.
   */
  lemma GuestKeyIs(h: Headers, decode: Decoder)
    ensures WellFormedKey(h.guestKey) ==> GuestKeyOf(h, decode) == Some(h.guestKey)
    ensures h.guestKey == "" && WellFormedKey(h.guestKeyTitle) ==> GuestKeyOf(h, decode) == Some(h.guestKeyTitle)
    ensures !WellFormedKey(h.guestKey) && (h.guestKey != "" || !WellFormedKey(h.guestKeyTitle)) ==>
              GuestKeyOf(h, decode)
              == match Lookup(Cookies(h.cookie, decode), "fm_guest")
                 case None => None
                 case Some(v) => if WellFormedKey(v) then Some(v) else None
  {
    hide Cookies;
    forall s: string ensures IsKey(s) <==> WellFormedKey(s) { KeyIs(s); }
    hide IsKey, WellFormedKey;
    NoEmptyKey();
  }

  lemma NoEmptyKey()
    ensures !WellFormedKey("")
  {
  }

  lemma KeyIs(s: string)
    ensures IsKey(s) <==> WellFormedKey(s)
  {
    if WellFormedKey(s) {
      forall i | 0 <= i < |s| ensures KeyChar(s[i]) { assert s[i] in s; }
    }
  }

  /** The piece does not name the guest cookie, whatever else it is. */
  predicate NotGuest(part: string, decode: Decoder) {
    var p := Piece(part, decode);
    p.None? || p.value.0 != GUEST_COOKIE
  }

  lemma {:induction false} OthersKeep(was: Option<string>, parts: seq<string>, decode: Decoder)
    requires forall i :: 0 <= i < |parts| ==> NotGuest(parts[i], decode)
    ensures LastValue(was, parts, GUEST_COOKIE, decode) == was
    decreases |parts|
  {
    if parts != [] {
      assert NotGuest(parts[0], decode);
      hide Piece;
      assert forall i :: 0 <= i < |parts[1..]| ==> parts[1..][i] == parts[i + 1];
      OthersKeep(was, parts[1..], decode);
    }
  }

  lemma {:induction false} LastValueConcat(was: Option<string>, a: seq<string>, b: seq<string>,
                                           name: string, decode: Decoder)
    ensures LastValue(was, a + b, name, decode) == LastValue(LastValue(was, a, name, decode), b, name, decode)
    decreases |a|
  {
    hide Piece;
    if a == [] {
      assert a + b == b;
    } else {
      assert (a + b)[1..] == a[1..] + b;
      var p := Piece(a[0], decode);
      LastValueConcat(if p.Some? && p.value.0 == name then Some(p.value.1) else was, a[1..], b, name, decode);
    }
  }

  lemma KeyIsPlain(key: string)
    requires IsKey(key)
    ensures WellFormed((GUEST_COOKIE, key))
  {
    assert KeyChar(key[0]) && KeyChar(key[|key| - 1]);
    assert forall c: char :: KeyChar(c) ==> !IsSpace(c) && c != ';' && c != '%';
  }

  lemma FoundIn(before: seq<string>, mine: string, key: string, after: seq<string>, header: string, decode: Decoder)
    requires IsKey(key) && Piece(mine, decode) == Some((GUEST_COOKIE, key))
    requires forall i :: 0 <= i < |before| ==> NotGuest(before[i], decode)
    requires forall i :: 0 <= i < |after| ==> NotGuest(after[i], decode)
    requires Split(header, ';') == before + [mine] + after
    ensures GuestKeyOf(Headers("", "", header), decode) == Some(key)
  {
    hide Piece, NotGuest, IsKey, Split;
    var parts := before + [mine] + after;
    LookupIsLast(map[], parts, GUEST_COOKIE, decode);
    LastValueConcat(None, before + [mine], after, GUEST_COOKIE, decode);
    LastValueConcat(None, before, [mine], GUEST_COOKIE, decode);
    OthersKeep(None, before, decode);
    assert [mine][1..] == [];
    assert LastValue(None, [mine], GUEST_COOKIE, decode) == Some(key);
    OthersKeep(Some(key), after, decode);
  }

  // ---------------------------------------------------------------- the cookie that is set

  function Attributes(clear: bool, isProd: bool): seq<string> {
    ["Path=/", "Max-Age=" + (if clear then "0" else PrintNat(30 * 24 * 60 * 60)), "HttpOnly", "SameSite=Lax"]
    + (if isProd then ["Secure"] else [])
  }

  function CookieParts(key: string, clear: bool, isProd: bool): string {
    Join([PairText((GUEST_COOKIE, if clear then "" else key))] + Attributes(clear, isProd), "; ")
  }

  /** What a client stores and sends back: the part before the first semicolon (RFC 6265, section 5.2). */
  function SentBack(setCookie: string): string { Split(setCookie, ';')[0] }

  /** A client splitting the cookie at its semicolons finds the pair and then every attribute, once. */
  lemma CookieSplits(key: string, clear: bool, isProd: bool)
    requires ';' !in key
    ensures Split(CookieParts(key, clear, isProd), ';')
            == [PairText((GUEST_COOKIE, if clear then "" else key))] + Spaced(Attributes(clear, isProd))
  {
    hide PrintNat, Split, Join;
    var pair := PairText((GUEST_COOKIE, if clear then "" else key));
    var texts := [pair] + Attributes(clear, isProd);
    forall i | 0 <= i < |texts| ensures ';' !in texts[i] {
    }
    SplitJoined(texts);
    assert texts[1..] == Attributes(clear, isProd);
  }

  /**
   A guest key that was set is found again in whatever Cookie header the client sends it back
   in: first or after `; `, among arbitrary other pieces, well-formed or not. The clearing
   cookie leaves no key.
   */
  lemma CookieRoundTrip(key: string, clear: bool, isProd: bool, before: seq<string>, mine: string,
                        after: seq<string>, header: string, decode: Decoder)
    requires IsKey(key) && KeepsPlain(decode)
    requires forall i :: 0 <= i < |before| ==> NotGuest(before[i], decode)
    requires forall i :: 0 <= i < |after| ==> NotGuest(after[i], decode)
    requires var sent := SentBack(CookieParts(key, clear, isProd)); mine == sent || mine == " " + sent
    requires Split(header, ';') == before + [mine] + after
    ensures GuestKeyOf(Headers("", "", header), decode) == if clear then None else Some(key)
  {
    hide Piece, NotGuest, Split, CookieParts;
    KeyIsPlain(key);
    CookieSplits(key, clear, isProd);
    assert SentBack(CookieParts(key, clear, isProd)) == PairText((GUEST_COOKIE, if clear then "" else key));
    if clear {
      PieceOfPair((GUEST_COOKIE, ""), decode);
      ClearedIn(before, mine, after, header, decode);
    } else {
      PieceOfPair((GUEST_COOKIE, key), decode);
      FoundIn(before, mine, key, after, header, decode);
    }
  }

  lemma ClearedIn(before: seq<string>, mine: string, after: seq<string>, header: string, decode: Decoder)
    requires Piece(mine, decode) == Some((GUEST_COOKIE, ""))
    requires forall i :: 0 <= i < |before| ==> NotGuest(before[i], decode)
    requires forall i :: 0 <= i < |after| ==> NotGuest(after[i], decode)
    requires Split(header, ';') == before + [mine] + after
    ensures GuestKeyOf(Headers("", "", header), decode) == None
  {
    hide Piece, NotGuest, Split;
    LookupIsLast(map[], before + [mine] + after, GUEST_COOKIE, decode);
    LastValueConcat(None, before + [mine], after, GUEST_COOKIE, decode);
    LastValueConcat(None, before, [mine], GUEST_COOKIE, decode);
    OthersKeep(None, before, decode);
    assert [mine][1..] == [];
    assert LastValue(None, [mine], GUEST_COOKIE, decode) == Some("");
    OthersKeep(Some(""), after, decode);
  }

  // ---------------------------------------------------------------- requests

  /** One request and the response it is building. */
  class Exchange {
    const headers: Headers
    const authenticated: bool
    const isProd: bool
    var guestKey: Option<string>
    var setCookies: seq<string>

    constructor (headers: Headers, authenticated: bool, isProd: bool)
      ensures this.headers == headers && this.authenticated == authenticated && this.isProd == isProd
      ensures guestKey == None && setCookies == []
    {
      this.headers := headers;
      this.authenticated := authenticated;
      this.isProd := isProd;
      guestKey := None;
      setCookies := [];
    }

    /** The `guestCart` middleware: attaches, never mints. */
    method Attach(decode: Decoder)
      modifies this
      ensures guestKey == GuestKeyOf(headers, decode) && setCookies == old(setCookies)
    {
      guestKey := ParseGuestKey(headers, decode);
    }

    /** `ensureGuestKey`, given the key that would be minted. */
    method EnsureGuestKey(minted: string) returns (key: Option<string>)
      modifies this
      ensures authenticated ==> key == None && guestKey == old(guestKey) && setCookies == old(setCookies)
      ensures !authenticated && old(guestKey).Some? ==>
                key == old(guestKey) && guestKey == old(guestKey) && setCookies == old(setCookies)
      ensures !authenticated && old(guestKey).None? ==>
                && key == guestKey == Some(minted)
                && setCookies == old(setCookies) + [CookieParts(minted, false, isProd)]
    {
      if authenticated { return None; }
      if guestKey.Some? { return guestKey; }
      guestKey := Some(minted);
      setCookies := setCookies + [CookieParts(minted, false, isProd)];
      return Some(minted);
    }
  }
}
