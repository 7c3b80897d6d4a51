/**
 The IPv4 allowlist (backend/src/middleware/ipAllowlist.js): dotted quads, the
 32-bit mask test under JavaScript's shift rules, and the configured list. `Number`
 and `parseInt` are parameters that read plain decimals.
 */
module IpAllowlist {
  import opened Wrappers
  import opened JsStrings

  /** `None` is `NaN`. */
  datatype Js = Js(number: string -> Option<real>, parseInt: string -> Option<int>)

  predicate ReadsAs(js: Js, text: string, n: nat) { js.number(text) == Some(n as real) && js.parseInt(text) == Some(n) }

  /** Plain decimals up to the largest safe integer are read as their value. */
  ghost predicate ReadsDecimals(js: Js) {
    forall s: string :: s != "" && AllDigits(s) && DigitsValue(s) < MAX_SAFE ==> ReadsAs(js, s, DigitsValue(s))
  }

  const MAX_SAFE: nat := 0x20_0000_0000_0000

  predicate Reads(js: Js, n: nat) { ReadsAs(js, PrintNat(n), n) }

  lemma ReadsPrinted(js: Js, n: nat)
    requires ReadsDecimals(js) && n < MAX_SAFE
    ensures Reads(js, n)
  {
    PrintNatValue(n);
    assert AllDigits(PrintNat(n));
  }

  // ---------------------------------------------------------------- 32-bit words

  const WORD: nat := 0x1_0000_0000

  function TwoTo(n: nat): (r: nat)
    ensures r > 0
  {
    if n == 0 then 1 else 2 * TwoTo(n - 1)
  }

  function BitAnd(a: nat, b: nat): nat {
    if a == 0 || b == 0 then 0 else 2 * BitAnd(a / 2, b / 2) + (a % 2) * (b % 2)
  }

  function BitOr(a: nat, b: nat): nat
    decreases a + b
  {
    if a == 0 then b else if b == 0 then a
    else 2 * BitOr(a / 2, b / 2) + (if a % 2 == 1 || b % 2 == 1 then 1 else 0)
  }

  /** `x << n` as a 32-bit pattern: the shift count counts modulo 32. */
  function ShiftLeft(x: nat, n: int): nat { (x * TwoTo(n % 32)) % WORD }

  lemma TwoToWord()
    ensures TwoTo(32) == WORD && TwoTo(24) == 0x1000000 && TwoTo(16) == 0x10000 && TwoTo(8) == 0x100
  {
    assert TwoTo(8) == 0x100;
    assert TwoTo(16) == 0x10000;
    assert TwoTo(24) == 0x1000000;
    assert TwoTo(32) == WORD;
  }

  lemma {:induction false} AllOnesKeeps(x: nat, n: nat)
    requires x < TwoTo(n)
    ensures BitAnd(x, TwoTo(n) - 1) == x
  {
    if x != 0 {
      AllOnesKeeps(x / 2, n - 1);
      assert (TwoTo(n) - 1) / 2 == TwoTo(n - 1) - 1;
    }
  }

  /** Masking with the high bits clears exactly the low ones. */
  lemma {:induction false} MaskClearsLow(x: nat, n: nat, k: nat)
    requires k <= n && x < TwoTo(n)
    ensures TwoTo(k) <= TwoTo(n)
    ensures BitAnd(x, TwoTo(n) - TwoTo(k)) == x / TwoTo(k) * TwoTo(k)
  {
    if k == 0 {
      AllOnesKeeps(x, n);
    } else {
      MaskClearsLow(x / 2, n - 1, k - 1);
      var (m, size) := (TwoTo(n - 1) - TwoTo(k - 1), TwoTo(k - 1));
      assert TwoTo(n) - TwoTo(k) == 2 * m && TwoTo(k) == 2 * size;
      hide TwoTo;
      HalvesThenDivides(x, size);
      TwiceTimes(x / 2 / size, size);
      AndDouble(x, m);
    }
  }

  lemma AndDouble(x: nat, m: nat)
    ensures BitAnd(x, 2 * m) == 2 * BitAnd(x / 2, m)
  {
    if x != 0 && m != 0 { assert 2 * m / 2 == m && 2 * m % 2 == 0; }
  }

  lemma TwiceTimes(q: nat, size: nat)
    ensures q * (2 * size) == 2 * (q * size)
  {
  }

  lemma DivMod(x: nat, d: nat)
    requires d > 0
    ensures x == x / d * d + x % d && x % d < d
  {
  }

  lemma HalvesThenDivides(x: nat, size: nat)
    requires size > 0
    ensures x / 2 / size == x / (2 * size)
  {
    var h := x / 2;
    var (q, r) := (h / size, h % size);
    DivMod(x, 2);
    DivMod(h, size);
    TwiceTimes(q, size);
    DivisionIsUnique(x, 2 * size, q, 2 * r + x % 2);
  }

  lemma MultipleIsLarge(e: int, d: nat)
    ensures e > 0 ==> e * d >= d
    ensures e < 0 ==> e * d + d <= 0
  {
    if e > 0 {
      assert (e - 1) * d >= 0;
    } else if e < 0 {
      assert (-e - 1) * d >= 0;
    }
  }

  lemma DivisionIsUnique(x: nat, d: nat, q: nat, r: nat)
    requires d > 0 && x == q * d + r && r < d
    ensures x / d == q && x % d == r
  {
    var e := x / d - q;
    assert x == x / d * d + x % d;
    assert e * d == r - x % d;
    MultipleIsLarge(e, d);
  }

  lemma SameMultiple(x: nat, y: nat, d: nat)
    requires d > 0 && x * d == y * d
    ensures x == y
  {
    MultipleIsLarge(x - y, d);
    assert (x - y) * d == 0;
  }

  /** Joining a shifted number with one that fits below it adds them. */
  lemma {:induction false} OrAdds(a: nat, b: nat, k: nat)
    requires b < TwoTo(k)
    ensures BitOr(a * TwoTo(k), b) == a * TwoTo(k) + b
    decreases k
  {
    if k > 0 && a > 0 && b > 0 {
      var size := TwoTo(k - 1);
      assert a * TwoTo(k) == 2 * (a * size);
      assert a * size > 0;
      OrAdds(a, b / 2, k - 1);
    }
  }

  // ---------------------------------------------------------------- addresses

  predicate IsByte(x: Option<real>) { x.Some? && 0.0 <= x.value <= 255.0 }

  function ByteOf(x: Option<real>): nat
    requires IsByte(x)
  {
    x.value.Floor
  }

  function Pack(a: Option<real>, b: Option<real>, c: Option<real>, d: Option<real>): Option<nat> {
    if !IsByte(a) || !IsByte(b) || !IsByte(c) || !IsByte(d) then None
    else Some(BitOr(BitOr(BitOr(ShiftLeft(ByteOf(a), 24), ShiftLeft(ByteOf(b), 16)),
                          ShiftLeft(ByteOf(c), 8)), ByteOf(d)))
  }

  function Ipv4ToNum(ip: string, js: Js): Option<nat> {
    var parts := Split(ip, '.');
    if |parts| != 4 then None
    else Pack(js.number(parts[0]), js.number(parts[1]), js.number(parts[2]), js.number(parts[3]))
  }

  function QuadValue(a: nat, b: nat, c: nat, d: nat): nat { a * 0x1000000 + b * 0x10000 + c * 0x100 + d }

  function Dotted(v: nat): string
    requires v < WORD
  {
    Join([PrintNat(v / 0x1000000), PrintNat(v / 0x10000 % 0x100),
          PrintNat(v / 0x100 % 0x100), PrintNat(v % 0x100)], ".")
  }

  lemma ShiftBytes(a: nat)
    requires a < 256
    ensures ShiftLeft(a, 24) == a * 0x1000000
    ensures ShiftLeft(a, 16) == a * 0x10000
    ensures ShiftLeft(a, 8) == a * 0x100
  {
    TwoToWord();
    hide TwoTo;
  }

  lemma PackBytes(a: nat, b: nat, c: nat, d: nat)
    requires a < 256 && b < 256 && c < 256 && d < 256
    ensures BitOr(BitOr(BitOr(ShiftLeft(a, 24), ShiftLeft(b, 16)), ShiftLeft(c, 8)), d)
            == QuadValue(a, b, c, d)
  {
    hide BitOr, ShiftLeft, TwoTo;
    TwoToWord();
    ShiftBytes(a);
    ShiftBytes(b);
    ShiftBytes(c);
    OrAdds(a, b * 0x10000, 24);
    OrAdds(a * 0x100 + b, c * 0x100, 16);
    OrAdds(a * 0x10000 + b * 0x100 + c, d, 8);
  }

  lemma ReadsByte(n: nat, js: Js)
    requires n < 256 && Reads(js, n)
    ensures IsByte(js.number(PrintNat(n))) && ByteOf(js.number(PrintNat(n))) == n
  {
  }

  lemma PacksBytes(a: Option<real>, b: Option<real>, c: Option<real>, d: Option<real>)
    requires IsByte(a) && IsByte(b) && IsByte(c) && IsByte(d)
    requires ByteOf(a) < 256 && ByteOf(b) < 256 && ByteOf(c) < 256 && ByteOf(d) < 256
    ensures Pack(a, b, c, d)
            == Some(QuadValue(ByteOf(a), ByteOf(b), ByteOf(c), ByteOf(d)))
  {
    hide IsByte, ByteOf;
    PackBytes(ByteOf(a), ByteOf(b), ByteOf(c), ByteOf(d));
  }

  lemma SplitsToNum(ip: string, a: string, b: string, c: string, d: string, js: Js)
    requires Split(ip, '.') == [a, b, c, d]
    ensures Ipv4ToNum(ip, js) == Pack(js.number(a), js.number(b), js.number(c), js.number(d))
  {
    hide Split, Pack;
  }

  lemma QuadToNum(ip: string, a: nat, b: nat, c: nat, d: nat, js: Js)
    requires a < 256 && b < 256 && c < 256 && d < 256
    requires Reads(js, a) && Reads(js, b) && Reads(js, c) && Reads(js, d)
    requires Split(ip, '.') == [PrintNat(a), PrintNat(b), PrintNat(c), PrintNat(d)]
    ensures Ipv4ToNum(ip, js) == Some(QuadValue(a, b, c, d))
  {
    hide QuadValue, Pack, PrintNat, Split, IsByte, ByteOf, Reads, Ipv4ToNum;
    SplitsToNum(ip, PrintNat(a), PrintNat(b), PrintNat(c), PrintNat(d), js);
    ReadsByte(a, js);
    ReadsByte(b, js);
    ReadsByte(c, js);
    ReadsByte(d, js);
    PacksBytes(js.number(PrintNat(a)), js.number(PrintNat(b)), js.number(PrintNat(c)), js.number(PrintNat(d)));
  }

  lemma WordBytes(v: nat)
    requires v < WORD
    ensures v / 0x1000000 < 0x100
    ensures v == QuadValue(v / 0x1000000, v / 0x10000 % 0x100, v / 0x100 % 0x100, v % 0x100)
  {
    assert v / 0x100 / 0x100 == v / 0x10000;
    assert v / 0x10000 / 0x100 == v / 0x1000000;
  }

  /** A printed dotted quad is read back as its 32-bit value. */
  lemma DottedReadsBack(v: nat, js: Js)
    requires v < WORD && ReadsDecimals(js)
    ensures Ipv4ToNum(Dotted(v), js) == Some(v)
    ensures '/' !in Dotted(v)
  {
    hide QuadValue, PrintNat, Reads, Ipv4ToNum, Split, Join;
    var (a, b, c, d) := (v / 0x1000000, v / 0x10000 % 0x100, v / 0x100 % 0x100, v % 0x100);
    WordBytes(v);
    var parts := [PrintNat(a), PrintNat(b), PrintNat(c), PrintNat(d)];
    assert Dotted(v) == Join(parts, ['.']);
    ReadsPrinted(js, a);
    ReadsPrinted(js, b);
    ReadsPrinted(js, c);
    ReadsPrinted(js, d);
    SplitJoin(parts, '.');
    QuadToNum(Dotted(v), a, b, c, d, js);
    JoinAvoids(parts, ".", '/');
  }

  lemma {:induction false} JoinAvoids(parts: seq<string>, sep: string, c: char)
    requires c !in sep && forall i :: 0 <= i < |parts| ==> c !in parts[i]
    ensures c !in Join(parts, sep)
  {
    if |parts| > 1 { JoinAvoids(parts[1..], sep, c); }
  }

  // ---------------------------------------------------------------- the mask test

  predicate IpInCidr(ip: string, cidr: string, js: Js) {
    var parts := Split(cidr, '/');
    var target := parts[0];
    var prefix := if |parts| > 1 then js.parseInt(parts[1]) else Some(32);
    || ip == target
    || prefix == Some(0)
    || (var a := Ipv4ToNum(ip, js);
        var b := Ipv4ToNum(target, js);
        && a.Some? && b.Some?
        && var mask := ShiftLeft(WORD - 1, if prefix.Some? then 32 - prefix.value else 0);
        BitAnd(a.value, mask) == BitAnd(b.value, mask))
  }

  /** How many low bits a prefix of that value leaves free, after the shift count wraps. */
  function FreeBits(prefix: int): nat { (32 - prefix) % 32 }

  lemma MaskIsHighBits(k: nat)
    requires k < 32
    ensures ShiftLeft(WORD - 1, k) == WORD - TwoTo(k)
  {
    hide TwoTo;
    TwoToWord();
    TwoToGrows(k, 32);
    assert k % 32 == k;
    AllOnesTimes(TwoTo(k));
  }

  lemma AllOnesTimes(size: nat)
    requires 0 < size <= WORD
    ensures (WORD - 1) * size % WORD == WORD - size
  {
    DivisionIsUnique((WORD - 1) * size, WORD, size - 1, WORD - size);
  }

  lemma {:induction false} TwoToGrows(k: nat, n: nat)
    requires k <= n
    ensures TwoTo(k) <= TwoTo(n)
    decreases n - k
  {
    if k < n { TwoToGrows(k + 1, n); }
  }

  /** Two words agree under the mask exactly when they lie in the same block of 2^k. */
  lemma SameUnderMask(a: nat, b: nat, k: nat)
    requires a < WORD && b < WORD && k < 32
    ensures BitAnd(a, ShiftLeft(WORD - 1, k)) == BitAnd(b, ShiftLeft(WORD - 1, k))
            <==> a / TwoTo(k) == b / TwoTo(k)
  {
    hide BitAnd, ShiftLeft, TwoTo;
    TwoToWord();
    MaskIsHighBits(k);
    MaskClearsLow(a, 32, k);
    MaskClearsLow(b, 32, k);
    var size := TwoTo(k);
    if a / size * size == b / size * size { SameMultiple(a / size, b / size, size); }
  }

  lemma ByteFits(x: Option<real>)
    requires IsByte(x)
    ensures ByteOf(x) < 256
  {
  }

  lemma QuadValueFits(a: nat, b: nat, c: nat, d: nat)
    requires a < 256 && b < 256 && c < 256 && d < 256
    ensures QuadValue(a, b, c, d) < WORD
  {
  }

  /** Whatever text parses as an address has a 32-bit value. */
  lemma ParsedFits(ip: string, js: Js)
    requires Ipv4ToNum(ip, js).Some?
    ensures Ipv4ToNum(ip, js).value < WORD
  {
    hide IsByte, ByteOf, BitOr, ShiftLeft, Split, QuadValue;
    var parts := Split(ip, '.');
    var (a, b, c, d) := (js.number(parts[0]), js.number(parts[1]), js.number(parts[2]), js.number(parts[3]));
    ByteFits(a);
    ByteFits(b);
    ByteFits(c);
    ByteFits(d);
    PacksBytes(a, b, c, d);
    QuadValueFits(ByteOf(a), ByteOf(b), ByteOf(c), ByteOf(d));
  }

  /**
   For every pair of texts: equal address text, a zero prefix, or two parsed addresses in one
   block, whose size follows from the prefix by 32-bit shift rules.
   */
  lemma MembershipIff(ip: string, cidr: string, js: Js)
    ensures var parts := Split(cidr, '/');
            var prefix := if |parts| > 1 then js.parseInt(parts[1]) else Some(32);
            var (a, b) := (Ipv4ToNum(ip, js), Ipv4ToNum(parts[0], js));
            IpInCidr(ip, cidr, js)
            <==> || ip == parts[0] || prefix == Some(0)
                 || (a.Some? && b.Some?
                     && SameBlock(a.value, b.value, if prefix.Some? then FreeBits(prefix.value) else 0))
  {
    hide Ipv4ToNum, BitAnd, ShiftLeft, Split, TwoTo;
    var parts := Split(cidr, '/');
    var prefix := if |parts| > 1 then js.parseInt(parts[1]) else Some(32);
    var (a, b) := (Ipv4ToNum(ip, js), Ipv4ToNum(parts[0], js));
    if a.Some? && b.Some? {
      ParsedFits(ip, js);
      ParsedFits(parts[0], js);
      SameUnderMask(a.value, b.value, if prefix.Some? then FreeBits(prefix.value) else 0);
      ShiftWraps(if prefix.Some? then 32 - prefix.value else 0);
    }
  }

  /** With any numeric prefix at all: block membership, with the number of free bits wrapped at 32. */
  lemma CidrWithAnyPrefix(v: nat, b: nat, text: string, prefix: int, js: Js)
    requires v < WORD && b < WORD && ReadsDecimals(js)
    requires '/' !in text && js.parseInt(text) == Some(prefix)
    ensures IpInCidr(Dotted(v), Dotted(b) + "/" + text, js)
            <==> prefix == 0 || v / TwoTo(FreeBits(prefix)) == b / TwoTo(FreeBits(prefix))
  {
    hide Dotted, Ipv4ToNum, BitAnd, ShiftLeft, Split, TwoTo;
    DottedReadsBack(v, js);
    DottedReadsBack(b, js);
    SplitPiece(Dotted(b), '/', text);
    SplitWhole(text, '/');
    SameUnderMask(v, b, FreeBits(prefix));
    ShiftWraps(32 - prefix);
  }

  /** A prefix that is not a number leaves an exact match. */
  lemma UnreadablePrefixIsExact(v: nat, b: nat, text: string, js: Js)
    requires v < WORD && b < WORD && ReadsDecimals(js)
    requires '/' !in text && js.parseInt(text) == None
    ensures IpInCidr(Dotted(v), Dotted(b) + "/" + text, js) <==> v == b
  {
    hide Dotted, Ipv4ToNum, BitAnd, ShiftLeft, Split, TwoTo;
    DottedReadsBack(v, js);
    DottedReadsBack(b, js);
    SplitPiece(Dotted(b), '/', text);
    SplitWhole(text, '/');
    SameUnderMask(v, b, 0);
    assert TwoTo(0) == 1 by { NoFreeBits(); }
  }

  lemma NoFreeBits()
    ensures TwoTo(0) == 1
  {
  }

  lemma ShiftWraps(n: int)
    ensures ShiftLeft(WORD - 1, n) == ShiftLeft(WORD - 1, n % 32)
  {
  }

  // ---------------------------------------------------------------- blocks

  predicate SameBlock(v: nat, b: nat, k: nat) { v / TwoTo(k) == b / TwoTo(k) }

  /** The words that share all but their `k` low bits with `b`. */
  ghost function Aligned(b: nat, k: nat): set<nat> { set v: nat | v < WORD && SameBlock(v, b, k) }

  ghost function Block(b: nat, prefix: nat): set<nat>
    requires prefix <= 32
  {
    Aligned(b, 32 - prefix)
  }

  /** For prefixes 0 to 32 the mask test is membership in the block of RFC 4632, section 3.1. */
  lemma CidrIsBlock(v: nat, b: nat, prefix: nat, js: Js)
    requires v < WORD && b < WORD && prefix <= 32 && ReadsDecimals(js)
    ensures IpInCidr(Dotted(v), Dotted(b) + "/" + PrintNat(prefix), js) <==> v in Block(b, prefix)
  {
    hide IpInCidr, Dotted, TwoTo, PrintNat;
    assert '/' !in PrintNat(prefix);
    ReadsPrinted(js, prefix);
    CidrWithAnyPrefix(v, b, PrintNat(prefix), prefix, js);
    if prefix == 0 {
      TwoToWord();
    } else {
      assert FreeBits(prefix) == 32 - prefix;
    }
  }

  /** Without a mask only the address itself matches. */
  lemma BareAddressIsExact(v: nat, b: nat, js: Js)
    requires v < WORD && b < WORD && ReadsDecimals(js)
    ensures IpInCidr(Dotted(v), Dotted(b), js) <==> v == b
  {
    DottedReadsBack(v, js);
    DottedReadsBack(b, js);
    SplitWhole(Dotted(b), '/');
    SameUnderMask(v, b, 0);
    NoFreeBits();
    hide Dotted, Ipv4ToNum, BitAnd, ShiftLeft, Split, TwoTo;
  }

  predicate Within(v: nat, lo: nat, n: nat) { lo <= v < lo + n }

  ghost function Interval(lo: nat, n: nat): set<nat> { set v: nat | v < lo + n && Within(v, lo, n) }

  lemma {:induction false} IntervalSize(lo: nat, n: nat)
    ensures |Interval(lo, n)| == n
  {
    if n == 0 {
      assert Interval(lo, 0) == {};
    } else {
      assert Interval(lo, n) == Interval(lo, n - 1) + {lo + n - 1};
      IntervalSize(lo, n - 1);
    }
  }

  /** The first word of the block of `size` words around `b`. */
  function Start(b: nat, size: nat): nat
    requires size > 0
  {
    b / size * size
  }

  /** A block is an aligned interval of 2^(32-p) addresses. */
  lemma BlockSize(b: nat, prefix: nat)
    requires b < WORD && prefix <= 32
    ensures Block(b, prefix) == Interval(Start(b, TwoTo(32 - prefix)), TwoTo(32 - prefix))
    ensures |Block(b, prefix)| == TwoTo(32 - prefix)
  {
    hide TwoTo, Start, SameBlock;
    var k := 32 - prefix;
    var lo := Start(b, TwoTo(k));
    TwoToWord();
    TwoToSplits(k, prefix);
    assert TwoTo(k + prefix) == WORD;
    QuotientFits(b, TwoTo(k), TwoTo(prefix));
    forall v: nat ensures v in Aligned(b, k) <==> v in Interval(lo, TwoTo(k)) {
      SameQuotient(v, b, k);
    }
    assert Aligned(b, k) == Interval(lo, TwoTo(k));
    IntervalSize(lo, TwoTo(k));
  }

  lemma SameQuotient(v: nat, b: nat, k: nat)
    ensures SameBlock(v, b, k) <==> Within(v, Start(b, TwoTo(k)), TwoTo(k))
  {
    hide TwoTo;
    var (size, q) := (TwoTo(k), b / TwoTo(k));
    DivMod(v, size);
    if q * size <= v < q * size + size {
      DivisionIsUnique(v, size, q, v - q * size);
    }
  }

  lemma QuotientFits(b: nat, size: nat, count: nat)
    requires size > 0 && b < count * size
    ensures Start(b, size) + size <= count * size
  {
    var q := b / size;
    DivMod(b, size);
    MultipleIsLarge(count - q, size);
    assert (count - q) * size == count * size - q * size;
  }

  lemma {:induction false} TwoToSplits(a: nat, b: nat)
    ensures TwoTo(a + b) == TwoTo(b) * TwoTo(a)
  {
    if b > 0 {
      TwoToSplits(a, b - 1);
      assert TwoTo(a + b) == 2 * TwoTo(a + (b - 1));
    }
  }

  /** Two blocks are nested or disjoint. */
  lemma NestedOrDisjoint(a: nat, p: nat, b: nat, q: nat)
    requires a < WORD && b < WORD && p <= q <= 32
    ensures Block(b, q) <= Block(a, p) || Block(b, q) !! Block(a, p)
  {
    if v :| v in Block(b, q) && v in Block(a, p) {
      forall w | w in Block(b, q) ensures w in Block(a, p) {
        Coarser(v, w, 32 - q, q - p);
        Coarser(b, w, 32 - q, q - p);
      }
    }
  }

  /** Numbers in the same fine block are in the same coarse one. */
  lemma {:induction false} Coarser(v: nat, w: nat, k: nat, more: nat)
    requires v / TwoTo(k) == w / TwoTo(k)
    ensures v / TwoTo(k + more) == w / TwoTo(k + more)
    decreases more
  {
    if more > 0 {
      DividesThenHalves(v, TwoTo(k));
      DividesThenHalves(w, TwoTo(k));
      Coarser(v, w, k + 1, more - 1);
    }
  }

  lemma DividesThenHalves(x: nat, size: nat)
    requires size > 0
    ensures x / size / 2 == x / (2 * size)
  {
    var (q, r) := (x / size, x % size);
    DivMod(x, size);
    DivMod(q, 2);
    TwiceTimes(q / 2, size);
    OddRemainder(q / 2, q % 2, size);
    DivisionIsUnique(x, 2 * size, q / 2, q % 2 * size + r);
  }

  lemma OddRemainder(h: nat, odd: nat, size: nat)
    requires odd < 2
    ensures (h * 2 + odd) * size == 2 * (h * size) + odd * size && odd * size <= size
  {
    if odd == 0 { assert odd * size == 0; } else { assert odd * size == size; }
  }

  // ---------------------------------------------------------------- the allowlist

  predicate IsAllowed(ip: string, allowlist: seq<string>, js: Js) {
    allowlist == [] || exists i :: 0 <= i < |allowlist| && IpInCidr(ip, allowlist[i], js)
  }

  /** `text.split(',').map(trim).filter(Boolean)`. */
  function ListOf(text: string): seq<string> { NonEmpty(Split(text, ',')) }

  function NonEmpty(parts: seq<string>): seq<string> {
    if parts == [] then []
    else (if Trim(parts[0]) != "" then [Trim(parts[0])] else []) + NonEmpty(parts[1..])
  }

  /** The middleware lets the request through. */
  predicate Admits(isDev: bool, setting: string, ip: string, js: Js) {
    isDev || IsAllowed(ip, ListOf(setting), js)
  }

  datatype Range = Range(base: nat, prefix: nat)

  predicate ValidRange(r: Range) { r.base < WORD && r.prefix <= 32 }

  function PrintRange(r: Range): string
    requires ValidRange(r)
  {
    Dotted(r.base) + "/" + PrintNat(r.prefix)
  }

  function PrintRanges(rs: seq<Range>): seq<string>
    requires forall i :: 0 <= i < |rs| ==> ValidRange(rs[i])
  {
    seq(|rs|, i requires 0 <= i < |rs| => PrintRange(rs[i]))
  }

  lemma {:induction false} NonEmptyKeeps(parts: seq<string>)
    requires forall i :: 0 <= i < |parts| ==> parts[i] != "" && Trimmed(parts[i])
    ensures NonEmpty(parts) == parts
  {
    if parts != [] {
      TrimmedStays(parts[0]);
      NonEmptyKeeps(parts[1..]);
      assert parts == [parts[0]] + parts[1..];
    }
  }

  lemma DigitIsNoSpace(c: char)
    requires IsDigit(c)
    ensures !IsSpace(c)
  {
  }

  lemma RangeText(r: Range)
    requires ValidRange(r)
    ensures PrintRange(r) != "" && Trimmed(PrintRange(r)) && ',' !in PrintRange(r)
  {
    var bytes := [PrintNat(r.base / 0x1000000), PrintNat(r.base / 0x10000 % 0x100),
                  PrintNat(r.base / 0x100 % 0x100), PrintNat(r.base % 0x100)];
    JoinAvoids(bytes, ".", ',');
    assert Dotted(r.base)[0] == bytes[0][0];
    var s := PrintRange(r);
    assert s[0] == Dotted(r.base)[0];
    assert s[|s| - 1] == PrintNat(r.prefix)[|PrintNat(r.prefix)| - 1];
    DigitIsNoSpace(s[0]);
    DigitIsNoSpace(s[|s| - 1]);
  }

  /**
   End to end: configured with a comma-separated list of ranges, the middleware lets an
   address through exactly when the list is empty or the address lies in one of their blocks.
   */
  lemma AdmitsExactlyTheBlocks(rs: seq<Range>, v: nat, js: Js)
    requires forall i :: 0 <= i < |rs| ==> ValidRange(rs[i])
    requires v < WORD && ReadsDecimals(js)
    ensures Admits(false, Join(PrintRanges(rs), ","), Dotted(v), js)
            <==> rs == [] || exists i :: 0 <= i < |rs| && v in Block(rs[i].base, rs[i].prefix)
  {
    if rs == [] {
      EmptySettingAdmitsAll(Dotted(v), js);
      return;
    }
    var texts := PrintRanges(rs);
    forall i | 0 <= i < |rs|
      ensures texts[i] != "" && Trimmed(texts[i]) && ',' !in texts[i]
      ensures IpInCidr(Dotted(v), texts[i], js) <==> v in Block(rs[i].base, rs[i].prefix)
    {
      RangeText(rs[i]);
      CidrIsBlock(v, rs[i].base, rs[i].prefix, js);
    }
    SplitJoin(texts, ',');
    NonEmptyKeeps(texts);
    hide IpInCidr, Block, PrintRange, Dotted, Split, Join;
    if IsAllowed(Dotted(v), texts, js) {
      var i :| 0 <= i < |texts| && IpInCidr(Dotted(v), texts[i], js);
      assert v in Block(rs[i].base, rs[i].prefix);
    }
    if i :| 0 <= i < |rs| && v in Block(rs[i].base, rs[i].prefix) {
      assert IpInCidr(Dotted(v), texts[i], js);
    }
  }

  /** An empty setting lets everyone through. */
  lemma EmptySettingAdmitsAll(ip: string, js: Js)
    ensures Admits(false, "", ip, js)
  {
    assert Split("", ',') == [""];
    assert Trim("") == "";
    var one: seq<string> := [""];
    assert one[1..] == [];
    assert ListOf("") == NonEmpty([""]) == NonEmpty([]);
  }
}
