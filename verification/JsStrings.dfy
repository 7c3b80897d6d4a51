/** The JavaScript string operations the modelled files use. */
module JsStrings {
  import opened Wrappers
  import Sorting

  // ---------------------------------------------------------------- split and join

  function Split(s: string, sep: char): (r: seq<string>)
    ensures |r| >= 1
    ensures forall i :: 0 <= i < |r| ==> sep !in r[i]
  {
    if s == [] then [[]]
    else
      var rest := Split(s[1..], sep);
      if s[0] == sep then [[]] + rest else [[s[0]] + rest[0]] + rest[1..]
  }

  function Join(parts: seq<string>, sep: string): string {
    if parts == [] then []
    else if |parts| == 1 then parts[0]
    else parts[0] + sep + Join(parts[1..], sep)
  }

  lemma {:induction false} SplitPiece(a: string, sep: char, b: string)
    requires sep !in a
    ensures Split(a + [sep] + b, sep) == [a] + Split(b, sep)
  {
    if a == [] {
      assert (a + [sep] + b)[1..] == b;
    } else {
      assert (a + [sep] + b)[1..] == a[1..] + [sep] + b;
      SplitPiece(a[1..], sep, b);
      assert [a[0]] + a[1..] == a;
    }
  }

  lemma {:induction false} SplitWhole(a: string, sep: char)
    requires sep !in a
    ensures Split(a, sep) == [a]
  {
    if a != [] {
      SplitWhole(a[1..], sep);
      assert [a[0]] + a[1..] == a;
    }
  }

  lemma {:induction false} SplitJoin(parts: seq<string>, sep: char)
    requires parts != []
    requires forall i :: 0 <= i < |parts| ==> sep !in parts[i]
    ensures Split(Join(parts, [sep]), sep) == parts
  {
    if |parts| == 1 {
      SplitWhole(parts[0], sep);
    } else {
      var rest := Join(parts[1..], [sep]);
      assert Join(parts, [sep]) == parts[0] + [sep] + rest;
      hide Split, Join;
      SplitJoin(parts[1..], sep);
      SplitPiece(parts[0], sep, rest);
      assert parts == [parts[0]] + parts[1..];
    }
  }

  // ---------------------------------------------------------------- replace

  /** `s.replace(/c/g, by)` for a single character `c`. */
  function ReplaceAll(s: string, c: char, into: string): string {
    if s == [] then [] else (if s[0] == c then into else [s[0]]) + ReplaceAll(s[1..], c, into)
  }

  lemma {:induction false} ReplaceAllConcat(a: string, b: string, c: char, into: string)
    ensures ReplaceAll(a + b, c, into) == ReplaceAll(a, c, into) + ReplaceAll(b, c, into)
  {
    if a == [] {
      assert a + b == b;
    } else {
      assert (a + b)[1..] == a[1..] + b;
      ReplaceAllConcat(a[1..], b, c, into);
    }
  }

  // ---------------------------------------------------------------- prefixes and searching

  predicate StartsWith(s: string, prefix: string) { prefix <= s }

  predicate EndsWith(s: string, suffix: string) {
    |suffix| <= |s| && s[|s| - |suffix|..] == suffix
  }

  predicate Contains(s: string, t: string) {
    t <= s || (s != [] && Contains(s[1..], t))
  }

  /** The text before the first `c`, if there is one. */
  function IndexOf(s: string, c: char): (r: Option<nat>)
    ensures r.None? ==> c !in s
    ensures r.Some? ==> r.value < |s| && s[r.value] == c && c !in s[..r.value]
  {
    if s == [] then None
    else if s[0] == c then Some(0)
    else
      match IndexOf(s[1..], c)
      case None => None
      case Some(i) =>
        assert s[..i + 1] == [s[0]] + s[1..][..i];
        Some(i + 1)
  }

  lemma {:induction false} IndexOfPiece(a: string, c: char, b: string)
    requires c !in a
    ensures IndexOf(a + [c] + b, c) == Some(|a|)
  {
    if a != [] {
      assert (a + [c] + b)[1..] == a[1..] + [c] + b;
      IndexOfPiece(a[1..], c, b);
    }
  }

  /** A text splits at the first separator in only one way. */
  lemma SplitAtFirst(x: string, c: char, p: string, y: string, q: string)
    requires c !in x && c !in y && x + [c] + p == y + [c] + q
    ensures x == y && p == q
  {
    IndexOfPiece(x, c, p);
    IndexOfPiece(y, c, q);
    var s := x + [c] + p;
    assert s[..|x|] == x && s[..|y|] == y && s[|x| + 1..] == p && s[|y| + 1..] == q;
  }

  // ---------------------------------------------------------------- trim

  /** White space and line terminators, as `trim` understands them. */
  predicate IsSpace(c: char) {
    || '\U{9}' <= c <= '\U{D}' || c == ' ' || c == '\U{A0}' || c == '\U{1680}' || '\U{2000}' <= c <= '\U{200A}'
    || c == '\U{2028}' || c == '\U{2029}' || c == '\U{202F}' || c == '\U{205F}' || c == '\U{3000}' || c == '\U{FEFF}'
  }

  function TrimStart(s: string): string {
    if s != [] && IsSpace(s[0]) then TrimStart(s[1..]) else s
  }

  function TrimEnd(s: string): string {
    if s != [] && IsSpace(s[|s| - 1]) then TrimEnd(s[..|s| - 1]) else s
  }

  function Trim(s: string): string { TrimEnd(TrimStart(s)) }

  predicate Trimmed(s: string) { s == [] || (!IsSpace(s[0]) && !IsSpace(s[|s| - 1])) }

  lemma TrimmedStays(s: string)
    requires Trimmed(s)
    ensures Trim(s) == s && Trim(" " + s) == s
  {
    assert (" " + s)[1..] == s;
  }

  // ---------------------------------------------------------------- order

  predicate LexLe(a: string, b: string) {
    a == [] || (b != [] && (a[0] < b[0] || (a[0] == b[0] && LexLe(a[1..], b[1..]))))
  }

  lemma {:induction false} LexTotal(a: string, b: string)
    ensures LexLe(a, b) || LexLe(b, a)
  {
    if a != [] && b != [] && a[0] == b[0] { LexTotal(a[1..], b[1..]); }
  }

  lemma {:induction false} LexTransitive(a: string, b: string, c: string)
    requires LexLe(a, b) && LexLe(b, c)
    ensures LexLe(a, c)
  {
    if a != [] && a[0] == b[0] == c[0] { LexTransitive(a[1..], b[1..], c[1..]); }
  }

  lemma {:induction false} LexAntisymmetric(a: string, b: string)
    requires LexLe(a, b) && LexLe(b, a)
    ensures a == b
  {
    if a != [] {
      LexAntisymmetric(a[1..], b[1..]);
      assert a == [a[0]] + a[1..] && b == [b[0]] + b[1..];
    }
  }

  lemma LexIsOrder()
    ensures Sorting.Preorder(LexLe)
    ensures forall a, b :: LexLe(a, b) && LexLe(b, a) ==> a == b
  {
    forall a, b ensures LexLe(a, b) || LexLe(b, a) { LexTotal(a, b); }
    forall a, b, c | LexLe(a, b) && LexLe(b, c) ensures LexLe(a, c) { LexTransitive(a, b, c); }
    forall a, b | LexLe(a, b) && LexLe(b, a) ensures a == b { LexAntisymmetric(a, b); }
  }

  function SortStrings(s: seq<string>): seq<string> { Sorting.Sort(s, LexLe) }

  /** Sorting duplicate-free lists with the same elements gives the same list. */
  lemma SortStringsCanonical(a: seq<string>, b: seq<string>)
    requires Sorting.NoDup(a) && Sorting.NoDup(b)
    requires forall x :: x in a <==> x in b
    ensures SortStrings(a) == SortStrings(b)
  {
    LexIsOrder();
    Sorting.SortSorted(a, LexLe);
    Sorting.SortSorted(b, LexLe);
    Sorting.SortMembers(a, LexLe);
    Sorting.SortMembers(b, LexLe);
    Sorting.NoDupByMultiset(a, SortStrings(a));
    Sorting.NoDupByMultiset(b, SortStrings(b));
    Sorting.SortedUnique(SortStrings(a), SortStrings(b), LexLe);
  }

  // ---------------------------------------------------------------- decimal numbers

  predicate IsDigit(c: char) { '0' <= c <= '9' }

  function DigitChar(d: nat): (c: char)
    requires d < 10
    ensures IsDigit(c) && c as int - '0' as int == d
  {
    '0' + d as char
  }

  function PrintNat(n: nat): (s: string)
    ensures s != [] && forall i :: 0 <= i < |s| ==> IsDigit(s[i])
  {
    if n < 10 then [DigitChar(n)] else PrintNat(n / 10) + [DigitChar(n % 10)]
  }

  predicate AllDigits(s: string) { forall i :: 0 <= i < |s| ==> IsDigit(s[i]) }

  function DigitsValue(s: string): nat
    requires AllDigits(s)
  {
    if s == [] then 0
    else 10 * DigitsValue(s[..|s| - 1]) + (s[|s| - 1] as int - '0' as int)
  }

  lemma {:induction false} PrintNatValue(n: nat)
    ensures DigitsValue(PrintNat(n)) == n
  {
    if n >= 10 {
      var p := PrintNat(n / 10);
      PrintNatValue(n / 10);
      assert PrintNat(n)[..|p|] == p;
    } else {
      assert [DigitChar(n)][..0] == [];
    }
  }
}
