/** `Array.prototype.sort`: a stable insertion sort under a total preorder. */
module Sorting {

  ghost predicate Preorder<T(!new)>(le: (T, T) -> bool) {
    && (forall a, b :: le(a, b) || le(b, a))
    && (forall a, b, c :: le(a, b) && le(b, c) ==> le(a, c))
  }

  ghost predicate Sorted<T>(s: seq<T>, le: (T, T) -> bool) {
    forall i, j :: 0 <= i < j < |s| ==> le(s[i], s[j])
  }

  function Insert<T>(x: T, s: seq<T>, le: (T, T) -> bool): (r: seq<T>)
    ensures |r| == |s| + 1
    ensures multiset(r) == multiset(s) + multiset{x}
  {
    if s == [] then [x]
    else if le(x, s[0]) then [x] + s
    else
      assert s == [s[0]] + s[1..];
      [s[0]] + Insert(x, s[1..], le)
  }

  function Sort<T>(s: seq<T>, le: (T, T) -> bool): (r: seq<T>)
    ensures |r| == |s|
    ensures multiset(r) == multiset(s)
  {
    if s == [] then []
    else
      assert s == [s[0]] + s[1..];
      Insert(s[0], Sort(s[1..], le), le)
  }

  lemma {:induction false} InsertSorted<T(!new)>(x: T, s: seq<T>, le: (T, T) -> bool)
    requires Preorder(le) && Sorted(s, le)
    ensures Sorted(Insert(x, s, le), le)
  {
    if s != [] && !le(x, s[0]) {
      var rest := Insert(x, s[1..], le);
      InsertSorted(x, s[1..], le);
      forall k | 0 <= k < |rest| ensures le(s[0], rest[k]) {
        assert rest[k] in multiset(rest);
        assert rest[k] in multiset(s[1..]) + multiset{x};
        if rest[k] != x {
          assert rest[k] in s[1..];
        }
      }
    }
  }

  lemma {:induction false} SortSorted<T(!new)>(s: seq<T>, le: (T, T) -> bool)
    requires Preorder(le)
    ensures Sorted(Sort(s, le), le)
  {
    if s != [] {
      SortSorted(s[1..], le);
      InsertSorted(s[0], Sort(s[1..], le), le);
    }
  }

  lemma SortMembers<T>(s: seq<T>, le: (T, T) -> bool)
    ensures forall x :: x in Sort(s, le) <==> x in s
  {
    forall x ensures x in Sort(s, le) <==> x in s {
      assert x in Sort(s, le) <==> x in multiset(Sort(s, le));
      assert x in s <==> x in multiset(s);
    }
  }

  ghost predicate NoDup<T>(s: seq<T>) {
    forall i, j :: 0 <= i < j < |s| ==> s[i] != s[j]
  }

  /** Under an antisymmetric order the sorted listing of a set is unique: it is a canonical form. */
  lemma {:induction false} SortedUnique<T(!new)>(a: seq<T>, b: seq<T>, le: (T, T) -> bool)
    requires forall x, y :: le(x, y) && le(y, x) ==> x == y
    requires Sorted(a, le) && Sorted(b, le) && NoDup(a) && NoDup(b)
    requires forall x :: x in a <==> x in b
    ensures a == b
  {
    if a == [] {
      EmptyIfNoMember(b);
    } else {
      assert a[0] in b && b[0] in a;
      assert a[0] == b[0];
      forall x ensures x in a[1..] <==> x in b[1..] {
        TailMember(a, x);
        TailMember(b, x);
      }
      SortedUnique(a[1..], b[1..], le);
    }
  }

  lemma EmptyIfNoMember<T(!new)>(s: seq<T>)
    ensures (forall x :: x !in s) ==> s == []
  {
    if s != [] { assert s[0] in s; }
  }

  lemma TailMember<T>(s: seq<T>, x: T)
    requires NoDup(s) && s != []
    ensures x in s[1..] <==> x in s && x != s[0]
  {
    assert s == [s[0]] + s[1..];
    assert forall k :: 0 <= k < |s[1..]| ==> s[1..][k] == s[k + 1] != s[0];
  }

  lemma NoDupByMultiset<T>(a: seq<T>, b: seq<T>)
    requires multiset(a) == multiset(b) && NoDup(a)
    ensures NoDup(b)
  {
    forall i, j | 0 <= i < j < |b| ensures b[i] != b[j] {
      if b[i] == b[j] {
        TwiceInMultiset(b, i, j);
        OnceInMultiset(a, b[i]);
      }
    }
  }

  lemma TwiceInMultiset<T>(s: seq<T>, i: nat, j: nat)
    requires i < j < |s| && s[i] == s[j]
    ensures multiset(s)[s[i]] >= 2
  {
    assert s == s[..j] + [s[j]] + s[j + 1..];
    assert s[i] in s[..j];
    assert multiset(s) == multiset(s[..j]) + multiset{s[j]} + multiset(s[j + 1..]);
  }

  lemma {:induction false} OnceInMultiset<T>(s: seq<T>, x: T)
    requires NoDup(s)
    ensures multiset(s)[x] <= 1
  {
    if s != [] {
      assert s == [s[0]] + s[1..];
      OnceInMultiset(s[1..], x);
      if s[0] == x {
        assert x !in s[1..];
      }
    }
  }
}
