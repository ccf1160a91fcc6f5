/** The stable sort of the standard library, by a real-valued key. */
module Sorting {

  ghost predicate SortedBy<T(!new)>(key: T -> real, s: seq<T>) {
    forall i, j :: 0 <= i < j < |s| ==> key(s[i]) <= key(s[j])
  }

  /** Puts `x` in front of the first element whose key is not smaller. */
  function Insert<T(!new)>(key: T -> real, x: T, s: seq<T>): (r: seq<T>)
    ensures multiset(r) == multiset{x} + multiset(s)
    ensures |r| == |s| + 1
  {
    if s == [] || key(x) <= key(s[0]) then
      [x] + s
    else
      assert s == [s[0]] + s[1..];
      [s[0]] + Insert(key, x, s[1..])
  }

  lemma {:induction false} InsertKeepsSorted<T(!new)>(key: T -> real, x: T, s: seq<T>)
    requires SortedBy(key, s)
    ensures SortedBy(key, Insert(key, x, s))
  {
    if s != [] && key(x) > key(s[0]) {
      var rest := Insert(key, x, s[1..]);
      InsertKeepsSorted(key, x, s[1..]);
      forall j | 0 <= j < |rest|
        ensures key(s[0]) <= key(rest[j])
      {
        assert rest[j] in multiset(rest);
        assert rest[j] == x || rest[j] in s[1..];
      }
    }
  }

  function Sort<T(!new)>(key: T -> real, s: seq<T>): (r: seq<T>)
    ensures multiset(r) == multiset(s)
    ensures |r| == |s|
    ensures SortedBy(key, r)
  {
    if s == [] then [] else
      assert s == [s[0]] + s[1..];
      var rest := Sort(key, s[1..]);
      InsertKeepsSorted(key, s[0], rest);
      Insert(key, s[0], rest)
  }

  lemma {:induction false} SortIdentity<T(!new)>(key: T -> real, s: seq<T>)
    requires SortedBy(key, s)
    ensures Sort(key, s) == s
  {
    if s != [] {
      SortIdentity(key, s[1..]);
    }
  }

  lemma {:induction false} SameElements<T(!new)>(key: T -> real, s: seq<T>, x: T)
    ensures x in Sort(key, s) <==> x in s
  {
    assert x in Sort(key, s) <==> x in multiset(Sort(key, s));
  }

  /** Two elements at different places of a list sit at different places of every
      rearrangement of it. */
  lemma {:induction false} PairSurvives<T(!new)>(a: seq<T>, b: seq<T>, i: nat, j: nat) returns (m: nat, n: nat)
    requires multiset(a) == multiset(b)
    requires i < |a| && j < |a| && i != j
    ensures m < |b| && n < |b| && m != n && b[m] == a[i] && b[n] == a[j]
  {
    assert a[j] in multiset(b);
    n :| 0 <= n < |b| && b[n] == a[j];
    var (restA, restB) := (Without(a, j), Without(b, n));
    assert restA[if i < j then i else i - 1] == a[i];
    assert a[i] in multiset(restA);
    assert a[i] in restB;
    var k :| 0 <= k < |restB| && restB[k] == a[i];
    m := if k < n then k else k + 1;
  }

  ghost function Without<T(!new)>(a: seq<T>, j: nat): (r: seq<T>)
    requires j < |a|
    ensures multiset(r) == multiset(a) - multiset{a[j]}
    ensures |r| == |a| - 1
    ensures forall k :: 0 <= k < |r| ==> r[k] == a[if k < j then k else k + 1]
  {
    assert a == a[..j] + [a[j]] + a[j + 1..];
    a[..j] + a[j + 1..]
  }
}
