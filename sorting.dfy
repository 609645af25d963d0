/** Python's `list.sort()`, on the orderings the scripts sort by: a sorted
    permutation of the list. The scripts only sort by total orders, for
    which that result is unique, so stability plays no part. */
module Sorting {

  /** `le` is a total order. */
  ghost predicate TotalOrder<T(!new)>(le: (T, T) -> bool)
  {
    (forall a, b :: le(a, b) || le(b, a)) &&
    (forall a, b :: le(a, b) && le(b, a) ==> a == b) &&
    (forall a, b, c :: le(a, b) && le(b, c) ==> le(a, c))
  }

  predicate SortedBy<T>(s: seq<T>, le: (T, T) -> bool)
  {
    forall i, j :: 0 <= i < j < |s| ==> le(s[i], s[j])
  }

  /** `x` put before the first element it is not after. */
  function Insert<T>(s: seq<T>, x: T, le: (T, T) -> bool): seq<T>
  {
    if s == [] then [x]
    else if le(x, s[0]) then [x] + s
    else [s[0]] + Insert(s[1..], x, le)
  }

  lemma Insert_Props<T(!new)>(s: seq<T>, x: T, le: (T, T) -> bool)
    requires TotalOrder(le) && SortedBy(s, le)
    ensures multiset(Insert(s, x, le)) == multiset(s) + multiset{x}
    ensures SortedBy(Insert(s, x, le), le)
  {
    Insert_Perm(s, x, le);
    Insert_Sorted(s, x, le);
  }

  lemma {:induction false} Insert_Perm<T>(s: seq<T>, x: T, le: (T, T) -> bool)
    ensures multiset(Insert(s, x, le)) == multiset(s) + multiset{x}
  {
    if s != [] && !le(x, s[0]) {
      Insert_Perm(s[1..], x, le);
      assert s == [s[0]] + s[1..];
    }
  }

  lemma {:induction false} Insert_Sorted<T(!new)>(s: seq<T>, x: T, le: (T, T) -> bool)
    requires TotalOrder(le) && SortedBy(s, le)
    ensures SortedBy(Insert(s, x, le), le)
  {
    if s != [] && le(x, s[0]) {
      var all := [x] + s;
      forall i, j | 0 <= i < j < |all| ensures le(all[i], all[j]) {
        if i == 0 {
          if j > 1 { assert le(s[0], s[j - 1]); }
        } else {
          assert all[i] == s[i - 1] && all[j] == s[j - 1];
        }
      }
    } else if s != [] {
      Insert_Sorted(s[1..], x, le);
      Insert_Perm(s[1..], x, le);
      var r := Insert(s[1..], x, le);
      forall k | 0 <= k < |r| ensures le(s[0], r[k]) {
        assert r[k] in multiset(r);
        if r[k] != x {
          assert r[k] in multiset(s[1..]);
          var m :| 0 <= m < |s[1..]| && s[1..][m] == r[k];
          assert s[m + 1] == r[k];
        }
      }
      var all := [s[0]] + r;
      forall i, j | 0 <= i < j < |all| ensures le(all[i], all[j]) {
        if i == 0 {
          assert all[j] == r[j - 1];
        } else {
          assert all[i] == r[i - 1] && all[j] == r[j - 1];
        }
      }
    }
  }

  /** The sorted permutation, by repeated insertion. */
  function SortedOf<T>(s: seq<T>, le: (T, T) -> bool): seq<T>
  {
    if s == [] then [] else Insert(SortedOf(s[..|s| - 1], le), s[|s| - 1], le)
  }

  lemma {:induction false} SortedOf_Props<T(!new)>(s: seq<T>, le: (T, T) -> bool)
    requires TotalOrder(le)
    ensures multiset(SortedOf(s, le)) == multiset(s)
    ensures SortedBy(SortedOf(s, le), le)
  {
    if s != [] {
      SortedOf_Props(s[..|s| - 1], le);
      Insert_Props(SortedOf(s[..|s| - 1], le), s[|s| - 1], le);
      assert s == s[..|s| - 1] + [s[|s| - 1]];
    }
  }

  /** `list.sort()`. */
  method Sort<T(!new)>(s: seq<T>, le: (T, T) -> bool) returns (r: seq<T>)
    requires TotalOrder(le)
    ensures multiset(r) == multiset(s)
    ensures SortedBy(r, le)
    ensures r == SortedOf(s, le)
  {
    r := [];
    for i := 0 to |s|
      invariant r == SortedOf(s[..i], le)
    {
      assert s[..i + 1][..i] == s[..i];
      r := Insert(r, s[i], le);
    }
    assert s[..|s|] == s;
    SortedOf_Props(s, le);
  }

  // --------------------------------------------------- the scripts' orderings

  function IntLe(a: int, b: int): bool { a <= b }

  lemma IntLe_Total()
    ensures TotalOrder(IntLe)
  {
  }

  /** Tuples compare lexicographically. */
  function PairLe(a: (int, int), b: (int, int)): bool
  {
    a.0 < b.0 || (a.0 == b.0 && a.1 <= b.1)
  }

  lemma PairLe_Total()
    ensures TotalOrder(PairLe)
  {
  }

  /** Strings compare lexicographically by character code, a proper prefix
      first. */
  function StringLe(a: string, b: string): bool
  {
    if a == [] then true
    else if b == [] then false
    else if a[0] != b[0] then a[0] < b[0]
    else StringLe(a[1..], b[1..])
  }

  lemma {:induction false} StringLe_Antisymmetric(a: string, b: string)
    requires StringLe(a, b) && StringLe(b, a)
    ensures a == b
  {
    if a != [] && b != [] {
      StringLe_Antisymmetric(a[1..], b[1..]);
      assert a == [a[0]] + a[1..] && b == [b[0]] + b[1..];
    }
  }

  lemma {:induction false} StringLe_Transitive(a: string, b: string, c: string)
    requires StringLe(a, b) && StringLe(b, c)
    ensures StringLe(a, c)
  {
    if a != [] && b != [] && c != [] && a[0] == b[0] && b[0] == c[0] {
      StringLe_Transitive(a[1..], b[1..], c[1..]);
    }
  }

  lemma {:induction false} StringLe_Connex(a: string, b: string)
    ensures StringLe(a, b) || StringLe(b, a)
  {
    if a != [] && b != [] && a[0] == b[0] {
      StringLe_Connex(a[1..], b[1..]);
    }
  }

  lemma StringLe_Total()
    ensures TotalOrder(StringLe)
  {
    forall a, b ensures StringLe(a, b) || StringLe(b, a) { StringLe_Connex(a, b); }
    forall a, b | StringLe(a, b) && StringLe(b, a) ensures a == b { StringLe_Antisymmetric(a, b); }
    forall a, b, c | StringLe(a, b) && StringLe(b, c) ensures StringLe(a, c) { StringLe_Transitive(a, b, c); }
  }
}
