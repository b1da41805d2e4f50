/** Sorting by a pair of numbers, as the source's comparators do: by ledger, then by event id. */
module Sorting {

  datatype Key = Key(major: int, minor: int)

  predicate Before(a: Key, b: Key) { a.major < b.major || (a.major == b.major && a.minor < b.minor) }

  /** Strictly ascending keys. */
  ghost predicate Ascending<T>(s: seq<T>, key: T -> Key) {
    forall i, j :: 0 <= i < j < |s| ==> Before(key(s[i]), key(s[j]))
  }

  /** No two elements share a key. */
  ghost predicate Distinct<T>(s: seq<T>, key: T -> Key) {
    forall i, j :: 0 <= i < j < |s| ==> key(s[i]) != key(s[j])
  }

  function Insert<T>(x: T, s: seq<T>, key: T -> Key): seq<T> {
    if s == [] then [x]
    else if Before(key(x), key(s[|s| - 1])) then Insert(x, s[..|s| - 1], key) + [s[|s| - 1]]
    else s + [x]
  }

  /** A stable insertion sort. */
  function Sort<T>(s: seq<T>, key: T -> Key): seq<T> {
    if s == [] then [] else Insert(s[|s| - 1], Sort(s[..|s| - 1], key), key)
  }

  lemma {:induction false} InsertPermutes<T>(x: T, s: seq<T>, key: T -> Key)
    ensures multiset(Insert(x, s, key)) == multiset(s) + multiset{x}
    ensures |Insert(x, s, key)| == |s| + 1
  {
    if s != [] {
      InsertPermutes(x, s[..|s| - 1], key);
      assert s == s[..|s| - 1] + [s[|s| - 1]];
    }
  }

  lemma {:induction false} SortPermutes<T>(s: seq<T>, key: T -> Key)
    ensures multiset(Sort(s, key)) == multiset(s) && |Sort(s, key)| == |s|
  {
    if s != [] {
      SortPermutes(s[..|s| - 1], key);
      InsertPermutes(s[|s| - 1], Sort(s[..|s| - 1], key), key);
      assert s == s[..|s| - 1] + [s[|s| - 1]];
    }
  }

  lemma SortKeeps<T>(s: seq<T>, key: T -> Key)
    ensures forall x :: x in Sort(s, key) <==> x in s
  {
    SortPermutes(s, key);
    forall x ensures x in Sort(s, key) <==> x in s {
      assert x in multiset(Sort(s, key)) <==> x in multiset(s);
    }
  }

  lemma {:induction false} InsertAscends<T>(x: T, s: seq<T>, key: T -> Key)
    requires Ascending(s, key) && forall y :: y in s ==> key(y) != key(x)
    ensures Ascending(Insert(x, s, key), key)
  {
    if s != [] && Before(key(x), key(s[|s| - 1])) {
      var rest := s[..|s| - 1];
      InsertAscends(x, rest, key);
      InsertPermutes(x, rest, key);
      forall y | y in Insert(x, rest, key) ensures Before(key(y), key(s[|s| - 1])) {
        assert y in multiset(Insert(x, rest, key));
        assert y == x || y in multiset(rest);
      }
    } else {
      forall i | 0 <= i < |s| ensures Before(key(s[i]), key(x)) {
        assert s[i] in s && s[|s| - 1] in s;
      }
    }
  }

  lemma {:induction false} SortAscends<T>(s: seq<T>, key: T -> Key)
    requires Distinct(s, key)
    ensures Ascending(Sort(s, key), key)
  {
    if s != [] {
      var rest := s[..|s| - 1];
      SortAscends(rest, key);
      SortPermutes(rest, key);
      forall y | y in Sort(rest, key) ensures key(y) != key(s[|s| - 1]) {
        assert y in multiset(Sort(rest, key));
        assert y in multiset(rest);
        var i :| 0 <= i < |rest| && rest[i] == y;
        assert s[i] == y;
      }
      InsertAscends(s[|s| - 1], Sort(rest, key), key);
    }
  }

  /** Two ascending sequences with the same elements are equal. */
  lemma {:induction false} AscendingUnique<T>(a: seq<T>, b: seq<T>, key: T -> Key)
    requires Ascending(a, key) && Ascending(b, key) && forall x :: x in a <==> x in b
    ensures a == b
  {
    if b != [] {
      assert b[0] in a;
      assert a != [];
    }
    if a != [] {
      assert a[0] in b;
      var m, n := |a| - 1, |b| - 1;
      LastIsGreatest(a, b, key);
      forall x ensures x in a[..m] <==> x in b[..n] {
        LastOnlyOnce(a, key, x);
        LastOnlyOnce(b, key, x);
      }
      AscendingUnique(a[..m], b[..n], key);
      assert a == a[..m] + [a[m]] && b == b[..n] + [b[n]];
    }
  }

  lemma LastIsGreatest<T>(a: seq<T>, b: seq<T>, key: T -> Key)
    requires a != [] && b != [] && Ascending(a, key) && Ascending(b, key) && forall x :: x in a <==> x in b
    ensures a[|a| - 1] == b[|b| - 1]
  {
    assert a[|a| - 1] in b && b[|b| - 1] in a;
    var i :| 0 <= i < |b| && b[i] == a[|a| - 1];
    var j :| 0 <= j < |a| && a[j] == b[|b| - 1];
  }

  lemma LastOnlyOnce<T>(a: seq<T>, key: T -> Key, x: T)
    requires a != [] && Ascending(a, key)
    ensures x in a[..|a| - 1] <==> x in a && x != a[|a| - 1]
  {
    if x in a && x != a[|a| - 1] {
      var i :| 0 <= i < |a| && a[i] == x;
      assert a[..|a| - 1][i] == x;
    }
  }

  /** Sorting an ascending sequence changes nothing. */
  lemma SortedAlready<T>(s: seq<T>, key: T -> Key)
    requires Ascending(s, key)
    ensures Sort(s, key) == s
  {
    SortAscends(s, key);
    SortPermutes(s, key);
    forall x ensures x in Sort(s, key) <==> x in s {
      assert x in multiset(Sort(s, key)) <==> x in multiset(s);
    }
    AscendingUnique(Sort(s, key), s, key);
  }
}
