/**
 * The meaning of the queries the repositories send: WHERE, ORDER BY over a
 * two-column key, and the laws that relate them.
 */
module Sql {

  /** The two columns of an ORDER BY clause. */
  datatype Key = Key(major: int, minor: int)

  predicate Less(a: Key, b: Key) {
    a.major < b.major || (a.major == b.major && a.minor < b.minor)
  }

  /** WHERE p. */
  function Filter<T>(p: T -> bool, s: seq<T>): seq<T> {
    if s == [] then []
    else if p(s[0]) then [s[0]] + Filter(p, s[1..])
    else Filter(p, s[1..])
  }

  /** WHERE c0 AND c1 AND ...; no condition at all selects every row. */
  function FilterAll<T>(conds: seq<T -> bool>, s: seq<T>): seq<T> {
    if conds == [] then s
    else Filter(conds[|conds| - 1], FilterAll(conds[..|conds| - 1], s))
  }

  function Insert<T>(key: T -> Key, x: T, s: seq<T>): seq<T> {
    if s == [] || !Less(key(s[0]), key(x)) then [x] + s
    else [s[0]] + Insert(key, x, s[1..])
  }

  /** ORDER BY key ASC. */
  function OrderBy<T>(key: T -> Key, s: seq<T>): seq<T> {
    if s == [] then [] else Insert(key, s[0], OrderBy(key, s[1..]))
  }

  ghost predicate Sorted<T>(key: T -> Key, s: seq<T>) {
    forall i, j :: 0 <= i < j < |s| ==> !Less(key(s[j]), key(s[i]))
  }

  ghost predicate StrictlySorted<T>(key: T -> Key, s: seq<T>) {
    forall i, j :: 0 <= i < j < |s| ==> Less(key(s[i]), key(s[j]))
  }

  /** The second key column is a primary key. */
  ghost predicate DistinctIds<T>(key: T -> Key, s: seq<T>) {
    forall i, j :: 0 <= i < j < |s| ==> key(s[i]).minor != key(s[j]).minor
  }

  lemma {:induction false} FilterMembers<T>(p: T -> bool, s: seq<T>, x: T)
    ensures x in Filter(p, s) <==> x in s && p(x)
  {
    if s != [] {
      FilterMembers(p, s[1..], x);
      assert s == [s[0]] + s[1..];
    }
  }

  /** WHERE keeps every copy of the rows it keeps. */
  lemma {:induction false} FilterCounts<T>(p: T -> bool, s: seq<T>, x: T)
    ensures multiset(Filter(p, s))[x] == if p(x) then multiset(s)[x] else 0
  {
    if s != [] {
      FilterCounts(p, s[1..], x);
      assert s == [s[0]] + s[1..];
    }
  }

  lemma {:induction false} FilterDistinct<T>(key: T -> Key, p: T -> bool, s: seq<T>)
    requires DistinctIds(key, s)
    ensures DistinctIds(key, Filter(p, s))
  {
    if s != [] {
      FilterDistinct(key, p, s[1..]);
      forall x | x in Filter(p, s[1..]) ensures key(x).minor != key(s[0]).minor {
        FilterMembers(p, s[1..], x);
      }
    }
  }

  lemma {:induction false} InsertPermutes<T>(key: T -> Key, x: T, s: seq<T>)
    ensures multiset(Insert(key, x, s)) == multiset([x]) + multiset(s)
  {
    if s != [] && Less(key(s[0]), key(x)) {
      InsertPermutes(key, x, s[1..]);
      assert s == [s[0]] + s[1..];
    }
  }

  lemma {:induction false} InsertSorts<T>(key: T -> Key, x: T, s: seq<T>)
    requires Sorted(key, s)
    ensures Sorted(key, Insert(key, x, s))
  {
    if s != [] && Less(key(s[0]), key(x)) {
      InsertSorts(key, x, s[1..]);
      InsertPermutes(key, x, s[1..]);
      var r := Insert(key, x, s[1..]);
      forall j | 0 <= j < |r| ensures !Less(key(r[j]), key(s[0])) {
        assert r[j] in multiset(r);
      }
    }
  }

  /** ORDER BY returns exactly the rows it is given, in key order. */
  lemma {:induction false} OrderBySorts<T>(key: T -> Key, s: seq<T>)
    ensures multiset(OrderBy(key, s)) == multiset(s)
    ensures Sorted(key, OrderBy(key, s))
  {
    if s != [] {
      OrderBySorts(key, s[1..]);
      InsertPermutes(key, s[0], OrderBy(key, s[1..]));
      InsertSorts(key, s[0], OrderBy(key, s[1..]));
      assert s == [s[0]] + s[1..];
    }
  }

  lemma OrderByMembers<T>(key: T -> Key, s: seq<T>, x: T)
    ensures x in OrderBy(key, s) <==> x in s
    ensures |OrderBy(key, s)| == |s|
  {
    OrderBySorts(key, s);
    assert x in OrderBy(key, s) <==> x in multiset(OrderBy(key, s));
    assert |multiset(OrderBy(key, s))| == |multiset(s)|;
  }

  lemma {:induction false} InsertStrict<T>(key: T -> Key, x: T, s: seq<T>)
    requires StrictlySorted(key, s)
    requires forall y :: y in s ==> key(y) != key(x)
    ensures StrictlySorted(key, Insert(key, x, s))
  {
    if s != [] && Less(key(s[0]), key(x)) {
      InsertStrict(key, x, s[1..]);
      InsertPermutes(key, x, s[1..]);
      var r := Insert(key, x, s[1..]);
      forall j | 0 <= j < |r| ensures Less(key(s[0]), key(r[j])) {
        assert r[j] in multiset(r);
      }
    }
  }

  /** With a primary key in the ORDER BY, no two rows of a result tie. */
  lemma {:induction false} OrderByStrict<T>(key: T -> Key, s: seq<T>)
    requires DistinctIds(key, s)
    ensures StrictlySorted(key, OrderBy(key, s))
  {
    if s != [] {
      OrderByStrict(key, s[1..]);
      forall y | y in OrderBy(key, s[1..]) ensures key(y) != key(s[0]) {
        OrderByMembers(key, s[1..], y);
      }
      InsertStrict(key, s[0], OrderBy(key, s[1..]));
    }
  }

  lemma {:induction false} FilterInsert<T>(key: T -> Key, p: T -> bool, x: T, s: seq<T>)
    requires Sorted(key, s)
    ensures Filter(p, Insert(key, x, s)) == if p(x) then Insert(key, x, Filter(p, s)) else Filter(p, s)
  {
    if s == [] || !Less(key(s[0]), key(x)) {
      assert ([x] + s)[1..] == s;
      var f := Filter(p, s);
      if f != [] {
        FilterMembers(p, s, f[0]);
      }
    } else {
      FilterInsert(key, p, x, s[1..]);
      var r := Insert(key, x, s[1..]);
      assert ([s[0]] + r)[1..] == r;
      if p(s[0]) {
        assert ([s[0]] + Filter(p, s[1..]))[1..] == Filter(p, s[1..]);
      } else if p(x) {
        var f := Filter(p, s[1..]);
        assert Insert(key, x, Filter(p, s)) == Insert(key, x, f);
      }
    }
  }

  /** Filtering an ordered result is the same as ordering the filtered rows. */
  lemma {:induction false} FilterOrderBy<T>(key: T -> Key, p: T -> bool, s: seq<T>)
    ensures Filter(p, OrderBy(key, s)) == OrderBy(key, Filter(p, s))
  {
    if s != [] {
      FilterOrderBy(key, p, s[1..]);
      OrderBySorts(key, s[1..]);
      FilterInsert(key, p, s[0], OrderBy(key, s[1..]));
      if p(s[0]) {
        assert ([s[0]] + Filter(p, s[1..]))[1..] == Filter(p, s[1..]);
      }
    }
  }

  lemma {:induction false} FilterAllOf<T>(p: T -> bool, s: seq<T>)
    requires forall x :: x in s ==> p(x)
    ensures Filter(p, s) == s
  {
    if s != [] {
      FilterAllOf(p, s[1..]);
    }
  }

  lemma {:induction false} FilterNone<T>(p: T -> bool, s: seq<T>)
    requires forall x :: x in s ==> !p(x)
    ensures Filter(p, s) == []
  {
    if s != [] {
      FilterNone(p, s[1..]);
    }
  }

  lemma {:induction false} FilterConcat<T>(p: T -> bool, a: seq<T>, b: seq<T>)
    ensures Filter(p, a + b) == Filter(p, a) + Filter(p, b)
  {
    if a == [] {
      assert a + b == b;
    } else {
      FilterConcat(p, a[1..], b);
      assert (a + b)[1..] == a[1..] + b;
    }
  }
}
