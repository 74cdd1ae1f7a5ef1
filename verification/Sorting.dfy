/**
 `Array.prototype.sort` with a comparator: a stable sort, and the facts that make its
 result the only one possible when no two elements compare equal.
 */
module Sorting {

  /** Places `x` before the first element that does not come strictly before it. */
  function Insert<T>(before: (T, T) -> bool, x: T, s: seq<T>): (r: seq<T>)
    ensures multiset(r) == multiset{x} + multiset(s)
    ensures |r| == |s| + 1
  {
    if s == [] then [x]
    else if before(s[0], x) then
      assert s == [s[0]] + s[1..];
      [s[0]] + Insert(before, x, s[1..])
    else [x] + s
  }

  function Sort<T>(before: (T, T) -> bool, s: seq<T>): (r: seq<T>)
    ensures multiset(r) == multiset(s)
    ensures |r| == |s|
  {
    if s == [] then [] else
    assert s == [s[0]] + s[1..];
    Insert(before, s[0], Sort(before, s[1..]))
  }

  ghost predicate StrictOrder<T(!new)>(before: (T, T) -> bool) {
    && (forall a :: !before(a, a))
    && (forall a, b, c :: before(a, b) && before(b, c) ==> before(a, c))
  }

  ghost predicate Ascending<T>(before: (T, T) -> bool, s: seq<T>) {
    forall i, j :: 0 <= i < j < |s| ==> before(s[i], s[j])
  }

  /** No two positions compare equal. */
  ghost predicate Comparable<T>(before: (T, T) -> bool, s: seq<T>) {
    forall i, j :: 0 <= i < j < |s| ==> before(s[i], s[j]) || before(s[j], s[i])
  }

  lemma SameElements<T>(a: seq<T>, b: seq<T>, x: T)
    requires multiset(a) == multiset(b)
    ensures x in a <==> x in b
  {
    assert x in multiset(a) <==> x in multiset(b);
  }

  lemma {:induction false} InsertAscending<T(!new)>(before: (T, T) -> bool, x: T, s: seq<T>)
    requires StrictOrder(before) && Ascending(before, s)
    requires forall e :: e in s ==> before(x, e) || before(e, x)
    ensures Ascending(before, Insert(before, x, s))
  {
    if s != [] && before(s[0], x) {
      var rest := Insert(before, x, s[1..]);
      InsertAscending(before, x, s[1..]);
      forall j | 0 <= j < |rest| ensures before(s[0], rest[j]) {
        assert rest[j] in multiset(rest);
        assert rest[j] == x || rest[j] in s[1..];
      }
    }
  }

  /** Sorting elements that never compare equal puts them in strictly ascending order. */
  lemma {:induction false} SortAscending<T(!new)>(before: (T, T) -> bool, s: seq<T>)
    requires StrictOrder(before) && Comparable(before, s)
    ensures Ascending(before, Sort(before, s))
  {
    if s != [] {
      SortAscending(before, s[1..]);
      forall e | e in Sort(before, s[1..]) ensures before(s[0], e) || before(e, s[0]) {
        SameElements(Sort(before, s[1..]), s[1..], e);
        var k :| 0 <= k < |s[1..]| && s[1..][k] == e;
        assert s[1 + k] == e;
      }
      InsertAscending(before, s[0], Sort(before, s[1..]));
    }
  }

  lemma HasMember<T>(s: seq<T>)
    ensures s == [] || exists e :: e in s && e == s[0]
  {
    if s != [] { assert s[0] in s; }
  }

  /** A strictly ascending arrangement is determined by its elements alone. */
  lemma {:induction false} AscendingUnique<T(!new)>(before: (T, T) -> bool, a: seq<T>, b: seq<T>)
    requires StrictOrder(before) && Ascending(before, a) && Ascending(before, b)
    requires forall e :: e in a <==> e in b
    ensures a == b
  {
    HasMember(a);
    HasMember(b);
    if a != [] && b != [] {
      assert a[0] == b[0];
      forall e ensures e in a[1..] <==> e in b[1..] {
        TailMembers(before, a, e);
        TailMembers(before, b, e);
      }
      AscendingUnique(before, a[1..], b[1..]);
      assert a == [a[0]] + a[1..] && b == [b[0]] + b[1..];
    }
  }

  lemma TailMembers<T(!new)>(before: (T, T) -> bool, s: seq<T>, e: T)
    requires StrictOrder(before) && Ascending(before, s) && s != []
    ensures e in s[1..] <==> e in s && e != s[0]
  {
    if e in s && e != s[0] {
      var k :| 0 <= k < |s| && s[k] == e;
      assert s[1..][k - 1] == e;
    }
  }
}
