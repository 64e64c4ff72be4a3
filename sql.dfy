/** The row-set clauses the queries use: WHERE (a filter), ORDER BY (any
    sorted permutation, since ties are left in no particular order), and
    LIMIT/OFFSET (a window). */
module Sql {

  /** `le(a, b)`: `a` may come before `b` in the ORDER BY. */
  ghost predicate TotalPreorder<T(!new)>(le: (T, T) -> bool) {
    && (forall a, b :: le(a, b) || le(b, a))
    && (forall a, b, c :: le(a, b) && le(b, c) ==> le(a, c))
  }

  ghost predicate Sorted<T>(s: seq<T>, le: (T, T) -> bool) {
    forall i, j :: 0 <= i < j < |s| ==> le(s[i], s[j])
  }

  /** `sorted` is an order in which the database may return `rows` under
      ORDER BY `le`: a permutation of them that is sorted. Rows that compare
      equal may come in any order. */
  ghost predicate IsOrderingOf<T>(sorted: seq<T>, rows: seq<T>, le: (T, T) -> bool) {
    multiset(sorted) == multiset(rows) && Sorted(sorted, le)
  }

  function Insert<T>(x: T, s: seq<T>, le: (T, T) -> bool): (r: seq<T>)
    ensures multiset(r) == multiset(s) + multiset{x}
  {
    if s == [] then [x]
    else if le(x, s[0]) then [x] + s
    else
      assert s == [s[0]] + s[1..];
      [s[0]] + Insert(x, s[1..], le)
  }

  /** One ordering the database may choose: insertion sort, which keeps
      rows that compare equal in table order. */
  function Sort<T>(s: seq<T>, le: (T, T) -> bool): (r: seq<T>)
    ensures multiset(r) == multiset(s)
  {
    if s == [] then []
    else
      assert s == [s[0]] + s[1..];
      Insert(s[0], Sort(s[1..], le), le)
  }

  lemma {:induction false} InsertSorted<T(!new)>(x: T, s: seq<T>, le: (T, T) -> bool)
    requires TotalPreorder(le) && Sorted(s, le)
    ensures Sorted(Insert(x, s, le), le)
  {
    if s != [] && !le(x, s[0]) {
      var rest := Insert(x, s[1..], le);
      InsertSorted(x, s[1..], le);
      assert le(s[0], x);
      forall y | y in rest ensures le(s[0], y) {
        assert y in multiset(rest);
        if y != x {
          assert y in multiset(s[1..]);
          var k :| 0 <= k < |s[1..]| && s[1..][k] == y;
          assert s[k + 1] == y;
        }
      }
      var r := [s[0]] + rest;
      forall i, j | 0 <= i < j < |r| ensures le(r[i], r[j]) {
        if i == 0 {
          assert r[j] == rest[j - 1];
          assert rest[j - 1] in rest;
        } else {
          assert r[i] == rest[i - 1] && r[j] == rest[j - 1];
        }
      }
    }
  }

  /** Sort yields an ordering the ORDER BY allows. */
  lemma {:induction false} SortIsOrdering<T(!new)>(s: seq<T>, le: (T, T) -> bool)
    requires TotalPreorder(le)
    ensures IsOrderingOf(Sort(s, le), s, le)
  {
    if s != [] {
      SortIsOrdering(s[1..], le);
      InsertSorted(s[0], Sort(s[1..], le), le);
    }
  }

  /** WHERE `keep`: the rows that satisfy the condition, in table order. */
  function Filter<T(!new)>(s: seq<T>, keep: T -> bool): (r: seq<T>)
    ensures |r| <= |s|
    ensures forall x :: x in r <==> x in s && keep(x)
    ensures multiset(r) <= multiset(s)
  {
    if s == [] then []
    else
      assert s == [s[0]] + s[1..];
      (if keep(s[0]) then [s[0]] else []) + Filter(s[1..], keep)
  }

  lemma {:induction false} FilterKeepingNone<T(!new)>(s: seq<T>, keep: T -> bool)
    requires forall x :: x in s ==> !keep(x)
    ensures Filter(s, keep) == []
  {
    if s != [] {
      assert s[0] in s;
      FilterKeepingNone(s[1..], keep);
    }
  }

  lemma {:induction false} FilterKeepingAll<T(!new)>(s: seq<T>, keep: T -> bool)
    requires forall x :: x in s ==> keep(x)
    ensures Filter(s, keep) == s
  {
    if s != [] {
      assert s[0] in s;
      FilterKeepingAll(s[1..], keep);
      assert s == [s[0]] + s[1..];
    }
  }

  function Min(a: int, b: int): int {
    if a <= b then a else b
  }

  /** LIMIT `limit` OFFSET `offset` over the ordered rows. */
  function Window<T>(s: seq<T>, offset: nat, limit: nat): (r: seq<T>)
    ensures |r| == if offset >= |s| then 0 else Min(limit, |s| - offset)
    ensures forall i :: 0 <= i < |r| ==> r[i] == s[offset + i]
  {
    if offset >= |s| then [] else s[offset..Min(offset + limit, |s|)]
  }

  lemma WindowOfSorted<T>(s: seq<T>, offset: nat, limit: nat, le: (T, T) -> bool)
    requires Sorted(s, le)
    ensures Sorted(Window(s, offset, limit), le)
  {
    var w := Window(s, offset, limit);
    forall i, j | 0 <= i < j < |w| ensures le(w[i], w[j]) {
      assert w[i] == s[offset + i] && w[j] == s[offset + j];
    }
  }

  /** The first `k` pages of size `limit`, one after another. */
  function Pages<T>(s: seq<T>, k: nat, limit: nat): seq<T> {
    if k == 0 then [] else Pages(s, k - 1, limit) + Window(s, (k - 1) * limit, limit)
  }

  lemma WindowIsSlice<T>(s: seq<T>, offset: nat, limit: nat)
    ensures Window(s, offset, limit) == s[Min(offset, |s|)..Min(offset + limit, |s|)]
  {
  }

  lemma NextPageStart(k: nat, limit: nat)
    requires k > 0
    ensures k * limit == (k - 1) * limit + limit
  {
  }

  /** Reading pages 1 to `k` in turn yields the first `k * limit` rows, each
      once and in order. */
  lemma {:induction false} PagesArePrefix<T>(s: seq<T>, k: nat, limit: nat)
    ensures Pages(s, k, limit) == s[..Min(k * limit, |s|)]
  {
    if k > 0 {
      var start := (k - 1) * limit;
      NextPageStart(k, limit);
      PagesArePrefix(s, k - 1, limit);
      WindowIsSlice(s, start, limit);
      PrefixThenSlice(s, Min(start, |s|), Min(start + limit, |s|));
    }
  }

  lemma PrefixThenSlice<T>(s: seq<T>, lo: nat, hi: nat)
    requires lo <= hi <= |s|
    ensures s[..lo] + s[lo..hi] == s[..hi]
  {
  }

  /** The pages of a listing read one after another. */
  function Concat<T>(pages: seq<seq<T>>): seq<T> {
    if pages == [] then [] else Concat(pages[..|pages| - 1]) + pages[|pages| - 1]
  }
}
