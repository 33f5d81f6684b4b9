/** What the routes ask of the database: a table is a map from primary key to
    row; a query scans it in key order, keeps the rows its WHERE clause
    accepts and sorts them with ORDER BY. */
module Tables {
  import opened Common

  /** The rows of `m` whose key lies in `[lo, hi)`, in key order. */
  function Scan<T(==,!new)>(m: map<int, T>, lo: int, hi: int): (r: seq<T>)
    decreases hi - lo
    ensures forall id :: lo <= id < hi && id in m ==> m[id] in r
    ensures forall x :: x in r ==> exists id :: lo <= id < hi && id in m && m[id] == x
  {
    if hi <= lo then []
    else if lo in m then [m[lo]] + Scan(m, lo + 1, hi)
    else Scan(m, lo + 1, hi)
  }

  /** No two keys hold the same row. */
  ghost predicate Injective<T>(m: map<int, T>) {
    forall i, j :: i in m && j in m && m[i] == m[j] ==> i == j
  }

  /** No row occurs twice in `s`. */
  ghost predicate Distinct<T(!new)>(s: seq<T>) {
    forall x :: multiset(s)[x] <= 1
  }

  /** A scan of a table whose keys hold different rows returns each row
      once. */
  lemma {:induction false} ScanDistinct<T(!new)>(m: map<int, T>, lo: int, hi: int)
    ensures Injective(m) ==> Distinct(Scan(m, lo, hi))
    decreases hi - lo
  {
    if lo < hi && Injective(m) {
      ScanDistinct(m, lo + 1, hi);
      var rest := Scan(m, lo + 1, hi);
      if lo in m {
        assert forall id :: lo + 1 <= id < hi && id in m ==> m[id] != m[lo];
        assert m[lo] !in rest;
        assert multiset(Scan(m, lo, hi)) == multiset{m[lo]} + multiset(rest);
      }
    }
  }

  /** The rows of `s` that satisfy the WHERE clause `p`, in their order. */
  function Where<T(==,!new)>(s: seq<T>, p: T -> bool): (r: seq<T>)
    ensures forall x :: x in r <==> x in s && p(x)
    ensures multiset(r) <= multiset(s)
  {
    if s == [] then []
    else
      assert s == [s[0]] + s[1..];
      if p(s[0]) then [s[0]] + Where(s[1..], p)
      else Where(s[1..], p)
  }

  /** `a` may come before `b` in an ascending (`desc` false) or descending
      ordering. */
  predicate InOrder(a: int, b: int, desc: bool) {
    if desc then a >= b else a <= b
  }

  predicate SortedBy<T>(s: seq<T>, key: T -> int, desc: bool) {
    forall i, j :: 0 <= i < j < |s| ==> InOrder(key(s[i]), key(s[j]), desc)
  }

  /** Puts `x` in front of the first row it may precede. */
  function Insert<T(==,!new)>(x: T, s: seq<T>, key: T -> int, desc: bool): (r: seq<T>)
    ensures multiset(r) == multiset(s) + multiset{x}
  {
    if s == [] then [x]
    else if InOrder(key(x), key(s[0]), desc) then [x] + s
    else
      assert s == [s[0]] + s[1..];
      [s[0]] + Insert(x, s[1..], key, desc)
  }

  /** Inserting into a sorted sequence keeps it sorted. */
  lemma {:induction false} InsertSorted<T(!new)>(x: T, s: seq<T>, key: T -> int, desc: bool)
    requires SortedBy(s, key, desc)
    ensures SortedBy(Insert(x, s, key, desc), key, desc)
  {
    if s != [] && !InOrder(key(x), key(s[0]), desc) {
      var rest := Insert(x, s[1..], key, desc);
      InsertSorted(x, s[1..], key, desc);
      assert s == [s[0]] + s[1..];
      forall j | 0 <= j < |rest| ensures InOrder(key(s[0]), key(rest[j]), desc) {
        assert rest[j] in multiset(rest);
        if rest[j] != x {
          assert rest[j] in multiset(s[1..]);
          var k :| 0 <= k < |s[1..]| && s[1..][k] == rest[j];
          assert s[k + 1] == rest[j];
        }
      }
    }
  }

  /** `ORDER BY key ASC` (or `DESC`): a sorted permutation of `s`. Rows with
      equal keys keep their scan order. */
  function OrderBy<T(==,!new)>(s: seq<T>, key: T -> int, desc: bool): (r: seq<T>)
    ensures multiset(r) == multiset(s)
    ensures SortedBy(r, key, desc)
  {
    if s == [] then []
    else
      assert s == [s[0]] + s[1..];
      var rest := OrderBy(s[1..], key, desc);
      InsertSorted(s[0], rest, key, desc);
      Insert(s[0], rest, key, desc)
  }

  /** `SELECT ... WHERE p ORDER BY key` over the rows of `m` keyed in
      `[lo, hi)`: sorted, and holding exactly the rows that satisfy `p`. */
  function Select<T(==,!new)>(m: map<int, T>, lo: int, hi: int, p: T -> bool, key: T -> int, desc: bool): (r: seq<T>)
    ensures SortedBy(r, key, desc)
    ensures forall x :: x in r ==> p(x) && exists id :: lo <= id < hi && id in m && m[id] == x
    ensures forall id :: lo <= id < hi && id in m ==> (m[id] in r <==> p(m[id]))
    ensures Injective(m) ==> Distinct(r)
  {
    var scanned := Scan(m, lo, hi);
    ScanDistinct(m, lo, hi);
    var r := OrderBy(Where(scanned, p), key, desc);
    assert forall x :: x in r <==> x in Where(scanned, p) by {
      forall x ensures x in r <==> x in Where(scanned, p) {
        assert x in r <==> x in multiset(r);
      }
    }
    r
  }

  /** `.filter(p).first()` over the rows of `m` keyed in `[lo, hi)`: the
      smallest key whose row satisfies `p`, or `None` when no row does. */
  function First<T>(m: map<int, T>, lo: int, hi: int, p: T -> bool): (r: Option<int>)
    decreases hi - lo
    ensures r.Some? ==> lo <= r.value < hi && r.value in m && p(m[r.value])
    ensures r.Some? ==> forall id :: lo <= id < r.value && id in m ==> !p(m[id])
    ensures r.None? <==> forall id :: lo <= id < hi && id in m ==> !p(m[id])
  {
    if hi <= lo then None
    else if lo in m && p(m[lo]) then Some(lo)
    else First(m, lo + 1, hi, p)
  }

  /** After an insert under `hi`, a search that found nothing below `hi` now
      finds the new row, provided it matches. */
  lemma {:induction false} FirstAfterInsert<T>(m: map<int, T>, lo: int, hi: int, p: T -> bool, x: T)
    requires lo <= hi && First(m, lo, hi, p).None? && p(x)
    ensures First(m[hi := x], lo, hi + 1, p) == Some(hi)
    decreases hi - lo
  {
    if lo < hi {
      FirstAfterInsert(m, lo + 1, hi, p, x);
    }
  }

  /** Every row sits under its own primary key `key`, and keys lie in
      `[1, next)`, where `next` is the key the next insert receives. */
  ghost predicate Keyed<T>(m: map<int, T>, next: int, key: T -> int) {
    1 <= next && forall id :: id in m ==> 1 <= id < next && key(m[id]) == id
  }

  /** Inserting a row under the next key keeps the table keyed. */
  lemma InsertKeyed<T>(m: map<int, T>, next: int, key: T -> int, x: T)
    requires Keyed(m, next, key) && key(x) == next
    ensures next !in m && Keyed(m[next := x], next + 1, key)
  {
  }

  /** A keyed table holds a different row under each key. */
  lemma KeyedInjective<T>(m: map<int, T>, next: int, key: T -> int)
    requires Keyed(m, next, key)
    ensures Injective(m)
  {
  }

  /** WHERE clauses that agree on every row select the same rows. */
  lemma {:induction false} WhereAgree<T(!new)>(s: seq<T>, p: T -> bool, q: T -> bool)
    requires forall x :: p(x) == q(x)
    ensures Where(s, p) == Where(s, q)
  {
    if s != [] {
      WhereAgree(s[1..], p, q);
    }
  }

  /** Queries whose WHERE clauses agree on every row return the same rows in
      the same order. */
  lemma SelectAgree<T(!new)>(m: map<int, T>, lo: int, hi: int, p: T -> bool, q: T -> bool, key: T -> int, desc: bool)
    requires forall x :: p(x) == q(x)
    ensures Select(m, lo, hi, p, key, desc) == Select(m, lo, hi, q, key, desc)
  {
    WhereAgree(Scan(m, lo, hi), p, q);
  }

  /** A UNIQUE constraint on the column `col`. */
  ghost predicate Unique<T>(m: map<int, T>, col: T -> string) {
    forall i, j :: i in m && j in m && col(m[i]) == col(m[j]) ==> i == j
  }
}
