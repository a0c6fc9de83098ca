/**
 * The ORM's read side, as the routes use it: `findMany({ where, orderBy, take })`
 * over an in-memory table. A table is a sequence of rows; `where` is a predicate
 * on a row; `orderBy` is a list of columns, each ascending or descending, given
 * here as a sort key of integers compared lexicographically (a descending column
 * contributes its negation).
 */
module Store {
  import opened Wrappers

  /** Lexicographic order on sort keys: the ORM's multi-column `orderBy`. */
  predicate LexLe(a: seq<int>, b: seq<int>)
  {
    if a == [] then true
    else if b == [] then false
    else if a[0] < b[0] then true
    else if a[0] > b[0] then false
    else LexLe(a[1..], b[1..])
  }

  lemma {:induction false} LexLeTotal(a: seq<int>, b: seq<int>)
    ensures LexLe(a, b) || LexLe(b, a)
  {
    if a != [] && b != [] && a[0] == b[0] {
      LexLeTotal(a[1..], b[1..]);
    }
  }

  lemma {:induction false} LexLeTransitive(a: seq<int>, b: seq<int>, c: seq<int>)
    requires LexLe(a, b) && LexLe(b, c)
    ensures LexLe(a, c)
  {
    if a != [] && b != [] && c != [] && a[0] == b[0] == c[0] {
      LexLeTransitive(a[1..], b[1..], c[1..]);
    }
  }

  /** Every row sorts no later than every row after it. */
  ghost predicate SortedBy<R>(rows: seq<R>, key: R -> seq<int>)
  {
    forall i, j :: 0 <= i < j < |rows| ==> LexLe(key(rows[i]), key(rows[j]))
  }

  /** The rows a `where` clause keeps, in table order. */
  function Select<R(!new)>(rows: seq<R>, where: R -> bool): (r: seq<R>)
    ensures forall x :: multiset(r)[x] == if where(x) then multiset(rows)[x] else 0
    ensures forall i :: 0 <= i < |r| ==> where(r[i])
  {
    if rows == [] then []
    else
      var rest := Select(rows[1..], where);
      assert rows == [rows[0]] + rows[1..];
      if where(rows[0]) then [rows[0]] + rest else rest
  }

  lemma PrependSorted<R>(x: R, s: seq<R>, key: R -> seq<int>)
    requires SortedBy(s, key)
    requires forall y :: y in s ==> LexLe(key(x), key(y))
    ensures SortedBy([x] + s, key)
  {
    var t := [x] + s;
    forall i, j | 0 <= i < j < |t| ensures LexLe(key(t[i]), key(t[j])) {
      if i == 0 {
        assert t[j] == s[j - 1];
      } else {
        assert t[i] == s[i - 1] && t[j] == s[j - 1];
      }
    }
  }

  /** Inserts `x` into a sorted sequence before the first row it sorts no later than. */
  function Insert<R>(x: R, s: seq<R>, key: R -> seq<int>): (r: seq<R>)
    requires SortedBy(s, key)
    ensures SortedBy(r, key)
    ensures multiset(r) == multiset(s) + multiset{x}
  {
    if s == [] then [x]
    else if LexLe(key(x), key(s[0])) then
      assert forall y :: y in s ==> LexLe(key(x), key(y)) by {
        forall y | y in s ensures LexLe(key(x), key(y)) {
          var j :| 0 <= j < |s| && s[j] == y;
          if j > 0 { LexLeTransitive(key(x), key(s[0]), key(y)); }
        }
      }
      PrependSorted(x, s, key);
      [x] + s
    else
      var t := Insert(x, s[1..], key);
      assert forall y :: y in t ==> LexLe(key(s[0]), key(y)) by {
        forall y | y in t ensures LexLe(key(s[0]), key(y)) {
          assert y in multiset(t);
          if y == x {
            LexLeTotal(key(x), key(s[0]));
          } else {
            assert y in multiset(s[1..]);
            var j :| 0 <= j < |s[1..]| && s[1..][j] == y;
            assert s[j + 1] == y;
          }
        }
      }
      PrependSorted(s[0], t, key);
      assert s == [s[0]] + s[1..];
      [s[0]] + t
  }

  /** The rows ordered by their key (insertion sort; rows with equal keys keep their table order). */
  function SortBy<R>(rows: seq<R>, key: R -> seq<int>): (r: seq<R>)
    ensures SortedBy(r, key)
    ensures multiset(r) == multiset(rows)
  {
    if rows == [] then []
    else
      assert rows == [rows[0]] + rows[1..];
      Insert(rows[0], SortBy(rows[1..], key), key)
  }

  /** The first `n` rows, or all of them when there are fewer (`take`). */
  function Take<R>(rows: seq<R>, n: nat): (r: seq<R>)
    ensures |r| == if n < |rows| then n else |rows|
    ensures r == rows[..|r|]
  {
    if n < |rows| then rows[..n] else rows
  }

  lemma PermutationKeepsWhere<R>(s: seq<R>, t: seq<R>, where: R -> bool)
    requires multiset(s) == multiset(t)
    requires forall i :: 0 <= i < |t| ==> where(t[i])
    ensures forall i :: 0 <= i < |s| ==> where(s[i])
  {
    forall i | 0 <= i < |s| ensures where(s[i]) {
      assert s[i] in multiset(t);
      var j :| 0 <= j < |t| && t[j] == s[i];
    }
  }

  lemma PrefixOfSorted<R>(s: seq<R>, k: nat, key: R -> seq<int>)
    requires k <= |s| && SortedBy(s, key)
    ensures SortedBy(s[..k], key)
    ensures multiset(s[..k]) <= multiset(s)
  {
    assert s == s[..k] + s[k..];
    assert multiset(s) == multiset(s[..k]) + multiset(s[k..]);
  }

  /** `findMany({ where, orderBy, take })`: filter, then sort, then cut. */
  function FindMany<R(!new)>(rows: seq<R>, where: R -> bool, key: R -> seq<int>, take: Option<nat>): (r: seq<R>)
    ensures forall i :: 0 <= i < |r| ==> where(r[i])
    ensures SortedBy(r, key)
    ensures take.None? ==> multiset(r) == multiset(Select(rows, where))
    ensures take.Some? ==> (multiset(r) <= multiset(Select(rows, where))
      && |r| == if take.value < |Select(rows, where)| then take.value else |Select(rows, where)|)
  {
    var selected := Select(rows, where);
    var sorted := SortBy(selected, key);
    PermutationKeepsWhere(sorted, selected, where);
    match take
    case None => sorted
    case Some(n) =>
      PrefixOfSorted(sorted, |Take(sorted, n)|, key);
      Take(sorted, n)
  }

  /**
   * A capped listing returns the best rows: a matching row that was cut
   * (one of its copies is missing from the result) sorts no earlier than
   * any row that was returned.
   */
  lemma {:induction false} FindManyKeepsTop<R(!new)>(rows: seq<R>, where: R -> bool, key: R -> seq<int>, n: nat, x: R)
    requires multiset(FindMany(rows, where, key, Some(n)))[x] < multiset(Select(rows, where))[x]
    ensures where(x)
    ensures forall y :: y in FindMany(rows, where, key, Some(n)) ==> LexLe(key(y), key(x))
  {
    var selected := Select(rows, where);
    var sorted := SortBy(selected, key);
    var r := FindMany(rows, where, key, Some(n));
    assert multiset(selected)[x] > 0;
    assert where(x);
    assert r == Take(sorted, n);
    var rest := sorted[|r|..];
    assert sorted == r + rest;
    assert multiset(sorted) == multiset(r) + multiset(rest);
    assert multiset(rest)[x] > 0;
    assert x in rest;
    var j :| 0 <= j < |rest| && rest[j] == x;
    assert sorted[|r| + j] == x;
    forall y | y in r ensures LexLe(key(y), key(x)) {
      var i :| 0 <= i < |r| && r[i] == y;
      assert sorted[i] == y;
    }
  }

  /**
   * A listing whose rows are those a `where` keeps, in any order, holds each
   * table row that meets an equivalent condition as often as the table does,
   * and no other row.
   */
  lemma SelectedRows<R(!new)>(rows: seq<R>, listed: seq<R>, where: R -> bool, shown: R -> bool)
    requires forall p :: where(p) == shown(p)
    requires multiset(listed) == multiset(Select(rows, where))
    ensures forall p :: multiset(listed)[p] == if shown(p) then multiset(rows)[p] else 0
    ensures forall p :: p in listed <==> p in rows && shown(p)
  {
    forall p ensures multiset(listed)[p] == if shown(p) then multiset(rows)[p] else 0 {
      assert where(p) == shown(p);
    }
    forall p ensures p in listed <==> p in rows && shown(p) {
      assert p in listed <==> multiset(listed)[p] > 0;
      assert p in rows <==> multiset(rows)[p] > 0;
    }
  }

  /** A condition holds of every listed row exactly when it holds of every row the listing shows. */
  lemma EveryListed<R(!new)>(rows: seq<R>, listed: seq<R>, shown: R -> bool, ok: R -> bool)
    requires forall p :: p in listed <==> p in rows && shown(p)
    ensures (forall i :: 0 <= i < |listed| ==> ok(listed[i])) <==> (forall p :: p in rows && shown(p) ==> ok(p))
  {
    if forall i :: 0 <= i < |listed| ==> ok(listed[i]) {
      forall p | p in rows && shown(p) ensures ok(p) {
        var i :| 0 <= i < |listed| && listed[i] == p;
      }
    }
  }
}
