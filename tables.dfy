/** Tables as sequences of rows in insertion order, and the few generic
    operations the handlers perform on them: a uniqueness constraint, a
    `findOne` (first matching row), a `deleteMany` (keep the rest) and an
    `updateOne`/`updateMany` (rewrite matching rows in place). */
module Tables {
  import opened Common

  /** No two rows share a key: the effect of a unique index. */
  predicate UniqueBy<T, K(==)>(s: seq<T>, key: T -> K) {
    forall i, j :: 0 <= i < j < |s| ==> key(s[i]) != key(s[j])
  }

  /** The first row that satisfies `pick`, as `findOne` returns it. */
  function First<T>(s: seq<T>, pick: T -> bool): (r: Option<T>)
    ensures r.Some? ==> r.value in s && pick(r.value)
    ensures r.None? <==> forall x :: x in s ==> !pick(x)
    decreases |s|
  {
    if |s| == 0 then None
    else if pick(s[0]) then Some(s[0])
    else First(s[1..], pick)
  }

  /** Under a unique key, the row `findOne` finds by that key is the only one. */
  lemma {:induction false} FirstUnique<T, K>(s: seq<T>, pick: T -> bool, key: T -> K, x: T)
    requires UniqueBy(s, key)
    requires x in s && pick(x)
    requires forall y :: y in s && pick(y) ==> key(y) == key(x)
    ensures First(s, pick) == Some(x)
    decreases |s|
  {
    if s[0] != x {
      var k :| 0 <= k < |s| && s[k] == x;
      assert k != 0 && key(s[0]) != key(s[k]);
      assert s[1..][k - 1] == x;
      FirstUnique(s[1..], pick, key, x);
    }
  }

  /** The rows that satisfy `keep`, in their original order. */
  function Filter<T(!new)>(s: seq<T>, keep: T -> bool): (r: seq<T>)
    ensures forall x :: x in r <==> x in s && keep(x)
    ensures forall x :: multiset(r)[x] == if keep(x) then multiset(s)[x] else 0
    ensures |r| <= |s|
    decreases |s|
  {
    if |s| == 0 then []
    else
      assert s == [s[0]] + s[1..];
      (if keep(s[0]) then [s[0]] else []) + Filter(s[1..], keep)
  }

  /** Dropping rows never breaks a unique index. */
  lemma {:induction false} FilterUnique<T(!new), K>(s: seq<T>, keep: T -> bool, key: T -> K)
    requires UniqueBy(s, key)
    ensures UniqueBy(Filter(s, keep), key)
    decreases |s|
  {
    if |s| > 0 {
      FilterUnique(s[1..], keep, key);
      var tail := Filter(s[1..], keep);
      if keep(s[0]) {
        var r := [s[0]] + tail;
        forall j | 0 < j < |r| ensures key(r[0]) != key(r[j]) {
          assert r[j] in s[1..];
          var k :| 0 <= k < |s[1..]| && s[1..][k] == r[j];
          assert s[k + 1] == r[j];
        }
        assert Filter(s, keep) == r;
      } else {
        assert Filter(s, keep) == tail;
      }
    }
  }

  /** Keeping every row changes nothing. */
  lemma {:induction false} FilterKeepsAll<T(!new)>(s: seq<T>, keep: T -> bool)
    requires forall x :: x in s ==> keep(x)
    ensures Filter(s, keep) == s
    decreases |s|
  {
    if |s| > 0 {
      FilterKeepsAll(s[1..], keep);
      assert s == [s[0]] + s[1..];
    }
  }

  /** `s` with every row satisfying `pick` rewritten by `f`, in place. */
  function Rewrite<T>(s: seq<T>, pick: T -> bool, f: T -> T): (r: seq<T>)
    ensures |r| == |s|
    ensures forall i :: 0 <= i < |s| ==> r[i] == if pick(s[i]) then f(s[i]) else s[i]
  {
    seq(|s|, i requires 0 <= i < |s| => if pick(s[i]) then f(s[i]) else s[i])
  }

  /** A rewrite that leaves the key of every row alone keeps the index unique. */
  lemma RewriteUnique<T, K>(s: seq<T>, pick: T -> bool, f: T -> T, key: T -> K)
    requires UniqueBy(s, key)
    requires forall i :: 0 <= i < |s| && pick(s[i]) ==> key(f(s[i])) == key(s[i])
    ensures UniqueBy(Rewrite(s, pick, f), key)
  {
  }

  /** Filtering a table that starts with `a`. */
  lemma FilterCons<T(!new)>(a: T, t: seq<T>, keep: T -> bool)
    ensures Filter([a] + t, keep) == (if keep(a) then [a] else []) + Filter(t, keep)
  {
    assert ([a] + t)[0] == a && ([a] + t)[1..] == t;
  }

  /** Deleting the one row just appended, and only it, restores the table:
      the effect of a compensating delete. */
  lemma {:induction false} AppendThenFilter<T(!new)>(s: seq<T>, x: T, keep: T -> bool)
    requires forall y :: y in s ==> keep(y)
    requires !keep(x)
    ensures Filter(s + [x], keep) == s
    decreases |s|
  {
    if |s| == 0 {
      FilterCons(x, [], keep);
      assert s + [x] == [x] + [];
    } else {
      assert s == [s[0]] + s[1..] && s + [x] == [s[0]] + (s[1..] + [x]);
      AppendThenFilter(s[1..], x, keep);
      FilterCons(s[0], s[1..] + [x], keep);
    }
  }

  /** Each row mapped through `f`, in order: a projection. */
  function MapRows<A, B>(s: seq<A>, f: A -> B): (r: seq<B>)
    ensures |r| == |s|
    ensures forall i :: 0 <= i < |s| ==> r[i] == f(s[i])
  {
    seq(|s|, i requires 0 <= i < |s| => f(s[i]))
  }

  lemma MapRowsMembers<A, B>(s: seq<A>, f: A -> B)
    ensures forall y :: y in MapRows(s, f) ==> exists x :: x in s && y == f(x)
    ensures forall x :: x in s ==> f(x) in MapRows(s, f)
  {
    var r := MapRows(s, f);
    forall y | y in r ensures exists x :: x in s && y == f(x) {
      var i :| 0 <= i < |r| && r[i] == y;
      assert s[i] in s;
    }
    forall x | x in s ensures f(x) in r {
      var i :| 0 <= i < |s| && s[i] == x;
      assert r[i] == f(x);
    }
  }

  /** The rows for which `f` yields a value, mapped to it, in order: an
      inner join (`$lookup` + `$unwind`, `JOIN`) drops the rows it cannot
      complete. */
  function FilterMap<A, B>(s: seq<A>, f: A -> Option<B>): (r: seq<B>)
    ensures |r| <= |s|
    ensures forall a :: a in s && f(a).Some? ==> f(a).value in r
    ensures forall b :: b in r ==> exists a :: a in s && f(a) == Some(b)
    decreases |s|
  {
    if |s| == 0 then []
    else
      var rest := FilterMap(s[1..], f);
      assert forall a :: a in s[1..] ==> a in s;
      assert forall a :: a in s ==> a == s[0] || a in s[1..];
      match f(s[0])
      case Some(b) => [b] + rest
      case None => rest
  }

  /** Putting in front a row whose key no row has keeps the index unique. */
  lemma PrependUnique<T, K>(x: T, s: seq<T>, key: T -> K)
    requires UniqueBy(s, key)
    requires forall y :: y in s ==> key(y) != key(x)
    ensures UniqueBy([x] + s, key)
  {
    var r := [x] + s;
    forall i, j | 0 <= i < j < |r| ensures key(r[i]) != key(r[j]) {
      if i == 0 {
        assert r[j] in s;
      } else {
        assert r[i] == s[i - 1] && r[j] == s[j - 1];
      }
    }
  }

  /** A join that carries each row's key lists no key twice when the table's
      keys are unique. */
  lemma {:induction false} FilterMapUnique<A, B, K>(s: seq<A>, f: A -> Option<B>, key: A -> K, keyB: B -> K)
    requires forall a :: f(a).Some? ==> keyB(f(a).value) == key(a)
    ensures UniqueBy(s, key) ==> UniqueBy(FilterMap(s, f), keyB)
    decreases |s|
  {
    if |s| > 0 && UniqueBy(s, key) {
      var t := s[1..];
      forall i, j | 0 <= i < j < |t| ensures key(t[i]) != key(t[j]) {
        assert t[i] == s[i + 1] && t[j] == s[j + 1];
      }
      FilterMapUnique(t, f, key, keyB);
      var rest := FilterMap(t, f);
      if f(s[0]).Some? {
        forall y | y in rest ensures keyB(y) != keyB(f(s[0]).value) {
          var a :| a in t && f(a) == Some(y);
          var j :| 0 <= j < |t| && t[j] == a;
          assert s[j + 1] == a;
        }
        PrependUnique(f(s[0]).value, rest, keyB);
      }
    }
  }

  /** The same for a filter followed by a join. */
  lemma FilterJoinUnique<A(!new), B, K>(s: seq<A>, keep: A -> bool, f: A -> Option<B>, key: A -> K, keyB: B -> K)
    requires forall a :: f(a).Some? ==> keyB(f(a).value) == key(a)
    ensures UniqueBy(s, key) ==> UniqueBy(FilterMap(Filter(s, keep), f), keyB)
  {
    if UniqueBy(s, key) {
      FilterUnique(s, keep, key);
      FilterMapUnique(Filter(s, keep), f, key, keyB);
    }
  }

  /** The same for a filter followed by a projection. */
  lemma FilterMapRowsUnique<A(!new), B, K>(s: seq<A>, keep: A -> bool, f: A -> B, key: A -> K, keyB: B -> K)
    requires forall a :: keyB(f(a)) == key(a)
    ensures UniqueBy(s, key) ==> UniqueBy(MapRows(Filter(s, keep), f), keyB)
  {
    if UniqueBy(s, key) {
      FilterUnique(s, keep, key);
      var t := Filter(s, keep);
      var r := MapRows(t, f);
      forall i, j | 0 <= i < j < |r| ensures keyB(r[i]) != keyB(r[j]) {
        assert keyB(r[i]) == key(t[i]) && keyB(r[j]) == key(t[j]);
      }
    }
  }

  /** Taking one row out of a unique table: the rest stays unique and
      has no row with the key of the one taken out. */
  lemma RemoveUnique<T, K>(s: seq<T>, i: nat, key: T -> K)
    requires UniqueBy(s, key) && i < |s|
    ensures UniqueBy(s[..i] + s[i + 1..], key)
    ensures multiset(s[..i] + s[i + 1..]) == multiset(s) - multiset{s[i]}
    ensures forall y :: y in s[..i] + s[i + 1..] ==> key(y) != key(s[i])
  {
    var r := s[..i] + s[i + 1..];
    assert s == s[..i] + [s[i]] + s[i + 1..];
    forall p, q | 0 <= p < q < |r| ensures key(r[p]) != key(r[q]) {
      var p' := if p < i then p else p + 1;
      var q' := if q < i then q else q + 1;
      assert r[p] == s[p'] && r[q] == s[q'];
    }
    forall y | y in r ensures key(y) != key(s[i]) {
      var q :| 0 <= q < |r| && r[q] == y;
      var q' := if q < i then q else q + 1;
      assert s[q'] == y && q' != i;
    }
  }

  /** Reordering the rows keeps the index unique. */
  lemma {:induction false} PermutationUnique<T, K>(s: seq<T>, t: seq<T>, key: T -> K)
    requires UniqueBy(s, key) && multiset(s) == multiset(t)
    ensures UniqueBy(t, key)
    decreases |t|
  {
    if |t| > 0 {
      assert t[0] in multiset(s);
      var i :| 0 <= i < |s| && s[i] == t[0];
      RemoveUnique(s, i, key);
      var rest := s[..i] + s[i + 1..];
      assert t == [t[0]] + t[1..];
      assert multiset(t[1..]) == multiset(t) - multiset{t[0]};
      PermutationUnique(rest, t[1..], key);
      forall y | y in t[1..] ensures key(y) != key(t[0]) {
        assert y in multiset(rest);
      }
      PrependUnique(t[0], t[1..], key);
    }
  }

  /** How many rows satisfy `p` (`countDocuments`, `COUNT(*) ... WHERE`). */
  function Count<T(!new)>(s: seq<T>, p: T -> bool): nat {
    |Filter(s, p)|
  }

  /** Counts of disjoint conditions add up to the count of either. */
  lemma {:induction false} CountDisjoint<T(!new)>(s: seq<T>, p: T -> bool, q: T -> bool, pq: T -> bool)
    requires forall x :: !(p(x) && q(x))
    requires forall x :: pq(x) <==> p(x) || q(x)
    ensures Count(s, p) + Count(s, q) == Count(s, pq)
    decreases |s|
  {
    if |s| > 0 {
      CountDisjoint(s[1..], p, q, pq);
      assert Filter(s, p) == (if p(s[0]) then [s[0]] else []) + Filter(s[1..], p);
      assert Filter(s, q) == (if q(s[0]) then [s[0]] else []) + Filter(s[1..], q);
      assert Filter(s, pq) == (if pq(s[0]) then [s[0]] else []) + Filter(s[1..], pq);
    }
  }

  /** Appending a row whose key is above every key present keeps the index
      unique: the effect of taking the key from a counter. */
  lemma AppendFresh<T>(s: seq<T>, x: T, key: T -> nat, bound: nat)
    requires UniqueBy(s, key)
    requires forall y :: y in s ==> key(y) <= bound
    requires key(x) > bound
    ensures UniqueBy(s + [x], key)
  {
    AppendUnique(s, x, key);
  }

  /** Appending a row whose key no row has keeps the index unique. */
  lemma AppendUnique<T, K>(s: seq<T>, x: T, key: T -> K)
    requires UniqueBy(s, key)
    requires forall y :: y in s ==> key(y) != key(x)
    ensures UniqueBy(s + [x], key)
  {
    var r := s + [x];
    forall i, j | 0 <= i < j < |r| ensures key(r[i]) != key(r[j]) {
      if j == |s| {
        assert r[i] in s;
      }
    }
  }

  /** Replacing a row by one whose key no other row has keeps the index
      unique, even when the replacement changes the key. */
  lemma ReplaceUnique<T, K>(s: seq<T>, key: T -> K, k: nat, x: T)
    requires UniqueBy(s, key)
    requires k < |s| && forall i :: 0 <= i < |s| && i != k ==> key(s[i]) != key(x)
    ensures UniqueBy(s[k := x], key)
  {
  }

  /** `updateOne` on a unique key: the one row with that key is replaced and
      every other row stays where it is; a replacement that keeps the key
      keeps the index unique. */
  lemma {:induction false} UpdateAt<T, K>(s: seq<T>, key: T -> K, k: nat, x: T)
    requires UniqueBy(s, key)
    requires k < |s| && key(x) == key(s[k])
    ensures UniqueBy(s[k := x], key)
    ensures forall i :: 0 <= i < |s| ==> s[k := x][i] == if key(s[i]) == key(x) then x else s[i]
    ensures forall y :: y in s[k := x] ==> y == x || y in s
  {
    var r := s[k := x];
    forall i | 0 <= i < |s| ensures r[i] == if key(s[i]) == key(x) then x else s[i] {
      assert i != k ==> key(s[i]) != key(s[k]);
    }
    forall i, j | 0 <= i < j < |r| ensures key(r[i]) != key(r[j]) {
      assert key(r[i]) == key(s[i]);
      assert key(r[j]) == key(s[j]);
    }
    forall y | y in r ensures y == x || y in s {
      var i :| 0 <= i < |r| && r[i] == y;
      if i != k {
        assert s[i] in s;
      }
    }
  }
}
