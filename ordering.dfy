/** The orderings the queries ask the database for (`$sort`, `ORDER BY`):
    sort keys made of nulls, numbers and strings, compared lexicographically,
    and a sort specified by "ordered and a permutation of its input".

    Dafny's `<` on sequences is the proper-prefix relation, so string order is
    defined here: code point by code point, a proper prefix first. ISO 8601
    dates and 24-hour times compare chronologically under it. */
module Ordering {
  import opened Tables

  /** One component of a sort key. Nulls sort below numbers, numbers below
      strings, as in the document store's comparison order. */
  datatype Key = KNull | KNat(n: nat) | KStr(s: string)

  /** Strict lexicographic order on strings. */
  predicate StrLt(a: string, b: string)
    decreases |a|
  {
    if |b| == 0 then false
    else if |a| == 0 then true
    else if a[0] != b[0] then a[0] < b[0]
    else StrLt(a[1..], b[1..])
  }

  lemma {:induction false} StrLtIrreflexive(a: string)
    ensures !StrLt(a, a)
    decreases |a|
  {
    if |a| > 0 {
      StrLtIrreflexive(a[1..]);
    }
  }

  lemma {:induction false} StrLtTrichotomy(a: string, b: string)
    ensures a == b || StrLt(a, b) || StrLt(b, a)
    decreases |a|
  {
    if |a| > 0 && |b| > 0 && a[0] == b[0] {
      StrLtTrichotomy(a[1..], b[1..]);
      assert a == [a[0]] + a[1..] && b == [b[0]] + b[1..];
    }
  }

  lemma {:induction false} StrLtTransitive(a: string, b: string, c: string)
    requires StrLt(a, b) && StrLt(b, c)
    ensures StrLt(a, c)
    decreases |a|
  {
    if |a| > 0 && a[0] == b[0] && b[0] == c[0] {
      StrLtTransitive(a[1..], b[1..], c[1..]);
    }
  }

  lemma {:induction false} StrLtAsymmetric(a: string, b: string)
    requires StrLt(a, b)
    ensures !StrLt(b, a)
    decreases |a|
  {
    if |a| > 0 && a[0] == b[0] {
      StrLtAsymmetric(a[1..], b[1..]);
    }
  }

  /** Strict order on key components. */
  predicate KeyLt(a: Key, b: Key) {
    match a
    case KNull => !b.KNull?
    case KNat(x) => (b.KNat? && x < b.n) || b.KStr?
    case KStr(x) => b.KStr? && StrLt(x, b.s)
  }

  lemma KeyLtIrreflexive(a: Key)
    ensures !KeyLt(a, a)
  {
    if a.KStr? {
      StrLtIrreflexive(a.s);
    }
  }

  lemma KeyLtTrichotomy(a: Key, b: Key)
    ensures a == b || KeyLt(a, b) || KeyLt(b, a)
  {
    if a.KStr? && b.KStr? {
      StrLtTrichotomy(a.s, b.s);
    }
  }

  lemma KeyLtTransitive(a: Key, b: Key, c: Key)
    requires KeyLt(a, b) && KeyLt(b, c)
    ensures KeyLt(a, c)
  {
    if a.KStr? {
      StrLtTransitive(a.s, b.s, c.s);
    }
  }

  lemma KeyLtAsymmetric(a: Key, b: Key)
    requires KeyLt(a, b)
    ensures !KeyLt(b, a)
  {
    if a.KStr? && b.KStr? {
      StrLtAsymmetric(a.s, b.s);
    }
  }

  /** Non-strict lexicographic order on composite keys: the first component
      decides, a tie passes the decision to the next one. */
  predicate KeysLe(a: seq<Key>, b: seq<Key>)
    decreases |a|
  {
    if |a| == 0 then true
    else if |b| == 0 then false
    else if a[0] != b[0] then KeyLt(a[0], b[0])
    else KeysLe(a[1..], b[1..])
  }

  lemma {:induction false} KeysLeReflexive(a: seq<Key>)
    ensures KeysLe(a, a)
    decreases |a|
  {
    if |a| > 0 {
      KeysLeReflexive(a[1..]);
    }
  }

  lemma {:induction false} KeysLeTotal(a: seq<Key>, b: seq<Key>)
    ensures KeysLe(a, b) || KeysLe(b, a)
    decreases |a|
  {
    if |a| > 0 && |b| > 0 {
      if a[0] == b[0] {
        KeysLeTotal(a[1..], b[1..]);
      } else {
        KeyLtTrichotomy(a[0], b[0]);
      }
    }
  }

  lemma {:induction false} KeysLeTransitive(a: seq<Key>, b: seq<Key>, c: seq<Key>)
    requires KeysLe(a, b) && KeysLe(b, c)
    ensures KeysLe(a, c)
    decreases |a|
  {
    if |a| > 0 {
      assert |b| > 0 && |c| > 0;
      if a[0] == b[0] && b[0] == c[0] {
        KeysLeTransitive(a[1..], b[1..], c[1..]);
      } else if a[0] == b[0] {
        assert KeyLt(b[0], c[0]);
      } else if b[0] == c[0] {
        assert KeyLt(a[0], b[0]);
      } else {
        KeyLtTransitive(a[0], b[0], c[0]);
        if a[0] == c[0] {
          KeyLtAsymmetric(a[0], b[0]);
        }
      }
    }
  }

  datatype Direction = Ascending | Descending

  /** `x` may come before `y` in a result sorted in direction `dir`. */
  predicate InOrder(dir: Direction, x: seq<Key>, y: seq<Key>) {
    match dir
    case Ascending => KeysLe(x, y)
    case Descending => KeysLe(y, x)
  }

  lemma InOrderTotal(dir: Direction, x: seq<Key>, y: seq<Key>)
    ensures InOrder(dir, x, y) || InOrder(dir, y, x)
  {
    KeysLeTotal(x, y);
  }

  lemma InOrderTransitive(dir: Direction, x: seq<Key>, y: seq<Key>, z: seq<Key>)
    requires InOrder(dir, x, y) && InOrder(dir, y, z)
    ensures InOrder(dir, x, z)
  {
    match dir
    case Ascending => KeysLeTransitive(x, y, z);
    case Descending => KeysLeTransitive(z, y, x);
  }

  /** Every pair of rows is in order under the key. */
  predicate SortedBy<T>(s: seq<T>, key: T -> seq<Key>, dir: Direction) {
    forall i, j :: 0 <= i < j < |s| ==> InOrder(dir, key(s[i]), key(s[j]))
  }

  /** Places `x` before the first row it may precede. */
  function Insert<T>(x: T, s: seq<T>, key: T -> seq<Key>, dir: Direction): (r: seq<T>)
    requires SortedBy(s, key, dir)
    ensures SortedBy(r, key, dir)
    ensures multiset(r) == multiset(s) + multiset{x}
    decreases |s|
  {
    if |s| == 0 then [x]
    else if InOrder(dir, key(x), key(s[0])) then
      InsertAtFront(x, s, key, dir);
      [x] + s
    else
      var rest := Insert(x, s[1..], key, dir);
      InsertBehind(x, s, rest, key, dir);
      [s[0]] + rest
  }

  lemma InsertAtFront<T>(x: T, s: seq<T>, key: T -> seq<Key>, dir: Direction)
    requires |s| > 0 && SortedBy(s, key, dir)
    requires InOrder(dir, key(x), key(s[0]))
    ensures SortedBy([x] + s, key, dir)
    ensures multiset([x] + s) == multiset(s) + multiset{x}
  {
    var r := [x] + s;
    forall i, j | 0 <= i < j < |r| ensures InOrder(dir, key(r[i]), key(r[j])) {
      if i == 0 && j > 1 {
        InOrderTransitive(dir, key(x), key(s[0]), key(s[j - 1]));
      }
    }
  }

  lemma InsertBehind<T>(x: T, s: seq<T>, rest: seq<T>, key: T -> seq<Key>, dir: Direction)
    requires |s| > 0 && SortedBy(s, key, dir)
    requires !InOrder(dir, key(x), key(s[0]))
    requires SortedBy(rest, key, dir)
    requires multiset(rest) == multiset(s[1..]) + multiset{x}
    ensures SortedBy([s[0]] + rest, key, dir)
    ensures multiset([s[0]] + rest) == multiset(s) + multiset{x}
  {
    InOrderTotal(dir, key(x), key(s[0]));
    var r := [s[0]] + rest;
    forall j | 0 <= j < |rest| ensures InOrder(dir, key(s[0]), key(rest[j])) {
      assert rest[j] in multiset(rest);
      if rest[j] != x {
        assert rest[j] in multiset(s[1..]);
        var k :| 0 <= k < |s[1..]| && s[1..][k] == rest[j];
        assert s[k + 1] == rest[j];
      }
    }
    forall i, j | 0 <= i < j < |r| ensures InOrder(dir, key(r[i]), key(r[j])) {
      if i == 0 {
        assert r[j] == rest[j - 1];
      } else {
        assert r[i] == rest[i - 1] && r[j] == rest[j - 1];
      }
    }
    assert s == [s[0]] + s[1..];
  }

  /** The rows of `s` in direction `dir` of `key`; rows with equal keys keep
      no particular order, as in the database. */
  function SortBy<T>(s: seq<T>, key: T -> seq<Key>, dir: Direction): (r: seq<T>)
    ensures SortedBy(r, key, dir)
    ensures multiset(r) == multiset(s)
    decreases |s|
  {
    if |s| == 0 then []
    else
      assert s == [s[0]] + s[1..];
      Insert(s[0], SortBy(s[1..], key, dir), key, dir)
  }

  /** A sorted permutation keeps exactly the rows of its input. */
  lemma SortByMembers<T>(s: seq<T>, key: T -> seq<Key>, dir: Direction)
    ensures forall x :: x in SortBy(s, key, dir) <==> x in s
    ensures |SortBy(s, key, dir)| == |s|
  {
    var r := SortBy(s, key, dir);
    forall x ensures x in r <==> x in s {
      assert x in r <==> x in multiset(r);
      assert x in s <==> x in multiset(s);
    }
    assert |r| == |multiset(r)| == |multiset(s)| == |s|;
  }

  /** Sorting lists no key twice when its input does not. */
  lemma SortByUnique<T, K>(s: seq<T>, order: T -> seq<Key>, dir: Direction, key: T -> K)
    ensures UniqueBy(s, key) ==> UniqueBy(SortBy(s, order, dir), key)
  {
    if UniqueBy(s, key) {
      PermutationUnique(s, SortBy(s, order, dir), key);
    }
  }
}
