/**
 * The `[...xs].sort((a, b) => keyA - keyB)` idiom of the dashboard lists.
 * `Array.prototype.sort` is stable, and a comparator that subtracts numeric keys
 * orders by the key; a missing date is `Number.POSITIVE_INFINITY`, and
 * `Infinity - Infinity` is `NaN`, which `sort` treats as "equal". The model is a
 * stable insertion sort; `SortedUnique` shows that any stable sort by the same
 * key gives the same output, so the choice of algorithm does not matter.
 */
module StableSort {

  /** A numeric sort key: a finite instant or positive infinity. */
  datatype SortKey = At(time: int) | Infinity

  /** `keyA - keyB <= 0`, with `Infinity - Infinity` counted as equal. */
  predicate KeyLe(a: SortKey, b: SortKey) {
    b.Infinity? || (a.At? && a.time <= b.time)
  }

  ghost predicate SortedBy<T>(s: seq<T>, key: T -> SortKey) {
    forall i, j :: 0 <= i < j < |s| ==> KeyLe(key(s[i]), key(s[j]))
  }

  /** The elements whose key is exactly `k`, in order. */
  function WithKey<T>(s: seq<T>, key: T -> SortKey, k: SortKey): seq<T> {
    if s == [] then []
    else (if key(s[0]) == k then [s[0]] else []) + WithKey(s[1..], key, k)
  }

  /** Stability: elements with equal keys appear in the same relative order in both. */
  ghost predicate SameTieOrder<T>(r: seq<T>, s: seq<T>, key: T -> SortKey) {
    forall k :: WithKey(r, key, k) == WithKey(s, key, k)
  }

  ghost predicate KeysAtLeast<T>(k: SortKey, s: seq<T>, key: T -> SortKey) {
    forall i :: 0 <= i < |s| ==> KeyLe(k, key(s[i]))
  }

  /** Puts `x` in front of the first element whose key is not below `x`'s. */
  function Insert<T>(x: T, s: seq<T>, key: T -> SortKey): seq<T> {
    if s == [] then [x]
    else if KeyLe(key(x), key(s[0])) then [x] + s
    else [s[0]] + Insert(x, s[1..], key)
  }

  lemma {:induction false} InsertLowerBound<T>(k: SortKey, x: T, s: seq<T>, key: T -> SortKey)
    requires KeysAtLeast(k, s, key) && KeyLe(k, key(x))
    ensures KeysAtLeast(k, Insert(x, s, key), key)
  {
    if s != [] && !KeyLe(key(x), key(s[0])) {
      InsertLowerBound(k, x, s[1..], key);
    }
  }

  lemma {:induction false} InsertSorted<T>(x: T, s: seq<T>, key: T -> SortKey)
    requires SortedBy(s, key)
    ensures SortedBy(Insert(x, s, key), key)
    decreases |s|
  {
    if s != [] {
      if KeyLe(key(x), key(s[0])) {
        InsertInFront(x, s, key);
      } else {
        InsertSorted(x, s[1..], key);
        InsertBehind(x, s, key);
      }
    }
  }

  lemma InsertInFront<T>(x: T, s: seq<T>, key: T -> SortKey)
    requires SortedBy(s, key) && s != [] && KeyLe(key(x), key(s[0]))
    ensures SortedBy([x] + s, key)
  {
    assert KeysAtLeast(key(x), s, key);
  }

  lemma InsertBehind<T>(x: T, s: seq<T>, key: T -> SortKey)
    requires SortedBy(s, key) && s != [] && !KeyLe(key(x), key(s[0]))
    requires SortedBy(Insert(x, s[1..], key), key)
    ensures SortedBy([s[0]] + Insert(x, s[1..], key), key)
  {
    var y := s[0];
    assert KeysAtLeast(key(y), s[1..], key);
    InsertLowerBound(key(y), x, s[1..], key);
  }

  lemma {:induction false} InsertPermutes<T>(x: T, s: seq<T>, key: T -> SortKey)
    ensures multiset(Insert(x, s, key)) == multiset(s) + multiset{x}
    decreases |s|
  {
    if s != [] && !KeyLe(key(x), key(s[0])) {
      InsertPermutes(x, s[1..], key);
      assert s == [s[0]] + s[1..];
    }
  }

  lemma WithKeyCons<T>(y: T, s: seq<T>, key: T -> SortKey, k: SortKey)
    ensures WithKey([y] + s, key, k) == (if key(y) == k then [y] else []) + WithKey(s, key, k)
  {
    assert ([y] + s)[1..] == s;
  }

  lemma {:induction false} InsertTies<T>(x: T, s: seq<T>, key: T -> SortKey, k: SortKey)
    ensures WithKey(Insert(x, s, key), key, k) == (if key(x) == k then [x] else []) + WithKey(s, key, k)
  {
    if s == [] {
      WithKeyCons(x, s, key, k);
    } else if KeyLe(key(x), key(s[0])) {
      WithKeyCons(x, s, key, k);
    } else {
      var y := s[0];
      InsertTies(x, s[1..], key, k);
      WithKeyCons(y, Insert(x, s[1..], key), key, k);
      WithKeyCons(y, s[1..], key, k);
      assert s == [y] + s[1..];
      var xs: seq<T> := if key(x) == k then [x] else [];
      var ys: seq<T> := if key(y) == k then [y] else [];
      var w := WithKey(s[1..], key, k);
      assert WithKey(Insert(x, s, key), key, k) == ys + (xs + w);
      assert WithKey(s, key, k) == ys + w;
      assert xs == [] || ys == [];
    }
  }

  /**
   * A stable sort: a permutation of `s`, in non-decreasing key order, with
   * elements of equal key in their input order.
   */
  function SortByKey<T>(s: seq<T>, key: T -> SortKey): (r: seq<T>)
    ensures multiset(r) == multiset(s)
    ensures SortedBy(r, key)
    ensures SameTieOrder(r, s, key)
  {
    if s == [] then []
    else
      var rest := SortByKey(s[1..], key);
      InsertSorted(s[0], rest, key);
      InsertPermutes(s[0], rest, key);
      assert s == [s[0]] + s[1..];
      InsertKeepsTies(s[0], s[1..], rest, key);
      Insert(s[0], rest, key)
  }

  /** Inserting `x` into a stable arrangement of `tail` gives a stable arrangement of `[x] + tail`. */
  lemma InsertKeepsTies<T>(x: T, tail: seq<T>, rest: seq<T>, key: T -> SortKey)
    requires SameTieOrder(rest, tail, key)
    ensures SameTieOrder(Insert(x, rest, key), [x] + tail, key)
  {
    forall k ensures WithKey(Insert(x, rest, key), key, k) == WithKey([x] + tail, key, k) {
      InsertTies(x, rest, key, k);
      WithKeyCons(x, tail, key, k);
    }
  }

  lemma {:induction false} WithKeyMember<T>(s: seq<T>, key: T -> SortKey, k: SortKey)
    requires WithKey(s, key, k) != []
    ensures exists j :: 0 <= j < |s| && key(s[j]) == k
  {
    if key(s[0]) != k {
      WithKeyMember(s[1..], key, k);
      var j :| 0 <= j < |s[1..]| && key(s[1..][j]) == k;
      assert key(s[j + 1]) == k;
    }
  }

  lemma WithKeyOwnKey<T>(s: seq<T>, key: T -> SortKey)
    requires s != []
    ensures WithKey(s, key, key(s[0])) != []
  {
  }

  /**
   * Sortedness and stability determine the output: two sequences, both sorted
   * by `key` and with the same elements of each key in the same order, are equal.
   */
  lemma {:induction false} SortedUnique<T>(r1: seq<T>, r2: seq<T>, key: T -> SortKey)
    requires SortedBy(r1, key) && SortedBy(r2, key)
    requires SameTieOrder(r1, r2, key)
    ensures r1 == r2
    decreases |r1|
  {
    if r1 == [] && r2 == [] {
    } else if r1 == [] {
      assert false;
    } else if r2 == [] {
      WithKeyOwnKey(r1, key);
      assert false;
    } else {
      var ka, kb := key(r1[0]), key(r2[0]);
      WithKeyMember(r2, key, ka);
      WithKeyMember(r1, key, kb);
      assert ka == kb;
      assert WithKey(r1, key, ka) == [r1[0]] + WithKey(r1[1..], key, ka);
      assert WithKey(r2, key, ka) == [r2[0]] + WithKey(r2[1..], key, ka);
      assert WithKey(r1, key, ka) == WithKey(r2, key, ka);
      assert r1[0] == r2[0] && WithKey(r1[1..], key, ka) == WithKey(r2[1..], key, ka) by {
        var w := WithKey(r1, key, ka);
        assert w[0] == r1[0] && w[1..] == WithKey(r1[1..], key, ka);
        assert w[0] == r2[0] && w[1..] == WithKey(r2[1..], key, ka);
      }
      forall k ensures WithKey(r1[1..], key, k) == WithKey(r2[1..], key, k) {
        if k != ka {
          assert WithKey(r1, key, k) == WithKey(r1[1..], key, k);
          assert WithKey(r2, key, k) == WithKey(r2[1..], key, k);
          assert WithKey(r1, key, k) == WithKey(r2, key, k);
        }
      }
      SortedUnique(r1[1..], r2[1..], key);
      assert r1 == [r1[0]] + r1[1..] && r2 == [r2[0]] + r2[1..];
    }
  }

  /** Any stable sort of `s` by `key` is `SortByKey(s, key)`. */
  lemma StableSortIsUnique<T>(s: seq<T>, r: seq<T>, key: T -> SortKey)
    requires SortedBy(r, key) && SameTieOrder(r, s, key)
    ensures r == SortByKey(s, key)
  {
    SortedUnique(r, SortByKey(s, key), key);
  }
}
