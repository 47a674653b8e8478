/**
 * The merge behind `dedupeAssignments` (app/page.tsx), stated for any key
 * function: existing items are kept as they are and an incoming item is appended
 * only when no item before it (existing or appended) has the same key.
 */
module KeyedMerge {
  import opened Seqs

  /** The set of keys of `s`. */
  function Keys<T, K(==)>(key: T -> K, s: seq<T>): (ks: set<K>)
    ensures forall i :: 0 <= i < |s| ==> key(s[i]) in ks
  {
    if s == [] then {}
    else
      var init := s[..|s| - 1];
      assert forall i :: 0 <= i < |init| ==> s[i] == init[i];
      Keys(key, init) + {key(s[|s| - 1])}
  }

  /** Every key of `s` is the key of one of its items. */
  lemma {:induction false} KeyWitness<T, K>(key: T -> K, s: seq<T>, k: K) returns (i: nat)
    requires k in Keys(key, s)
    ensures i < |s| && key(s[i]) == k
  {
    var init := s[..|s| - 1];
    if k == key(s[|s| - 1]) {
      i := |s| - 1;
    } else {
      i := KeyWitness(key, init, k);
    }
  }

  lemma KeysSnoc<T, K>(key: T -> K, s: seq<T>, x: T)
    ensures Keys(key, s + [x]) == Keys(key, s) + {key(x)}
  {
    assert (s + [x])[..|s|] == s;
  }

  /** The incoming items appended, given the keys `seen` so far. */
  function Accept<T, K(==)>(key: T -> K, seen: set<K>, incoming: seq<T>): (r: seq<T>)
    ensures |r| <= |incoming|
    decreases |incoming|
  {
    if incoming == [] then []
    else if key(incoming[0]) in seen then Accept(key, seen, incoming[1..])
    else [incoming[0]] + Accept(key, seen + {key(incoming[0])}, incoming[1..])
  }

  /** The merged list. */
  function Merge<T, K(==)>(key: T -> K, existing: seq<T>, incoming: seq<T>): (r: seq<T>)
    ensures |existing| <= |r| <= |existing| + |incoming|
    ensures r[..|existing|] == existing
  {
    existing + Accept(key, Keys(key, existing), incoming)
  }

  /** Accepting `a` and then `b` is accepting `a + b`. */
  lemma {:induction false} AcceptCompose<T, K>(key: T -> K, p: seq<T>, a: seq<T>, b: seq<T>)
    ensures p + Accept(key, Keys(key, p), a + b) == Merge(key, Merge(key, p, a), b)
    decreases |a|
  {
    if a == [] {
      assert a + b == b;
      assert Merge(key, p, a) == p;
    } else {
      var x := a[0];
      assert (a + b)[0] == x && (a + b)[1..] == a[1..] + b;
      if key(x) in Keys(key, p) {
        AcceptCompose(key, p, a[1..], b);
      } else {
        var p' := p + [x];
        KeysSnoc(key, p, x);
        AcceptCompose(key, p', a[1..], b);
        var seen' := Keys(key, p');
        assert Accept(key, Keys(key, p), a + b) == [x] + Accept(key, seen', a[1..] + b);
        assert Accept(key, Keys(key, p), a) == [x] + Accept(key, seen', a[1..]);
        assert Merge(key, p, a) == Merge(key, p', a[1..]);
      }
    }
  }

  /** Merging in two batches is merging their concatenation. */
  lemma MergeCompose<T, K>(key: T -> K, existing: seq<T>, a: seq<T>, b: seq<T>)
    ensures Merge(key, Merge(key, existing, a), b) == Merge(key, existing, a + b)
  {
    AcceptCompose(key, existing, a, b);
  }

  /** One more item is appended exactly when its key is new to the list merged so far. */
  lemma MergeSnoc<T, K>(key: T -> K, existing: seq<T>, incoming: seq<T>, x: T)
    ensures var r := Merge(key, existing, incoming);
            Merge(key, existing, incoming + [x]) == if key(x) in Keys(key, r) then r else r + [x]
  {
    MergeCompose(key, existing, incoming, [x]);
  }

  lemma {:induction false} AcceptAllSeen<T, K>(key: T -> K, seen: set<K>, incoming: seq<T>)
    requires forall j :: 0 <= j < |incoming| ==> key(incoming[j]) in seen
    ensures Accept(key, seen, incoming) == []
    decreases |incoming|
  {
    if incoming != [] {
      AcceptAllSeen(key, seen, incoming[1..]);
    }
  }

  lemma KeysOfExtension<T, K>(key: T -> K, p: seq<T>, q: seq<T>)
    ensures Keys(key, p) <= Keys(key, p + q)
  {
    forall k | k in Keys(key, p) ensures k in Keys(key, p + q) {
      var i := KeyWitness(key, p, k);
      assert (p + q)[i] == p[i];
    }
  }

  lemma {:induction false} AcceptCovers<T, K>(key: T -> K, p: seq<T>, incoming: seq<T>)
    ensures forall j :: 0 <= j < |incoming| ==> key(incoming[j]) in Keys(key, Merge(key, p, incoming))
    decreases |incoming|
  {
    if incoming != [] {
      var r := Merge(key, p, incoming);
      var x, rest := incoming[0], incoming[1..];
      if key(x) in Keys(key, p) {
        AcceptCovers(key, p, rest);
        CoversSeen(key, p, x, rest);
      } else {
        AcceptCovers(key, p + [x], rest);
        CoversFresh(key, p, x, rest);
      }
      forall j | 1 <= j < |incoming| ensures key(incoming[j]) in Keys(key, r) {
        assert incoming[j] == rest[j - 1];
      }
    }
  }

  /** The step of `AcceptCovers` for an item whose key was already seen. */
  lemma CoversSeen<T, K>(key: T -> K, p: seq<T>, x: T, rest: seq<T>)
    requires key(x) in Keys(key, p)
    requires forall j :: 0 <= j < |rest| ==> key(rest[j]) in Keys(key, Merge(key, p, rest))
    ensures var r := Merge(key, p, [x] + rest);
            key(x) in Keys(key, r) && forall j :: 0 <= j < |rest| ==> key(rest[j]) in Keys(key, r)
  {
    var r := Merge(key, p, [x] + rest);
    assert ([x] + rest)[1..] == rest;
    assert r == Merge(key, p, rest);
    KeysOfExtension(key, p, r[|p|..]);
    assert p + r[|p|..] == r;
  }

  /** The step of `AcceptCovers` for an item with a new key. */
  lemma CoversFresh<T, K>(key: T -> K, p: seq<T>, x: T, rest: seq<T>)
    requires key(x) !in Keys(key, p)
    requires forall j :: 0 <= j < |rest| ==> key(rest[j]) in Keys(key, Merge(key, p + [x], rest))
    ensures var r := Merge(key, p, [x] + rest);
            key(x) in Keys(key, r) && forall j :: 0 <= j < |rest| ==> key(rest[j]) in Keys(key, r)
  {
    var r := Merge(key, p, [x] + rest);
    assert ([x] + rest)[1..] == rest;
    KeysSnoc(key, p, x);
    assert r == Merge(key, p + [x], rest);
    assert r[|p|] == x;
  }

  /** Every incoming key ends up among the keys of the result. */
  lemma MergeCovers<T, K>(key: T -> K, existing: seq<T>, incoming: seq<T>)
    ensures forall j :: 0 <= j < |incoming| ==> key(incoming[j]) in Keys(key, Merge(key, existing, incoming))
  {
    AcceptCovers(key, existing, incoming);
  }

  /** No appended item shares its key with anything before it. */
  lemma {:induction false} MergeFresh<T, K>(key: T -> K, p: seq<T>, incoming: seq<T>)
    ensures var r := Merge(key, p, incoming);
            forall i :: |p| <= i < |r| ==> key(r[i]) !in Keys(key, r[..i])
    decreases |incoming|
  {
    if incoming != [] {
      var x := incoming[0];
      if key(x) in Keys(key, p) {
        assert Merge(key, p, incoming) == Merge(key, p, incoming[1..]);
        MergeFresh(key, p, incoming[1..]);
      } else {
        var p' := p + [x];
        KeysSnoc(key, p, x);
        MergeFresh(key, p', incoming[1..]);
        var r := Merge(key, p, incoming);
        assert r == Merge(key, p', incoming[1..]);
        assert r[..|p|] == p;
      }
    }
  }

  lemma {:induction false} AcceptSubsequence<T, K>(key: T -> K, seen: set<K>, incoming: seq<T>)
    ensures IsSubsequence(Accept(key, seen, incoming), incoming)
    decreases |incoming|
  {
    if incoming != [] {
      var k := key(incoming[0]);
      if k in seen {
        AcceptSubsequence(key, seen, incoming[1..]);
      } else {
        var rest := Accept(key, seen + {k}, incoming[1..]);
        AcceptSubsequence(key, seen + {k}, incoming[1..]);
        assert ([incoming[0]] + rest)[1..] == rest;
      }
    }
  }

  /** The existing list is an untouched prefix, followed by incoming items in input order. */
  lemma MergeShape<T, K>(key: T -> K, existing: seq<T>, incoming: seq<T>)
    ensures var r := Merge(key, existing, incoming);
            r[..|existing|] == existing && IsSubsequence(r[|existing|..], incoming)
  {
    var r := Merge(key, existing, incoming);
    assert r[|existing|..] == Accept(key, Keys(key, existing), incoming);
    AcceptSubsequence(key, Keys(key, existing), incoming);
  }

  /** Merging the same batch again adds nothing. */
  lemma MergeIdempotent<T, K>(key: T -> K, existing: seq<T>, incoming: seq<T>)
    ensures Merge(key, Merge(key, existing, incoming), incoming) == Merge(key, existing, incoming)
  {
    var r := Merge(key, existing, incoming);
    MergeCovers(key, existing, incoming);
    AcceptAllSeen(key, Keys(key, r), incoming);
  }

  /**
   * An incoming item whose key is new to `existing` and to the items before it
   * is appended, right after what those earlier items produced.
   */
  lemma MergeFirstOccurrence<T, K>(key: T -> K, existing: seq<T>, incoming: seq<T>, j: nat)
    requires j < |incoming|
    requires key(incoming[j]) !in Keys(key, existing)
    requires forall i :: 0 <= i < j ==> key(incoming[i]) != key(incoming[j])
    ensures var p := |Merge(key, existing, incoming[..j])|;
            p < |Merge(key, existing, incoming)| && Merge(key, existing, incoming)[p] == incoming[j]
  {
    var x := incoming[j];
    KeyNotMerged(key, existing, incoming[..j], x);
    MergeSnoc(key, existing, incoming[..j], x);
    assert incoming[..j] + [x] == incoming[..j + 1];
    MergeCompose(key, existing, incoming[..j + 1], incoming[j + 1..]);
    assert incoming[..j + 1] + incoming[j + 1..] == incoming;
  }

  /** A key that neither the existing list nor the incoming items carry is not in the merge. */
  lemma KeyNotMerged<T, K>(key: T -> K, existing: seq<T>, incoming: seq<T>, x: T)
    requires key(x) !in Keys(key, existing)
    requires forall i :: 0 <= i < |incoming| ==> key(incoming[i]) != key(x)
    ensures key(x) !in Keys(key, Merge(key, existing, incoming))
  {
    var merged := Merge(key, existing, incoming);
    forall k | k in Keys(key, merged) ensures k != key(x) {
      var i := KeyWitness(key, merged, k);
      if i < |existing| {
        assert merged[i] == existing[i];
      } else {
        MergeShape(key, existing, incoming);
        SubsequenceMembers(merged[|existing|..], incoming);
        assert merged[i] in merged[|existing|..];
      }
    }
  }

  /** Merging into nothing yields pairwise different keys. */
  lemma MergeDistinct<T, K>(key: T -> K, incoming: seq<T>)
    ensures var r := Merge(key, [], incoming);
            forall i, j :: 0 <= i < j < |r| ==> key(r[i]) != key(r[j])
  {
    var r := Merge(key, [], incoming);
    MergeFresh(key, [], incoming);
    forall i, j | 0 <= i < j < |r| ensures key(r[i]) != key(r[j]) {
      assert r[..j][i] == r[i];
    }
  }
}
