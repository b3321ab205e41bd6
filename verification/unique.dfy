/** `Itertools::unique_by` and `Itertools::unique`: keep, in order, the first
    element of each key and drop every later element whose key was already seen. */
module Unique {

  /** The iterator adaptor, run with the set of keys already seen. */
  function UniqueFrom<T, K(==)>(xs: seq<T>, key: T -> K, seen: set<K>): (r: seq<T>)
    ensures |r| <= |xs|
    ensures 0 < |xs| && key(xs[0]) !in seen ==> 0 < |r| && r[0] == xs[0]
  {
    if |xs| == 0 then []
    else if key(xs[0]) in seen then UniqueFrom(xs[1..], key, seen)
    else [xs[0]] + UniqueFrom(xs[1..], key, seen + {key(xs[0])})
  }

  function UniqueBy<T, K(==)>(xs: seq<T>, key: T -> K): seq<T>
  {
    UniqueFrom(xs, key, {})
  }

  function Id<T>(x: T): T { x }

  function Distinct<T(==)>(xs: seq<T>): seq<T>
  {
    UniqueBy(xs, Id)
  }

  /** Position i of xs holds the first element with its key. */
  ghost predicate FirstOfKey<T, K>(xs: seq<T>, key: T -> K, i: int)
    requires 0 <= i < |xs|
  {
    forall j :: 0 <= j < i ==> key(xs[j]) != key(xs[i])
  }

  /** a is b with some elements left out, the rest kept in order. */
  ghost predicate IsSubsequence<T>(a: seq<T>, b: seq<T>)
    decreases |b|
  {
    |a| == 0 || (|b| > 0 && ((a[0] == b[0] && IsSubsequence(a[1..], b[1..])) || IsSubsequence(a, b[1..])))
  }

  /** No element of r has a key in `seen`. */
  ghost predicate AvoidsKeys<T, K>(r: seq<T>, key: T -> K, seen: set<K>) {
    forall k :: 0 <= k < |r| ==> key(r[k]) !in seen
  }

  /** No two elements of r share a key. */
  ghost predicate KeysDistinct<T, K>(r: seq<T>, key: T -> K) {
    forall a, b :: 0 <= a < b < |r| ==> key(r[a]) != key(r[b])
  }

  /** Every element of r is the first element of xs with its key. */
  ghost predicate FirstOccurrences<T, K>(r: seq<T>, xs: seq<T>, key: T -> K) {
    forall k :: 0 <= k < |r| ==> IsFirstOccurrence(r[k], xs, key)
  }

  /** x is the first element of xs with its key. */
  ghost predicate IsFirstOccurrence<T, K>(x: T, xs: seq<T>, key: T -> K) {
    exists i :: 0 <= i < |xs| && x == xs[i] && FirstOfKey(xs, key, i)
  }

  /** Every key of xs outside `seen` is the key of some element of r. */
  ghost predicate CoversKeys<T, K>(r: seq<T>, xs: seq<T>, key: T -> K, seen: set<K>) {
    forall i :: 0 <= i < |xs| ==> key(xs[i]) in seen || exists k :: 0 <= k < |r| && key(r[k]) == key(xs[i])
  }

  /** The adaptor yields a subsequence of its input. */
  lemma {:induction false} UniqueFromIsSubsequence<T, K>(xs: seq<T>, key: T -> K, seen: set<K>)
    ensures IsSubsequence(UniqueFrom(xs, key, seen), xs)
  {
    if |xs| > 0 {
      var r := UniqueFrom(xs, key, seen);
      if key(xs[0]) in seen {
        UniqueFromIsSubsequence(xs[1..], key, seen);
      } else {
        UniqueFromIsSubsequence(xs[1..], key, seen + {key(xs[0])});
        assert r[0] == xs[0] && r[1..] == UniqueFrom(xs[1..], key, seen + {key(xs[0])});
      }
    }
  }

  /** No yielded element has a key from `seen`, and no two yielded elements share a key. */
  lemma {:induction false} UniqueFromKeysDistinct<T, K>(xs: seq<T>, key: T -> K, seen: set<K>)
    ensures AvoidsKeys(UniqueFrom(xs, key, seen), key, seen)
    ensures KeysDistinct(UniqueFrom(xs, key, seen), key)
  {
    if |xs| > 0 {
      var r := UniqueFrom(xs, key, seen);
      if key(xs[0]) in seen {
        UniqueFromKeysDistinct(xs[1..], key, seen);
      } else {
        var seen' := seen + {key(xs[0])};
        var rest := UniqueFrom(xs[1..], key, seen');
        UniqueFromKeysDistinct(xs[1..], key, seen');
        assert r == [xs[0]] + rest;
        forall k | 0 <= k < |r| ensures key(r[k]) !in seen {
          if k > 0 { assert r[k] == rest[k - 1]; }
        }
        forall a, b | 0 <= a < b < |r| ensures key(r[a]) != key(r[b]) {
          assert r[b] == rest[b - 1];
          if a > 0 { assert r[a] == rest[a - 1]; }
        }
      }
    }
  }

  /** A first occurrence in the tail whose key differs from the head's is a
      first occurrence in the whole sequence. */
  lemma FirstOfKeyShift<T, K>(xs: seq<T>, key: T -> K, i: nat)
    requires i + 1 < |xs| && FirstOfKey(xs[1..], key, i) && key(xs[0]) != key(xs[i + 1])
    ensures FirstOfKey(xs, key, i + 1)
  {
    forall j | 0 <= j < i + 1 ensures key(xs[j]) != key(xs[i + 1]) {
      if j > 0 {
        assert xs[j] == xs[1..][j - 1] && xs[i + 1] == xs[1..][i];
      }
    }
  }

  /** Every yielded element is the first element of xs with its key. */
  lemma {:induction false} UniqueFromFirstOccurrences<T, K>(xs: seq<T>, key: T -> K, seen: set<K>)
    ensures FirstOccurrences(UniqueFrom(xs, key, seen), xs, key)
  {
    if |xs| > 0 {
      var tail := xs[1..];
      var r := UniqueFrom(xs, key, seen);
      var seen' := if key(xs[0]) in seen then seen else seen + {key(xs[0])};
      var skip := if key(xs[0]) in seen then 0 else 1;
      var rest := UniqueFrom(tail, key, seen');
      UniqueFromFirstOccurrences(tail, key, seen');
      UniqueFromKeysDistinct(tail, key, seen');
      assert r[skip..] == rest;
      forall k | 0 <= k < |r|
        ensures IsFirstOccurrence(r[k], xs, key)
      {
        if k < skip {
          assert r[0] == xs[0] && FirstOfKey(xs, key, 0);
        } else {
          assert r[k] == rest[k - skip];
          assert IsFirstOccurrence(rest[k - skip], tail, key);
          var i' :| 0 <= i' < |tail| && rest[k - skip] == tail[i'] && FirstOfKey(tail, key, i');
          assert key(rest[k - skip]) !in seen' && key(xs[0]) in seen' + seen;
          FirstOfKeyShift(xs, key, i');
          assert 0 <= i' + 1 < |xs| && r[k] == xs[i' + 1] && FirstOfKey(xs, key, i' + 1);
        }
      }
    }
  }

  /** Every key of xs not already in `seen` has a yielded representative. */
  lemma {:induction false} UniqueFromCovers<T, K>(xs: seq<T>, key: T -> K, seen: set<K>)
    ensures CoversKeys(UniqueFrom(xs, key, seen), xs, key, seen)
  {
    if |xs| > 0 {
      var tail := xs[1..];
      var r := UniqueFrom(xs, key, seen);
      var seen' := if key(xs[0]) in seen then seen else seen + {key(xs[0])};
      var skip := if key(xs[0]) in seen then 0 else 1;
      var rest := UniqueFrom(tail, key, seen');
      UniqueFromCovers(tail, key, seen');
      assert r[skip..] == rest;
      forall i | 0 <= i < |xs|
        ensures key(xs[i]) in seen || exists k :: 0 <= k < |r| && key(r[k]) == key(xs[i])
      {
        if key(xs[i]) !in seen {
          if key(xs[i]) == key(xs[0]) {
            assert key(r[0]) == key(xs[i]);
          } else {
            assert xs[i] == tail[i - 1];
            var k' :| 0 <= k' < |rest| && key(rest[k']) == key(tail[i - 1]);
            assert key(r[k' + skip]) == key(xs[i]);
          }
        }
      }
    }
  }

  /** What the adaptor yields as used, starting with no key seen: a subsequence of
      xs, made of first occurrences, with pairwise distinct keys and a
      representative for every key of xs. */
  lemma UniqueByProperties<T, K>(xs: seq<T>, key: T -> K)
    ensures IsSubsequence(UniqueBy(xs, key), xs)
    ensures KeysDistinct(UniqueBy(xs, key), key)
    ensures FirstOccurrences(UniqueBy(xs, key), xs, key)
    ensures CoversKeys(UniqueBy(xs, key), xs, key, {})
  {
    UniqueFromIsSubsequence(xs, key, {});
    UniqueFromKeysDistinct(xs, key, {});
    UniqueFromFirstOccurrences(xs, key, {});
    UniqueFromCovers(xs, key, {});
  }
}
