/** Lexicographic comparison, once for the strings, the lists and the triples of version numbers. */
module Lexicographic {
  /** The first difference decides; a proper prefix comes first. */
  predicate LexLess<T(==)>(less: (T, T) -> bool, a: seq<T>, b: seq<T>) {
    if |a| == 0 || |b| == 0 then |a| < |b|
    else if a[0] == b[0] then LexLess(less, a[1..], b[1..])
    else less(a[0], b[0])
  }

  ghost predicate DecidesAt<T>(less: (T, T) -> bool, a: seq<T>, b: seq<T>, k: nat) {
    && k <= |a| && k <= |b|
    && a[..k] == b[..k]
    && (k == |a| < |b| || (k < |a| && k < |b| && a[k] != b[k] && less(a[k], b[k])))
  }

  lemma PrefixesShareHeads<T>(a: seq<T>, b: seq<T>, k: nat)
    requires k <= |a| && k <= |b| && a[..k] == b[..k]
    ensures k > 0 ==> a[0] == b[0]
  {
    if k > 0 {
      assert a[..k][0] == b[..k][0];
    }
  }

  /** The comparison is decided at the first difference, as its name says. */
  lemma {:induction false} LexLessMeaning<T>(less: (T, T) -> bool, a: seq<T>, b: seq<T>)
    ensures LexLess(less, a, b) <==> exists k :: DecidesAt(less, a, b, k)
  {
    if |a| == 0 || |b| == 0 {
      assert |a| < |b| ==> DecidesAt(less, a, b, 0);
    } else if a[0] == b[0] {
      LexLessMeaning(less, a[1..], b[1..]);
      forall k: nat ensures DecidesAt(less, a[1..], b[1..], k) <==> DecidesAt(less, a, b, k + 1) {
        if k < |a| && k < |b| {
          assert a[..k + 1] == [a[0]] + a[1..][..k] && b[..k + 1] == [b[0]] + b[1..][..k];
          assert a[1..][..k] == a[..k + 1][1..] && b[1..][..k] == b[..k + 1][1..];
        }
      }
      assert !DecidesAt(less, a, b, 0);
      forall k: nat | DecidesAt(less, a, b, k) ensures LexLess(less, a, b) {
        assert DecidesAt(less, a[1..], b[1..], k - 1);
      }
    } else {
      assert less(a[0], b[0]) ==> DecidesAt(less, a, b, 0);
      forall k: nat | DecidesAt(less, a, b, k) ensures k == 0 {
        PrefixesShareHeads(a, b, k);
      }
    }
  }

  ghost predicate IsStrictTotalOrder<T(!new)>(less: (T, T) -> bool, valid: T -> bool) {
    && (forall x :: valid(x) ==> !less(x, x))
    && (forall x, y :: valid(x) && valid(y) ==> x == y || less(x, y) || less(y, x))
    && (forall x, y, z :: valid(x) && valid(y) && valid(z) && less(x, y) && less(y, z) ==> less(x, z))
  }

  ghost predicate All<T>(valid: T -> bool, s: seq<T>) { forall i :: 0 <= i < |s| ==> valid(s[i]) }

  lemma {:induction false} LexTrichotomy<T(!new)>(less: (T, T) -> bool, valid: T -> bool, a: seq<T>, b: seq<T>)
    requires IsStrictTotalOrder(less, valid) && All(valid, a) && All(valid, b)
    ensures a == b || LexLess(less, a, b) || LexLess(less, b, a)
    ensures !(LexLess(less, a, b) && LexLess(less, b, a))
    ensures a == b ==> !LexLess(less, a, b)
  {
    if |a| > 0 && |b| > 0 && a[0] == b[0] {
      LexTrichotomy(less, valid, a[1..], b[1..]);
      assert a == [a[0]] + a[1..] && b == [b[0]] + b[1..];
    }
  }

  lemma {:induction false} LexTransitive<T(!new)>(less: (T, T) -> bool, valid: T -> bool, a: seq<T>, b: seq<T>,
                                           c: seq<T>)
    requires IsStrictTotalOrder(less, valid) && All(valid, a) && All(valid, b) && All(valid, c)
    requires LexLess(less, a, b) && LexLess(less, b, c)
    ensures LexLess(less, a, c)
  {
    if |a| > 0 && a[0] == b[0] == c[0] {
      LexTransitive(less, valid, a[1..], b[1..], c[1..]);
    }
  }
}
