/**
 * Python's `<` on `str`: lexicographic by code point, a proper prefix being
 * smaller. This is the order in which a pandas `groupby` hands out its keys.
 */
module StringOrder {

  /** Nothing sorts before the empty string, and the first characters are in order. */
  predicate Less(a: string, b: string)
    ensures Less(a, b) ==> |b| > 0
    ensures Less(a, b) && |a| > 0 ==> a[0] <= b[0]
    decreases |a|
  {
    if |a| == 0 then |b| > 0
    else if |b| == 0 then false
    else if a[0] != b[0] then a[0] < b[0]
    else Less(a[1..], b[1..])
  }

  lemma {:induction false} LessIrreflexive(a: string)
    ensures !Less(a, a)
    decreases |a|
  {
    if |a| > 0 {
      LessIrreflexive(a[1..]);
    }
  }

  lemma {:induction false} LessTransitive(a: string, b: string, c: string)
    requires Less(a, b) && Less(b, c)
    ensures Less(a, c)
    decreases |a|
  {
    if |a| > 0 && a[0] == b[0] && b[0] == c[0] {
      LessTransitive(a[1..], b[1..], c[1..]);
    }
  }

  lemma {:induction false} LessTotal(a: string, b: string)
    requires a != b
    ensures Less(a, b) || Less(b, a)
    decreases |a|
  {
    if |a| > 0 && |b| > 0 && a[0] == b[0] {
      assert a == [a[0]] + a[1..] && b == [b[0]] + b[1..];
      LessTotal(a[1..], b[1..]);
    }
  }

  lemma LessAsymmetric(a: string, b: string)
    requires Less(a, b)
    ensures !Less(b, a)
  {
    if Less(b, a) {
      LessTransitive(a, b, a);
      LessIrreflexive(a);
    }
  }

  /** Strictly ascending; in particular free of duplicates. */
  predicate StrictlySorted(ks: seq<string>) {
    forall i, j :: 0 <= i < j < |ks| ==> Less(ks[i], ks[j])
  }

  lemma SortedDistinct(ks: seq<string>, i: nat, j: nat)
    requires StrictlySorted(ks)
    requires i < |ks| && j < |ks| && i != j
    ensures ks[i] != ks[j]
  {
    if i < j { LessIrreflexive(ks[i]); } else { LessIrreflexive(ks[j]); }
  }

  /**
   * Adds `k` to a strictly ascending sequence of keys, at its place, unless
   * it is already there.
   */
  function Insert(ks: seq<string>, k: string): (r: seq<string>)
    requires StrictlySorted(ks)
    ensures StrictlySorted(r)
    ensures forall x :: x in r <==> x in ks || x == k
  {
    if ks == [] then [k]
    else if k == ks[0] then ks
    else if Less(k, ks[0]) then
      assert forall j :: 0 < j < |ks| ==> Less(k, ks[j]) by {
        forall j | 0 < j < |ks| ensures Less(k, ks[j]) { LessTransitive(k, ks[0], ks[j]); }
      }
      [k] + ks
    else
      LessTotal(k, ks[0]);
      var tail := Insert(ks[1..], k);
      assert forall j :: 0 <= j < |tail| ==> Less(ks[0], tail[j]) by {
        forall j | 0 <= j < |tail| ensures Less(ks[0], tail[j]) {
          assert tail[j] in tail;
          if tail[j] != k {
            var m :| 0 <= m < |ks| - 1 && ks[1..][m] == tail[j];
            assert ks[m + 1] == tail[j];
          }
        }
      }
      [ks[0]] + tail
  }

  /** The number of distinct values in a duplicate-free sequence is its length. */
  lemma {:induction false} SortedCardinality(ks: seq<string>)
    requires StrictlySorted(ks)
    ensures |set x | x in ks| == |ks|
  {
    if ks != [] {
      var init := ks[..|ks| - 1];
      var last := ks[|ks| - 1];
      assert StrictlySorted(init);
      SortedCardinality(init);
      assert last !in init by {
        forall m | 0 <= m < |init| ensures init[m] != last {
          SortedDistinct(ks, m, |ks| - 1);
        }
      }
      assert ks == init + [last];
      assert (set x | x in ks) == (set x | x in init) + {last};
    }
  }
}
