/**
 * `master_df.groupby('EmpID')`: the cleaned rows split by their EmpID. The
 * keys come out in ascending order, each group keeps the rows of its key in
 * their source order.
 */
module Grouping {
  import opened Tables
  import opened StringOrder

  /** The grouping key of a cleaned row: the string in its EmpID column (column 0). */
  function KeyOf(row: Row): string {
    if |row| == 0 then "" else AsStr(row[0])
  }

  /** The set of keys occurring in `rows`. */
  function Keys(rows: seq<Row>): set<string> {
    set i | 0 <= i < |rows| :: KeyOf(rows[i])
  }

  /** The distinct keys of `rows`, ascending. */
  function GroupKeys(rows: seq<Row>): (ks: seq<string>)
    ensures StrictlySorted(ks)
    ensures forall x :: x in ks <==> x in Keys(rows)
  {
    if rows == [] then []
    else
      var init := rows[..|rows| - 1];
      var last := rows[|rows| - 1];
      assert Keys(rows) == Keys(init) + {KeyOf(last)} by {
        forall i | 0 <= i < |init| ensures init[i] == rows[i] {}
        assert KeyOf(rows[|rows| - 1]) in Keys(rows);
        forall x | x in Keys(rows) ensures x in Keys(init) + {KeyOf(last)} {
          var i :| 0 <= i < |rows| && KeyOf(rows[i]) == x;
          if i < |init| { assert KeyOf(init[i]) in Keys(init); }
        }
        forall x | x in Keys(init) ensures x in Keys(rows) {
          var i :| 0 <= i < |init| && KeyOf(init[i]) == x;
          assert KeyOf(rows[i]) in Keys(rows);
        }
      }
      Insert(GroupKeys(init), KeyOf(last))
  }

  /** The group of key `k`: the rows whose key is `k`, in source order. */
  function Group(rows: seq<Row>, k: string): (g: seq<Row>)
    ensures forall x :: x in g <==> x in rows && KeyOf(x) == k
  {
    if rows == [] then []
    else
      var init := rows[..|rows| - 1];
      var last := rows[|rows| - 1];
      assert rows == init + [last];
      Group(init, k) + if KeyOf(last) == k then [last] else []
  }

  /** The indices of the rows whose key is `k`. */
  function Positions(rows: seq<Row>, k: string): (ps: seq<nat>)
    ensures forall j :: 0 <= j < |ps| ==> ps[j] < |rows|
    ensures forall j, j' :: 0 <= j < j' < |ps| ==> ps[j] < ps[j']
    ensures forall i :: 0 <= i < |rows| ==> (i in ps <==> KeyOf(rows[i]) == k)
  {
    if rows == [] then []
    else
      var n := |rows| - 1;
      var ps := Positions(rows[..n], k);
      assert forall i :: 0 <= i < n ==> rows[..n][i] == rows[i];
      ps + if KeyOf(rows[n]) == k then [n] else []
  }

  /**
   * The group of `k` is the rows at the positions of `k`, in increasing
   * position order: grouping keeps the source order and loses no row of `k`.
   */
  lemma {:induction false} GroupInSourceOrder(rows: seq<Row>, k: string)
    ensures |Group(rows, k)| == |Positions(rows, k)|
    ensures forall j :: 0 <= j < |Group(rows, k)| ==> Group(rows, k)[j] == rows[Positions(rows, k)[j]]
  {
    if rows != [] {
      var n := |rows| - 1;
      GroupInSourceOrder(rows[..n], k);
    }
  }

  /** Every row lies in the group of exactly one key, the key of the row. */
  lemma RowInOneGroup(rows: seq<Row>, i: nat)
    requires i < |rows|
    ensures KeyOf(rows[i]) in GroupKeys(rows)
    ensures forall k :: k in GroupKeys(rows) ==> (i in Positions(rows, k) <==> k == KeyOf(rows[i]))
  {
    assert KeyOf(rows[i]) in Keys(rows);
  }

  /** The sizes of the groups of `ks`, added up. */
  function SumSizes(rows: seq<Row>, ks: seq<string>): nat {
    if ks == [] then 0 else SumSizes(rows, ks[..|ks| - 1]) + |Group(rows, ks[|ks| - 1])|
  }

  /** How often `x` occurs in `ks`. */
  function Occurrences(ks: seq<string>, x: string): nat {
    if ks == [] then 0 else Occurrences(ks[..|ks| - 1], x) + if ks[|ks| - 1] == x then 1 else 0
  }

  lemma {:induction false} SumSizesSnoc(rows: seq<Row>, last: Row, ks: seq<string>)
    ensures SumSizes(rows + [last], ks) == SumSizes(rows, ks) + Occurrences(ks, KeyOf(last))
  {
    if ks != [] {
      SumSizesSnoc(rows, last, ks[..|ks| - 1]);
      var rs := rows + [last];
      assert rs[..|rs| - 1] == rows;
    }
  }

  lemma {:induction false} OccurrencesSorted(ks: seq<string>, x: string)
    requires StrictlySorted(ks)
    ensures Occurrences(ks, x) == if x in ks then 1 else 0
  {
    if ks != [] {
      var init := ks[..|ks| - 1];
      OccurrencesSorted(init, x);
      if ks[|ks| - 1] == x {
        forall m | 0 <= m < |init| ensures init[m] != x {
          SortedDistinct(ks, m, |ks| - 1);
        }
      }
      assert ks == init + [ks[|ks| - 1]];
    }
  }

  /** Over distinct keys covering every row, the group sizes add up to the row count. */
  lemma {:induction false} SumSizesCover(rows: seq<Row>, ks: seq<string>)
    requires StrictlySorted(ks)
    requires forall i :: 0 <= i < |rows| ==> KeyOf(rows[i]) in ks
    ensures SumSizes(rows, ks) == |rows|
  {
    if rows == [] {
      SumSizesEmpty(ks);
    } else {
      var init := rows[..|rows| - 1];
      var last := rows[|rows| - 1];
      assert rows == init + [last];
      SumSizesCover(init, ks);
      SumSizesSnoc(init, last, ks);
      OccurrencesSorted(ks, KeyOf(last));
    }
  }

  lemma {:induction false} SumSizesEmpty(ks: seq<string>)
    ensures SumSizes([], ks) == 0
  {
    if ks != [] {
      SumSizesEmpty(ks[..|ks| - 1]);
    }
  }

  /** The groups handed out by `groupby` hold all the rows between them. */
  lemma GroupSizesSum(rows: seq<Row>)
    ensures SumSizes(rows, GroupKeys(rows)) == |rows|
  {
    var ks := GroupKeys(rows);
    forall i | 0 <= i < |rows| ensures KeyOf(rows[i]) in ks {
      RowInOneGroup(rows, i);
    }
    SumSizesCover(rows, ks);
  }

  /** Each key names a group with at least one row. */
  lemma GroupNonEmpty(rows: seq<Row>, k: string)
    requires k in GroupKeys(rows)
    ensures |Group(rows, k)| > 0
  {
    assert k in Keys(rows);
    var i :| 0 <= i < |rows| && KeyOf(rows[i]) == k;
    assert rows[i] in Group(rows, k);
  }

  /** There are as many groups as distinct keys. */
  lemma GroupCount(rows: seq<Row>)
    ensures |GroupKeys(rows)| == |Keys(rows)|
  {
    var ks := GroupKeys(rows);
    SortedCardinality(ks);
    assert (set x | x in ks) == Keys(rows);
  }
}
