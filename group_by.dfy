/**
 * get_min_or_max_value_in_column_by_group:
 * `dataframe.groupby(group_by_column)[calc_column].transform(calc_type)`.
 * Every row receives the minimum (or maximum) of the calcType column over all
 * rows sharing its group key, aligned row by row with the input. The two
 * columns are given as aligned sequences.
 */
module GroupBy {
  import opened Wrappers

  /** The calc_type argument: 'min' or 'max'. */
  datatype CalcType = Min | Max

  /** `a` is at least as extreme as `b` in the direction of `calcType`. */
  predicate Prefers(calcType: CalcType, a: int, b: int)
  {
    match calcType
    case Min => a <= b
    case Max => a >= b
  }

  /** The more extreme of two values. */
  function Pick(calcType: CalcType, a: int, b: int): (c: int)
    ensures c == a || c == b
    ensures Prefers(calcType, c, a) && Prefers(calcType, c, b)
  {
    match calcType
    case Min => if a <= b then a else b
    case Max => if a >= b then a else b
  }

  /**
   * One pass over the first n rows, keeping for each key seen so far the row that
   * holds its running extreme (the first such row on ties). Every key among
   * those rows is in the map, and it maps to one of those rows with that key
   * whose calc value is preferred to that of every such row.
   */
  function Winners(keys: seq<int>, values: seq<int>, calcType: CalcType, n: nat): (w: map<int, nat>)
    requires |keys| == |values| && n <= |keys|
    ensures WinnersOf(keys, values, calcType, n, w)
  {
    if n == 0 then map[]
    else
      var seen := Winners(keys, values, calcType, n - 1);
      var k := keys[n - 1];
      var w := seen[k := if k in seen && Prefers(calcType, values[seen[k]], values[n - 1]) then seen[k] else n - 1];
      WinnersStep(keys, values, calcType, n, seen);
      w
  }

  /**
   * `w` maps every key among the first n rows to one of those rows with
   * that key, whose calc value is preferred to that of every such row.
   */
  predicate WinnersOf(keys: seq<int>, values: seq<int>, calcType: CalcType, n: nat, w: map<int, nat>)
    requires |keys| == |values| && n <= |keys|
  {
    && (forall k :: k in w ==> w[k] < n && keys[w[k]] == k)
    && (forall i :: 0 <= i < n ==>
          keys[i] in w && w[keys[i]] < n && Prefers(calcType, values[w[keys[i]]], values[i]))
  }

  /** One step of the pass: folding in row n - 1 keeps the winners correct. */
  lemma WinnersStep(keys: seq<int>, values: seq<int>, calcType: CalcType, n: nat, seen: map<int, nat>)
    requires |keys| == |values| && 0 < n <= |keys|
    requires WinnersOf(keys, values, calcType, n - 1, seen)
    ensures var k := keys[n - 1];
            WinnersOf(keys, values, calcType, n,
                      seen[k := if k in seen && Prefers(calcType, values[seen[k]], values[n - 1]) then seen[k] else n - 1])
  {
    var k := keys[n - 1];
    var best := if k in seen && Prefers(calcType, values[seen[k]], values[n - 1]) then seen[k] else n - 1;
    var w := seen[k := best];
    forall i | 0 <= i < n
      ensures keys[i] in w && w[keys[i]] < n && Prefers(calcType, values[w[keys[i]]], values[i])
    {
      if keys[i] == k && i < n - 1 && best == n - 1 {
        assert !Prefers(calcType, values[seen[k]], values[n - 1]);
        assert Prefers(calcType, values[seen[k]], values[i]);
      }
    }
  }

  /**
   * The group transform: one value per row, aligned with the input; rows
   * sharing a key get the same value, which is the calc value of some row of
   * that group and is preferred to the calc value of every row of the group.
   */
  function GetMinOrMaxValueInColumnByGroup(keys: seq<int>, values: seq<int>, calcType: CalcType): (r: seq<int>)
    requires |keys| == |values|
    ensures |r| == |keys|
    ensures forall i, j {:trigger r[i], r[j]} ::
              0 <= i < |keys| && 0 <= j < |keys| && keys[i] == keys[j] ==> r[i] == r[j]
    ensures forall i, j {:trigger r[i], values[j]} ::
              0 <= i < |keys| && 0 <= j < |keys| && keys[j] == keys[i] ==> Prefers(calcType, r[i], values[j])
    ensures forall i {:trigger r[i]} ::
              0 <= i < |keys| ==> exists j :: 0 <= j < |keys| && keys[j] == keys[i] && r[i] == values[j]
  {
    var w := Winners(keys, values, calcType, |keys|);
    seq(|keys|, i requires 0 <= i < |keys| => values[w[keys[i]]])
  }

  /**
   * The reference definition: the extreme of one group by a scan over all
   * rows; absent when no row has that key.
   */
  function GroupExtreme(keys: seq<int>, values: seq<int>, calcType: CalcType, k: int): (e: Option<int>)
    requires |keys| == |values|
    ensures e.None? <==> forall i :: 0 <= i < |keys| ==> keys[i] != k
    ensures e.Some? ==> exists i :: 0 <= i < |keys| && keys[i] == k && values[i] == e.value
    ensures e.Some? ==> forall i :: 0 <= i < |keys| && keys[i] == k ==> Prefers(calcType, e.value, values[i])
  {
    if keys == [] then None
    else
      var tail := GroupExtreme(keys[1..], values[1..], calcType, k);
      if keys[0] != k then tail
      else if tail.None? then Some(values[0])
      else Some(Pick(calcType, values[0], tail.value))
  }

  /** The single-pass transform agrees with the per-group scan on every row. */
  lemma GroupTransformMatchesScan(keys: seq<int>, values: seq<int>, calcType: CalcType, i: int)
    requires |keys| == |values| && 0 <= i < |keys|
    ensures GroupExtreme(keys, values, calcType, keys[i]) == Some(GetMinOrMaxValueInColumnByGroup(keys, values, calcType)[i])
  {
    var r := GetMinOrMaxValueInColumnByGroup(keys, values, calcType);
    var e := GroupExtreme(keys, values, calcType, keys[i]);
    var j :| 0 <= j < |keys| && keys[j] == keys[i] && r[i] == values[j];
    var j' :| 0 <= j' < |keys| && keys[j'] == keys[i] && values[j'] == e.value;
    assert Prefers(calcType, r[i], values[j']) && Prefers(calcType, e.value, values[j]);
  }
}
