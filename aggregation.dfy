/**
 * The temperature aggregation step of `fetchOutdoorTemperature`: keep the sensor
 * entries that carry a numeric `value`, average them and round the mean to a
 * whole degree, half away from zero (C's `round`).
 *
 * Sensor values are exact reals here; the source sums single-precision floats.
 */
module Aggregation {
  import opened Wrappers

  /** One element of the decoded `sensors` array. */
  datatype Reading =
    | NoValueKey      // the entry has no `value` key
    | NaNValue        // `value` converts to NaN
    | Value(v: real)  // `value` converts to a number

  /** A real that is an integer. */
  predicate IsWhole(x: real) {
    x == x.Floor as real
  }

  /**
   * C's `round`: the nearest integer, with halves rounded away from zero.
   * The three postconditions determine the result uniquely.
   */
  function RoundHalfAwayFromZero(x: real): (r: int)
    ensures -0.5 <= r as real - x <= 0.5
    ensures r as real - x == 0.5 ==> x > 0.0
    ensures x - r as real == 0.5 ==> x < 0.0
  {
    if x >= 0.0 then (x + 0.5).Floor else -((0.5 - x).Floor)
  }

  /** The numeric values of `entries`, in order; entries without a usable value are skipped. */
  function ValidValues(entries: seq<Reading>): (vs: seq<real>)
    ensures |vs| <= |entries|
  {
    if entries == [] then []
    else
      var init := entries[..|entries| - 1];
      match entries[|entries| - 1]
      case Value(v) => ValidValues(init) + [v]
      case _ => ValidValues(init)
  }

  /** A number is a usable value exactly when some entry carries it. */
  lemma {:induction false} ValidValuesMembers(entries: seq<Reading>)
    ensures forall v :: v in ValidValues(entries) <==> Value(v) in entries
  {
    if entries != [] {
      var init := entries[..|entries| - 1];
      assert entries == init + [entries[|entries| - 1]];
      ValidValuesMembers(init);
    }
  }

  /** The sum of `vs`, accumulated from the front as the source's loop does. */
  function Sum(vs: seq<real>): (total: real) {
    if vs == [] then 0.0 else Sum(vs[..|vs| - 1]) + vs[|vs| - 1]
  }

  function Mean(vs: seq<real>): (m: real)
    requires |vs| > 0
  {
    Sum(vs) / |vs| as real
  }

  /**
   * The whole-degree temperature the sensors report: the rounded mean of the
   * valid values, or None when no entry has a usable value.
   */
  function Aggregate(entries: seq<Reading>): (t: Option<int>)
    ensures t.None? <==> forall i :: 0 <= i < |entries| ==> !entries[i].Value?
  {
    var vs := ValidValues(entries);
    ValidValuesMembers(entries);
    assert vs != [] ==> Value(vs[0]) in entries;
    assert forall i :: 0 <= i < |entries| && entries[i].Value? ==> entries[i].v in vs;
    if |vs| == 0 then None else Some(RoundHalfAwayFromZero(Mean(vs)))
  }

  lemma {:induction false} ValidValuesAppend(a: seq<Reading>, b: seq<Reading>)
    ensures ValidValues(a + b) == ValidValues(a) + ValidValues(b)
  {
    if b == [] {
      assert a + b == a;
    } else {
      var n := |b|;
      assert (a + b)[..|a + b| - 1] == a + b[..n - 1];
      assert (a + b)[|a + b| - 1] == b[n - 1];
      ValidValuesAppend(a, b[..n - 1]);
    }
  }

  lemma {:induction false} SumAppend(a: seq<real>, b: seq<real>)
    ensures Sum(a + b) == Sum(a) + Sum(b)
  {
    if b == [] {
      assert a + b == a;
    } else {
      var n := |b|;
      assert (a + b)[..|a + b| - 1] == a + b[..n - 1];
      assert (a + b)[|a + b| - 1] == b[n - 1];
      SumAppend(a, b[..n - 1]);
    }
  }

  /** An entry without a usable value does not change the result, wherever it stands. */
  lemma InvalidEntryIgnored(a: seq<Reading>, x: Reading, b: seq<Reading>)
    requires !x.Value?
    ensures Aggregate(a + [x] + b) == Aggregate(a + b)
  {
    ValidValuesAppend(a + [x], b);
    ValidValuesAppend(a, [x]);
    ValidValuesAppend(a, b);
    assert ValidValues([x]) == [] by {
      assert [x][..0] == [];
    }
    assert ValidValues(a + [x] + b) == ValidValues(a + b);
  }

  /** The result depends on the usable values only through their sum and their count. */
  lemma AggregateBySumAndCount(e1: seq<Reading>, e2: seq<Reading>)
    requires |ValidValues(e1)| == |ValidValues(e2)|
    requires Sum(ValidValues(e1)) == Sum(ValidValues(e2))
    ensures Aggregate(e1) == Aggregate(e2)
  {
  }

  /** Taking one entry out of the middle of an array removes exactly its contribution. */
  lemma TakeOut(a: seq<Reading>, x: Reading, b: seq<Reading>)
    ensures |ValidValues(a + [x] + b)| == |ValidValues(a + b)| + |ValidValues([x])|
    ensures Sum(ValidValues(a + [x] + b)) == Sum(ValidValues(a + b)) + Sum(ValidValues([x]))
  {
    ValidValuesAppend(a, b);
    ValidValuesAppend(a + [x], b);
    ValidValuesAppend(a, [x]);
    var va, vx, vb := ValidValues(a), ValidValues([x]), ValidValues(b);
    SumAppend(va, vb);
    SumAppend(va + vx, vb);
    SumAppend(va, vx);
  }

  lemma MultisetTakeOut(init: seq<Reading>, x: Reading, a: seq<Reading>, b: seq<Reading>)
    requires multiset(init + [x]) == multiset(a + [x] + b)
    ensures multiset(init) == multiset(a + b)
  {
    assert multiset(init) == multiset(init + [x]) - multiset{x};
    assert multiset(a + b) == multiset(a + [x] + b) - multiset{x};
  }

  /**
   * Permuting the entries keeps the count and the sum of the usable values.
   * The last entry of `e1` is found somewhere in `e2`; removing it from both
   * leaves two permutations of each other.
   */
  lemma {:induction false} PermutationKeepsSumAndCount(e1: seq<Reading>, e2: seq<Reading>)
    requires multiset(e1) == multiset(e2)
    ensures |ValidValues(e1)| == |ValidValues(e2)|
    ensures Sum(ValidValues(e1)) == Sum(ValidValues(e2))
    decreases |e1|
  {
    if e1 == [] {
      assert |e2| == |multiset(e2)| == 0;
    } else {
      var n := |e1|;
      var init, x := e1[..n - 1], e1[n - 1];
      assert e1 == init + [x];
      assert x in multiset(e2);
      assert x in e2;
      var j :| 0 <= j < |e2| && e2[j] == x;
      var a, b := e2[..j], e2[j + 1..];
      assert e2 == a + [x] + b;
      MultisetTakeOut(init, x, a, b);
      PermutationKeepsSumAndCount(init, a + b);
      ValidValuesAppend(init, [x]);
      SumAppend(ValidValues(init), ValidValues([x]));
      TakeOut(a, x, b);
    }
  }

  /** The order of the sensors in the array does not matter: any permutation gives the same result. */
  lemma SensorOrderIrrelevant(e1: seq<Reading>, e2: seq<Reading>)
    requires multiset(e1) == multiset(e2)
    ensures Aggregate(e1) == Aggregate(e2)
  {
    PermutationKeepsSumAndCount(e1, e2);
    AggregateBySumAndCount(e1, e2);
  }

  lemma {:induction false} SumBounds(vs: seq<real>, lo: real, hi: real)
    requires forall i :: 0 <= i < |vs| ==> lo <= vs[i] <= hi
    ensures lo * |vs| as real <= Sum(vs) <= hi * |vs| as real
  {
    if vs != [] {
      var n := |vs|;
      SumBounds(vs[..n - 1], lo, hi);
      assert lo * (n - 1) as real + lo == lo * n as real;
      assert hi * (n - 1) as real + hi == hi * n as real;
    }
  }

  lemma MeanBounds(vs: seq<real>, lo: real, hi: real)
    requires |vs| > 0
    requires forall i :: 0 <= i < |vs| ==> lo <= vs[i] <= hi
    ensures lo <= Mean(vs) <= hi
  {
    SumBounds(vs, lo, hi);
    var n := |vs| as real;
    var m := Mean(vs);
    assert Sum(vs) == m * n;
    assert (m - lo) * n >= 0.0;
    assert (hi - m) * n >= 0.0;
  }

  /**
   * When every usable sensor value lies in [lo, hi], the stored temperature lies
   * within half a degree of that range.
   */
  lemma AggregateWithinRange(entries: seq<Reading>, lo: real, hi: real)
    requires forall i :: 0 <= i < |entries| && entries[i].Value? ==> lo <= entries[i].v <= hi
    ensures Aggregate(entries).Some? ==>
              lo - 0.5 <= Aggregate(entries).value as real <= hi + 0.5
  {
    var vs := ValidValues(entries);
    ValidValuesMembers(entries);
    if vs != [] {
      forall i | 0 <= i < |vs| ensures lo <= vs[i] <= hi {
        assert vs[i] in vs;
        var j :| 0 <= j < |entries| && entries[j] == Value(vs[i]);
      }
      MeanBounds(vs, lo, hi);
    }
  }

  /** Sensors that all report the same whole degree yield exactly that degree. */
  lemma AgreeingSensors(entries: seq<Reading>, c: int)
    requires exists i :: 0 <= i < |entries| && entries[i].Value?
    requires forall i :: 0 <= i < |entries| && entries[i].Value? ==> entries[i].v == c as real
    ensures Aggregate(entries) == Some(c)
  {
    AggregateWithinRange(entries, c as real, c as real);
  }

  /** The rounded mean of usable values with sum `s` and count `n`. */
  lemma AggregateIs(entries: seq<Reading>, vs: seq<real>, s: real)
    requires ValidValues(entries) == vs && |vs| > 0 && Sum(vs) == s
    ensures Aggregate(entries) == Some(RoundHalfAwayFromZero(s / |vs| as real))
  {
  }

  lemma ValidValuesOfOne(x: Reading)
    ensures ValidValues([x]) == if x.Value? then [x.v] else []
  {
    assert [x][..0] == [];
  }

  /** The usable values of a two-entry array. */
  lemma ValidValuesOfTwo(x: Reading, y: Reading)
    ensures ValidValues([x, y]) == ValidValues([x]) + ValidValues([y])
  {
    ValidValuesAppend([x], [y]);
    assert [x] + [y] == [x, y];
  }

  lemma SumOfTwo(x: real, y: real)
    ensures Sum([x, y]) == x + y
  {
    assert [x, y][..1] == [x];
    assert [x][..0] == [];
    assert Sum([x]) == x;
  }

  /**
   * Extending the scanned prefix by one entry adds that entry's value to the
   * running sum and one to the count when it is usable, and nothing otherwise.
   */
  lemma AccumulateStep(entries: seq<Reading>, i: nat)
    requires i < |entries|
    ensures Sum(ValidValues(entries[..i + 1])) ==
              Sum(ValidValues(entries[..i])) + (if entries[i].Value? then entries[i].v else 0.0)
    ensures |ValidValues(entries[..i + 1])| ==
              |ValidValues(entries[..i])| + (if entries[i].Value? then 1 else 0)
  {
    assert entries[..i + 1] == entries[..i] + [entries[i]];
    ValidValuesAppend(entries[..i], [entries[i]]);
    ValidValuesOfOne(entries[i]);
    var vs := ValidValues(entries[..i]);
    if entries[i].Value? {
      assert (vs + [entries[i].v])[..|vs|] == vs;
    }
  }

  /** Mean 20: sensors reading 19 and 21 give 20. */
  lemma ExampleTwoSensors()
    ensures Aggregate([Value(19.0), Value(21.0)]) == Some(20)
  {
    ValidValuesOfTwo(Value(19.0), Value(21.0));
    ValidValuesOfOne(Value(19.0));
    ValidValuesOfOne(Value(21.0));
    SumOfTwo(19.0, 21.0);
    AggregateIs([Value(19.0), Value(21.0)], [19.0, 21.0], 40.0);
  }

  /** Mean 21.2 rounds down to 21. */
  lemma ExampleFractionalMean()
    ensures Aggregate([Value(20.0), Value(22.4)]) == Some(21)
  {
    ValidValuesOfTwo(Value(20.0), Value(22.4));
    ValidValuesOfOne(Value(20.0));
    ValidValuesOfOne(Value(22.4));
    SumOfTwo(20.0, 22.4);
    AggregateIs([Value(20.0), Value(22.4)], [20.0, 22.4], 42.4);
  }

  /** A NaN entry is skipped; the mean 21.5 of the rest rounds up to 22. */
  lemma ExampleSkippedNaNAndTie()
    ensures Aggregate([Value(20.0), NaNValue, Value(23.0)]) == Some(22)
  {
    var e := [Value(20.0), NaNValue, Value(23.0)];
    ValidValuesOfTwo(Value(20.0), NaNValue);
    ValidValuesOfOne(Value(20.0));
    ValidValuesOfOne(NaNValue);
    ValidValuesOfOne(Value(23.0));
    ValidValuesAppend([Value(20.0), NaNValue], [Value(23.0)]);
    assert [Value(20.0), NaNValue] + [Value(23.0)] == e;
    SumOfTwo(20.0, 23.0);
    AggregateIs(e, [20.0, 23.0], 43.0);
  }

  /** A single sensor reading a whole degree gives that degree. */
  lemma ExampleOneSensor()
    ensures Aggregate([Value(25.0)]) == Some(25)
  {
    ValidValuesOfOne(Value(25.0));
    assert Sum([25.0]) == 25.0 by { assert [25.0][..0] == []; }
    AggregateIs([Value(25.0)], [25.0], 25.0);
  }

  /** A negative half rounds away from zero: -0.5 gives -1. */
  lemma ExampleNegativeTie()
    ensures Aggregate([NoValueKey, Value(-0.5)]) == Some(-1)
  {
    ValidValuesOfTwo(NoValueKey, Value(-0.5));
    ValidValuesOfOne(NoValueKey);
    ValidValuesOfOne(Value(-0.5));
    assert Sum([-0.5]) == -0.5 by { assert [-0.5][..0] == []; }
    AggregateIs([NoValueKey, Value(-0.5)], [-0.5], -0.5);
  }

  /** An empty array, or one whose entries are all unusable, yields no temperature. */
  lemma NoUsableValues()
    ensures Aggregate([]) == None
    ensures Aggregate([NaNValue]) == None
    ensures Aggregate([NaNValue, NoValueKey]) == None
  {
  }
}
