/** The histogram accumulated during one scrape. */
module Histograms {
  import opened Buckets

  /** A floating-point value: a number, or an infinity or not-a-number. */
  datatype Float = Finite(value: real) | NotFinite

  function Sum(values: seq<real>): real {
    if values == [] then 0.0 else Sum(values[..|values| - 1]) + values[|values| - 1]
  }

  /** Sums of parts add up, and a single value is its own sum. */
  lemma {:induction false} SumConcat(a: seq<real>, b: seq<real>)
    ensures Sum(a + b) == Sum(a) + Sum(b)
    ensures |b| == 1 ==> Sum(b) == b[0]
    decreases b
  {
    if b == [] {
      assert a + b == a;
    } else {
      assert (a + b)[..|a + b| - 1] == a + b[..|b| - 1];
      SumConcat(a, b[..|b| - 1]);
    }
  }

  /** How many values fell into bucket `i`, and into the buckets below `k`. */
  function Landed(bounds: seq<real>, values: seq<real>, i: nat): nat {
    Total(In(Positions(bounds, values), i))
  }

  function Cumulative(bounds: seq<real>, values: seq<real>, k: nat): nat {
    Total(Below(Positions(bounds, values), k))
  }

  datatype Lines = Lines(buckets: seq<nat>, inf: nat, sum: real, count: nat)

  class Histogram {
    const bounds: seq<real>
    const counts: array<nat>
    var overflow: nat
    var sum: real
    var count: nat

    /** Every value kept so far, in order. */
    ghost var accepted: seq<real>

    ghost predicate Valid()
      reads this, counts
    {
      && Ascending(bounds)
      && counts.Length == |bounds|
      && (forall i :: 0 <= i < |bounds| ==> counts[i] == Landed(bounds, accepted, i))
      && overflow == Landed(bounds, accepted, |bounds|)
      && sum == Sum(accepted)
      && count == |accepted|
    }

    constructor (bounds: seq<real>)
      requires Ascending(bounds)
      ensures Valid() && accepted == [] && this.bounds == bounds && fresh(counts)
    {
      this.bounds := bounds;
      counts := new nat[|bounds|](_ => 0);
      overflow, sum, count, accepted := 0, 0.0, 0, [];
      new;
      assert Positions(bounds, []) == [];
      assert forall i: nat {:trigger Landed(bounds, [], i)} :: Landed(bounds, [], i) == Total([]);
    }

    method Observe(v: Float)
      requires Valid()
      modifies this, counts
      ensures Valid()
      ensures accepted == if v.Finite? && v.value >= 0.0 then old(accepted) + [v.value] else old(accepted)
    {
      if v.NotFinite? || v.value < 0.0 {
        return;
      }
      var value := v.value;
      count := count + 1;
      sum := sum + value;
      var idx := FindBucket(bounds, value);
      if idx < |bounds| {
        counts[idx] := counts[idx] + 1;
      } else {
        overflow := overflow + 1;
      }
      accepted := accepted + [value];
      forall i: nat
        ensures Landed(bounds, accepted, i) == Landed(bounds, old(accepted), i) + One(Position(bounds, value) == i)
      {
        OneMoreLanding(bounds, old(accepted), value, i);
      }
      hide Landed, Position;
      assert accepted[..|accepted| - 1] == old(accepted);
    }

    /** Each line counts the kept values not above its bound; the last counts
        them all, and is what the buckets and the overflow add up to. */
    method Render() returns (lines: Lines)
      requires Valid()
      ensures |lines.buckets| == |bounds|
      ensures forall k :: 0 <= k < |bounds| ==> lines.buckets[k] == Total(AtMost(accepted, bounds[k]))
      ensures forall j, k :: 0 <= j <= k < |bounds| ==> lines.buckets[j] <= lines.buckets[k] <= lines.inf
      ensures lines.inf == lines.count == |accepted| == Total(counts[..]) + overflow
      ensures lines.sum == Sum(accepted)
    {
      hide Sum, Ascending, Landed, Cumulative, AtMost;
      var cumulative, printed := 0, [];
      NothingBelowZero(bounds, accepted);
      for i := 0 to |bounds|
        invariant |printed| == i && cumulative == Cumulative(bounds, accepted, i) == Total(counts[..i])
        invariant forall k :: 0 <= k < i ==> printed[k] == Cumulative(bounds, accepted, k + 1)
      {
        OneMoreBucket(bounds, accepted, i);
        assert counts[..i + 1][..i] == counts[..i];
        cumulative := cumulative + counts[i];
        printed := printed + [cumulative];
      }
      lines := Lines(printed, count, sum, count);
      assert counts[..] == counts[..|bounds|];
      hide Total;
      EverythingLands(bounds, accepted);
      forall k | 0 <= k < |bounds| ensures printed[k] == Total(AtMost(accepted, bounds[k])) <= count {
        CumulativeIsAtMost(bounds, accepted, k);
      }
      forall j, k | 0 <= j <= k < |bounds| ensures printed[j] <= printed[k] {
        CumulativeGrows(bounds, accepted, j + 1, k + 1);
      }
    }
  }

  lemma NothingBelowZero(bounds: seq<real>, values: seq<real>)
    ensures Cumulative(bounds, values, 0) == 0
  {
    BelowGrows(Positions(bounds, values), 0);
  }

  lemma OneMoreBucket(bounds: seq<real>, values: seq<real>, i: nat)
    ensures Cumulative(bounds, values, i + 1) == Cumulative(bounds, values, i) + Landed(bounds, values, i)
  {
    BelowGrows(Positions(bounds, values), i);
  }

  /** Every value is in some bucket or in the overflow. */
  lemma EverythingLands(bounds: seq<real>, values: seq<real>)
    ensures Cumulative(bounds, values, |bounds|) + Landed(bounds, values, |bounds|) == |values|
  {
    var landings := Positions(bounds, values);
    BelowGrows(landings, |bounds|);
    TotalOfOnes(Below(landings, |bounds| + 1));
  }

  lemma CumulativeIsAtMost(bounds: seq<real>, values: seq<real>, k: nat)
    requires Ascending(bounds) && k < |bounds|
    ensures Cumulative(bounds, values, k + 1) == Total(AtMost(values, bounds[k])) <= |values|
  {
    BelowIsAtMost(bounds, values, k);
    TotalOfOnes(AtMost(values, bounds[k]));
  }

  lemma CumulativeGrows(bounds: seq<real>, values: seq<real>, j: nat, k: nat)
    requires j <= k
    ensures Cumulative(bounds, values, j) <= Cumulative(bounds, values, k)
  {
    TotalMonotone(Below(Positions(bounds, values), j), Below(Positions(bounds, values), k));
  }

  /** `iter().position(|b| value <= b)`. */
  method FindBucket(bounds: seq<real>, value: real) returns (idx: nat)
    ensures idx == Position(bounds, value)
  {
    idx := 0;
    while idx < |bounds| && value > bounds[idx]
      invariant idx <= |bounds|
      invariant Position(bounds, value) == idx + Position(bounds[idx..], value)
    {
      assert bounds[idx..][1..] == bounds[idx + 1..];
      idx := idx + 1;
    }
  }

  lemma OneMoreLanding(bounds: seq<real>, values: seq<real>, value: real, i: nat)
    ensures Landed(bounds, values + [value], i) == Landed(bounds, values, i) + One(Position(bounds, value) == i)
  {
    TotalSnoc(In(Positions(bounds, values), i), One(Position(bounds, value) == i));
    assert In(Positions(bounds, values + [value]), i)
        == In(Positions(bounds, values), i) + [One(Position(bounds, value) == i)];
  }
}
