/** Histogram buckets: where a value lands, and how landings add up. */
module Buckets {

  predicate Ascending(bounds: seq<real>) {
    forall i, j :: 0 <= i < j < |bounds| ==> bounds[i] < bounds[j]
  }

  /** The first bucket whose bound the value does not exceed; `|bounds|` when there is none. */
  function Position(bounds: seq<real>, value: real): (p: nat)
    ensures p <= |bounds|
  {
    if bounds == [] || value <= bounds[0] then 0 else 1 + Position(bounds[1..], value)
  }

  lemma {:induction false} PositionIsFirst(bounds: seq<real>, value: real, k: nat)
    requires Ascending(bounds) && k < |bounds|
    ensures Position(bounds, value) <= k <==> value <= bounds[k]
  {
    if bounds[0] < value && k > 0 {
      assert bounds[1..][k - 1] == bounds[k];
      assert forall i {:trigger bounds[1..][i]} :: 0 <= i < |bounds| - 1 ==> bounds[1..][i] == bounds[i + 1];
      PositionIsFirst(bounds[1..], value, k - 1);
    }
  }

  // ----------------------------------------------------------------- totals

  function Total(ws: seq<nat>): nat {
    if ws == [] then 0 else Total(ws[..|ws| - 1]) + ws[|ws| - 1]
  }

  lemma TotalSnoc(ws: seq<nat>, w: nat)
    ensures Total(ws + [w]) == Total(ws) + w
  {
    assert (ws + [w])[..|ws|] == ws;
  }

  lemma {:induction false} TotalUpdate(ws: seq<nat>, i: nat, w: nat)
    requires i < |ws|
    ensures Total(ws[i := w]) == Total(ws) - ws[i] + w
  {
    var n := |ws| - 1;
    if i == n {
      assert ws[i := w][..n] == ws[..n];
    } else {
      assert ws[i := w][..n] == ws[..n][i := w];
      TotalUpdate(ws[..n], i, w);
    }
  }

  /** A longer list of larger entries has a larger total. */
  lemma {:induction false} TotalMonotone(ws: seq<nat>, us: seq<nat>)
    requires |ws| <= |us| && forall i :: 0 <= i < |ws| ==> ws[i] <= us[i]
    ensures Total(ws) <= Total(us)
  {
    if |ws| < |us| {
      TotalMonotone(ws, us[..|us| - 1]);
    } else if ws != [] {
      TotalMonotone(ws[..|ws| - 1], us[..|us| - 1]);
    }
  }

  lemma {:induction false} TotalSum(ws: seq<nat>, us: seq<nat>, sums: seq<nat>)
    requires |ws| == |us| == |sums| && forall i :: 0 <= i < |ws| ==> sums[i] == ws[i] + us[i]
    ensures Total(sums) == Total(ws) + Total(us)
  {
    if ws != [] {
      TotalSum(ws[..|ws| - 1], us[..|us| - 1], sums[..|sums| - 1]);
    }
  }

  lemma {:induction false} TotalOfOnes(ws: seq<nat>)
    requires forall i :: 0 <= i < |ws| ==> ws[i] <= 1
    ensures Total(ws) <= |ws|
    ensures (forall i :: 0 <= i < |ws| ==> ws[i] == 1) ==> Total(ws) == |ws|
    ensures (forall i :: 0 <= i < |ws| ==> ws[i] == 0) ==> Total(ws) == 0
  {
    if ws != [] {
      TotalOfOnes(ws[..|ws| - 1]);
    }
  }

  // --------------------------------------------------------------- landings

  function One(yes: bool): nat {
    if yes then 1 else 0
  }

  /** How many of the landings are in bucket `i`, and in buckets below `k`. */
  function In(landings: seq<nat>, i: nat): seq<nat> {
    seq(|landings|, j requires 0 <= j < |landings| => One(landings[j] == i))
  }

  function Below(landings: seq<nat>, k: nat): seq<nat> {
    seq(|landings|, j requires 0 <= j < |landings| => One(landings[j] < k))
  }

  function AtMost(values: seq<real>, bound: real): seq<nat> {
    seq(|values|, j requires 0 <= j < |values| => One(values[j] <= bound))
  }

  function Positions(bounds: seq<real>, values: seq<real>): seq<nat> {
    seq(|values|, j requires 0 <= j < |values| => Position(bounds, values[j]))
  }

  /** Buckets that count landings separately, added up, count the landings below. */
  lemma BelowGrows(landings: seq<nat>, k: nat)
    ensures Total(Below(landings, 0)) == 0
    ensures Total(Below(landings, k + 1)) == Total(Below(landings, k)) + Total(In(landings, k))
  {
    TotalOfOnes(Below(landings, 0));
    TotalSum(Below(landings, k), In(landings, k), Below(landings, k + 1));
  }

  /** Added up to bucket `k`, positions count the values not above its bound. */
  lemma BelowIsAtMost(bounds: seq<real>, values: seq<real>, k: nat)
    requires Ascending(bounds) && k < |bounds|
    ensures Below(Positions(bounds, values), k + 1) == AtMost(values, bounds[k])
  {
    forall j | 0 <= j < |values|
      ensures Below(Positions(bounds, values), k + 1)[j] == AtMost(values, bounds[k])[j]
    {
      PositionIsFirst(bounds, values[j], k);
    }
  }
}
