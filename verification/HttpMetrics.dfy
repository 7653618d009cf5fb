/** The lock-free request histogram: every request adds to three counters in
    three separate atomic steps, and a scrape loads the counters one at a time.
    Steps of any number of requests and scrapes interleave freely; each single
    atomic operation is one step.
 */
module HttpMetrics {
  import opened Wrappers
  import opened Buckets
  import Hashing

  const TWO64 := Hashing.TWO64

  const HTTP_DURATION_BUCKETS: seq<real> := [0.005, 0.01, 0.025, 0.05, 0.1, 0.25, 0.5, 1.0, 2.5, 5.0, 10.0]

  /** The atomics, each of them 64 bits wide. */
  datatype Counters = Counters(buckets: seq<nat>, count: nat, sumMillis: nat)

  /** `fetch_add`: wraps around. */
  function FetchAdd(n: nat, k: nat): nat {
    (n + k) % TWO64
  }

  function RaiseCount(c: Counters): Counters {
    c.(count := FetchAdd(c.count, 1))
  }

  function RaiseSum(c: Counters, millis: nat): Counters {
    c.(sumMillis := FetchAdd(c.sumMillis, millis))
  }

  /** A value above every bound goes to no bucket. */
  function RaiseBucket(bounds: seq<real>, c: Counters, secs: real): Counters {
    var p := Position(bounds, secs);
    if p < |c.buckets| then c.(buckets := c.buckets[p := FetchAdd(c.buckets[p], 1)]) else c
  }

  /** A scrape in progress: what it has printed so far. `atStart` is history,
      the requests as they stood when it began. */
  datatype Scrape = Scrape(atStart: seq<Observer>, printed: seq<nat>, inf: Option<nat>, sumMillis: Option<nat>)

  /** A scrape's next load: the buckets in order, then the count, then the sum. */
  function LoadNext(c: Counters, s: Scrape): Scrape {
    var k := |s.printed|;
    if k < |c.buckets| then s.(printed := s.printed + [FetchAdd(if k == 0 then 0 else s.printed[k - 1], c.buckets[k])])
    else if s.inf.None? then s.(inf := Some(c.count))
    else if s.sumMillis.None? then s.(sumMillis := Some(c.sumMillis))
    else s
  }

  function LoadTimes(c: Counters, s: Scrape, n: nat): Scrape {
    if n == 0 then s else LoadNext(c, LoadTimes(c, s, n - 1))
  }

  // -------------------------------------------------------------- the object

  class HttpMetrics {
    const bounds: seq<real>
    const buckets: array<nat>
    var count: nat
    var sumMillis: nat

    ghost predicate Valid() {
      buckets.Length == |bounds|
    }

    function Contents(): Counters
      reads this, buckets
    {
      Counters(buckets[..], count, sumMillis)
    }

    constructor (bounds: seq<real>)
      ensures Valid() && this.bounds == bounds && fresh(buckets)
      ensures Contents() == Idle(bounds)
    {
      this.bounds := bounds;
      buckets := new nat[|bounds|](_ => 0);
      count, sumMillis := 0, 0;
    }

    /** One request, undisturbed: its three steps in the order of the code. */
    method Observe(secs: real, millis: nat)
      requires Valid()
      modifies this, buckets
      ensures Contents() == RaiseBucket(bounds, RaiseSum(RaiseCount(old(Contents())), millis), secs)
    {
      count := (count + 1) % TWO64;
      sumMillis := (sumMillis + millis) % TWO64;
      var idx := 0;
      while idx < |bounds| && secs > bounds[idx]
        invariant idx <= |bounds|
        invariant Position(bounds, secs) == idx + Position(bounds[idx..], secs)
      {
        assert bounds[idx..][1..] == bounds[idx + 1..];
        idx := idx + 1;
      }
      if idx < |bounds| {
        buckets[idx] := (buckets[idx] + 1) % TWO64;
      }
    }

    /** One scrape, undisturbed. */
    method Render() returns (lines: Scrape)
      requires Valid()
      ensures lines == LoadTimes(Contents(), Opened([]), |bounds| + 2)
    {
      var cumulative := 0;
      lines := Opened([]);
      for i := 0 to |bounds|
        invariant lines == LoadTimes(Contents(), Opened([]), i)
        invariant |lines.printed| == i && lines.inf.None? && lines.sumMillis.None?
        invariant cumulative == if i == 0 then 0 else lines.printed[i - 1]
      {
        cumulative := (cumulative + buckets[i]) % TWO64;
        lines := lines.(printed := lines.printed + [cumulative]);
      }
      lines := lines.(inf := Some(count));
      lines := lines.(sumMillis := Some(sumMillis));
    }
  }

  // ----------------------------------------------------------------- system

  /** A request that is being recorded; `stage` counts the steps it has done. */
  datatype Observer = Observer(secs: real, millis: nat, stage: nat)

  datatype System = System(counters: Counters, observers: seq<Observer>, scrapes: seq<Scrape>)

  datatype Step =
    | Begin(secs: real, millis: nat)
    | Advance(t: nat)
    | OpenScrape
    | Load(r: nat)

  function Idle(bounds: seq<real>): Counters {
    Counters(seq(|bounds|, _ => 0), 0, 0)
  }

  function Opened(observers: seq<Observer>): Scrape {
    Scrape(observers, [], None, None)
  }

  function Raise(bounds: seq<real>, c: Counters, o: Observer): Counters {
    if o.stage == 0 then RaiseCount(c)
    else if o.stage == 1 then RaiseSum(c, o.millis)
    else if o.stage == 2 then RaiseBucket(bounds, c, o.secs)
    else c
  }

  function Next(o: Observer): Observer {
    if o.stage < 3 then o.(stage := o.stage + 1) else o
  }

  function Do(bounds: seq<real>, sys: System, step: Step): System {
    match step
    case Begin(secs, millis) => sys.(observers := sys.observers + [Observer(secs, millis, 0)])
    case Advance(t) =>
      if t < |sys.observers|
      then sys.(counters := Raise(bounds, sys.counters, sys.observers[t]),
                observers := sys.observers[t := Next(sys.observers[t])])
      else sys
    case OpenScrape => sys.(scrapes := sys.scrapes + [Opened(sys.observers)])
    case Load(r) =>
      if r < |sys.scrapes| then sys.(scrapes := sys.scrapes[r := LoadNext(sys.counters, sys.scrapes[r])]) else sys
  }

  function Run(bounds: seq<real>, steps: seq<Step>): System
    decreases steps
  {
    if steps == [] then System(Idle(bounds), [], [])
    else Do(bounds, Run(bounds, steps[..|steps| - 1]), steps[|steps| - 1])
  }

  // --------------------------------------------------------------- counting

  /** Where each request has landed; one still under way is past the overflow. */
  function Landing(bounds: seq<real>, o: Observer): nat {
    if o.stage < 3 then |bounds| + 1 else Position(bounds, o.secs)
  }

  function Landings(bounds: seq<real>, os: seq<Observer>): seq<nat> {
    seq(|os|, j requires 0 <= j < |os| => Landing(bounds, os[j]))
  }

  function Landed(bounds: seq<real>, os: seq<Observer>, i: nat): nat {
    Total(In(Landings(bounds, os), i))
  }

  function Cumulative(bounds: seq<real>, os: seq<Observer>, k: nat): nat {
    Total(Below(Landings(bounds, os), k))
  }

  function CountedOnes(os: seq<Observer>): seq<nat> {
    seq(|os|, j requires 0 <= j < |os| => One(os[j].stage >= 1))
  }

  function Counted(os: seq<Observer>): nat {
    Total(CountedOnes(os))
  }

  function SummedMillis(os: seq<Observer>): seq<nat> {
    seq(|os|, j requires 0 <= j < |os| => if os[j].stage >= 2 then os[j].millis else 0)
  }

  function Summed(os: seq<Observer>): nat {
    Total(SummedMillis(os))
  }

  lemma CountsFit(bounds: seq<real>, os: seq<Observer>, k: nat)
    ensures Landed(bounds, os, k) <= |os| && Cumulative(bounds, os, k) <= |os| && Counted(os) <= |os|
    ensures Cumulative(bounds, os, 0) == 0
    ensures Cumulative(bounds, os, k + 1) == Cumulative(bounds, os, k) + Landed(bounds, os, k)
    ensures k <= |bounds| ==> Cumulative(bounds, os, k) <= Counted(os)
  {
    hide Total, Position;
    TotalOfOnes(In(Landings(bounds, os), k));
    TotalOfOnes(Below(Landings(bounds, os), k));
    TotalOfOnes(CountedOnes(os));
    BelowGrows(Landings(bounds, os), k);
    if k <= |bounds| {
      CumulativeIsCounted(bounds, os, k);
    }
  }

  lemma CumulativeIsCounted(bounds: seq<real>, os: seq<Observer>, k: nat)
    requires k <= |bounds|
    ensures Cumulative(bounds, os, k) <= Counted(os)
  {
    hide Total, Position;
    TotalMonotone(Below(Landings(bounds, os), k), CountedOnes(os));
  }

  lemma BeginCounts(bounds: seq<real>, os: seq<Observer>, o: Observer, i: nat)
    requires o.stage == 0 && i < |bounds|
    ensures Landed(bounds, os + [o], i) == Landed(bounds, os, i)
    ensures Counted(os + [o]) == Counted(os) && Summed(os + [o]) == Summed(os)
  {
    assert In(Landings(bounds, os + [o]), i) == In(Landings(bounds, os), i) + [0];
    assert CountedOnes(os + [o]) == CountedOnes(os) + [0];
    assert SummedMillis(os + [o]) == SummedMillis(os) + [0];
    TotalSnoc(In(Landings(bounds, os), i), 0);
    TotalSnoc(CountedOnes(os), 0);
    TotalSnoc(SummedMillis(os), 0);
  }

  lemma AdvanceLanded(bounds: seq<real>, os: seq<Observer>, t: nat, i: nat)
    requires t < |os| && i < |bounds|
    ensures Landed(bounds, os[t := Next(os[t])], i)
         == Landed(bounds, os, i) + One(os[t].stage == 2 && Position(bounds, os[t].secs) == i)
  {
    var os' := os[t := Next(os[t])];
    assert In(Landings(bounds, os'), i) == In(Landings(bounds, os), i)[t := One(Landing(bounds, os'[t]) == i)];
    TotalUpdate(In(Landings(bounds, os), i), t, One(Landing(bounds, os'[t]) == i));
  }

  lemma AdvanceCounts(os: seq<Observer>, t: nat)
    requires t < |os|
    ensures Counted(os[t := Next(os[t])]) == Counted(os) + One(os[t].stage == 0)
    ensures Summed(os[t := Next(os[t])]) == Summed(os) + if os[t].stage == 1 then os[t].millis else 0
  {
    var os' := os[t := Next(os[t])];
    var millis := if os'[t].stage >= 2 then os'[t].millis else 0;
    assert CountedOnes(os') == CountedOnes(os)[t := One(os'[t].stage >= 1)];
    TotalUpdate(CountedOnes(os), t, One(os'[t].stage >= 1));
    assert SummedMillis(os') == SummedMillis(os)[t := millis];
    TotalUpdate(SummedMillis(os), t, millis);
  }

  // ----------------------------------------------------------- the counters

  ghost predicate CountersAgree(bounds: seq<real>, c: Counters, os: seq<Observer>) {
    && |c.buckets| == |bounds|
    && (forall i :: 0 <= i < |bounds| ==> c.buckets[i] == Landed(bounds, os, i) % TWO64)
    && c.count == Counted(os) % TWO64
    && c.sumMillis == Summed(os) % TWO64
  }

  lemma AddMod(a: nat, b: nat)
    ensures FetchAdd(a % TWO64, b) == (a + b) % TWO64
  {
  }

  lemma BeginKeepsCounters(bounds: seq<real>, c: Counters, os: seq<Observer>, o: Observer)
    requires CountersAgree(bounds, c, os) && o.stage == 0
    ensures CountersAgree(bounds, c, os + [o])
  {
    hide Landed, Counted, Summed;
    if bounds == [] {
      assert CountedOnes(os + [o]) == CountedOnes(os) + [0] && SummedMillis(os + [o]) == SummedMillis(os) + [0];
      BeginCounts([0.0], os, o, 0);
    } else {
      BeginCounts(bounds, os, o, 0);
    }
    forall i | 0 <= i < |bounds| ensures c.buckets[i] == Landed(bounds, os + [o], i) % TWO64 {
      BeginCounts(bounds, os, o, i);
    }
  }

  lemma AdvanceKeepsCounters(bounds: seq<real>, c: Counters, os: seq<Observer>, t: nat)
    requires CountersAgree(bounds, c, os) && t < |os|
    ensures CountersAgree(bounds, Raise(bounds, c, os[t]), os[t := Next(os[t])])
  {
    hide Landed, Counted, Summed, FetchAdd;
    var c', os' := Raise(bounds, c, os[t]), os[t := Next(os[t])];
    AdvanceCounts(os, t);
    AddMod(Counted(os), 1);
    AddMod(Summed(os), os[t].millis);
    forall i | 0 <= i < |bounds| ensures c'.buckets[i] == Landed(bounds, os', i) % TWO64 {
      AdvanceLanded(bounds, os, t, i);
      AddMod(Landed(bounds, os, i), 1);
    }
  }

  // -------------------------------------------- a request or a scrape on its own

  /** A request with nobody in between adds one to the count, its time to the
      sum, and one to the first bucket whose bound its time does not exceed. */
  lemma RequestsAreCounted(bounds: seq<real>, sys: System, secs: real, millis: nat, p: nat)
    requires |sys.counters.buckets| == |bounds| && p <= |bounds|
    requires forall q :: 0 <= q < p ==> bounds[q] < secs
    requires p < |bounds| ==> secs <= bounds[p]
    ensures var t := |sys.observers|;
            var begun := Do(bounds, Do(bounds, sys, Begin(secs, millis)), Advance(t));
            var after := Do(bounds, Do(bounds, begun, Advance(t)), Advance(t));
            && after.observers == sys.observers + [Observer(secs, millis, 3)] && after.scrapes == sys.scrapes
            && after.counters.count == (sys.counters.count + 1) % 0x1_0000_0000_0000_0000
            && after.counters.sumMillis == (sys.counters.sumMillis + millis) % 0x1_0000_0000_0000_0000
            && |after.counters.buckets| == |bounds|
            && forall k :: 0 <= k < |bounds| ==>
                 after.counters.buckets[k] == if k == p then (sys.counters.buckets[k] + 1) % 0x1_0000_0000_0000_0000
                                              else sys.counters.buckets[k]
  {
    FirstBound(bounds, secs, p);
    hide Position;
  }

  lemma {:induction false} FirstBound(bounds: seq<real>, secs: real, p: nat)
    requires p <= |bounds| && forall q :: 0 <= q < p ==> bounds[q] < secs
    requires p < |bounds| ==> secs <= bounds[p]
    ensures Position(bounds, secs) == p
  {
    if p > 0 {
      assert forall q {:trigger bounds[1..][q]} :: 0 <= q < |bounds| - 1 ==> bounds[1..][q] == bounds[q + 1];
      FirstBound(bounds[1..], secs, p - 1);
    }
  }

  /** The state after `n` loads of scrape `r`. */
  function Loads(bounds: seq<real>, sys: System, r: nat, n: nat): System {
    if n == 0 then sys else Do(bounds, Loads(bounds, sys, r, n - 1), Load(r))
  }

  lemma {:induction false} LoadsAreLoadTimes(bounds: seq<real>, sys: System, r: nat, n: nat)
    requires r < |sys.scrapes|
    ensures Loads(bounds, sys, r, n)
         == sys.(scrapes := sys.scrapes[r := LoadTimes(sys.counters, sys.scrapes[r], n)])
  {
    hide LoadNext;
    if n > 0 {
      LoadsAreLoadTimes(bounds, sys, r, n - 1);
    }
  }

  lemma TotalOfTake(ws: seq<nat>, k: nat)
    requires k < |ws|
    ensures Total(ws[..k + 1]) == Total(ws[..k]) + ws[k]
  {
    assert ws[..k + 1][..k] == ws[..k];
  }

  lemma {:induction false} PrintedSoFar(c: Counters, s: Scrape, n: nat)
    requires s.printed == [] && s.inf.None? && s.sumMillis.None? && n <= |c.buckets|
    ensures var now := LoadTimes(c, s, n);
            && now == s.(printed := now.printed) && |now.printed| == n
            && forall k :: 0 <= k < n ==> now.printed[k] == Total(c.buckets[..k + 1]) % TWO64
  {
    if n > 0 {
      PrintedSoFar(c, s, n - 1);
      TotalOfTake(c.buckets, n - 1);
      hide Total;
      if n == 1 {
        assert Total(c.buckets[..0]) == 0 by { TotalOfOnes(c.buckets[..0]); }
      } else {
        AddMod(Total(c.buckets[..n - 1]), c.buckets[n - 1]);
      }
    }
  }

  /** A scrape with nobody in between prints, for each bound, what the buckets up
      to it add up to, then the count, then the sum. */
  lemma ScrapesReadTheCounters(bounds: seq<real>, sys: System)
    requires |sys.counters.buckets| == |bounds|
    ensures var r := |sys.scrapes|;
            var after := Loads(bounds, Do(bounds, sys, OpenScrape), r, |bounds| + 2);
            && after.counters == sys.counters && after.observers == sys.observers
            && |after.scrapes| == r + 1 && after.scrapes[..r] == sys.scrapes
            && after.scrapes[r].atStart == sys.observers
            && |after.scrapes[r].printed| == |bounds|
            && (forall k :: 0 <= k < |bounds| ==>
                  after.scrapes[r].printed[k] == Total(sys.counters.buckets[..k + 1]) % 0x1_0000_0000_0000_0000)
            && after.scrapes[r].inf == Some(sys.counters.count)
            && after.scrapes[r].sumMillis == Some(sys.counters.sumMillis)
  {
    var n, c := |bounds|, sys.counters;
    var started := Do(bounds, sys, OpenScrape);
    var s := started.scrapes[|sys.scrapes|];
    assert s == Scrape(sys.observers, [], None, None);
    LoadsAreLoadTimes(bounds, started, |sys.scrapes|, n + 2);
    PrintedSoFar(c, s, n);
    assert LoadTimes(c, s, n + 2) == LoadNext(c, LoadNext(c, LoadTimes(c, s, n)));
    hide LoadTimes, Total, Loads;
  }

  // ------------------------------------------------------------ the scrapes

  /** What requests look like some steps later. */
  ghost predicate Progress(a: seq<Observer>, b: seq<Observer>) {
    && |a| <= |b|
    && (forall j :: 0 <= j < |a| ==>
          a[j].secs == b[j].secs && a[j].millis == b[j].millis && a[j].stage <= b[j].stage)
    && (forall j :: 0 <= j < |b| ==> b[j].stage <= 3)
  }

  predicate Done(os: seq<Observer>) {
    forall j :: 0 <= j < |os| ==> os[j].stage == 3
  }

  lemma ProgressCounts(bounds: seq<real>, a: seq<Observer>, b: seq<Observer>, k: nat)
    requires Progress(a, b) && k <= |bounds|
    ensures Landed(bounds, a, k) <= Landed(bounds, b, k)
    ensures Cumulative(bounds, a, k) <= Cumulative(bounds, b, k)
    ensures Counted(a) <= Counted(b)
  {
    TotalMonotone(In(Landings(bounds, a), k), In(Landings(bounds, b), k));
    TotalMonotone(Below(Landings(bounds, a), k), Below(Landings(bounds, b), k));
    TotalMonotone(CountedOnes(a), CountedOnes(b));
  }

  /** Every bucket printed so far lies between what had landed when the scrape
      began and what has landed by now, and so does the count. */
  ghost predicate Between(bounds: seq<real>, os: seq<Observer>, s: Scrape) {
    && Progress(s.atStart, os)
    && |s.printed| <= |bounds|
    && (forall k :: 0 <= k < |s.printed| ==>
          Cumulative(bounds, s.atStart, k + 1) <= s.printed[k] <= Cumulative(bounds, os, k + 1))
    && (s.inf.Some? ==> Counted(s.atStart) <= s.inf.value <= Counted(os))
    && (s.sumMillis.Some? && Done(s.atStart) && s.atStart == os ==> s.sumMillis.value == Summed(os) % TWO64)
  }

  ghost predicate Rising(bounds: seq<real>, s: Scrape) {
    && (forall j, k :: 0 <= j <= k < |s.printed| ==> s.printed[j] <= s.printed[k])
    && (s.inf.Some? ==> |s.printed| == |bounds| && forall k :: 0 <= k < |s.printed| ==> s.printed[k] <= s.inf.value)
  }

  lemma ProgressKeepsBetween(bounds: seq<real>, a: seq<Observer>, b: seq<Observer>, s: Scrape)
    requires Between(bounds, a, s) && Progress(a, b)
    ensures Between(bounds, b, s)
  {
    hide Landed, Cumulative, Counted, Summed;
    forall k | 0 <= k < |s.printed|
      ensures Cumulative(bounds, s.atStart, k + 1) <= s.printed[k] <= Cumulative(bounds, b, k + 1)
    {
      ProgressCounts(bounds, a, b, k + 1);
    }
    ProgressCounts(bounds, a, b, 0);
    if Done(s.atStart) && s.atStart == b {
      assert a == b;
    }
  }

  lemma LoadBucket(bounds: seq<real>, c: Counters, os: seq<Observer>, s: Scrape)
    requires CountersAgree(bounds, c, os) && |os| < TWO64
    requires Between(bounds, os, s) && |s.printed| < |bounds|
    ensures var k := |s.printed|;
            var last := if k == 0 then 0 else s.printed[k - 1];
            && FetchAdd(last, c.buckets[k]) == last + c.buckets[k]
            && Cumulative(bounds, s.atStart, k + 1) <= last + c.buckets[k] <= Cumulative(bounds, os, k + 1)
  {
    hide Landed, Cumulative, Counted, Summed;
    var k := |s.printed|;
    CountsFit(bounds, os, k);
    CountsFit(bounds, os, k + 1);
    CountsFit(bounds, s.atStart, k);
    ProgressCounts(bounds, s.atStart, os, k);
  }

  lemma LoadBucketKeeps(bounds: seq<real>, c: Counters, os: seq<Observer>, s: Scrape)
    requires CountersAgree(bounds, c, os) && |os| < TWO64
    requires Between(bounds, os, s) && Rising(bounds, s) && |s.printed| < |bounds|
    ensures Between(bounds, os, LoadNext(c, s)) && Rising(bounds, LoadNext(c, s))
  {
    LoadBucket(bounds, c, os, s);
    hide Landed, Cumulative, Counted, Summed, FetchAdd, Progress, Done;
  }

  lemma CountIsExact(bounds: seq<real>, c: Counters, os: seq<Observer>)
    requires CountersAgree(bounds, c, os) && |os| < TWO64
    ensures c.count == Counted(os) && |c.buckets| == |bounds|
  {
    CountsFit(bounds, os, 0);
    hide Counted;
  }

  lemma PrintedIsCounted(bounds: seq<real>, os: seq<Observer>, s: Scrape, k: nat)
    requires Between(bounds, os, s) && Rising(bounds, s) && |s.printed| == |bounds| && k < |bounds|
    ensures s.printed[k] <= Counted(os)
  {
    CumulativeIsCounted(bounds, os, |bounds|);
    hide Counted, Cumulative, Progress, Done, Summed;
    assert s.printed[k] <= s.printed[|bounds| - 1];
  }

  lemma LoadCountKeeps(bounds: seq<real>, c: Counters, os: seq<Observer>, s: Scrape)
    requires CountersAgree(bounds, c, os) && |os| < TWO64
    requires Between(bounds, os, s) && Rising(bounds, s) && |s.printed| == |bounds| && s.inf.None?
    ensures Between(bounds, os, LoadNext(c, s)) && Rising(bounds, LoadNext(c, s))
  {
    CountIsExact(bounds, c, os);
    ProgressCounts(bounds, s.atStart, os, 0);
    forall k | 0 <= k < |bounds| ensures s.printed[k] <= Counted(os) {
      PrintedIsCounted(bounds, os, s, k);
    }
    hide CountersAgree, Landed, Cumulative, Counted, Summed, Progress, Done, FetchAdd;
  }

  lemma LoadKeeps(bounds: seq<real>, c: Counters, os: seq<Observer>, s: Scrape)
    requires CountersAgree(bounds, c, os) && |os| < TWO64
    requires Between(bounds, os, s) && Rising(bounds, s)
    ensures Between(bounds, os, LoadNext(c, s)) && Rising(bounds, LoadNext(c, s))
  {
    hide Landed, Cumulative, Counted, Summed, Progress, Done, FetchAdd;
    if |s.printed| < |bounds| {
      LoadBucketKeeps(bounds, c, os, s);
    } else if s.inf.None? {
      LoadCountKeeps(bounds, c, os, s);
    }
  }

  // -------------------------------------------------------------- invariant

  ghost predicate Inv(bounds: seq<real>, sys: System) {
    && CountersAgree(bounds, sys.counters, sys.observers)
    && Progress(sys.observers, sys.observers)
    && forall s <- sys.scrapes :: Between(bounds, sys.observers, s) && Rising(bounds, s)
  }

  lemma StepKeepsInv(bounds: seq<real>, sys: System, step: Step)
    requires Inv(bounds, sys) && |sys.observers| < TWO64
    ensures Inv(bounds, Do(bounds, sys, step))
  {
    hide CountersAgree, Between, Rising, LoadNext, Raise;
    var sys' := Do(bounds, sys, step);
    match step
    case Begin(secs, millis) =>
      BeginKeepsCounters(bounds, sys.counters, sys.observers, Observer(secs, millis, 0));
      forall s <- sys'.scrapes ensures Between(bounds, sys'.observers, s) {
        ProgressKeepsBetween(bounds, sys.observers, sys'.observers, s);
      }
    case Advance(t) =>
      if t < |sys.observers| {
        AdvanceKeepsCounters(bounds, sys.counters, sys.observers, t);
        forall s <- sys'.scrapes ensures Between(bounds, sys'.observers, s) {
          ProgressKeepsBetween(bounds, sys.observers, sys'.observers, s);
        }
      }
    case OpenScrape =>
      OpenedIsFine(bounds, sys.observers);
    case Load(r) =>
      if r < |sys.scrapes| {
        LoadKeeps(bounds, sys.counters, sys.observers, sys.scrapes[r]);
      }
  }

  lemma OpenedIsFine(bounds: seq<real>, os: seq<Observer>)
    requires Progress(os, os)
    ensures Between(bounds, os, Opened(os)) && Rising(bounds, Opened(os))
  {
  }

  lemma IdleAgrees(bounds: seq<real>)
    ensures CountersAgree(bounds, Idle(bounds), [])
  {
  }

  lemma {:induction false} RunKeepsInv(bounds: seq<real>, steps: seq<Step>)
    requires |Run(bounds, steps).observers| < TWO64
    ensures Inv(bounds, Run(bounds, steps))
    decreases steps
  {
    hide CountersAgree, Between, Rising, LoadNext, Raise, Idle;
    if steps == [] {
      IdleAgrees(bounds);
    } else {
      RunKeepsInv(bounds, steps[..|steps| - 1]);
      StepKeepsInv(bounds, Run(bounds, steps[..|steps| - 1]), steps[|steps| - 1]);
    }
  }

  // --------------------------------------------------------------- theorems

  /** In every interleaving of fewer than 2^64 requests with any scrapes, the
      buckets a scrape prints never decrease and never exceed its `+Inf`. */
  lemma ScrapesAreCumulative(bounds: seq<real>, steps: seq<Step>, s: Scrape)
    requires |Run(bounds, steps).observers| < TWO64 && s in Run(bounds, steps).scrapes
    ensures forall j, k :: 0 <= j <= k < |s.printed| ==> s.printed[j] <= s.printed[k]
    ensures s.inf.Some? ==> |s.printed| == |bounds| && forall k :: 0 <= k < |s.printed| ==> s.printed[k] <= s.inf.value
  {
    RunKeepsInv(bounds, steps);
    hide Run, CountersAgree, Between;
    assert Rising(bounds, s);
  }

  function FinishedAtMost(os: seq<Observer>, bound: real): seq<nat> {
    seq(|os|, j requires 0 <= j < |os| => One(os[j].stage >= 3 && os[j].secs <= bound))
  }

  function StartedAtMost(os: seq<Observer>, bound: real): seq<nat> {
    seq(|os|, j requires 0 <= j < |os| => One(os[j].secs <= bound))
  }

  lemma CumulativeIsFinished(bounds: seq<real>, os: seq<Observer>, k: nat)
    requires Ascending(bounds) && k < |bounds|
    ensures Cumulative(bounds, os, k + 1) == Total(FinishedAtMost(os, bounds[k]))
    ensures Total(FinishedAtMost(os, bounds[k])) <= Total(StartedAtMost(os, bounds[k]))
    ensures Done(os) ==> FinishedAtMost(os, bounds[k]) == StartedAtMost(os, bounds[k])
  {
    forall j | 0 <= j < |os|
      ensures Below(Landings(bounds, os), k + 1)[j] == FinishedAtMost(os, bounds[k])[j]
    {
      PositionIsFirst(bounds, os[j].secs, k);
    }
    assert Below(Landings(bounds, os), k + 1) == FinishedAtMost(os, bounds[k]);
    TotalMonotone(FinishedAtMost(os, bounds[k]), StartedAtMost(os, bounds[k]));
  }

  /** Every request that was recorded before a scrape began is in every bucket
      line it belongs to and in `+Inf`, and no line counts a request that has
      not begun or does not belong to it. */
  lemma ScrapesLoseNothing(bounds: seq<real>, steps: seq<Step>, s: Scrape)
    requires Ascending(bounds) && |Run(bounds, steps).observers| < TWO64 && s in Run(bounds, steps).scrapes
    ensures forall k :: 0 <= k < |s.printed| && k < |bounds| ==>
              Total(FinishedAtMost(s.atStart, bounds[k])) <= s.printed[k]
              <= Total(StartedAtMost(Run(bounds, steps).observers, bounds[k]))
    ensures s.inf.Some? ==>
              Counted(s.atStart) <= s.inf.value <= |Run(bounds, steps).observers|
  {
    RunKeepsInv(bounds, steps);
    var os := Run(bounds, steps).observers;
    assert Between(bounds, os, s);
    hide Run, CountersAgree, Rising, Cumulative, Counted, FinishedAtMost, StartedAtMost;
    CountsFit(bounds, os, 0);
    forall k | 0 <= k < |s.printed|
      ensures Total(FinishedAtMost(s.atStart, bounds[k])) <= s.printed[k] <= Total(StartedAtMost(os, bounds[k]))
    {
      CumulativeIsFinished(bounds, s.atStart, k);
      CumulativeIsFinished(bounds, os, k);
    }
  }

  function AllMillis(os: seq<Observer>): seq<nat> {
    seq(|os|, j requires 0 <= j < |os| => os[j].millis)
  }

  /** A scrape of a quiet process is exact: each line is the number of requests
      not above its bound, the count is all of them, and the sum is all their
      milliseconds, as a 64-bit number. */
  lemma QuietScrapesAreExact(bounds: seq<real>, steps: seq<Step>, s: Scrape)
    requires Ascending(bounds) && |Run(bounds, steps).observers| < TWO64 && s in Run(bounds, steps).scrapes
    requires Done(s.atStart) && s.atStart == Run(bounds, steps).observers
    ensures forall k :: 0 <= k < |s.printed| && k < |bounds| ==>
              s.printed[k] == Total(StartedAtMost(s.atStart, bounds[k]))
    ensures s.inf.Some? ==> s.inf.value == |s.atStart|
    ensures s.sumMillis.Some? ==> s.sumMillis.value == Total(AllMillis(s.atStart)) % TWO64
  {
    ScrapesLoseNothing(bounds, steps, s);
    RunKeepsInv(bounds, steps);
    assert Between(bounds, s.atStart, s);
    hide Run, CountersAgree, Rising, Cumulative;
    assert SummedMillis(s.atStart) == AllMillis(s.atStart);
    TotalOfOnes(CountedOnes(s.atStart));
    forall k | 0 <= k < |s.printed| && k < |bounds|
      ensures s.printed[k] == Total(StartedAtMost(s.atStart, bounds[k]))
    {
      CumulativeIsFinished(bounds, s.atStart, k);
    }
  }

  /** The bounds the process uses are ascending. */
  lemma HttpBoundsAscend()
    ensures Ascending(HTTP_DURATION_BUCKETS) && |HTTP_DURATION_BUCKETS| == 11
    ensures HTTP_DURATION_BUCKETS[0] == 0.005 && HTTP_DURATION_BUCKETS[10] == 10.0
  {
  }
}
