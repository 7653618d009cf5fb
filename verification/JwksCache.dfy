/** The cache of issuers' key sets: a look under the read lock, a second look
    under the write lock, and a fetch while the write lock is held.
 */
module JwksCache {
  import opened Wrappers
  import opened Text

  type Issuer = string
  type KeyId = string
  type Instant = real

  /** A published key; `id` is what a token's header names. */
  datatype Jwk = Jwk(id: Option<KeyId>, material: nat)
  type JwkSet = seq<Jwk>

  const FRESH: real := 3600.0

  /** `JwkSet::find`: the first key with the id. */
  function Find(keys: JwkSet, kid: KeyId): Option<Jwk> {
    if keys == [] then None
    else if keys[0].id == Some(kid) then Some(keys[0])
    else Find(keys[1..], kid)
  }

  /** The entry for an id: the first key of the set that carries it. */
  lemma {:induction false} FindIsFirst(keys: JwkSet, kid: KeyId)
    ensures Find(keys, kid).None? <==> forall i :: 0 <= i < |keys| ==> keys[i].id != Some(kid)
    ensures Find(keys, kid).Some? ==>
              exists i :: 0 <= i < |keys| && keys[i] == Find(keys, kid).value && keys[i].id == Some(kid)
                          && forall j :: 0 <= j < i ==> keys[j].id != Some(kid)
  {
    if keys != [] && keys[0].id != Some(kid) {
      FindIsFirst(keys[1..], kid);
      assert forall i {:trigger keys[1..][i]} :: 0 <= i < |keys| - 1 ==> keys[1..][i] == keys[i + 1];
      assert forall i {:trigger keys[i]} :: 0 < i < |keys| ==> keys[i] == keys[1..][i - 1];
      if Find(keys, kid).Some? {
        var i :| 0 <= i < |keys[1..]| && keys[1..][i] == Find(keys, kid).value && keys[1..][i].id == Some(kid)
                 && forall j :: 0 <= j < i ==> keys[1..][j].id != Some(kid);
        assert keys[i + 1] == Find(keys, kid).value;
      }
    } else if keys != [] {
      assert keys[0] == Find(keys, kid).value;
    }
  }

  predicate Trusted(iss: Issuer) {
    StartsWith(iss, "https://") && EndsWith(iss, ".cloudflareaccess.com")
  }

  datatype Cached = Cached(keys: JwkSet, at: Instant)
  type Cache = map<Issuer, Cached>

  /** One look at the cache. */
  function Lookup(cache: Cache, iss: Issuer, kid: KeyId, now: Instant): Option<Jwk> {
    if iss in cache && now - cache[iss].at < FRESH then Find(cache[iss].keys, kid) else None
  }

  datatype Error = Untrusted | Unreachable | UnknownKey

  /** What the issuer's endpoint answers: its present key set, or nothing usable. */
  function FetchResult(iss: Issuer, answer: Option<JwkSet>): Result<JwkSet, Error> {
    if !Trusted(iss) then Err(Untrusted)
    else match answer
      case None => Err(Unreachable)
      case Some(keys) => Ok(keys)
  }

  function KeyOf(fetched: Result<JwkSet, Error>, kid: KeyId): Result<Jwk, Error> {
    match fetched
    case Err(e) => Err(e)
    case Ok(keys) =>
      match Find(keys, kid)
      case None => Err(UnknownKey)
      case Some(key) => Ok(key)
  }

  /** A set is kept only when it holds the key that was asked for. */
  function Stored(cache: Cache, iss: Issuer, kid: KeyId, fetched: Result<JwkSet, Error>, now: Instant): Cache {
    if KeyOf(fetched, kid).Ok? then cache[iss := Cached(fetched.value, now)] else cache
  }

  /** `https://` before and `.cloudflareaccess.com` behind. */
  predicate OfTheDomain(iss: Issuer) {
    && |iss| >= |"https://"| && iss[..|"https://"|] == "https://"
    && |iss| >= |".cloudflareaccess.com"| && iss[|iss| - |".cloudflareaccess.com"|..] == ".cloudflareaccess.com"
  }

  /** An issuer is refused if and only if it lacks the scheme or the domain; any
      other gets the answer its endpoint gave. */
  lemma FetchRefusesIff(iss: Issuer, answer: Option<JwkSet>)
    ensures FetchResult(iss, answer) == Err(Untrusted) <==> !OfTheDomain(iss)
    ensures OfTheDomain(iss) ==>
              FetchResult(iss, answer) == if answer.Some? then Ok(answer.value) else Err(Unreachable)
  {
  }

  // -------------------------------------------------------------- the object

  class JwksCache {
    var keys: Cache

    constructor ()
      ensures keys == map[]
    {
      keys := map[];
    }

    /** `get_jwk` with nobody else about: looked up at `now`, fetched at `later`. */
    method GetJwk(iss: Issuer, kid: KeyId, now: Instant, later: Instant, answer: Option<JwkSet>)
      returns (key: Result<Jwk, Error>)
      requires now <= later
      modifies this
      ensures var hit := iss in old(keys) && now - old(keys)[iss].at < 3600.0 && Find(old(keys)[iss].keys, kid).Some?;
              var fetched := FetchResult(iss, answer);
              && (hit ==> key == Ok(Find(old(keys)[iss].keys, kid).value) && keys == old(keys))
              && (!hit && fetched.Err? ==> key == Err(fetched.error) && keys == old(keys))
              && (!hit && fetched.Ok? && Find(fetched.value, kid).None? ==> key == Err(UnknownKey) && keys == old(keys))
              && (!hit && fetched.Ok? && Find(fetched.value, kid).Some? ==>
                    key == Ok(Find(fetched.value, kid).value) && keys == old(keys)[iss := Cached(fetched.value, later)])
    {
      if iss in keys {
        var cached := keys[iss];
        if now - cached.at < FRESH {
          var jwk := Find(cached.keys, kid);
          if jwk.Some? {
            return Ok(jwk.value);
          }
        }
      }
      var fetched := FetchResult(iss, answer);
      if fetched.Err? {
        return Err(fetched.error);
      }
      var jwk := Find(fetched.value, kid);
      if jwk.None? {
        return Err(UnknownKey);
      }
      keys := keys[iss := Cached(fetched.value, later)];
      return Ok(jwk.value);
    }
  }

  // ----------------------------------------------------------------- system

  /** A fetch that returned a key set, under the time it was stamped with. */
  datatype Fetch = Fetch(iss: Issuer, keys: JwkSet, at: Instant)

  /** `source` and `at` are history: where an answer comes from, and when it was decided. */
  datatype Phase =
    | Looking
    | Waiting
    | Fetching
    | Holding(fetched: Result<JwkSet, Error>)
    | Answered(key: Result<Jwk, Error>, source: Fetch, at: Instant)
    | Dropped

  datatype Caller = Caller(iss: Issuer, kid: KeyId, phase: Phase)

  /** What is remembered of a run, in order: a fetch begins, a fetch has returned a set. */
  datatype Event = Began(issuer: Issuer, time: Instant) | Fetched(fetch: Fetch)

  function IssuerOf(e: Event): Issuer {
    if e.Began? then e.issuer else e.fetch.iss
  }

  function TimeOf(e: Event): Instant {
    if e.Began? then e.time else e.fetch.at
  }

  datatype Publication = Publication(iss: Issuer, keys: JwkSet)

  /** `writer` is the caller that holds the write lock across its fetch. `log`
      and `publications` are history. */
  datatype System = System(
    now: Instant,
    cache: Cache,
    writer: Option<nat>,
    callers: seq<Caller>,
    published: map<Issuer, JwkSet>,
    log: seq<Event>,
    publications: set<Publication>)

  datatype Step =
    | Tick(elapsed: real)
    | Publish(iss: Issuer, keys: JwkSet)
    | Call(iss: Issuer, kid: KeyId)
    | Look(i: nat)
    | Acquire(i: nat)
    | AnswerArrives(i: nat, reachable: bool)
    | Stamp(i: nat)
    | Drop(i: nat)

  predicate Is(sys: System, i: nat, phase: Phase) {
    i < |sys.callers| && sys.callers[i].phase == phase
  }

  function SetPhase(sys: System, i: nat, phase: Phase): System
    requires i < |sys.callers|
  {
    sys.(callers := sys.callers[i := sys.callers[i].(phase := phase)])
  }

  /** The answer a cached key makes. */
  function Hit(sys: System, c: Caller): Phase
    requires Lookup(sys.cache, c.iss, c.kid, sys.now).Some?
  {
    Answered(Ok(Lookup(sys.cache, c.iss, c.kid, sys.now).value),
             Fetch(c.iss, sys.cache[c.iss].keys, sys.cache[c.iss].at), sys.now)
  }

  function AnswerOf(sys: System, iss: Issuer, reachable: bool): Option<JwkSet> {
    if reachable && iss in sys.published then Some(sys.published[iss]) else None
  }

  /** The set that arrived is searched, stored under the present time, and the lock let go. */
  function Finish(sys: System, i: nat): System
    requires i < |sys.callers| && sys.callers[i].phase.Holding?
  {
    var c := sys.callers[i];
    var fetched := c.phase.fetched;
    var source := Fetch(c.iss, if fetched.Ok? then fetched.value else [], sys.now);
    SetPhase(sys, i, Answered(KeyOf(fetched, c.kid), source, sys.now)).(
      writer := None,
      cache := Stored(sys.cache, c.iss, c.kid, fetched, sys.now),
      log := if fetched.Ok? then sys.log + [Fetched(source)] else sys.log)
  }

  function Do(sys: System, step: Step): System {
    match step
    case Tick(elapsed) => if elapsed >= 0.0 then sys.(now := sys.now + elapsed) else sys
    case Publish(iss, keys) =>
      sys.(published := sys.published[iss := keys], publications := sys.publications + {Publication(iss, keys)})
    case Call(iss, kid) => sys.(callers := sys.callers + [Caller(iss, kid, Looking)])
    case Look(i) =>
      if sys.writer.None? && Is(sys, i, Looking) then
        var c := sys.callers[i];
        SetPhase(sys, i, if Lookup(sys.cache, c.iss, c.kid, sys.now).Some? then Hit(sys, c) else Waiting)
      else sys
    case Acquire(i) =>
      if sys.writer.None? && Is(sys, i, Waiting) then
        var c := sys.callers[i];
        if Lookup(sys.cache, c.iss, c.kid, sys.now).Some? then SetPhase(sys, i, Hit(sys, c))
        else SetPhase(sys, i, Fetching).(writer := Some(i), log := sys.log + [Began(c.iss, sys.now)])
      else sys
    case AnswerArrives(i, reachable) =>
      if Is(sys, i, Fetching)
      then SetPhase(sys, i, Holding(FetchResult(sys.callers[i].iss, AnswerOf(sys, sys.callers[i].iss, reachable))))
      else sys
    case Stamp(i) => if i < |sys.callers| && sys.callers[i].phase.Holding? then Finish(sys, i) else sys
    case Drop(i) =>
      if i < |sys.callers| && !sys.callers[i].phase.Answered?
      then SetPhase(sys, i, Dropped).(writer := if sys.writer == Some(i) then None else sys.writer)
      else sys
  }

  function Run(sys: System, steps: seq<Step>): System
    decreases steps
  {
    if steps == [] then sys else Do(Run(sys, steps[..|steps| - 1]), steps[|steps| - 1])
  }

  const INITIAL := System(0.0, map[], None, [], map[], [], {})

  // ------------------------------------------------------- a caller on its own

  /** Every step of one caller, with nobody in between and no time passing. */
  lemma AloneAnswersAsGetJwk(sys: System, iss: Issuer, kid: KeyId, reachable: bool)
    requires sys.writer.None?
    ensures var n := |sys.callers|;
            var looked := Do(Do(sys, Call(iss, kid)), Look(n));
            var end := Do(Do(Do(looked, Acquire(n)), AnswerArrives(n, reachable)), Stamp(n));
            var hit := iss in sys.cache && sys.now - sys.cache[iss].at < 3600.0 && Find(sys.cache[iss].keys, kid).Some?;
            var answer := if reachable && iss in sys.published then Some(sys.published[iss]) else None;
            var fetched := FetchResult(iss, answer);
            var found := if fetched.Ok? then Find(fetched.value, kid) else None;
            && end.writer.None? && |end.callers| == n + 1 && end.callers[..n] == sys.callers
            && end.callers[n].phase.Answered?
            && (hit ==> end == looked && end.cache == sys.cache && end.log == sys.log
                        && end.callers[n].phase.key == Ok(Find(sys.cache[iss].keys, kid).value))
            && (!hit ==> looked.callers[n].phase == Waiting
                         && end.callers[n].phase.key
                            == (if fetched.Err? then Err(fetched.error)
                                else if found.None? then Err(UnknownKey) else Ok(found.value))
                         && end.cache == (if found.Some? then sys.cache[iss := Cached(fetched.value, sys.now)]
                                          else sys.cache))
  {
    hide Find, FetchResult;
  }

  /** While one caller fetches, nobody looks and nobody else fetches; a fetching
      caller that is dropped lets the lock go. */
  lemma LockExcludes(sys: System, i: nat)
    requires sys.writer.Some?
    ensures Do(sys, Look(i)) == sys && Do(sys, Acquire(i)) == sys
    ensures sys.writer == Some(i) && i < |sys.callers| && !sys.callers[i].phase.Answered? ==>
              Do(sys, Drop(i)) == sys.(writer := None, callers := sys.callers[i := sys.callers[i].(phase := Dropped)])
  {
    hide Lookup, FetchResult;
  }

  // ---------------------------------------------- where keys come from, always

  predicate HoldsLock(c: Caller) {
    c.phase.Fetching? || c.phase.Holding?
  }

  ghost predicate LockFine(sys: System) {
    && (sys.writer.Some? ==> sys.writer.value < |sys.callers|)
    && forall i :: 0 <= i < |sys.callers| ==> (HoldsLock(sys.callers[i]) <==> sys.writer == Some(i))
  }

  ghost predicate CacheFine(sys: System) {
    forall iss <- sys.cache :: Fetched(Fetch(iss, sys.cache[iss].keys, sys.cache[iss].at)) in sys.log
  }

  /** What was fetched, or is about to be, was published by a trusted issuer. */
  predicate Genuine(sys: System, iss: Issuer, keys: JwkSet) {
    Trusted(iss) && Publication(iss, keys) in sys.publications
  }

  ghost predicate FetchesFine(sys: System) {
    && (forall e <- sys.log :: TimeOf(e) <= sys.now && (e.Fetched? ==> Genuine(sys, e.fetch.iss, e.fetch.keys)))
    && (forall c <- sys.callers :: c.phase.Holding? && c.phase.fetched.Ok? ==>
          Genuine(sys, c.iss, c.phase.fetched.value))
    && (forall iss <- sys.published :: Publication(iss, sys.published[iss]) in sys.publications)
  }

  /** An answered key is the entry for its id in a set stamped at that very
      moment, or less than the freshness window before. */
  predicate WellSourced(log: seq<Event>, c: Caller) {
    c.phase.Answered? && c.phase.key.Ok? ==>
      && Fetched(c.phase.source) in log
      && c.phase.source.iss == c.iss
      && Find(c.phase.source.keys, c.kid) == Some(c.phase.key.value)
      && c.phase.source.at <= c.phase.at < c.phase.source.at + FRESH
  }

  ghost predicate AnswersFine(sys: System) {
    forall i :: 0 <= i < |sys.callers| ==> WellSourced(sys.log, sys.callers[i])
  }

  ghost predicate Inv(sys: System) {
    LockFine(sys) && CacheFine(sys) && FetchesFine(sys) && AnswersFine(sys)
  }

  lemma StepKeepsLock(sys: System, step: Step)
    requires LockFine(sys)
    ensures LockFine(Do(sys, step))
  {
    hide Find, Trusted;
  }

  lemma StepKeepsCache(sys: System, step: Step)
    requires CacheFine(sys)
    ensures CacheFine(Do(sys, step))
  {
    hide Find, Trusted;
  }

  lemma StepKeepsFetches(sys: System, step: Step)
    requires FetchesFine(sys)
    ensures FetchesFine(Do(sys, step))
  {
    hide Find, Trusted, Lookup, KeyOf;
  }

  lemma StepKeepsAnswers(sys: System, step: Step)
    requires CacheFine(sys) && FetchesFine(sys) && AnswersFine(sys)
    ensures AnswersFine(Do(sys, step))
  {
    hide Find, Trusted;
    var sys' := Do(sys, step);
    forall i | 0 <= i < |sys'.callers| ensures WellSourced(sys'.log, sys'.callers[i]) {
      if i < |sys.callers| {
        assert WellSourced(sys.log, sys.callers[i]);
      }
    }
  }

  lemma {:induction false} RunKeepsInv(steps: seq<Step>)
    ensures Inv(Run(INITIAL, steps))
    decreases steps
  {
    if steps != [] {
      var n := |steps| - 1;
      RunKeepsInv(steps[..n]);
      StepKeepsLock(Run(INITIAL, steps[..n]), steps[n]);
      StepKeepsCache(Run(INITIAL, steps[..n]), steps[n]);
      StepKeepsFetches(Run(INITIAL, steps[..n]), steps[n]);
      StepKeepsAnswers(Run(INITIAL, steps[..n]), steps[n]);
      hide Do, LockFine, CacheFine, FetchesFine, AnswersFine;
    }
  }

  /** In every interleaving, every key a call returns is the entry for the asked
      id in a set that the asked issuer, one of the domain, published; and that set
      was stamped no earlier than 3600 seconds before the answer was decided. */
  lemma KeysAreGenuineAndFresh(steps: seq<Step>, i: nat)
    requires i < |Run(INITIAL, steps).callers|
    requires Run(INITIAL, steps).callers[i].phase.Answered? && Run(INITIAL, steps).callers[i].phase.key.Ok?
    ensures var sys := Run(INITIAL, steps);
            var c := sys.callers[i];
            var f := c.phase.source;
            && Fetched(f) in sys.log && f.iss == c.iss && OfTheDomain(c.iss)
            && Publication(c.iss, f.keys) in sys.publications
            && c.phase.key.value in f.keys && c.phase.key.value.id == Some(c.kid)
            && Find(f.keys, c.kid) == Some(c.phase.key.value)
            && f.at <= c.phase.at < f.at + 3600.0
  {
    RunKeepsInv(steps);
    FindIsFirst(Run(INITIAL, steps).callers[i].phase.source.keys, Run(INITIAL, steps).callers[i].kid);
    FetchRefusesIff(Run(INITIAL, steps).callers[i].iss, None);
    hide Run, Find, Trusted;
    var sys := Run(INITIAL, steps);
    assert WellSourced(sys.log, sys.callers[i]);
    assert Genuine(sys, sys.callers[i].iss, sys.callers[i].phase.source.keys);
  }

  // ----------------------------------------------- one fetch per window

  /** The issuer does not change its set, and is asked only for keys in it. */
  predicate Steady(step: Step, iss: Issuer, keys: JwkSet) {
    && (step.Publish? && step.iss == iss ==> step.keys == keys)
    && (step.Call? && step.iss == iss ==> Find(keys, step.kid).Some?)
  }

  ghost predicate SteadySystem(sys: System, iss: Issuer, keys: JwkSet) {
    && (iss in sys.published ==> sys.published[iss] == keys)
    && (iss in sys.cache ==> sys.cache[iss].keys == keys)
    && (forall c <- sys.callers :: c.iss == iss ==>
          Find(keys, c.kid).Some? && (c.phase.Holding? && c.phase.fetched.Ok? ==> c.phase.fetched.value == keys))
  }

  /** The cache holds the latest fetch; whoever holds the lock found it stale;
      and nothing of the issuer happened within the window of an earlier fetch. */
  ghost predicate LatestCached(sys: System, iss: Issuer) {
    forall e <- sys.log :: e.Fetched? && e.fetch.iss == iss ==> iss in sys.cache && e.fetch.at <= sys.cache[iss].at
  }

  ghost predicate HolderFoundStale(sys: System, iss: Issuer) {
    forall c <- sys.callers :: HoldsLock(c) && c.iss == iss && iss in sys.cache ==> sys.now - sys.cache[iss].at >= FRESH
  }

  ghost predicate LogSpaced(log: seq<Event>, iss: Issuer) {
    forall i, j :: 0 <= i < j < |log| && log[i].Fetched? && IssuerOf(log[i]) == iss && IssuerOf(log[j]) == iss ==>
      TimeOf(log[j]) - TimeOf(log[i]) >= FRESH
  }

  ghost predicate Spaced(sys: System, iss: Issuer) {
    LatestCached(sys, iss) && HolderFoundStale(sys, iss) && LogSpaced(sys.log, iss)
  }

  lemma StepKeepsSteady(sys: System, step: Step, iss: Issuer, keys: JwkSet)
    requires SteadySystem(sys, iss, keys) && Steady(step, iss, keys)
    ensures SteadySystem(Do(sys, step), iss, keys)
  {
    hide Find, Trusted;
  }

  lemma StepKeepsLatest(sys: System, step: Step, iss: Issuer, keys: JwkSet)
    requires SteadySystem(sys, iss, keys) && LatestCached(sys, iss) && FetchesFine(sys)
    ensures LatestCached(Do(sys, step), iss)
  {
    hide Find, Trusted;
  }

  lemma StepKeepsStale(sys: System, step: Step, iss: Issuer, keys: JwkSet)
    requires SteadySystem(sys, iss, keys) && HolderFoundStale(sys, iss) && LockFine(sys)
    ensures HolderFoundStale(Do(sys, step), iss)
  {
    hide Find, Trusted;
    var sys' := Do(sys, step);
    forall c <- sys'.callers | HoldsLock(c) && c.iss == iss && iss in sys'.cache
      ensures sys'.now - sys'.cache[iss].at >= FRESH
    {
      var i :| 0 <= i < |sys'.callers| && sys'.callers[i] == c;
      assert i < |sys.callers| ==> sys.callers[i] in sys.callers;
    }
  }

  lemma StepKeepsLogSpaced(sys: System, step: Step, iss: Issuer, keys: JwkSet)
    requires SteadySystem(sys, iss, keys) && Spaced(sys, iss)
    ensures LogSpaced(Do(sys, step).log, iss)
  {
    hide Find, Trusted, KeyOf;
  }

  lemma {:induction false} RunStaysSpaced(steps: seq<Step>, iss: Issuer, keys: JwkSet)
    requires forall s <- steps :: Steady(s, iss, keys)
    ensures SteadySystem(Run(INITIAL, steps), iss, keys) && Spaced(Run(INITIAL, steps), iss)
    decreases steps
  {
    if steps != [] {
      var n := |steps| - 1;
      RunStaysSpaced(steps[..n], iss, keys);
      RunKeepsInv(steps[..n]);
      StepKeepsSteady(Run(INITIAL, steps[..n]), steps[n], iss, keys);
      StepKeepsLatest(Run(INITIAL, steps[..n]), steps[n], iss, keys);
      StepKeepsStale(Run(INITIAL, steps[..n]), steps[n], iss, keys);
      StepKeepsLogSpaced(Run(INITIAL, steps[..n]), steps[n], iss, keys);
      hide Do, LatestCached, HolderFoundStale, LogSpaced, SteadySystem, Steady, LockFine, CacheFine, FetchesFine,
           AnswersFine;
    }
  }

  /** While an issuer's set is unchanged and callers ask for its keys, however
      they race: after a fetch from it has returned, neither does another return
      nor does one even begin within 3600 seconds. */
  lemma OneFetchPerWindow(steps: seq<Step>, iss: Issuer, keys: JwkSet, i: nat, j: nat)
    requires forall s <- steps :: Steady(s, iss, keys)
    requires i < j < |Run(INITIAL, steps).log|
    requires var log := Run(INITIAL, steps).log; log[i].Fetched? && IssuerOf(log[i]) == IssuerOf(log[j]) == iss
    ensures var log := Run(INITIAL, steps).log; TimeOf(log[j]) - TimeOf(log[i]) >= 3600.0
  {
    RunStaysSpaced(steps, iss, keys);
    hide Run;
  }

  /** The condition on callers is needed: one who asks for an id that is not in
      the set begins another fetch a second after the last one. */
  lemma UnknownKeysRefetch(iss: Issuer, key: Jwk, kid: KeyId, wrong: KeyId)
    requires Trusted(iss) && key.id == Some(kid) && wrong != kid
    ensures var first := [Publish(iss, [key]), Call(iss, kid), Look(0), Acquire(0), AnswerArrives(0, true), Stamp(0)];
            var second := [Tick(1.0), Call(iss, wrong), Look(1), Acquire(1)];
            Run(Run(INITIAL, first), second).log ==
            [Began(iss, 0.0), Fetched(Fetch(iss, [key], 0.0)), Began(iss, 1.0)]
  {
    var first := [Publish(iss, [key]), Call(iss, kid), Look(0), Acquire(0), AnswerArrives(0, true), Stamp(0)];
    FirstCallFetches(iss, key, kid);
    SecondCallBegins(Run(INITIAL, first), iss, key, wrong);
  }

  lemma FirstCallBegins(iss: Issuer, key: Jwk, kid: KeyId)
    ensures Run(INITIAL, [Publish(iss, [key]), Call(iss, kid), Look(0), Acquire(0)])
         == System(0.0, map[], Some(0), [Caller(iss, kid, Fetching)], map[iss := [key]], [Began(iss, 0.0)],
                   {Publication(iss, [key])})
  {
    hide Find, Trusted;
    RunOfFour(INITIAL, [Publish(iss, [key]), Call(iss, kid), Look(0), Acquire(0)]);
    hide Run;
  }

  lemma FirstCallFetches(iss: Issuer, key: Jwk, kid: KeyId)
    requires Trusted(iss) && key.id == Some(kid)
    ensures var sys := Run(INITIAL, [Publish(iss, [key]), Call(iss, kid), Look(0), Acquire(0), AnswerArrives(0, true),
                                     Stamp(0)]);
            && sys.now == 0.0 && sys.writer.None? && |sys.callers| == 1
            && iss in sys.cache && sys.cache[iss] == Cached([key], 0.0)
            && sys.log == [Began(iss, 0.0), Fetched(Fetch(iss, [key], 0.0))]
  {
    hide Trusted;
    var steps := [Publish(iss, [key]), Call(iss, kid), Look(0), Acquire(0), AnswerArrives(0, true), Stamp(0)];
    FirstCallBegins(iss, key, kid);
    assert steps[..5][..4] == steps[..4] == [Publish(iss, [key]), Call(iss, kid), Look(0), Acquire(0)];
    assert Run(INITIAL, steps[..5]) == Do(Run(INITIAL, steps[..4]), steps[4]);
    assert Run(INITIAL, steps) == Do(Run(INITIAL, steps[..5]), steps[5]);
    hide Run;
    assert Find([key], kid) == Some(key);
  }

  lemma SecondCallBegins(sys: System, iss: Issuer, key: Jwk, wrong: KeyId)
    requires sys.now == 0.0 && sys.writer.None? && |sys.callers| == 1
    requires iss in sys.cache && sys.cache[iss] == Cached([key], 0.0) && key.id != Some(wrong)
    ensures Run(sys, [Tick(1.0), Call(iss, wrong), Look(1), Acquire(1)]).log == sys.log + [Began(iss, 1.0)]
  {
    RunOfFour(sys, [Tick(1.0), Call(iss, wrong), Look(1), Acquire(1)]);
    assert Find([key], wrong) == Find([key][1..], wrong) == None;
    hide Run, Trusted;
  }

  lemma RunOfFour(sys: System, steps: seq<Step>)
    requires |steps| == 4
    ensures Run(sys, steps) == Do(Do(Do(Do(sys, steps[0]), steps[1]), steps[2]), steps[3])
  {
    hide Do;
    assert steps[..3][..2] == steps[..2] && steps[..2][..1] == steps[..1];
    assert Run(sys, steps[..1]) == Do(sys, steps[0]);
    assert Run(sys, steps[..2]) == Do(Do(sys, steps[0]), steps[1]);
    assert Run(sys, steps[..3]) == Do(Do(Do(sys, steps[0]), steps[1]), steps[2]);
  }
}
