/** The `server-key` parameter of a worker's endpoint: masked before it is
    shown, split off before it is dialled.
 */
module ServerKey {
  import opened Wrappers

  const MARKER := "server-key="
  const REDACTED := "<redacted>"

  // ----------------------------------------------------------------- search

  predicate OccursAt(s: string, i: nat) {
    i + |MARKER| <= |s| && s[i..i + |MARKER|] == MARKER
  }

  ghost predicate Contains(s: string) {
    exists i: nat :: OccursAt(s, i)
  }

  function FindFrom(s: string, i: nat): (r: Option<nat>)
    ensures r.Some? ==> i <= r.value && OccursAt(s, r.value)
    ensures forall j: nat :: i <= j && (r.Some? ==> j < r.value) ==> !OccursAt(s, j)
    decreases |s| - i
  {
    if |s| < i then None else if OccursAt(s, i) then Some(i) else FindFrom(s, i + 1)
  }

  /** `str::find` for the marker. */
  function Find(s: string): Option<nat> {
    FindFrom(s, 0)
  }

  predicate EndsValue(c: char) {
    c == '&' || c == '#'
  }

  /** Where the value that starts at `i` ends. */
  function ValueEnd(s: string, i: nat): (end: nat)
    requires i <= |s|
    ensures i <= end <= |s|
    ensures forall j :: i <= j < end ==> !EndsValue(s[j])
    ensures end < |s| ==> EndsValue(s[end])
    decreases |s| - i
  {
    if i == |s| || EndsValue(s[i]) then i else ValueEnd(s, i + 1)
  }

  // -------------------------------------------------------------- functions

  /** `mask_server_key`. */
  function Mask(endpoint: string): string {
    match Find(endpoint)
    case None => endpoint
    case Some(idx) =>
      var start := idx + |MARKER|;
      endpoint[..start] + REDACTED + endpoint[ValueEnd(endpoint, start)..]
  }

  /** `split_server_key`. */
  function Split(endpoint: string): (string, Option<string>) {
    match Find(endpoint)
    case None => (endpoint, None)
    case Some(idx) =>
      if idx == 0 || endpoint[idx - 1] !in {'?', '&'} then (endpoint, None)
      else
        var sep := endpoint[idx - 1];
        var start := idx + |MARKER|;
        var end := ValueEnd(endpoint, start);
        var secret := endpoint[start..end];
        if secret == "" then (endpoint, None)
        else if sep == '&' then (endpoint[..idx - 1] + endpoint[end..], Some(secret))
        else if end < |endpoint| && endpoint[end] == '&' then (endpoint[..idx] + endpoint[end + 1..], Some(secret))
        else (endpoint[..idx - 1] + endpoint[end..], Some(secret))
  }

  // ------------------------------------------------------- where markers are

  /** The marker's last character is in it only once, so that text before a
      marker that holds none holds no part of another. */
  lemma MarkerFacts()
    ensures |MARKER| == 11 && MARKER[10] == '='
    ensures forall j :: 0 <= j < 10 ==> MARKER[j] != '='
    ensures forall j :: 0 <= j < 11 ==> MARKER[j] != '?' && MARKER[j] != '&' && MARKER[j] != '#'
  {
  }

  lemma OccursInPart(a: string, b: string, i: nat)
    ensures i + |MARKER| <= |a| ==> (OccursAt(a, i) <==> OccursAt(a + b, i))
    ensures OccursAt(b, i) <==> OccursAt(a + b, |a| + i)
  {
    if i + |MARKER| <= |a| {
      assert (a + b)[i..i + |MARKER|] == a[i..i + |MARKER|];
    }
    if i + |MARKER| <= |b| {
      assert (a + b)[|a| + i..|a| + i + |MARKER|] == b[i..i + |MARKER|];
    }
  }

  lemma FoundAfter(a: string, b: string)
    requires !Contains(a)
    ensures Find(a + MARKER + b) == Some(|a|)
  {
    var s := a + MARKER + b;
    MarkerFacts();
    assert s[|a|..|a| + |MARKER|] == MARKER;
    assert OccursAt(s, |a|);
    forall i: nat | i < |a| ensures !OccursAt(s, i) {
      if i + |MARKER| <= |a| {
        OccursInPart(a, MARKER + b, i);
        assert s == a + (MARKER + b);
      } else {
        assert s[i..i + |MARKER|][10] == s[i + 10] == MARKER[i + 10 - |a|];
      }
    }
  }

  lemma OccursAside(a: string, c: char, b: string, i: nat)
    requires c == '?' || c == '&' || c == '#'
    requires OccursAt(a + [c] + b, i)
    ensures i + |MARKER| <= |a| || i > |a|
  {
    MarkerFacts();
    var s := a + [c] + b;
    var seen := s[i..i + |MARKER|];
    assert forall j {:trigger MARKER[j]} :: 0 <= j < |MARKER| ==> s[i + j] == seen[j] == MARKER[j];
    var at := if i <= |a| < i + |MARKER| then MARKER[|a| - i] else '=';
    assert at != c;
  }

  /** No marker reaches across a separator. */
  lemma ContainsAcross(a: string, c: char, b: string)
    requires c == '?' || c == '&' || c == '#'
    ensures Contains(a + [c] + b) <==> Contains(a) || Contains(b)
  {
    var s := a + [c] + b;
    assert s == a + ([c] + b);
    if Contains(s) {
      var i: nat :| OccursAt(s, i);
      OccursAside(a, c, b, i);
      if i + |MARKER| <= |a| {
        OccursInPart(a, [c] + b, i);
      } else {
        OccursInPart(a + [c], b, i - |a| - 1);
        assert OccursAt(b, i - |a| - 1);
      }
    }
    if Contains(a) {
      var i: nat :| OccursAt(a, i);
      OccursInPart(a, [c] + b, i);
    }
    if Contains(b) {
      var i: nat :| OccursAt(b, i);
      OccursInPart(a + [c], b, i);
    }
  }

  predicate IsValue(v: string) {
    forall i :: 0 <= i < |v| ==> !EndsValue(v[i])
  }

  predicate AfterValue(rest: string) {
    rest == "" || EndsValue(rest[0])
  }

  lemma ValueEndsThere(a: string, v: string, rest: string)
    requires IsValue(v) && AfterValue(rest)
    ensures ValueEnd(a + v + rest, |a|) == |a| + |v|
  {
    var s := a + v + rest;
    var end := ValueEnd(s, |a|);
    assert forall i :: 0 <= i < |v| ==> s[|a| + i] == v[i];
    assert rest != "" ==> s[|a| + |v|] == rest[0];
  }

  // ---------------------------------------------------------------- masking

  lemma MaskAt(a: string, v: string, rest: string)
    requires !Contains(a) && IsValue(v) && AfterValue(rest)
    ensures Mask(a + MARKER + v + rest) == a + MARKER + REDACTED + rest
  {
    var s := a + MARKER + v + rest;
    FoundAfter(a, v + rest);
    assert s == a + MARKER + (v + rest);
    ValueEndsThere(a + MARKER, v, rest);
    hide *;
    assert s[..|a| + |MARKER|] == a + MARKER;
    assert s[|a| + |MARKER| + |v|..] == rest;
  }

  /** The mask does not depend on the value it hides. */
  lemma MaskForgetsTheValue(a: string, v: string, w: string, rest: string)
    requires !Contains(a) && IsValue(v) && IsValue(w) && AfterValue(rest)
    ensures Mask(a + MARKER + v + rest) == Mask(a + MARKER + w + rest)
  {
    MaskAt(a, v, rest);
    MaskAt(a, w, rest);
  }

  /** Every endpoint with a marker has the form the other lemmas speak of. */
  lemma Parts(s: string) returns (a: string, v: string, rest: string)
    requires Contains(s)
    ensures s == a + MARKER + v + rest && !Contains(a) && IsValue(v) && AfterValue(rest)
  {
    var idx := Find(s).value;
    var start := idx + |MARKER|;
    var end := ValueEnd(s, start);
    a, v, rest := s[..idx], s[start..end], s[end..];
    NothingBefore(s, idx);
    assert IsValue(v) && AfterValue(rest);
    assert s[idx..start] == MARKER;
    hide *;
    Join4(s, idx, start, end);
  }

  lemma Join4(s: string, i: nat, j: nat, k: nat)
    requires i <= j <= k <= |s|
    ensures s == s[..i] + s[i..j] + s[j..k] + s[k..]
  {
  }

  lemma NothingBefore(s: string, idx: nat)
    requires Find(s) == Some(idx)
    ensures !Contains(s[..idx])
  {
    forall i: nat ensures !OccursAt(s[..idx], i) {
      OccursInPart(s[..idx], s[idx..], i);
      assert s == s[..idx] + s[idx..];
    }
  }

  /** Exactly the value of the first parameter is replaced, up to the next `&`
      or `#`, and a text without the parameter is left alone. */
  lemma MaskReplacesTheValue(a: string, v: string, rest: string)
    requires forall x, y :: a != x + "server-key=" + y
    requires '&' !in v && '#' !in v && (rest == "" || rest[0] == '&' || rest[0] == '#')
    ensures Mask(a + "server-key=" + v + rest) == a + "server-key=" + "<redacted>" + rest
    ensures Mask(a) == a
  {
    ContainsIff(a);
    hide Contains;
    MaskAt(a, v, rest);
    assert Find(a).Some? ==> OccursAt(a, Find(a).value);
    FindIff(a);
  }

  lemma ContainsIff(s: string)
    ensures Contains(s) <==> exists x, y :: s == x + "server-key=" + y
  {
    if Contains(s) {
      var x, v, rest := Parts(s);
      assert s == x + "server-key=" + (v + rest);
    }
    if x, y :| s == x + "server-key=" + y {
      assert s[|x|..|x| + |MARKER|] == MARKER;
      assert OccursAt(s, |x|);
    }
  }

  /** Masking twice is masking once. */
  lemma MaskIsIdempotent(s: string)
    ensures Mask(Mask(s)) == Mask(s)
  {
    if Contains(s) {
      var a, v, rest := Parts(s);
      MaskAt(a, v, rest);
      MaskAt(a, REDACTED, rest);
    } else {
      assert Mask(s) == s;
    }
  }

  /** Masking leaves an endpoint as it is exactly when it holds no marker, or
      its first value is already the placeholder. */
  lemma MaskChangesIff(a: string, v: string, rest: string)
    requires !Contains(a) && IsValue(v) && AfterValue(rest)
    ensures Mask(a + MARKER + v + rest) == a + MARKER + v + rest <==> v == REDACTED
  {
    MaskAt(a, v, rest);
    hide *;
    var masked, s := a + MARKER + REDACTED + rest, a + MARKER + v + rest;
    if masked == s {
      assert masked[|a| + |MARKER|..|masked| - |rest|] == REDACTED;
      assert s[|a| + |MARKER|..|s| - |rest|] == v;
    }
  }

  // ------------------------------------------------------------ splitting off

  /** An endpoint taken apart: `base?p1&...&pn` and then a fragment or nothing. */
  datatype Endpoint = Endpoint(base: string, params: seq<string>, tail: string)

  ghost predicate WellFormed(e: Endpoint) {
    && !Contains(e.base)
    && (forall p <- e.params :: IsValue(p))
    && (e.tail == "" || e.tail[0] == '#')
  }

  function Amps(params: seq<string>): string {
    if params == [] then "" else "&" + params[0] + Amps(params[1..])
  }

  function Query(params: seq<string>): string {
    if params == [] then "" else "?" + params[0] + Amps(params[1..])
  }

  function Render(e: Endpoint): string {
    e.base + Query(e.params) + e.tail
  }

  function Without(e: Endpoint, k: nat): Endpoint
    requires k < |e.params|
  {
    e.(params := e.params[..k] + e.params[k + 1..])
  }

  /** The first parameter that holds the marker is number `k`. */
  ghost predicate FirstMarked(e: Endpoint, k: nat) {
    && k < |e.params|
    && Contains(e.params[k])
    && forall j :: 0 <= j < k ==> !Contains(e.params[j])
  }

  lemma {:induction false} AmpsConcat(x: seq<string>, y: seq<string>)
    ensures Amps(x + y) == Amps(x) + Amps(y)
  {
    if x == [] {
      assert x + y == y;
    } else {
      assert (x + y)[1..] == x[1..] + y;
      AmpsConcat(x[1..], y);
    }
  }

  lemma {:induction false} AmpsContains(a: string, x: seq<string>)
    ensures Contains(a + Amps(x)) <==> Contains(a) || exists p <- x :: Contains(p)
    decreases x
  {
    hide Contains;
    if x == [] {
      assert a + Amps(x) == a;
    } else {
      assert a + Amps(x) == (a + ['&'] + x[0]) + Amps(x[1..]);
      AmpsContains(a + ['&'] + x[0], x[1..]);
      ContainsAcross(a, '&', x[0]);
      assert x == [x[0]] + x[1..];
    }
  }

  /** The text up to the parameters before number `k`, in rendered form. */
  function Before(e: Endpoint, k: nat): string
    requires k <= |e.params|
  {
    e.base + Query(e.params[..k])
  }

  lemma BeforeContains(e: Endpoint, k: nat)
    requires !Contains(e.base) && k <= |e.params|
    ensures Contains(Before(e, k)) <==> exists p <- e.params[..k] :: Contains(p)
  {
    hide Contains;
    var x := e.params[..k];
    if x == [] {
      assert Before(e, k) == e.base;
    } else {
      assert Before(e, k) == (e.base + ['?'] + x[0]) + Amps(x[1..]);
      AmpsContains(e.base + ['?'] + x[0], x[1..]);
      ContainsAcross(e.base, '?', x[0]);
      assert x == [x[0]] + x[1..];
    }
  }

  /** A rendered endpoint holds the marker exactly where one of its parts does. */
  lemma RenderContains(e: Endpoint)
    requires WellFormed(e)
    ensures Contains(Render(e)) <==> (exists p <- e.params :: Contains(p)) || Contains(e.tail)
  {
    BeforeContains(e, |e.params|);
    assert e.params[..|e.params|] == e.params;
    if e.tail == "" {
      assert Render(e) == Before(e, |e.params|);
      assert !OccursAt("", 0);
    } else {
      assert Render(e) == Before(e, |e.params|) + ['#'] + e.tail[1..];
      ContainsAcross(Before(e, |e.params|), '#', e.tail[1..]);
      assert e.tail == "" + ['#'] + e.tail[1..];
      ContainsAcross("", '#', e.tail[1..]);
      assert forall i: nat :: !OccursAt("", i);
    }
  }

  function SepAt(k: nat): char {
    if k == 0 then '?' else '&'
  }

  lemma RenderAround(e: Endpoint, k: nat)
    requires k < |e.params|
    ensures Render(e) == Before(e, k) + [SepAt(k)] + e.params[k] + (Amps(e.params[k + 1..]) + e.tail)
    ensures k > 0 ==> Render(Without(e, k)) == Before(e, k) + (Amps(e.params[k + 1..]) + e.tail)
    ensures k == 0 ==> Render(Without(e, k)) == e.base + Query(e.params[1..]) + e.tail && Before(e, k) == e.base
  {
    if k == 0 {
      assert e.params[..0] + e.params[1..] == e.params[1..];
    } else {
      RenderLater(e, k);
    }
  }

  lemma QueryConcat(x: seq<string>, y: seq<string>)
    requires x != []
    ensures Query(x + y) == Query(x) + Amps(y)
  {
    assert (x + y)[1..] == x[1..] + y;
    AmpsConcat(x[1..], y);
    hide Amps;
  }

  lemma AmpsFirst(p: string, y: seq<string>)
    ensures Amps([p] + y) == "&" + p + Amps(y)
  {
    assert ([p] + y)[1..] == y;
  }

  lemma RenderLater(e: Endpoint, k: nat)
    requires 0 < k < |e.params|
    ensures Render(e) == Before(e, k) + ['&'] + e.params[k] + (Amps(e.params[k + 1..]) + e.tail)
    ensures Render(Without(e, k)) == Before(e, k) + (Amps(e.params[k + 1..]) + e.tail)
  {
    var x, y, p := e.params[..k], e.params[k + 1..], e.params[k];
    QueryConcat(x, [p] + y);
    QueryConcat(x, y);
    AmpsFirst(p, y);
    hide Amps, Query;
    assert e.params == x + ([p] + y);
    Regroup(e.base, Query(x), p, Amps(y), e.tail);
  }

  lemma Regroup(base: string, query: string, p: string, rest: string, tail: string)
    ensures base + (query + ("&" + p + rest)) + tail == (base + query) + ['&'] + p + (rest + tail)
    ensures base + (query + rest) + tail == (base + query) + (rest + tail)
  {
  }

  /** A text in four pieces, cut where they meet. */
  lemma Cuts(p: string, m: string, v: string, rest: string)
    ensures var s := p + m + v + rest;
            && s[..|p|] == p
            && s[|p| + |m|..|p| + |m| + |v|] == v
            && s[|p| + |m| + |v|..] == rest
            && (rest != "" ==> s[|p| + |m| + |v|] == rest[0] && s[|p| + |m| + |v| + 1..] == rest[1..])
  {
  }

  lemma EndsInSep(a: string, sep: char, more: string)
    requires sep == '?' || sep == '&'
    ensures !Contains(a) ==> !Contains(a + [sep])
    ensures (a + [sep] + more)[|a|] == sep && (a + [sep] + more)[..|a|] == a
  {
    ContainsAcross(a, sep, "");
    assert a + [sep] + "" == a + [sep];
    assert forall i: nat :: !OccursAt("", i);
  }

  function Closed(a: string, sep: char, rest: string): string {
    if sep == '?' && rest != "" && rest[0] == '&' then a + "?" + rest[1..] else a + rest
  }

  lemma SplitAt(a: string, sep: char, v: string, rest: string)
    requires sep == '?' || sep == '&'
    requires !Contains(a) && IsValue(v) && AfterValue(rest)
    ensures var s := (a + [sep]) + MARKER + v + rest;
            Split(s) == if v == "" then (s, None) else (Closed(a, sep, rest), Some(v))
  {
    hide *;
    var p := a + [sep];
    var s := p + MARKER + v + rest;
    EndsInSep(a, sep, MARKER + v + rest);
    FoundAfter(p, v + rest);
    ValueEndsThere(p + MARKER, v, rest);
    Cuts(p, MARKER, v, rest);
    Associate(p, MARKER, v, rest);
    SplitFound(s, a, sep, v, rest);
  }

  lemma Associate(p: string, m: string, v: string, rest: string)
    ensures p + m + v + rest == p + m + (v + rest) == p + (m + v + rest)
  {
  }

  lemma SplitFound(s: string, a: string, sep: char, v: string, rest: string)
    requires sep == '?' || sep == '&'
    requires Find(s) == Some(|a| + 1) && |a| + 1 + |MARKER| + |v| + |rest| == |s|
    requires ValueEnd(s, |a| + 1 + |MARKER|) == |a| + 1 + |MARKER| + |v|
    requires s[|a|] == sep && s[..|a|] == a && s[..|a| + 1] == a + [sep]
    requires s[|a| + 1 + |MARKER|..|a| + 1 + |MARKER| + |v|] == v
    requires s[|a| + 1 + |MARKER| + |v|..] == rest
    requires rest != "" ==> s[|a| + 1 + |MARKER| + |v|] == rest[0] && s[|a| + 1 + |MARKER| + |v| + 1..] == rest[1..]
    ensures Split(s) == if v == "" then (s, None) else (Closed(a, sep, rest), Some(v))
  {
    hide Find, ValueEnd;
    assert sep == '?' ==> a + [sep] + rest == a + "?" + rest;
  }

  lemma BeforeFirstMarked(e: Endpoint, k: nat)
    requires WellFormed(e) && FirstMarked(e, k)
    ensures !Contains(Before(e, k))
  {
    BeforeContains(e, k);
  }

  /** What follows parameter `k`, separator first. */
  function After(e: Endpoint, k: nat): string
    requires k < |e.params|
  {
    Amps(e.params[k + 1..]) + e.tail
  }

  lemma AfterIsAfter(e: Endpoint, k: nat)
    requires WellFormed(e) && k < |e.params|
    ensures AfterValue(After(e, k))
  {
  }

  lemma RenderSplit(e: Endpoint, k: nat)
    requires k < |e.params|
    ensures Render(e) == Before(e, k) + [SepAt(k)] + e.params[k] + After(e, k)
  {
    RenderAround(e, k);
    hide Render, Before, Amps;
  }

  lemma Shift(p: string, m: string, v: string, rest: string)
    ensures p + (m + v) + rest == p + m + v + rest
  {
  }

  lemma RenderMarked(e: Endpoint, k: nat, v: string)
    requires WellFormed(e) && FirstMarked(e, k) && e.params[k] == MARKER + v
    ensures Render(e) == (Before(e, k) + [SepAt(k)]) + MARKER + v + After(e, k)
    ensures IsValue(v) && AfterValue(After(e, k)) && !Contains(Before(e, k))
  {
    BeforeFirstMarked(e, k);
    RenderSplit(e, k);
    AfterIsAfter(e, k);
    assert IsValue(e.params[k]);
    assert forall i :: 0 <= i < |v| ==> v[i] == e.params[k][|MARKER| + i];
    assert IsValue(v);
    hide *;
    Shift(Before(e, k) + [SepAt(k)], MARKER, v, After(e, k));
  }

  lemma ClosedIsWithout(e: Endpoint, k: nat)
    requires WellFormed(e) && k < |e.params|
    ensures Closed(Before(e, k), SepAt(k), After(e, k)) == Render(Without(e, k))
  {
    RenderAround(e, k);
    if k == 0 {
      ClosedFirst(e);
    }
    hide Before, Render, Amps;
  }

  lemma ClosedFirst(e: Endpoint)
    requires WellFormed(e) && |e.params| > 0
    ensures Closed(e.base, '?', After(e, 0)) == e.base + Query(e.params[1..]) + e.tail
  {
    var after := e.params[1..];
    if after == [] {
      assert After(e, 0) == e.tail;
      assert e.base + "" + e.tail == e.base + e.tail;
    } else {
      var rest := after[0] + Amps(after[1..]);
      assert After(e, 0) == "&" + rest + e.tail;
      assert Query(after) == "?" + rest;
      hide *;
      assert ("&" + rest + e.tail)[1..] == rest + e.tail;
      assert e.base + "?" + (rest + e.tail) == e.base + ("?" + rest) + e.tail;
    }
  }

  /** When the first marked parameter starts with the marker and has a value,
      the value is split off and the endpoint is the one without the parameter. */
  lemma SplitRemovesTheParameter(e: Endpoint, k: nat, v: string)
    requires WellFormed(e) && FirstMarked(e, k) && e.params[k] == MARKER + v && v != ""
    ensures Split(Render(e)) == (Render(Without(e, k)), Some(v))
  {
    RenderMarked(e, k, v);
    ClosedIsWithout(e, k);
    SplitAt(Before(e, k), SepAt(k), v, After(e, k));
    hide Split, Render, Before, After, Closed, Contains, IsValue;
  }

  /** Nothing is split off when no part holds the marker. */
  lemma SplitLeavesTheRest(e: Endpoint)
    requires WellFormed(e)
    requires (forall p <- e.params :: !Contains(p)) && !Contains(e.tail)
    ensures Split(Render(e)) == (Render(e), None)
  {
    RenderContains(e);
    hide Contains;
    FindIff(Render(e));
  }

  lemma FindIff(s: string)
    ensures Find(s).Some? <==> Contains(s)
  {
  }

  /** Nothing is split off when the first marked parameter has no value. */
  lemma SplitLeavesEmptyValues(e: Endpoint, k: nat)
    requires WellFormed(e) && FirstMarked(e, k) && e.params[k] == MARKER
    ensures Split(Render(e)) == (Render(e), None)
  {
    RenderMarked(e, k, "");
    SplitAt(Before(e, k), SepAt(k), "", After(e, k));
    hide Split, Render, Before, After, Contains;
  }

  /** Nothing is split off when the first marker sits inside a parameter, behind
      a character that starts none. */
  lemma SplitLeavesInnerMarkers(e: Endpoint, k: nat, a: string, b: string)
    requires WellFormed(e) && FirstMarked(e, k)
    requires e.params[k] == a + MARKER + b && !Contains(a) && a != "" && a[|a| - 1] != '?'
    ensures Split(Render(e)) == (Render(e), None)
  {
    BeforeFirstMarked(e, k);
    RenderSplit(e, k);
    assert a[|a| - 1] != '&' by {
      assert IsValue(e.params[k]);
      assert e.params[k][|a| - 1] == a[|a| - 1];
    }
    SeparatorIsOne(k);
    hide *;
    var before, sep, rest := Before(e, k), SepAt(k), After(e, k);
    ContainsAcross(before, sep, a);
    FoundAfter(before + [sep] + a, b + rest);
    InnerMarker(before + [sep], a, b, rest);
    SplitUnmoved(Render(e), |before| + 1 + |a|);
  }

  lemma SeparatorIsOne(k: nat)
    ensures SepAt(k) == '?' || SepAt(k) == '&'
  {
  }

  lemma InnerMarker(p: string, a: string, b: string, rest: string)
    requires a != ""
    ensures p + (a + MARKER + b) + rest == (p + a) + MARKER + (b + rest)
    ensures (p + (a + MARKER + b) + rest)[|p| + |a| - 1] == a[|a| - 1]
  {
  }

  lemma SplitUnmoved(s: string, idx: nat)
    requires Find(s) == Some(idx) && 0 < idx <= |s| && s[idx - 1] !in {'?', '&'}
    ensures Split(s) == (s, None)
  {
  }

  /** A split endpoint holds the marker only where another part did. */
  lemma SplitIsSecretFree(e: Endpoint, k: nat, v: string)
    requires WellFormed(e) && FirstMarked(e, k) && e.params[k] == MARKER + v && v != ""
    requires !Contains(e.tail) && forall j :: 0 <= j < |e.params| && j != k ==> !Contains(e.params[j])
    ensures !Contains(Split(Render(e)).0)
  {
    SplitRemovesTheParameter(e, k, v);
    RenderContains(Without(e, k));
    hide Contains, Split;
  }

  // ------------------------------------------------------------ any endpoint

  /** The first marker of the text starts a parameter and has the value `v`. */
  predicate SplitsInto(s: string, a: string, sep: char, v: string, rest: string) {
    && s == (a + [sep]) + MARKER + v + rest
    && (sep == '?' || sep == '&')
    && v != "" && IsValue(v) && AfterValue(rest)
  }

  /** Where the first marker was, cut off before it. */
  lemma SplitParts(s: string) returns (a: string, sep: char, v: string, rest: string)
    requires Split(s).1.Some?
    ensures SplitsInto(s, a, sep, v, rest) && !Contains(a) && Split(s).1 == Some(v)
  {
    var idx := Find(s).value;
    var start := idx + |MARKER|;
    var end := ValueEnd(s, start);
    a, sep, v, rest := s[..idx - 1], s[idx - 1], s[start..end], s[end..];
    NothingBefore(s, idx);
    assert s[..idx] == a + [sep];
    EndsInSep(a, sep, "");
    ContainsAcross(a, sep, "");
    assert a + [sep] + "" == a + [sep];
    assert s[idx..start] == MARKER;
    assert IsValue(v) && AfterValue(rest);
    hide Find, ValueEnd, Contains;
    Join4(s, idx, start, end);
  }

  /** For every text: a secret is split off if and only if the first marker
      starts a parameter and has a value, and it is that value; the text that
      remains closes the gap it leaves. */
  lemma SplitIff(s: string, v: string)
    ensures Split(s).1 == Some(v) <==> exists a, sep, rest :: SplitsInto(s, a, sep, v, rest) && !Contains(a)
    ensures forall a, sep, rest :: SplitsInto(s, a, sep, v, rest) && !Contains(a) ==> Split(s).0 == Closed(a, sep, rest)
  {
    hide Split, Closed, Contains, IsValue;
    forall a, sep, rest | SplitsInto(s, a, sep, v, rest) && !Contains(a)
      ensures Split(s) == (Closed(a, sep, rest), Some(v))
    {
      SplitAt(a, sep, v, rest);
    }
    if Split(s).1 == Some(v) {
      var a, sep, w, rest := SplitParts(s);
      assert SplitsInto(s, a, sep, v, rest) && !Contains(a);
    }
  }

  /** Otherwise the text is returned as it is. */
  lemma NothingSplitOff(s: string)
    requires Split(s).1.None?
    ensures Split(s).0 == s
  {
  }
}
