/** Start-up of several control planes on one store: each imports its token
    manifest and then issues a bootstrap token if it still finds none. Every
    store call is one atomic step; calls of different instances interleave, and
    any of them may fail, before its effect or after it.
 */
module AdminTokens {
  import opened Wrappers

  type Principal = string
  type Capability = nat
  type Digest = string -> string

  datatype ApiToken = ApiToken(principal: Principal, token: string, capabilities: seq<Capability>)
  datatype Row = Row(tokenDigest: string, capabilities: seq<Capability>)
  type Rows = map<Principal, Row>

  const BOOTSTRAP: Principal := "bootstrap"

  /** `PermissionKind::all()`: every capability there is. */
  type AllCapabilities = seq<Capability>

  // -------------------------------------------------------------- the store

  predicate DigestTaken(rows: Rows, tokenDigest: string) {
    exists p :: p in rows && rows[p].tokenDigest == tokenDigest
  }

  /** `create_admin_token` answers Conflict on a known principal or a known digest. */
  predicate Conflicts(rows: Rows, principal: Principal, row: Row) {
    principal in rows || DigestTaken(rows, row.tokenDigest)
  }

  function Create(rows: Rows, principal: Principal, row: Row): Rows {
    if Conflicts(rows, principal, row) then rows else rows[principal := row]
  }

  function RowOf(digest: Digest, t: ApiToken): Row {
    Row(digest(t.token), t.capabilities)
  }

  /** What one undisturbed import of a manifest leaves behind. */
  function Imported(digest: Digest, rows: Rows, manifest: seq<ApiToken>): Rows {
    if manifest == [] then rows
    else
      var n := |manifest| - 1;
      Create(Imported(digest, rows, manifest[..n]), manifest[n].principal, RowOf(digest, manifest[n]))
  }

  class TokenStore {
    var rows: Rows

    method CreateAdminToken(principal: Principal, row: Row) returns (ok: bool)
      modifies this
      ensures ok == !Conflicts(old(rows), principal, row)
      ensures rows == Create(old(rows), principal, row)
    {
      ok := !Conflicts(rows, principal, row);
      if ok {
        rows := rows[principal := row];
      }
    }

    /** `sync_env_admin_tokens_to_store`, undisturbed: principals known at the
        start are skipped, a conflict is passed over. */
    method Sync(digest: Digest, tokens: seq<ApiToken>)
      modifies this
      ensures rows == Imported(digest, old(rows), tokens)
    {
      var existing := rows.Keys;
      for i := 0 to |tokens|
        invariant rows == Imported(digest, old(rows), tokens[..i])
        invariant existing <= rows.Keys
      {
        assert tokens[..i + 1][..i] == tokens[..i];
        var t := tokens[i];
        if t.principal in existing {
          continue;
        }
        var _ := CreateAdminToken(t.principal, RowOf(digest, t));
      }
      assert tokens[..|tokens|] == tokens;
    }

    /** `issue_admin_bootstrap_token_if_needed`, undisturbed; `raw` is the fresh
        random token. */
    method IssueBootstrap(digest: Digest, raw: string, all: AllCapabilities) returns (issued: Option<string>)
      modifies this
      ensures issued == if old(rows) == map[] then Some(raw) else None
      ensures rows == if old(rows) == map[] then map[BOOTSTRAP := Row(digest(raw), all)] else old(rows)
    {
      if rows.Keys != {} {
        return None;
      }
      var ok := CreateAdminToken(BOOTSTRAP, Row(digest(raw), all));
      return if ok then Some(raw) else None;
    }
  }

  // --------------------------------------------------- what one import does

  /** An entry of a new principal with a free token adds the row it asks for;
      any other entry adds nothing. */
  lemma ImportOfOneEntry(digest: Digest, rows: Rows, t: ApiToken)
    ensures Imported(digest, rows, [t]) ==
              if t.principal !in rows && forall p <- rows :: rows[p].tokenDigest != digest(t.token)
              then rows[t.principal := Row(digest(t.token), t.capabilities)]
              else rows
  {
    assert [t][..0] == [];
    assert Imported(digest, rows, [t][..0]) == rows;
  }

  /** A manifest is imported entry by entry. */
  lemma {:induction false} ImportInTwoParts(digest: Digest, rows: Rows, a: seq<ApiToken>, b: seq<ApiToken>)
    ensures Imported(digest, rows, a + b) == Imported(digest, Imported(digest, rows, a), b)
    decreases b
  {
    if b == [] {
      assert a + b == a;
    } else {
      var n := |b| - 1;
      assert (a + b)[..|a| + n] == a + b[..n];
      ImportInTwoParts(digest, rows, a, b[..n]);
    }
  }

  // ----------------------------------------------------------------- system

  /** Where an instance is. `Creating` is about to handle entry `next`, having
      seen the principals in `known`. */
  datatype Stage =
    | Listing
    | Creating(next: nat, known: set<Principal>)
    | Checking
    | Issuing
    | Started

  datatype SyncResult = NotRun | Ok | Err

  datatype Instance = Instance(manifest: seq<ApiToken>, stage: Stage, sync: SyncResult, obtained: bool)

  datatype System = System(rows: Rows, instances: seq<Instance>)

  /** How a store call ends: with its answer, without having happened, or with
      its effect but without its answer. */
  datatype Fate = Answered | Failed | AnswerLost

  /** The next store call of instance `i`; `raw` is a random token, should one be needed. */
  datatype Step = Step(i: nat, fate: Fate, raw: string)

  /** An instance without a manifest does not import. */
  function Boot(manifest: seq<ApiToken>): Instance {
    Instance(manifest, if manifest == [] then Checking else Listing, NotRun, false)
  }

  function AtEntry(me: Instance, next: nat, known: set<Principal>): Instance {
    if next == |me.manifest| then me.(stage := Checking, sync := SyncResult.Ok) else me.(stage := Creating(next, known))
  }

  function RowsAfter(digest: Digest, all: AllCapabilities, rows: Rows, me: Instance, step: Step): Rows {
    if step.fate == Failed then rows
    else match me.stage
      case Creating(next, known) =>
        if next < |me.manifest| && me.manifest[next].principal !in known
        then Create(rows, me.manifest[next].principal, RowOf(digest, me.manifest[next]))
        else rows
      case Issuing => Create(rows, BOOTSTRAP, Row(digest(step.raw), all))
      case _ => rows
  }

  function Moved(digest: Digest, all: AllCapabilities, rows: Rows, me: Instance, step: Step): Instance {
    match me.stage
    case Listing => if step.fate != Answered then me.(stage := Checking, sync := SyncResult.Err)
                    else AtEntry(me, 0, rows.Keys)
    case Creating(next, known) =>
      if next >= |me.manifest| then me
      else if me.manifest[next].principal in known then AtEntry(me, next + 1, known)
      else if step.fate != Answered then me.(stage := Checking, sync := SyncResult.Err)
      else AtEntry(me, next + 1, known)
    case Checking => me.(stage := if step.fate != Answered || rows != map[] then Started else Issuing)
    case Issuing =>
      me.(stage := Started,
          obtained := step.fate == Answered && !Conflicts(rows, BOOTSTRAP, Row(digest(step.raw), all)))
    case Started => me
  }

  function Do(digest: Digest, all: AllCapabilities, sys: System, step: Step): System {
    if step.i < |sys.instances|
    then System(RowsAfter(digest, all, sys.rows, sys.instances[step.i], step),
                sys.instances[step.i := Moved(digest, all, sys.rows, sys.instances[step.i], step)])
    else sys
  }

  function Run(digest: Digest, all: AllCapabilities, sys: System, steps: seq<Step>): System
    decreases steps
  {
    if steps == [] then sys
    else Do(digest, all, Run(digest, all, sys, steps[..|steps| - 1]), steps[|steps| - 1])
  }

  function Booted(rows: Rows, manifests: seq<seq<ApiToken>>): System {
    System(rows, seq(|manifests|, i requires 0 <= i < |manifests| => Boot(manifests[i])))
  }

  // -------------------------------------------------------------- the table

  ghost predicate Extends(a: Rows, b: Rows) {
    forall p <- a :: p in b && b[p] == a[p]
  }

  ghost predicate DigestsUnique(rows: Rows) {
    forall p <- rows, q <- rows :: rows[p].tokenDigest == rows[q].tokenDigest ==> p == q
  }

  lemma CreateExtends(rows: Rows, principal: Principal, row: Row)
    ensures Extends(rows, Create(rows, principal, row))
    ensures DigestsUnique(rows) ==> DigestsUnique(Create(rows, principal, row))
    ensures Conflicts(Create(rows, principal, row), principal, row)
  {
  }

  /** Rows are never altered and never lost, and digests stay unique. */
  lemma {:induction false} RowsAreNeverAltered(digest: Digest, all: AllCapabilities, sys: System, steps: seq<Step>)
    ensures Extends(sys.rows, Run(digest, all, sys, steps).rows)
    ensures DigestsUnique(sys.rows) ==> DigestsUnique(Run(digest, all, sys, steps).rows)
    decreases steps
  {
    hide Create, DigestsUnique;
    if steps != [] {
      var n := |steps| - 1;
      var before := Run(digest, all, sys, steps[..n]);
      RowsAreNeverAltered(digest, all, sys, steps[..n]);
      if steps[n].i < |before.instances| {
        RowsAfterExtends(digest, all, before.rows, before.instances[steps[n].i], steps[n]);
      }
    }
  }

  lemma RowsAfterExtends(digest: Digest, all: AllCapabilities, rows: Rows, me: Instance, step: Step)
    ensures Extends(rows, RowsAfter(digest, all, rows, me, step))
    ensures DigestsUnique(rows) ==> DigestsUnique(RowsAfter(digest, all, rows, me, step))
  {
    hide Create, DigestsUnique;
    if me.stage.Creating? && me.stage.next < |me.manifest| {
      CreateExtends(rows, me.manifest[me.stage.next].principal, RowOf(digest, me.manifest[me.stage.next]));
    }
    CreateExtends(rows, BOOTSTRAP, Row(digest(step.raw), all));
  }

  // ---------------------------------------------------------- the instances

  /** The principal has a row, or its token is some row's token. */
  predicate Covered(digest: Digest, rows: Rows, t: ApiToken) {
    Conflicts(rows, t.principal, RowOf(digest, t))
  }

  /** How many entries of its manifest an instance has dealt with. */
  function Handled(me: Instance): nat {
    if me.stage.Creating? then me.stage.next else if me.sync == SyncResult.Ok then |me.manifest| else 0
  }

  ghost predicate InstanceFine(digest: Digest, rows: Rows, me: Instance) {
    && Handled(me) <= |me.manifest|
    && (me.stage.Creating? ==> me.stage.known <= rows.Keys && me.sync == NotRun)
    && (me.stage.Listing? ==> me.sync == NotRun)
    && (forall k :: 0 <= k < Handled(me) ==> Covered(digest, rows, me.manifest[k]))
    && (me.obtained ==> me.stage.Started? && BOOTSTRAP in rows)
    && (me.manifest != [] && me.sync == SyncResult.Ok ==> !me.stage.Issuing? && !me.obtained)
  }

  ghost predicate Inv(digest: Digest, sys: System) {
    && (forall i :: 0 <= i < |sys.instances| ==> InstanceFine(digest, sys.rows, sys.instances[i]))
    && (forall i, j :: 0 <= i < j < |sys.instances| ==> !(sys.instances[i].obtained && sys.instances[j].obtained))
  }

  lemma CoveredStays(digest: Digest, a: Rows, b: Rows, t: ApiToken)
    requires Extends(a, b) && Covered(digest, a, t)
    ensures Covered(digest, b, t)
  {
  }

  lemma ExtendedIsFine(digest: Digest, a: Rows, b: Rows, me: Instance)
    requires Extends(a, b) && InstanceFine(digest, a, me)
    ensures InstanceFine(digest, b, me)
  {
    hide Covered;
    forall k | 0 <= k < Handled(me) ensures Covered(digest, b, me.manifest[k]) {
      CoveredStays(digest, a, b, me.manifest[k]);
    }
  }

  lemma MovedIsFine(digest: Digest, all: AllCapabilities, rows: Rows, me: Instance, step: Step)
    requires InstanceFine(digest, rows, me)
    ensures InstanceFine(digest, RowsAfter(digest, all, rows, me, step), Moved(digest, all, rows, me, step))
  {
    var rows', me' := RowsAfter(digest, all, rows, me, step), Moved(digest, all, rows, me, step);
    RowsAfterExtends(digest, all, rows, me, step);
    ExtendedIsFine(digest, rows, rows', me);
    match me.stage
    case Creating(next, known) =>
      if next < |me.manifest| {
        CreateExtends(rows, me.manifest[next].principal, RowOf(digest, me.manifest[next]));
      }
    case Checking =>
      if me.manifest != [] && me.sync == SyncResult.Ok {
        assert Covered(digest, rows, me.manifest[0]);
      }
    case _ =>
  }

  lemma OnlyOneObtains(digest: Digest, all: AllCapabilities, sys: System, step: Step)
    requires Inv(digest, sys)
    ensures var peers := Do(digest, all, sys, step).instances;
            forall i, j :: 0 <= i < j < |peers| ==> !(peers[i].obtained && peers[j].obtained)
  {
    hide Covered, DigestTaken, Handled;
    forall i | 0 <= i < |sys.instances| && sys.instances[i].obtained ensures BOOTSTRAP in sys.rows {
      assert InstanceFine(digest, sys.rows, sys.instances[i]);
    }
  }

  lemma StepKeepsInv(digest: Digest, all: AllCapabilities, sys: System, step: Step)
    requires Inv(digest, sys)
    ensures Inv(digest, Do(digest, all, sys, step))
  {
    OnlyOneObtains(digest, all, sys, step);
    hide InstanceFine, RowsAfter, Moved, Extends;
    var sys' := Do(digest, all, sys, step);
    forall i | 0 <= i < |sys'.instances| ensures InstanceFine(digest, sys'.rows, sys'.instances[i]) {
      if step.i < |sys.instances| {
        RowsAfterExtends(digest, all, sys.rows, sys.instances[step.i], step);
        if i == step.i {
          MovedIsFine(digest, all, sys.rows, sys.instances[i], step);
        } else {
          ExtendedIsFine(digest, sys.rows, sys'.rows, sys.instances[i]);
        }
      }
    }
  }

  lemma {:induction false} RunKeepsInv(digest: Digest, all: AllCapabilities, rows: Rows, manifests: seq<seq<ApiToken>>,
                                       steps: seq<Step>)
    ensures Inv(digest, Run(digest, all, Booted(rows, manifests), steps))
    decreases steps
  {
    if steps != [] {
      RunKeepsInv(digest, all, rows, manifests, steps[..|steps| - 1]);
      StepKeepsInv(digest, all, Run(digest, all, Booted(rows, manifests), steps[..|steps| - 1]), steps[|steps| - 1]);
      hide Do, InstanceFine;
    }
  }

  // --------------------------------------------------------------- theorems

  /** In every interleaving, whatever fails: at most one instance ever obtains
      the bootstrap token. */
  lemma OneBootstrapToken(digest: Digest, all: AllCapabilities, rows: Rows, manifests: seq<seq<ApiToken>>,
                          steps: seq<Step>, i: nat, j: nat)
    requires i < |Run(digest, all, Booted(rows, manifests), steps).instances|
    requires j < |Run(digest, all, Booted(rows, manifests), steps).instances|
    ensures var peers := Run(digest, all, Booted(rows, manifests), steps).instances;
            peers[i].obtained && peers[j].obtained ==> i == j
  {
    RunKeepsInv(digest, all, rows, manifests, steps);
    hide Run, InstanceFine;
  }

  /** Until the first row is there nobody has started, and then somebody has obtained it. */
  ghost predicate SomebodyWill(sys: System) {
    && (forall me <- sys.instances :: me.stage in {Checking, Issuing, Started})
    && (sys.rows == map[] ==> forall me <- sys.instances :: !me.stage.Started?)
    && (sys.rows != map[] ==> exists me <- sys.instances :: me.obtained && me.stage.Started?)
  }

  lemma StepKeepsWill(digest: Digest, all: AllCapabilities, sys: System, step: Step)
    requires SomebodyWill(sys) && step.fate == Answered
    ensures SomebodyWill(Do(digest, all, sys, step))
  {
    var sys' := Do(digest, all, sys, step);
    if step.i < |sys.instances| {
      var me, me' := sys.instances[step.i], sys'.instances[step.i];
      assert me in sys.instances && me' in sys'.instances;
      if sys.rows != map[] {
        var happy :| happy in sys.instances && happy.obtained && happy.stage.Started?;
        var h :| 0 <= h < |sys.instances| && sys.instances[h] == happy;
        assert sys'.instances[h] == happy;
        RowsAfterExtends(digest, all, sys.rows, me, step);
        var p :| p in sys.rows;
        assert p in sys'.rows;
      }
    }
  }

  lemma {:induction false} RunKeepsWill(digest: Digest, all: AllCapabilities, instances: nat, steps: seq<Step>)
    requires forall s <- steps :: s.fate == Answered
    ensures SomebodyWill(Run(digest, all, Booted(map[], seq(instances, _ => [])), steps))
    decreases steps
  {
    hide Do;
    if steps != [] {
      var n := |steps| - 1;
      RunKeepsWill(digest, all, instances, steps[..n]);
      StepKeepsWill(digest, all, Run(digest, all, Booted(map[], seq(instances, _ => [])), steps[..n]), steps[n]);
      hide SomebodyWill;
    }
  }

  /** Instances without a manifest on an empty table: once any of them has
      started, one of them has obtained the bootstrap token, and its row is there. */
  lemma SomebodyObtainsTheBootstrapToken(digest: Digest, all: AllCapabilities, instances: nat, steps: seq<Step>, i: nat)
    requires forall s <- steps :: s.fate == Answered
    requires i < |Run(digest, all, Booted(map[], seq(instances, _ => [])), steps).instances|
    requires Run(digest, all, Booted(map[], seq(instances, _ => [])), steps).instances[i].stage.Started?
    ensures var sys := Run(digest, all, Booted(map[], seq(instances, _ => [])), steps);
            && (exists me <- sys.instances :: me.obtained)
            && "bootstrap" in sys.rows
  {
    var manifests: seq<seq<ApiToken>> := seq(instances, _ => []);
    RunKeepsWill(digest, all, instances, steps);
    RunKeepsInv(digest, all, map[], manifests, steps);
    hide Run, Covered;
    var sys := Run(digest, all, Booted(map[], manifests), steps);
    assert sys.instances[i] in sys.instances;
    var happy :| happy in sys.instances && happy.obtained;
    var h :| 0 <= h < |sys.instances| && sys.instances[h] == happy;
    assert InstanceFine(digest, sys.rows, sys.instances[h]);
  }

  /** An instance that imported a manifest without error never obtains it. */
  lemma NoBootstrapAfterImport(digest: Digest, all: AllCapabilities, rows: Rows, manifests: seq<seq<ApiToken>>,
                               steps: seq<Step>, i: nat)
    requires i < |Run(digest, all, Booted(rows, manifests), steps).instances|
    ensures var me := Run(digest, all, Booted(rows, manifests), steps).instances[i];
            me.manifest != [] && me.sync == SyncResult.Ok ==> !me.obtained
  {
    RunKeepsInv(digest, all, rows, manifests, steps);
    hide Run, Covered;
    assert InstanceFine(digest, Run(digest, all, Booted(rows, manifests), steps).rows,
                        Run(digest, all, Booted(rows, manifests), steps).instances[i]);
  }

  /** Once an instance's import has returned Ok, each principal of its manifest
      has a row, unless the entry's token is the token of a row. */
  lemma ImportCoversTheManifest(digest: Digest, all: AllCapabilities, rows: Rows, manifests: seq<seq<ApiToken>>,
                                steps: seq<Step>, i: nat, k: nat)
    requires i < |Run(digest, all, Booted(rows, manifests), steps).instances|
    requires k < |Run(digest, all, Booted(rows, manifests), steps).instances[i].manifest|
    ensures var sys := Run(digest, all, Booted(rows, manifests), steps);
            var t := sys.instances[i].manifest[k];
            sys.instances[i].sync == SyncResult.Ok ==> t.principal in sys.rows || DigestTaken(sys.rows, digest(t.token))
  {
    RunKeepsInv(digest, all, rows, manifests, steps);
    hide Run;
    var sys := Run(digest, all, Booted(rows, manifests), steps);
    assert InstanceFine(digest, sys.rows, sys.instances[i]);
    if sys.instances[i].sync == SyncResult.Ok && sys.instances[i].manifest != [] {
      assert Covered(digest, sys.rows, sys.instances[i].manifest[k]);
    }
  }

  // -------------------------------------------------- one manifest, many instances

  /** Everybody has the same manifest, and nobody finds an empty table after a
      failed import: the table is the one an undisturbed import would have
      written by now. */
  ghost predicate Together(digest: Digest, start: Rows, manifest: seq<ApiToken>, sys: System, k: nat) {
    && k <= |manifest|
    && sys.rows == Imported(digest, start, manifest[..k])
    && forall i :: 0 <= i < |sys.instances| ==> KeepsPace(start, sys.rows, manifest, sys.instances[i], k)
  }

  predicate KeepsPace(start: Rows, rows: Rows, manifest: seq<ApiToken>, me: Instance, k: nat) {
    && me.manifest == manifest
    && match me.stage
       case Listing => me.sync == NotRun
       case Creating(next, known) => me.sync == NotRun && next <= k && next < |manifest| && known <= rows.Keys
       case Issuing => false
       case _ => (me.sync == SyncResult.Ok && k == |manifest|) || (me.sync == SyncResult.Err && start != map[])
  }

  /** Calls may fail only on a table that was not empty to begin with. */
  predicate Calm(start: Rows, step: Step) {
    start != map[] || step.fate == Answered
  }

  lemma {:induction false} ImportedCovers(digest: Digest, start: Rows, manifest: seq<ApiToken>, j: nat)
    requires j < |manifest|
    ensures Covered(digest, Imported(digest, start, manifest), manifest[j])
  {
    var n := |manifest| - 1;
    var before := Imported(digest, start, manifest[..n]);
    CreateExtends(before, manifest[n].principal, RowOf(digest, manifest[n]));
    if j < n {
      ImportedCovers(digest, start, manifest[..n], j);
      CoveredStays(digest, before, Imported(digest, start, manifest), manifest[j]);
    }
  }

  lemma {:induction false} ImportedExtends(digest: Digest, start: Rows, manifest: seq<ApiToken>)
    ensures Extends(start, Imported(digest, start, manifest))
  {
    if manifest != [] {
      var n := |manifest| - 1;
      ImportedExtends(digest, start, manifest[..n]);
      CreateExtends(Imported(digest, start, manifest[..n]), manifest[n].principal, RowOf(digest, manifest[n]));
    }
  }

  /** Handling entry `j` either repeats what is already there or is the next entry. */
  lemma HandleEntry(digest: Digest, start: Rows, manifest: seq<ApiToken>, k: nat, j: nat)
    requires j <= k <= |manifest| && j < |manifest|
    ensures Create(Imported(digest, start, manifest[..k]), manifest[j].principal, RowOf(digest, manifest[j]))
         == Imported(digest, start, manifest[..if j == k then k + 1 else k])
  {
    if j == k {
      assert manifest[..k + 1][..k] == manifest[..k];
    } else {
      ImportedCovers(digest, start, manifest[..k], j);
      hide Imported;
    }
  }

  lemma SomebodyIsThere(digest: Digest, start: Rows, manifest: seq<ApiToken>)
    requires manifest != []
    ensures Imported(digest, start, manifest) != map[]
  {
    ImportedCovers(digest, start, manifest, 0);
    hide Imported;
  }

  /** An instance at the front handles a new entry, unless its call does not happen. */
  predicate Advances(me: Instance, step: Step, k: nat) {
    && me.stage.Creating? && me.stage.next == k < |me.manifest|
    && (step.fate != Failed || me.manifest[k].principal in me.stage.known)
  }

  lemma PaceWhileCreating(digest: Digest, all: AllCapabilities, start: Rows, manifest: seq<ApiToken>, rows: Rows,
                          me: Instance, step: Step, k: nat)
    requires Calm(start, step) && k <= |manifest| && rows == Imported(digest, start, manifest[..k])
    requires KeepsPace(start, rows, manifest, me, k) && me.stage.Creating?
    ensures var rows', k' := RowsAfter(digest, all, rows, me, step), if Advances(me, step, k) then k + 1 else k;
            && rows' == Imported(digest, start, manifest[..k'])
            && KeepsPace(start, rows', manifest, Moved(digest, all, rows, me, step), k')
  {
    var next := me.stage.next;
    HandleEntry(digest, start, manifest, k, next);
    CreateExtends(rows, manifest[next].principal, RowOf(digest, manifest[next]));
    hide Imported, DigestTaken, RowOf, Extends, DigestsUnique;
  }

  lemma PaceAfterMove(digest: Digest, all: AllCapabilities, start: Rows, manifest: seq<ApiToken>, sys: System,
                      step: Step, k: nat)
    requires manifest != [] && Calm(start, step)
    requires step.i < |sys.instances| && Together(digest, start, manifest, sys, k)
    ensures var sys', k' := Do(digest, all, sys, step), if Advances(sys.instances[step.i], step, k) then k + 1 else k;
            && k' <= |manifest|
            && sys'.rows == Imported(digest, start, manifest[..k'])
            && Extends(sys.rows, sys'.rows)
            && KeepsPace(start, sys'.rows, manifest, sys'.instances[step.i], k')
  {
    var me := sys.instances[step.i];
    assert KeepsPace(start, sys.rows, manifest, me, k);
    RowsAfterExtends(digest, all, sys.rows, me, step);
    match me.stage
    case Creating(next, known) =>
      PaceWhileCreating(digest, all, start, manifest, sys.rows, me, step, k);
      hide Imported, RowsAfter, Moved, Extends;
    case Checking =>
      if k == |manifest| {
        assert manifest[..k] == manifest;
        SomebodyIsThere(digest, start, manifest);
      }
      ImportedExtends(digest, start, manifest[..k]);
      hide Imported;
    case _ =>
      hide Imported;
  }

  lemma StepKeepsTogether(digest: Digest, all: AllCapabilities, start: Rows, manifest: seq<ApiToken>, sys: System,
                          step: Step, k: nat)
    returns (k': nat)
    requires manifest != [] && Calm(start, step) && Together(digest, start, manifest, sys, k)
    ensures Together(digest, start, manifest, Do(digest, all, sys, step), k')
  {
    hide Imported, RowsAfter, Moved;
    k' := k;
    if step.i < |sys.instances| {
      PaceAfterMove(digest, all, start, manifest, sys, step, k);
      k' := if Advances(sys.instances[step.i], step, k) then k + 1 else k;
      var sys' := Do(digest, all, sys, step);
      forall i | 0 <= i < |sys'.instances| ensures KeepsPace(start, sys'.rows, manifest, sys'.instances[i], k') {
        if i != step.i {
          assert KeepsPace(start, sys.rows, manifest, sys.instances[i], k);
        }
      }
    }
  }

  lemma {:induction false} RunKeepsTogether(digest: Digest, all: AllCapabilities, start: Rows, manifest: seq<ApiToken>,
                                            instances: nat, steps: seq<Step>) returns (k: nat)
    requires manifest != [] && forall s <- steps :: Calm(start, s)
    ensures Together(digest, start, manifest,
                     Run(digest, all, Booted(start, seq(instances, _ => manifest)), steps), k)
    decreases steps
  {
    hide Do;
    if steps == [] {
      k := 0;
    } else {
      k := RunKeepsTogether(digest, all, start, manifest, instances, steps[..|steps| - 1]);
      k := StepKeepsTogether(digest, all, start, manifest,
                             Run(digest, all, Booted(start, seq(instances, _ => manifest)), steps[..|steps| - 1]),
                             steps[|steps| - 1], k);
    }
  }

  /** However many instances start with one manifest, and however their calls
      interleave or fail (on an empty table, only answered): as soon as the
      first import has returned, the table is exactly the one a single
      undisturbed import would have written, and it stays so. */
  lemma ManyImportsAreOne(digest: Digest, all: AllCapabilities, start: Rows, manifest: seq<ApiToken>, instances: nat,
                          steps: seq<Step>, i: nat)
    requires manifest != [] && forall s <- steps :: Calm(start, s)
    requires i < |Run(digest, all, Booted(start, seq(instances, _ => manifest)), steps).instances|
    requires Run(digest, all, Booted(start, seq(instances, _ => manifest)), steps).instances[i].sync == SyncResult.Ok
    ensures Run(digest, all, Booted(start, seq(instances, _ => manifest)), steps).rows
         == Imported(digest, start, manifest)
  {
    var k := RunKeepsTogether(digest, all, start, manifest, instances, steps);
    hide Run, Imported;
    var sys := Run(digest, all, Booted(start, seq(instances, _ => manifest)), steps);
    assert KeepsPace(start, sys.rows, manifest, sys.instances[i], k);
    assert manifest[..|manifest|] == manifest;
  }

  // ------------------------------------------- does every principal get a row?

  /** Not always: two principals that share a token get one row between them,
      and the import still answers Ok. */
  lemma SharedTokenLosesAPrincipal(digest: Digest)
    ensures var manifest := [ApiToken("alice", "t", [0]), ApiToken("bob", "t", [0])];
            "alice" in Imported(digest, map[], manifest) && "bob" !in Imported(digest, map[], manifest)
  {
    var manifest := [ApiToken("alice", "t", [0]), ApiToken("bob", "t", [0])];
    var one := manifest[..1];
    assert one[..0] == [] && one[0] == manifest[0];
    assert Imported(digest, map[], one) == map["alice" := RowOf(digest, manifest[0])];
    assert Imported(digest, map[], one)["alice"].tokenDigest == digest(manifest[1].token);
  }

  predicate New(start: Rows, t: ApiToken) {
    t.principal !in start
  }

  ghost predicate EveryoneHasARow(rows: Rows, manifest: seq<ApiToken>) {
    forall i :: 0 <= i < |manifest| ==> manifest[i].principal in rows
  }

  /** At its turn, the entry's token is not the token of any row. */
  predicate FreeAtItsTurn(digest: Digest, start: Rows, manifest: seq<ApiToken>, i: nat)
    requires i < |manifest|
  {
    !DigestTaken(Imported(digest, start, manifest[..i]), digest(manifest[i].token))
  }

  ghost predicate HasAFreeEntry(digest: Digest, start: Rows, manifest: seq<ApiToken>, p: Principal) {
    exists i :: 0 <= i < |manifest| && manifest[i].principal == p && FreeAtItsTurn(digest, start, manifest, i)
  }

  lemma {:induction false} PrefixExtends(digest: Digest, start: Rows, manifest: seq<ApiToken>, k: nat)
    requires k <= |manifest|
    ensures Extends(Imported(digest, start, manifest[..k]), Imported(digest, start, manifest))
  {
    var n := |manifest| - 1;
    if k == |manifest| {
      assert manifest[..k] == manifest;
    } else {
      assert manifest[..n][..k] == manifest[..k];
      PrefixExtends(digest, start, manifest[..n], k);
      CreateExtends(Imported(digest, start, manifest[..n]), manifest[n].principal, RowOf(digest, manifest[n]));
    }
  }

  lemma FreeEntryGetsARow(digest: Digest, start: Rows, manifest: seq<ApiToken>, i: nat)
    requires i < |manifest| && FreeAtItsTurn(digest, start, manifest, i)
    ensures manifest[i].principal in Imported(digest, start, manifest)
  {
    PrefixExtends(digest, start, manifest, i + 1);
    assert manifest[..i + 1][..i] == manifest[..i];
  }

  lemma {:induction false} RowNeedsAFreeEntry(digest: Digest, start: Rows, manifest: seq<ApiToken>, p: Principal)
    requires p in Imported(digest, start, manifest) && p !in start
    ensures HasAFreeEntry(digest, start, manifest, p)
  {
    var n := |manifest| - 1;
    if p in Imported(digest, start, manifest[..n]) {
      RowNeedsAFreeEntry(digest, start, manifest[..n], p);
      var i :| 0 <= i < |manifest[..n]| && manifest[..n][i].principal == p
               && FreeAtItsTurn(digest, start, manifest[..n], i);
      assert manifest[..n][..i] == manifest[..i];
      assert manifest[i].principal == p && FreeAtItsTurn(digest, start, manifest, i);
    } else {
      assert manifest[n].principal == p && FreeAtItsTurn(digest, start, manifest, n);
    }
  }

  lemma ImportedGivesRowsIff(digest: Digest, start: Rows, manifest: seq<ApiToken>)
    ensures EveryoneHasARow(Imported(digest, start, manifest), manifest)
       <==> forall i :: 0 <= i < |manifest| && New(start, manifest[i]) ==>
              HasAFreeEntry(digest, start, manifest, manifest[i].principal)
  {
    ImportedExtends(digest, start, manifest);
    hide Imported, FreeAtItsTurn;
    forall i | 0 <= i < |manifest| && New(start, manifest[i])
      ensures HasAFreeEntry(digest, start, manifest, manifest[i].principal)
         <==> manifest[i].principal in Imported(digest, start, manifest)
    {
      if manifest[i].principal in Imported(digest, start, manifest) {
        RowNeedsAFreeEntry(digest, start, manifest, manifest[i].principal);
      }
      if HasAFreeEntry(digest, start, manifest, manifest[i].principal) {
        var j :| 0 <= j < |manifest| && manifest[j].principal == manifest[i].principal
                 && FreeAtItsTurn(digest, start, manifest, j);
        FreeEntryGetsARow(digest, start, manifest, j);
      }
    }
  }

  /** For every manifest common to all instances, however they interleave: once
      an import has returned Ok, everyone has a row if and only if every new
      principal has an entry whose token is still free at its turn, read down
      the manifest from the table before. */
  lemma EveryoneHasARowExactlyWhen(digest: Digest, all: AllCapabilities, start: Rows, manifest: seq<ApiToken>,
                                   instances: nat, steps: seq<Step>, i: nat)
    requires manifest != [] && forall s <- steps :: Calm(start, s)
    requires i < |Run(digest, all, Booted(start, seq(instances, _ => manifest)), steps).instances|
    requires Run(digest, all, Booted(start, seq(instances, _ => manifest)), steps).instances[i].sync == SyncResult.Ok
    ensures EveryoneHasARow(Run(digest, all, Booted(start, seq(instances, _ => manifest)), steps).rows, manifest)
       <==> forall j :: 0 <= j < |manifest| && New(start, manifest[j]) ==>
              HasAFreeEntry(digest, start, manifest, manifest[j].principal)
  {
    ManyImportsAreOne(digest, all, start, manifest, instances, steps, i);
    ImportedGivesRowsIff(digest, start, manifest);
    hide Run, Imported, HasAFreeEntry;
  }

  // ------------------------- any manifests, any interleaving, any failures

  ghost predicate Listed(manifests: seq<seq<ApiToken>>, t: ApiToken) {
    exists m <- manifests :: t in m
  }

  /** Where a row's digest can come from: the table before, an entry of that
      principal in some manifest, or a random token drawn for the bootstrap. */
  ghost predicate FromStart(start: Rows, p: Principal, d: string) {
    p in start && start[p].tokenDigest == d
  }

  ghost predicate FromManifests(digest: Digest, manifests: seq<seq<ApiToken>>, p: Principal, d: string) {
    exists t :: Listed(manifests, t) && t.principal == p && digest(t.token) == d
  }

  ghost predicate FromRaw(digest: Digest, steps: seq<Step>, p: Principal, d: string) {
    p == BOOTSTRAP && exists s <- steps :: digest(s.raw) == d
  }

  /** The row is what an entry of the principal asks for: its digest and its capabilities. */
  ghost predicate RowFromManifests(digest: Digest, manifests: seq<seq<ApiToken>>, p: Principal, row: Row) {
    exists t :: Listed(manifests, t) && t.principal == p && row == Row(digest(t.token), t.capabilities)
  }

  /** The row is a bootstrap row: a drawn token, and every capability. */
  ghost predicate RowFromRaw(digest: Digest, all: AllCapabilities, steps: seq<Step>, p: Principal, row: Row) {
    p == BOOTSTRAP && exists s <- steps :: row == Row(digest(s.raw), all)
  }

  /** Some instance got as far as issuing: one whose import did not return Ok. */
  ghost predicate SomeoneIssued(instances: seq<Instance>) {
    exists me <- instances :: me.stage.Started? && (me.manifest == [] || me.sync != SyncResult.Ok)
  }

  ghost predicate RowSourced(digest: Digest, all: AllCapabilities, start: Rows, manifests: seq<seq<ApiToken>>,
                             steps: seq<Step>, sys: System, p: Principal)
    requires p in sys.rows
  {
    var row := sys.rows[p];
    || (p in start && row == start[p])
    || (p !in start && RowFromManifests(digest, manifests, p, row))
    || (p !in start && RowFromRaw(digest, all, steps, p, row) && SomeoneIssued(sys.instances))
  }

  ghost predicate Sourced(digest: Digest, all: AllCapabilities, start: Rows, manifests: seq<seq<ApiToken>>,
                          steps: seq<Step>, sys: System)
  {
    && |sys.instances| == |manifests|
    && (forall i :: 0 <= i < |manifests| ==> sys.instances[i].manifest == manifests[i])
    && (forall p <- sys.rows :: RowSourced(digest, all, start, manifests, steps, sys, p))
  }

  lemma IssuedStays(digest: Digest, all: AllCapabilities, sys: System, step: Step)
    requires SomeoneIssued(sys.instances)
    ensures SomeoneIssued(Do(digest, all, sys, step).instances)
  {
    var me :| me in sys.instances && me.stage.Started? && (me.manifest == [] || me.sync != SyncResult.Ok);
    var i :| 0 <= i < |sys.instances| && sys.instances[i] == me;
    hide RowsAfter;
    assert Do(digest, all, sys, step).instances[i] == me;
  }

  lemma OldRowStaysSourced(digest: Digest, all: AllCapabilities, start: Rows, manifests: seq<seq<ApiToken>>,
                           steps: seq<Step>, sys: System, step: Step, p: Principal)
    requires p in sys.rows && RowSourced(digest, all, start, manifests, steps, sys, p)
    ensures p in Do(digest, all, sys, step).rows
    ensures RowSourced(digest, all, start, manifests, steps + [step], Do(digest, all, sys, step), p)
  {
    if step.i < |sys.instances| {
      RowsAfterExtends(digest, all, sys.rows, sys.instances[step.i], step);
    }
    if SomeoneIssued(sys.instances) {
      IssuedStays(digest, all, sys, step);
    }
    hide RowsAfter, Moved, RowFromManifests, SomeoneIssued, DigestsUnique;
  }

  lemma NewRowIsSourced(digest: Digest, all: AllCapabilities, start: Rows, manifests: seq<seq<ApiToken>>,
                        steps: seq<Step>, sys: System, step: Step, p: Principal)
    requires Sourced(digest, all, start, manifests, steps, sys) && Extends(start, sys.rows)
    requires forall i :: 0 <= i < |sys.instances| ==> InstanceFine(digest, sys.rows, sys.instances[i])
    requires p !in sys.rows && p in Do(digest, all, sys, step).rows
    ensures RowSourced(digest, all, start, manifests, steps + [step], Do(digest, all, sys, step), p)
  {
    var me, sys' := sys.instances[step.i], Do(digest, all, sys, step);
    assert InstanceFine(digest, sys.rows, me);
    if me.stage.Creating? {
      var t := me.manifest[me.stage.next];
      assert t in manifests[step.i];
      assert Listed(manifests, t) && t.principal == p;
    } else {
      hide Conflicts, Covered, Listed;
      assert step in steps + [step];
      assert sys'.instances[step.i].stage.Started?;
      assert sys'.instances[step.i] in sys'.instances;
    }
  }

  lemma StepKeepsSourced(digest: Digest, all: AllCapabilities, start: Rows, manifests: seq<seq<ApiToken>>,
                         steps: seq<Step>, sys: System, step: Step)
    requires Sourced(digest, all, start, manifests, steps, sys) && Extends(start, sys.rows) && Inv(digest, sys)
    ensures Sourced(digest, all, start, manifests, steps + [step], Do(digest, all, sys, step))
  {
    hide RowSourced, Extends, InstanceFine, RowsAfter;
    var sys' := Do(digest, all, sys, step);
    forall p <- sys'.rows ensures RowSourced(digest, all, start, manifests, steps + [step], sys', p) {
      if p in sys.rows {
        OldRowStaysSourced(digest, all, start, manifests, steps, sys, step, p);
      } else {
        NewRowIsSourced(digest, all, start, manifests, steps, sys, step, p);
      }
    }
  }

  /** Over every run, of any manifests and with any failures, every row has a source. */
  lemma {:induction false} RowsHaveSources(digest: Digest, all: AllCapabilities, start: Rows,
                                           manifests: seq<seq<ApiToken>>, steps: seq<Step>)
    ensures Sourced(digest, all, start, manifests, steps, Run(digest, all, Booted(start, manifests), steps))
    decreases steps
  {
    if steps == [] {
      assert Booted(start, manifests).rows == start;
    } else {
      var n := |steps| - 1;
      RowsHaveSources(digest, all, start, manifests, steps[..n]);
      RunKeepsInv(digest, all, start, manifests, steps[..n]);
      RowsAreNeverAltered(digest, all, Booted(start, manifests), steps[..n]);
      var before := Run(digest, all, Booted(start, manifests), steps[..n]);
      StepKeepsSourced(digest, all, start, manifests, steps[..n], before, steps[n]);
      assert steps[..n] + [steps[n]] == steps;
      hide Do, Sourced, Inv, Extends;
    }
  }

  lemma SourcesHaveDigests(digest: Digest, all: AllCapabilities, manifests: seq<seq<ApiToken>>, steps: seq<Step>,
                           p: Principal, row: Row)
    ensures RowFromManifests(digest, manifests, p, row) ==> FromManifests(digest, manifests, p, row.tokenDigest)
    ensures RowFromRaw(digest, all, steps, p, row) ==> FromRaw(digest, steps, p, row.tokenDigest)
  {
    hide Listed;
  }

  /** No source of the entry's digest belongs to another principal. */
  ghost predicate NobodyElses(digest: Digest, start: Rows, manifests: seq<seq<ApiToken>>, steps: seq<Step>,
                              t: ApiToken)
  {
    forall p | p != t.principal ::
      && !FromStart(start, p, digest(t.token))
      && !FromManifests(digest, manifests, p, digest(t.token))
      && !FromRaw(digest, steps, p, digest(t.token))
  }

  /** The promise, over every interleaving of any instances with any failures:
      once an import has returned Ok, each principal of its manifest whose token
      can be nobody else's has a row. */
  lemma OwnTokenGetsARow(digest: Digest, all: AllCapabilities, start: Rows, manifests: seq<seq<ApiToken>>,
                         steps: seq<Step>, i: nat, k: nat)
    requires i < |manifests| && k < |manifests[i]| && NobodyElses(digest, start, manifests, steps, manifests[i][k])
    ensures var sys := Run(digest, all, Booted(start, manifests), steps);
            && i < |sys.instances| && sys.instances[i].manifest == manifests[i]
            && (sys.instances[i].sync == SyncResult.Ok ==> manifests[i][k].principal in sys.rows)
  {
    RowsHaveSources(digest, all, start, manifests, steps);
    var sys := Run(digest, all, Booted(start, manifests), steps);
    ImportCoversTheManifest(digest, all, start, manifests, steps, i, k);
    hide Run, FromManifests, FromRaw, RowFromManifests, RowFromRaw, SomeoneIssued, NobodyElses;
    var t := manifests[i][k];
    if sys.instances[i].sync == SyncResult.Ok && DigestTaken(sys.rows, digest(t.token)) {
      var q :| q in sys.rows && sys.rows[q].tokenDigest == digest(t.token);
      assert RowSourced(digest, all, start, manifests, steps, sys, q);
      SourcesHaveDigests(digest, all, manifests, steps, q, sys.rows[q]);
      HolderIsTheOwner(digest, start, manifests, steps, t, q);
    }
  }

  lemma HolderIsTheOwner(digest: Digest, start: Rows, manifests: seq<seq<ApiToken>>, steps: seq<Step>, t: ApiToken,
                         q: Principal)
    requires NobodyElses(digest, start, manifests, steps, t)
    requires FromStart(start, q, digest(t.token)) || FromManifests(digest, manifests, q, digest(t.token))
          || FromRaw(digest, steps, q, digest(t.token))
    ensures q == t.principal
  {
    hide FromStart, FromManifests, FromRaw;
  }

  /** Over every run, of any manifests and with any failures, a row grants what
      was asked for: it was there before, or has the digest and the capabilities
      of one entry of its principal, or is the bootstrap row with every capability. */
  lemma RowsGrantWhatWasAsked(digest: Digest, all: AllCapabilities, start: Rows, manifests: seq<seq<ApiToken>>,
                              steps: seq<Step>, p: Principal)
    requires p in Run(digest, all, Booted(start, manifests), steps).rows
    ensures var row := Run(digest, all, Booted(start, manifests), steps).rows[p];
            || (p in start && row == start[p])
            || (exists m <- manifests, t <- m ::
                  t.principal == p && row.tokenDigest == digest(t.token) && row.capabilities == t.capabilities)
            || (p == "bootstrap" && row.capabilities == all && exists s <- steps :: row.tokenDigest == digest(s.raw))
  {
    RowsHaveSources(digest, all, start, manifests, steps);
    var sys := Run(digest, all, Booted(start, manifests), steps);
    hide Run, SomeoneIssued;
    assert RowSourced(digest, all, start, manifests, steps, sys, p);
    if RowFromManifests(digest, manifests, p, sys.rows[p]) {
      var t :| Listed(manifests, t) && t.principal == p && sys.rows[p] == Row(digest(t.token), t.capabilities);
      var m :| m in manifests && t in m;
    }
  }

  // ----------------------------------------- runs in which every import returns

  /** The import of every instance that has a manifest returned Ok. */
  ghost predicate AllImported(sys: System) {
    forall me <- sys.instances :: me.manifest != [] ==> me.sync == SyncResult.Ok
  }

  /** The bootstrap token stays out of the way: every instance has a manifest,
      and then none is issued; or its principal is not listed and the drawn
      tokens are none of the listed ones. */
  ghost predicate BootstrapApart(digest: Digest, manifests: seq<seq<ApiToken>>, steps: seq<Step>) {
    || (forall m <- manifests :: m != [])
    || (forall t | Listed(manifests, t) ::
          t.principal != BOOTSTRAP && forall s <- steps :: digest(s.raw) != digest(t.token))
  }

  /** Then rows come from the table before, from the manifests, or from an
      instance without a manifest. */
  lemma ImportedRows(digest: Digest, all: AllCapabilities, start: Rows, manifests: seq<seq<ApiToken>>,
                     steps: seq<Step>, p: Principal)
    requires AllImported(Run(digest, all, Booted(start, manifests), steps))
    requires p in Run(digest, all, Booted(start, manifests), steps).rows
    ensures var rows := Run(digest, all, Booted(start, manifests), steps).rows;
            if p in start then rows[p] == start[p]
            else
              || FromManifests(digest, manifests, p, rows[p].tokenDigest)
              || (FromRaw(digest, steps, p, rows[p].tokenDigest) && exists m <- manifests :: m == [])
  {
    RowsHaveSources(digest, all, start, manifests, steps);
    var sys := Run(digest, all, Booted(start, manifests), steps);
    hide Run, FromManifests, FromRaw, RowFromManifests, RowFromRaw;
    assert RowSourced(digest, all, start, manifests, steps, sys, p);
    SourcesHaveDigests(digest, all, manifests, steps, p, sys.rows[p]);
    if SomeoneIssued(sys.instances) {
      var me :| me in sys.instances && me.stage.Started? && (me.manifest == [] || me.sync != SyncResult.Ok);
      var i :| 0 <= i < |sys.instances| && sys.instances[i] == me;
      assert manifests[i] == [] && manifests[i] in manifests;
    }
  }

  /** A row of a listed principal, or with a listed token, is no bootstrap row. */
  lemma ListedRows(digest: Digest, all: AllCapabilities, start: Rows, manifests: seq<seq<ApiToken>>,
                   steps: seq<Step>, p: Principal, t: ApiToken)
    requires AllImported(Run(digest, all, Booted(start, manifests), steps))
    requires BootstrapApart(digest, manifests, steps) && Listed(manifests, t)
    requires p in Run(digest, all, Booted(start, manifests), steps).rows && p !in start
    requires p == t.principal
          || Run(digest, all, Booted(start, manifests), steps).rows[p].tokenDigest == digest(t.token)
    ensures FromManifests(digest, manifests, p, Run(digest, all, Booted(start, manifests), steps).rows[p].tokenDigest)
  {
    ImportedRows(digest, all, start, manifests, steps, p);
    hide Run, FromManifests, Listed;
  }

  /** The token of a listed entry belongs to a row: its principal's or another's. */
  lemma ListedIsCovered(digest: Digest, all: AllCapabilities, start: Rows, manifests: seq<seq<ApiToken>>,
                        steps: seq<Step>, t: ApiToken)
    requires AllImported(Run(digest, all, Booted(start, manifests), steps)) && Listed(manifests, t)
    ensures Covered(digest, Run(digest, all, Booted(start, manifests), steps).rows, t)
  {
    RowsHaveSources(digest, all, start, manifests, steps);
    var sys := Run(digest, all, Booted(start, manifests), steps);
    var m :| m in manifests && t in m;
    var i :| 0 <= i < |manifests| && manifests[i] == m;
    var k :| 0 <= k < |m| && m[k] == t;
    assert sys.instances[i] in sys.instances && sys.instances[i].manifest == m;
    ImportCoversTheManifest(digest, all, start, manifests, steps, i, k);
    hide Run, Sourced;
  }

  /** Another principal's row holds the token. */
  ghost predicate HeldByAnother(digest: Digest, rows: Rows, t: ApiToken) {
    exists q <- rows :: q != t.principal && rows[q].tokenDigest == digest(t.token)
  }

  /** For any manifests and any such run: a principal is left without a row if
      and only if every token it is listed with ended up as another's. */
  lemma LostIffEveryTokenIsAnothers(digest: Digest, all: AllCapabilities, start: Rows, manifests: seq<seq<ApiToken>>,
                                    steps: seq<Step>, p: Principal)
    requires DigestsUnique(start) && p !in start && BootstrapApart(digest, manifests, steps)
    requires AllImported(Run(digest, all, Booted(start, manifests), steps))
    requires exists t :: Listed(manifests, t) && t.principal == p
    ensures var rows := Run(digest, all, Booted(start, manifests), steps).rows;
            p !in rows <==> forall t :: Listed(manifests, t) && t.principal == p ==> HeldByAnother(digest, rows, t)
  {
    var rows := Run(digest, all, Booted(start, manifests), steps).rows;
    RowsAreNeverAltered(digest, all, Booted(start, manifests), steps);
    forall t | Listed(manifests, t) && t.principal == p && p !in rows ensures HeldByAnother(digest, rows, t) {
      ListedIsCovered(digest, all, start, manifests, steps, t);
    }
    if p in rows {
      var listed :| Listed(manifests, listed) && listed.principal == p;
      ListedRows(digest, all, start, manifests, steps, p, listed);
      var t :| Listed(manifests, t) && t.principal == p && digest(t.token) == rows[p].tokenDigest;
      hide Run, Listed;
      assert !HeldByAnother(digest, rows, t);
    }
  }

  /** No manifest disagrees with another, or with itself, on a new principal's token. */
  ghost predicate OneTokenEach(digest: Digest, start: Rows, manifests: seq<seq<ApiToken>>) {
    forall t, u | Listed(manifests, t) && Listed(manifests, u) && New(start, t) && t.principal == u.principal ::
      digest(t.token) == digest(u.token)
  }

  /** Every new principal's token is no row's token and no other new principal's. */
  ghost predicate AllTokensApart(digest: Digest, start: Rows, manifests: seq<seq<ApiToken>>) {
    && (forall t :: Listed(manifests, t) && New(start, t) ==> !DigestTaken(start, digest(t.token)))
    && (forall t, u | Listed(manifests, t) && Listed(manifests, u) && New(start, t) && New(start, u)
                      && t.principal != u.principal :: digest(t.token) != digest(u.token))
  }

  ghost predicate AllHaveRows(rows: Rows, manifests: seq<seq<ApiToken>>) {
    forall t :: Listed(manifests, t) ==> t.principal in rows
  }

  lemma ApartHoldersAgree(digest: Digest, all: AllCapabilities, start: Rows, manifests: seq<seq<ApiToken>>,
                          steps: seq<Step>, t: ApiToken, q: Principal)
    requires AllImported(Run(digest, all, Booted(start, manifests), steps))
    requires BootstrapApart(digest, manifests, steps)
    requires AllTokensApart(digest, start, manifests) && Listed(manifests, t) && New(start, t)
    requires q in Run(digest, all, Booted(start, manifests), steps).rows
    requires Run(digest, all, Booted(start, manifests), steps).rows[q].tokenDigest == digest(t.token)
    ensures q == t.principal
  {
    if q in start {
      ImportedRows(digest, all, start, manifests, steps, q);
    } else {
      ListedRows(digest, all, start, manifests, steps, q, t);
    }
    hide Run, Listed;
  }

  lemma NewRowHoldsTheToken(digest: Digest, all: AllCapabilities, start: Rows, manifests: seq<seq<ApiToken>>,
                            steps: seq<Step>, t: ApiToken)
    requires AllImported(Run(digest, all, Booted(start, manifests), steps))
    requires BootstrapApart(digest, manifests, steps)
    requires OneTokenEach(digest, start, manifests) && Listed(manifests, t) && New(start, t)
    requires t.principal in Run(digest, all, Booted(start, manifests), steps).rows
    ensures Run(digest, all, Booted(start, manifests), steps).rows[t.principal].tokenDigest == digest(t.token)
  {
    ListedRows(digest, all, start, manifests, steps, t.principal, t);
    hide Run, Listed;
  }

  /** For every interleaving of instances, with manifests that may differ but
      give each new principal one token, in which every import returns Ok: all
      principals have a row if and only if the tokens are apart, which can be
      checked before any instance starts. */
  lemma EveryoneHasARowIffTokensApart(digest: Digest, all: AllCapabilities, start: Rows, manifests: seq<seq<ApiToken>>,
                                      steps: seq<Step>)
    requires DigestsUnique(start) && OneTokenEach(digest, start, manifests)
    requires BootstrapApart(digest, manifests, steps)
    requires AllImported(Run(digest, all, Booted(start, manifests), steps))
    ensures AllHaveRows(Run(digest, all, Booted(start, manifests), steps).rows, manifests)
       <==> AllTokensApart(digest, start, manifests)
  {
    var rows := Run(digest, all, Booted(start, manifests), steps).rows;
    RowsAreNeverAltered(digest, all, Booted(start, manifests), steps);
    if AllTokensApart(digest, start, manifests) {
      forall t | Listed(manifests, t) ensures t.principal in rows {
        ListedIsCovered(digest, all, start, manifests, steps, t);
        if New(start, t) && DigestTaken(rows, digest(t.token)) {
          var q :| q in rows && rows[q].tokenDigest == digest(t.token);
          ApartHoldersAgree(digest, all, start, manifests, steps, t, q);
        }
      }
    }
    if AllHaveRows(rows, manifests) {
      forall t | Listed(manifests, t) && New(start, t) ensures rows[t.principal].tokenDigest == digest(t.token) {
        NewRowHoldsTheToken(digest, all, start, manifests, steps, t);
      }
      hide Run, Listed, OneTokenEach;
    }
  }

  /** With two tokens for one principal the manifests alone decide nothing: the
      same two manifests lose a principal when the first instance is faster and
      nobody when the second is. */
  lemma OrderDecidesWithTwoTokens(digest: Digest, all: AllCapabilities)
    requires digest("s") != digest("t")
    ensures var manifests := [[ApiToken("alice", "s", [])], [ApiToken("bob", "s", []), ApiToken("alice", "t", [])]];
            var one, two := Step(0, Answered, ""), Step(1, Answered, "");
            var a := Run(digest, all, Booted(map[], manifests), [one, one, two, two, two]);
            var b := Run(digest, all, Booted(map[], manifests), [two, two, two, one, one]);
            && AllImported(a) && "alice" in a.rows && "bob" !in a.rows
            && AllImported(b) && "alice" in b.rows && "bob" in b.rows
  {
    var manifests := [[ApiToken("alice", "s", [])], [ApiToken("bob", "s", []), ApiToken("alice", "t", [])]];
    var one, two := Step(0, Answered, ""), Step(1, Answered, "");
    FirstIsFaster(digest, all, manifests, one, two);
    SecondIsFaster(digest, all, manifests, one, two);
  }

  lemma RunOfFive(digest: Digest, all: AllCapabilities, sys: System, steps: seq<Step>)
    requires |steps| == 5
    ensures Run(digest, all, sys, steps)
         == Do(digest, all, Do(digest, all, Do(digest, all, Do(digest, all, Do(digest, all, sys,
              steps[0]), steps[1]), steps[2]), steps[3]), steps[4])
  {
    hide Do;
    assert steps[..4][..3] == steps[..3] && steps[..3][..2] == steps[..2] && steps[..2][..1] == steps[..1];
    assert Run(digest, all, sys, steps[..1]) == Do(digest, all, sys, steps[0]);
    assert Run(digest, all, sys, steps[..2]) == Do(digest, all, Run(digest, all, sys, steps[..1]), steps[1]);
    assert Run(digest, all, sys, steps[..3]) == Do(digest, all, Run(digest, all, sys, steps[..2]), steps[2]);
    assert Run(digest, all, sys, steps[..4]) == Do(digest, all, Run(digest, all, sys, steps[..3]), steps[3]);
  }

  lemma FirstIsFaster(digest: Digest, all: AllCapabilities, manifests: seq<seq<ApiToken>>, one: Step, two: Step)
    requires manifests == [[ApiToken("alice", "s", [])], [ApiToken("bob", "s", []), ApiToken("alice", "t", [])]]
    requires one == Step(0, Answered, "") && two == Step(1, Answered, "")
    ensures var a := Run(digest, all, Booted(map[], manifests), [one, one, two, two, two]);
            AllImported(a) && "alice" in a.rows && "bob" !in a.rows
  {
    var sys := Booted(map[], manifests);
    RunOfFive(digest, all, sys, [one, one, two, two, two]);
    hide Run;
    var s2 := Do(digest, all, Do(digest, all, sys, one), one);
    assert s2.rows == map["alice" := Row(digest("s"), [])];
    assert s2.rows["alice"].tokenDigest == digest("s");
    assert s2.instances[0] == Instance(manifests[0], Checking, SyncResult.Ok, false);
    var s4 := Do(digest, all, Do(digest, all, s2, two), two);
    assert s4.rows == s2.rows && s4.instances[1].stage == Creating(1, {"alice"});
    var s5 := Do(digest, all, s4, two);
    assert s5.rows == s2.rows && s5.instances[1].sync == SyncResult.Ok;
  }

  lemma SecondIsFaster(digest: Digest, all: AllCapabilities, manifests: seq<seq<ApiToken>>, one: Step, two: Step)
    requires digest("s") != digest("t")
    requires manifests == [[ApiToken("alice", "s", [])], [ApiToken("bob", "s", []), ApiToken("alice", "t", [])]]
    requires one == Step(0, Answered, "") && two == Step(1, Answered, "")
    ensures var b := Run(digest, all, Booted(map[], manifests), [two, two, two, one, one]);
            AllImported(b) && "alice" in b.rows && "bob" in b.rows
  {
    var sys := Booted(map[], manifests);
    RunOfFive(digest, all, sys, [two, two, two, one, one]);
    hide Run;
    var s2 := Do(digest, all, Do(digest, all, sys, two), two);
    assert s2.rows == map["bob" := Row(digest("s"), [])] && s2.instances[1].stage == Creating(1, {});
    var s3 := Do(digest, all, s2, two);
    assert s3.rows == map["bob" := Row(digest("s"), []), "alice" := Row(digest("t"), [])];
    assert s3.instances[1].sync == SyncResult.Ok;
    var s5 := Do(digest, all, Do(digest, all, s3, one), one);
    assert s5.rows == s3.rows && s5.instances[0].sync == SyncResult.Ok;
  }
}
