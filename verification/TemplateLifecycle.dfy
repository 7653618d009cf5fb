/** The life of one agent template: its status table, its revisions, its pins,
    and the requests that change them. A request reads the template, decides,
    and then writes; `seen` is what it read.
 */
module TemplateLifecycle {
  import opened Wrappers
  import opened Utf8
  import opened Text
  import opened Hashing
  import opened TemplateContent
  import opened Trimming

  datatype Status = Draft | Published | Deprecated | Retired | Discarded

  /** `allowed_transitions`. */
  function AllowedTransitions(s: Status): set<Status> {
    match s
    case Draft => {Published, Discarded}
    case Published => {Deprecated, Retired}
    case Deprecated => {Published, Retired}
    case Retired => {}
    case Discarded => {}
  }

  predicate AcceptsNewPins(s: Status) {
    s == Published || s == Deprecated
  }

  predicate AcceptsNewRevisions(s: Status) {
    s == Draft || s == Published || s == Deprecated
  }

  predicate Terminal(s: Status) {
    AllowedTransitions(s) == {}
  }

  /** `revisions` are stored oldest first, `dependents` are the agents pinned to
      any of them; an agent never gives up its pin. */
  datatype Template = Template(status: Status, revisions: seq<Body>, revoked: set<nat>, dependents: seq<Uuid>)

  const NEW := Template(Draft, [], {}, [])

  type Digest = seq<byte> -> seq<byte>

  function DependentHash(digest: Digest, agents: seq<Uuid>): string {
    Hex(digest(DependentStream(agents)))
  }

  /** The body an edit is compared with: the latest revision, or an empty one. */
  function Current(t: Template): Body {
    if t.revisions == [] then Body("", [], []) else t.revisions[|t.revisions| - 1]
  }

  datatype Step =
    | Edit(permissions: set<PermissionKind>, seen: Body, next: Body)
    | Revoke(revision: nat)
    | Pin(agent: Uuid, revision: nat)
    | ChangeStatus(seenStatus: Status, to: Status, confirmed: Option<seq<Uuid>>)

  predicate EditAllowed(step: Step)
    requires step.Edit?
  {
    && AgentTemplateUpdate in step.permissions
    && forall p <- RequiredPermissions(step.seen, step.next) :: p in step.permissions
  }

  predicate PinAllowed(t: Template, agent: Uuid, revision: nat) {
    revision < |t.revisions| && revision !in t.revoked && AcceptsNewPins(t.status) && agent !in t.dependents
  }

  /** Retiring needs the set of dependents that was shown to be the present one;
      any other status is written without a further look. */
  predicate ChangeAllowed(digest: Digest, t: Template, step: Step)
    requires step.ChangeStatus?
  {
    && step.to in AllowedTransitions(step.seenStatus)
    && (step.to == Retired ==>
          step.confirmed.Some? && DependentHash(digest, step.confirmed.value) == DependentHash(digest, t.dependents))
  }

  function Do(digest: Digest, t: Template, step: Step): Template {
    match step
    case Edit(_, _, next) =>
      if EditAllowed(step) && AcceptsNewRevisions(t.status)
      then t.(revisions := t.revisions + [Normalized(next)])
      else t
    case Revoke(revision) =>
      if revision < |t.revisions| then t.(revoked := t.revoked + {revision}) else t
    case Pin(agent, revision) =>
      if PinAllowed(t, agent, revision) then t.(dependents := t.dependents + [agent]) else t
    case ChangeStatus(_, to, _) =>
      if ChangeAllowed(digest, t, step) then t.(status := to) else t
  }

  function Run(digest: Digest, t: Template, steps: seq<Step>): Template
    decreases steps
  {
    if steps == [] then t else Do(digest, Run(digest, t, steps[..|steps| - 1]), steps[|steps| - 1])
  }

  /** The template as step `i` of a run finds it. */
  function At(digest: Digest, t: Template, steps: seq<Step>, i: nat): Template
    requires i <= |steps|
  {
    Run(digest, t, steps[..i])
  }

  lemma AtNext(digest: Digest, t: Template, steps: seq<Step>, i: nat)
    requires i < |steps|
    ensures At(digest, t, steps, i + 1) == Do(digest, At(digest, t, steps, i), steps[i])
    ensures At(digest, t, steps, 0) == t
  {
    assert steps[..i + 1][..i] == steps[..i];
  }

  // ----------------------------------------------------------- every request

  /** The only statuses a change of status writes, by what it read; retiring
      alone also looks at the dependents that were confirmed. */
  lemma ChangesApplied(digest: Digest, t: Template, step: Step)
    requires CollisionFree(digest) && step.ChangeStatus?
    ensures Do(digest, t, step)
         == if || (step.seenStatus, step.to) in {(Draft, Published), (Draft, Discarded), (Published, Deprecated),
                                                 (Deprecated, Published)}
               || ((step.seenStatus, step.to) in {(Published, Retired), (Deprecated, Retired)}
                   && step.confirmed.Some? && multiset(step.confirmed.value) == multiset(t.dependents))
            then t.(status := step.to) else t
  {
    hide DependentHash, CollisionFree, Normalized, RequiredPermissions;
    if step.confirmed.Some? {
      HashesConfirm(digest, step.confirmed.value, t.dependents);
    }
  }

  /** A revision takes a new pin exactly while it exists, is not revoked, and
      the template is Published or Deprecated. */
  lemma PinsApplied(digest: Digest, t: Template, agent: Uuid, revision: nat)
    ensures Do(digest, t, Pin(agent, revision))
         == if revision < |t.revisions| && revision !in t.revoked && t.status in {Published, Deprecated}
               && agent !in t.dependents
            then Template(t.status, t.revisions, t.revoked, t.dependents + [agent]) else t
  {
  }

  /** An edit by a caller who may update templates, and who may manage agents
      unless what it read grants the same, appends one revision with the prompt
      and the grants that were sent, unless the template is Retired or
      Discarded; every other edit that is refused leaves the template as it is. */
  lemma EditsApplied(digest: Digest, t: Template, permissions: set<PermissionKind>, seen: Body, next: Body)
    ensures var t' := Do(digest, t, Edit(permissions, seen, next));
            var granted := Names(seen.tools) == Names(next.tools) && Names(seen.skills) == Names(next.skills);
            if AgentTemplateUpdate in permissions && (AgentManage in permissions || granted)
               && t.status in {Draft, Published, Deprecated}
            then && |t'.revisions| == |t.revisions| + 1
                 && t' == t.(revisions := t.revisions + [Current(t')])
                 && Current(t').rolePrompt == next.rolePrompt
                 && Names(Current(t').tools) == Names(next.tools) && Names(Current(t').skills) == Names(next.skills)
            else t' == t
  {
    EditAllowedIff(permissions, seen, next);
    NormalGrants(next);
    assert Normalized(next).rolePrompt == next.rolePrompt;
    hide Normalized, EditAllowed, Names;
  }

  lemma EditAllowedIff(permissions: set<PermissionKind>, seen: Body, next: Body)
    ensures EditAllowed(Edit(permissions, seen, next)) <==>
              AgentTemplateUpdate in permissions
              && (AgentManage in permissions
                  || (Names(seen.tools) == Names(next.tools) && Names(seen.skills) == Names(next.skills)))
  {
    RequiredPermissionsIff(seen, next);
    var needed := RequiredPermissions(seen, next);
    hide RequiredPermissions, Names, ContentStream;
    forall p <- needed ensures p == AgentTemplateUpdate || p == AgentManage {
      match p
      case AgentTemplateUpdate => {}
      case AgentManage => {}
    }
  }

  /** Over every run: a revoked revision stays revoked and takes no further pin,
      and revoking alone revokes. */
  lemma {:induction false} RevokedForGood(digest: Digest, t: Template, steps: seq<Step>, agent: Uuid,
                                             revision: nat)
    requires revision in t.revoked
    ensures revision in Run(digest, t, steps).revoked
    ensures Do(digest, Run(digest, t, steps), Pin(agent, revision)) == Run(digest, t, steps)
    decreases steps
  {
    hide Normalized, EditAllowed, ChangeAllowed;
    if steps != [] {
      RevokedForGood(digest, t, steps[..|steps| - 1], agent, revision);
    }
  }

  /** What is revoked at the end of a run was revoked at the start or by one of
      its requests, which named a revision that was stored by then. */
  lemma {:induction false} RevokedByARequest(digest: Digest, t: Template, steps: seq<Step>, revision: nat)
    ensures revision in Run(digest, t, steps).revoked <==>
              || revision in t.revoked
              || exists i :: 0 <= i < |steps| && steps[i] == Revoke(revision)
                   && revision < |At(digest, t, steps, i).revisions|
    decreases steps
  {
    hide Normalized, EditAllowed, ChangeAllowed;
    if steps != [] {
      var n := |steps| - 1;
      RevokedByARequest(digest, t, steps[..n], revision);
      forall i | 0 <= i < n ensures At(digest, t, steps[..n], i) == At(digest, t, steps, i) {
        assert steps[..n][..i] == steps[..i];
      }
      assert forall i :: 0 <= i < n ==> steps[..n][i] == steps[i];
      hide At;
      assert Run(digest, t, steps[..n]) == At(digest, t, steps, n) by { AtIsRun(digest, t, steps, n); }
    }
  }

  lemma AtIsRun(digest: Digest, t: Template, steps: seq<Step>, i: nat)
    requires i <= |steps|
    ensures At(digest, t, steps, i) == Run(digest, t, steps[..i])
  {
  }

  // ------------------------------------------------------------- every run

  /** Whatever races: every stored body is in normal form. */
  ghost predicate AllNormal(t: Template) {
    forall b <- t.revisions :: Normalized(b) == b
  }

  lemma {:induction false} StoredBodiesAreNormal(digest: Digest, steps: seq<Step>)
    ensures AllNormal(Run(digest, NEW, steps))
    decreases steps
  {
    if steps != [] {
      StoredBodiesAreNormal(digest, steps[..|steps| - 1]);
      if steps[|steps| - 1].Edit? {
        NormalizedIdempotent(steps[|steps| - 1].next);
      }
      hide Normalized;
    }
  }

  lemma HashesConfirm(digest: Digest, a: seq<Uuid>, b: seq<Uuid>)
    requires CollisionFree(digest)
    ensures DependentHash(digest, a) == DependentHash(digest, b) <==> multiset(a) == multiset(b)
  {
    hide DependentStream, Hex;
    DependentStreamIff(a, b);
    if DependentHash(digest, a) == DependentHash(digest, b) {
      HexInjective(digest(DependentStream(a)), digest(DependentStream(b)));
    }
  }

  /** Retiring applies only when exactly the agents that were shown depend on the template. */
  lemma RetireConfirmsTheDependents(digest: Digest, t: Template, step: Step)
    requires CollisionFree(digest)
    requires step.ChangeStatus? && step.to == Retired && t.status != Retired
    ensures Do(digest, t, step).status == Retired <==>
              step.seenStatus in {Published, Deprecated} && step.confirmed.Some?
              && multiset(step.confirmed.value) == multiset(t.dependents)
  {
    hide DependentHash, CollisionFree, Normalized, RequiredPermissions;
    if step.confirmed.Some? {
      HashesConfirm(digest, step.confirmed.value, t.dependents);
    }
  }

  // --------------------------------------------- pinned and never discarded

  /** A pinned template has left Draft behind and is not discarded. */
  predicate PinnedIsPublic(t: Template) {
    t.dependents != [] ==> t.status in {Published, Deprecated, Retired}
  }

  /** The step discards a template it read as a draft. */
  predicate DiscardsADraft(step: Step) {
    step.ChangeStatus? && step.seenStatus == Draft && step.to == Discarded
  }

  ghost predicate AlwaysPublic(digest: Digest, steps: seq<Step>, n: nat)
    requires n <= |steps|
  {
    forall i :: 0 <= i <= n ==> PinnedIsPublic(At(digest, NEW, steps, i))
  }

  /** Every discard is written while the template still has no dependents. */
  ghost predicate DiscardsUnpinned(digest: Digest, steps: seq<Step>, n: nat)
    requires n <= |steps|
  {
    forall i :: 0 <= i < n && DiscardsADraft(steps[i]) ==> At(digest, NEW, steps, i).dependents == []
  }

  lemma PublicStep(digest: Digest, t: Template, step: Step)
    requires PinnedIsPublic(t)
    ensures PinnedIsPublic(Do(digest, t, step)) <==> (DiscardsADraft(step) ==> t.dependents == [])
  {
    hide Normalized, RequiredPermissions, DependentHash;
  }

  lemma {:induction false} PublicIff(digest: Digest, steps: seq<Step>, n: nat)
    requires n <= |steps|
    ensures AlwaysPublic(digest, steps, n) <==> DiscardsUnpinned(digest, steps, n)
    decreases n
  {
    hide Do, PinnedIsPublic, At;
    if n == 0 {
      NewIsPublic(digest, steps);
    } else {
      PublicIff(digest, steps, n - 1);
      AtNext(digest, NEW, steps, n - 1);
      var t := At(digest, NEW, steps, n - 1);
      if PinnedIsPublic(t) {
        PublicStep(digest, t, steps[n - 1]);
      }
    }
  }

  lemma NewIsPublic(digest: Digest, steps: seq<Step>)
    ensures PinnedIsPublic(At(digest, NEW, steps, 0))
  {
  }

  /** For every run, racing or not: a template that ever took a pin is never
      discarded if and only if every discard of a draft is written while no
      agent depends on the template: the guard the write lacks. */
  lemma PinnedIsNeverDiscardedIff(digest: Digest, steps: seq<Step>)
    ensures (forall i :: 0 <= i <= |steps| ==> PinnedIsPublic(At(digest, NEW, steps, i)))
       <==> (forall i :: 0 <= i < |steps| && DiscardsADraft(steps[i]) ==> At(digest, NEW, steps, i).dependents == [])
  {
    PublicIff(digest, steps, |steps|);
    hide At, PinnedIsPublic, DiscardsADraft;
  }

  /** The discards act on what they read: nothing came between. */
  ghost predicate DiscardsAreFresh(digest: Digest, steps: seq<Step>) {
    forall i :: 0 <= i < |steps| && DiscardsADraft(steps[i]) ==> At(digest, NEW, steps, i).status == Draft
  }

  lemma {:induction false} FreshDiscardsHitNoPins(digest: Digest, steps: seq<Step>, n: nat)
    requires n <= |steps| && DiscardsAreFresh(digest, steps)
    ensures DiscardsUnpinned(digest, steps, n)
    decreases n
  {
    hide At;
    if n > 0 {
      FreshDiscardsHitNoPins(digest, steps, n - 1);
      PublicIff(digest, steps, n - 1);
      assert PinnedIsPublic(At(digest, NEW, steps, n - 1));
    }
  }

  /** In particular when the discards are fresh, whatever else races. */
  lemma PinnedIsNeverDiscarded(digest: Digest, steps: seq<Step>)
    requires DiscardsAreFresh(digest, steps)
    ensures forall i :: 0 <= i <= |steps| ==> PinnedIsPublic(At(digest, NEW, steps, i))
  {
    FreshDiscardsHitNoPins(digest, steps, |steps|);
    PinnedIsNeverDiscardedIff(digest, steps);
    hide At, PinnedIsPublic, DiscardsADraft;
  }

  // ------------------------------------------------------- terminal is final

  /** Nothing but revocations has happened to the template. */
  predicate OnlyRevoked(t: Template, t': Template) {
    t' == t.(revoked := t'.revoked)
  }

  /** The step would write another status than the terminal one. */
  predicate LeavesTerminal(digest: Digest, t: Template, step: Step, present: Template) {
    step.ChangeStatus? && ChangeAllowed(digest, present, step) && step.to != t.status
  }

  lemma TerminalStep(digest: Digest, t: Template, present: Template, step: Step)
    requires Terminal(t.status) && OnlyRevoked(t, present)
    ensures OnlyRevoked(t, Do(digest, present, step)) <==> !LeavesTerminal(digest, t, step, present)
    ensures OnlyRevoked(t, Do(digest, present, step)) <==> Do(digest, present, step).status == t.status
  {
    hide Normalized, RequiredPermissions, DependentHash;
  }

  ghost predicate StaysFinal(digest: Digest, t: Template, steps: seq<Step>, n: nat)
    requires n <= |steps|
  {
    forall i :: 0 <= i <= n ==> OnlyRevoked(t, At(digest, t, steps, i))
  }

  ghost predicate StaysTerminal(digest: Digest, t: Template, steps: seq<Step>, n: nat)
    requires n <= |steps|
  {
    forall i :: 0 <= i <= n ==> At(digest, t, steps, i).status == t.status
  }

  ghost predicate NothingLeaves(digest: Digest, t: Template, steps: seq<Step>, n: nat)
    requires n <= |steps|
  {
    forall i :: 0 <= i < n ==> !LeavesTerminal(digest, t, steps[i], At(digest, t, steps, i))
  }

  lemma {:induction false} FinalIff(digest: Digest, t: Template, steps: seq<Step>, n: nat)
    requires n <= |steps| && Terminal(t.status)
    ensures StaysFinal(digest, t, steps, n) <==> NothingLeaves(digest, t, steps, n)
    ensures StaysFinal(digest, t, steps, n) <==> StaysTerminal(digest, t, steps, n)
    decreases n
  {
    hide Do, At, LeavesTerminal;
    if n == 0 {
      StartIsStart(digest, t, steps);
    } else {
      FinalIff(digest, t, steps, n - 1);
      AtNext(digest, t, steps, n - 1);
      var present := At(digest, t, steps, n - 1);
      if OnlyRevoked(t, present) {
        TerminalStep(digest, t, present, steps[n - 1]);
      }
    }
  }

  lemma StartIsStart(digest: Digest, t: Template, steps: seq<Step>)
    ensures At(digest, t, steps, 0) == t
  {
  }

  /** For every run, racing or not: Retired and Discarded admit no further
      status, pin or revision, if and only if no accepted change of status is
      written over them; and while the status stands, everything else does. */
  lemma TerminalIsFinalIff(digest: Digest, t: Template, steps: seq<Step>)
    requires t.status in {Retired, Discarded}
    ensures (forall i :: 0 <= i <= |steps| ==> OnlyRevoked(t, At(digest, t, steps, i)))
       <==> (forall i :: 0 <= i < |steps| ==> !LeavesTerminal(digest, t, steps[i], At(digest, t, steps, i)))
    ensures (forall i :: 0 <= i <= |steps| ==> At(digest, t, steps, i).status == t.status)
       <==> (forall i :: 0 <= i < |steps| ==> !LeavesTerminal(digest, t, steps[i], At(digest, t, steps, i)))
  {
    FinalIff(digest, t, steps, |steps|);
    hide At, LeavesTerminal, OnlyRevoked;
  }

  /** The changes of status act on what they read: nothing came between. */
  ghost predicate ChangesAreFresh(digest: Digest, t: Template, steps: seq<Step>) {
    forall i :: 0 <= i < |steps| && steps[i].ChangeStatus? ==> steps[i].seenStatus == At(digest, t, steps, i).status
  }

  lemma {:induction false} FreshChangesLeaveNothing(digest: Digest, t: Template, steps: seq<Step>, n: nat)
    requires n <= |steps| && Terminal(t.status) && ChangesAreFresh(digest, t, steps)
    ensures NothingLeaves(digest, t, steps, n)
    decreases n
  {
    hide At, DependentHash;
    if n > 0 {
      FreshChangesLeaveNothing(digest, t, steps, n - 1);
      FinalIff(digest, t, steps, n - 1);
      assert OnlyRevoked(t, At(digest, t, steps, n - 1));
    }
  }

  /** In particular when the changes of status are fresh, whatever else races. */
  lemma TerminalIsFinal(digest: Digest, t: Template, steps: seq<Step>)
    requires t.status in {Retired, Discarded} && ChangesAreFresh(digest, t, steps)
    ensures forall i :: 0 <= i <= |steps| ==> At(digest, t, steps, i) == t.(revoked := At(digest, t, steps, i).revoked)
  {
    FreshChangesLeaveNothing(digest, t, steps, |steps|);
    TerminalIsFinalIff(digest, t, steps);
    hide At, LeavesTerminal;
  }

  // --------------------------------------------------------- what is granted

  predicate SameGrants(a: Body, b: Body) {
    Names(a.tools) == Names(b.tools) && Names(a.skills) == Names(b.skills)
  }

  predicate WithoutManage(step: Step) {
    step.Edit? ==> AgentManage !in step.permissions
  }

  /** An accepted edit was compared with a body that grants what the present one does. */
  predicate ComparedWell(t: Template, step: Step) {
    step.Edit? && EditAllowed(step) && AcceptsNewRevisions(t.status) ==> SameGrants(step.seen, Current(t))
  }

  lemma NormalGrants(b: Body)
    ensures SameGrants(Normalized(b), b)
  {
    NormalListIdempotent(b.tools);
    NormalListIdempotent(b.skills);
    NormalListIffNames(NormalList(b.tools), b.tools);
    NormalListIffNames(NormalList(b.skills), b.skills);
  }

  /** An accepted edit without AgentManage changes what the template grants if
      and only if the body it was compared with grants something else than the
      present one. */
  lemma StaleEditWidensIff(digest: Digest, t: Template, step: Step)
    requires step.Edit? && EditAllowed(step) && AgentManage !in step.permissions && AcceptsNewRevisions(t.status)
    ensures SameGrants(Current(Do(digest, t, step)), Current(t)) <==> SameGrants(step.seen, Current(t))
  {
    RequiredPermissionsIff(step.seen, step.next);
    NormalGrants(step.next);
    hide Normalized, RequiredPermissions, Names;
    assert Current(Do(digest, t, step)) == Normalized(step.next);
  }

  lemma GrantsStep(digest: Digest, t: Template, step: Step)
    requires WithoutManage(step)
    ensures SameGrants(Current(Do(digest, t, step)), Current(t)) <==> ComparedWell(t, step)
  {
    if step.Edit? && EditAllowed(step) && AcceptsNewRevisions(t.status) {
      StaleEditWidensIff(digest, t, step);
    }
    hide Normalized, RequiredPermissions, DependentHash, Names;
  }

  lemma SameGrantsTrans(a: Body, b: Body, c: Body)
    requires SameGrants(b, c)
    ensures SameGrants(a, b) <==> SameGrants(a, c)
  {
  }

  ghost predicate GrantsStand(digest: Digest, t: Template, steps: seq<Step>, n: nat)
    requires n <= |steps|
  {
    forall i :: 0 <= i <= n ==> SameGrants(Current(At(digest, t, steps, i)), Current(t))
  }

  ghost predicate AllComparedWell(digest: Digest, t: Template, steps: seq<Step>, n: nat)
    requires n <= |steps|
  {
    forall i :: 0 <= i < n ==> ComparedWell(At(digest, t, steps, i), steps[i])
  }

  lemma {:induction false} GrantsStandIff(digest: Digest, t: Template, steps: seq<Step>, n: nat)
    requires n <= |steps| && forall s <- steps :: WithoutManage(s)
    ensures GrantsStand(digest, t, steps, n) <==> AllComparedWell(digest, t, steps, n)
    decreases n
  {
    if n == 0 {
      StartIsStart(digest, t, steps);
      hide At;
    } else {
      GrantsStandIff(digest, t, steps, n - 1);
      AtNext(digest, t, steps, n - 1);
      var present := At(digest, t, steps, n - 1);
      assert WithoutManage(steps[n - 1]);
      GrantsStep(digest, present, steps[n - 1]);
      hide Do, At, SameGrants, ComparedWell, Current, WithoutManage;
      if SameGrants(Current(present), Current(t)) {
        SameGrantsTrans(Current(At(digest, t, steps, n)), Current(present), Current(t));
      }
    }
  }

  /** For every run without AgentManage, racing or not: the grants of the
      template stand throughout if and only if every accepted edit was compared
      with a body that grants what the template grants when it is written. */
  lemma UnmanagedEditsGrantNothingIff(digest: Digest, t: Template, steps: seq<Step>)
    requires forall s <- steps :: WithoutManage(s)
    ensures (forall i :: 0 <= i <= |steps| ==> SameGrants(Current(At(digest, t, steps, i)), Current(t)))
       <==> (forall i :: 0 <= i < |steps| ==> ComparedWell(At(digest, t, steps, i), steps[i]))
  {
    GrantsStandIff(digest, t, steps, |steps|);
    hide At, Current, SameGrants, ComparedWell, WithoutManage;
  }

  /** In particular when the edits were compared with the present body: edits
      authorised by AgentTemplateUpdate alone never change what is granted,
      however many of them there are and whatever else races. */
  lemma UnmanagedEditsGrantNothing(digest: Digest, t: Template, steps: seq<Step>)
    requires forall s <- steps :: WithoutManage(s)
    requires forall i :: 0 <= i < |steps| && steps[i].Edit? ==> steps[i].seen == Current(At(digest, t, steps, i))
    ensures forall i :: 0 <= i <= |steps| ==> SameGrants(Current(At(digest, t, steps, i)), Current(t))
  {
    UnmanagedEditsGrantNothingIff(digest, t, steps);
    hide At, Current, WithoutManage, Names;
  }

  // ------------------------------------------------------ requests that race

  /** A discard decided on a draft and written after the template was published
      and pinned leaves a pinned template Discarded. */
  lemma RacingDiscardHitsAPinnedTemplate(digest: Digest, agent: Uuid)
    ensures var edit := Edit({AgentTemplateUpdate}, Body("", [], []), Body("be brief", [], []));
            var t := Run(digest, NEW, [edit, ChangeStatus(Draft, Published, None), Pin(agent, 0),
                                       ChangeStatus(Draft, Discarded, None)]);
            t.dependents == [agent] && t.status == Discarded
  {
    var edit := Edit({AgentTemplateUpdate}, Body("", [], []), Body("be brief", [], []));
    assert EditAllowed(edit) by {
      RequiredPermissionsIff(edit.seen, edit.next);
      hide Normalized, RequiredPermissions;
      assert edit.seen.tools == edit.next.tools && edit.seen.skills == edit.next.skills;
    }
    hide Normalized, EditAllowed, DependentHash;
    var steps := [edit, ChangeStatus(Draft, Published, None), Pin(agent, 0), ChangeStatus(Draft, Discarded, None)];
    RunOfFour(digest, NEW, steps);
    hide Run;
    var t1 := Do(digest, NEW, steps[0]);
    assert |t1.revisions| == 1 && t1 == NEW.(revisions := t1.revisions);
    assert Do(digest, t1, steps[1]) == t1.(status := Published);
  }

  const BOTH: set<PermissionKind> := {AgentTemplateUpdate, AgentManage}

  /** An edit by a caller that holds both permissions, compared with what it read. */
  function Managed(seen: Body, next: Body): Step {
    Edit(BOTH, seen, next)
  }

  lemma ManagedEdits(digest: Digest, t: Template, seen: Body, next: Body)
    requires AcceptsNewRevisions(t.status)
    ensures Do(digest, t, Managed(seen, next)) == t.(revisions := t.revisions + [Normalized(next)])
  {
    hide Normalized;
    forall p: PermissionKind ensures p in BOTH {
      match p
      case AgentTemplateUpdate => {}
      case AgentManage => {}
    }
  }

  lemma OneToolIsGranted()
    ensures Names(["x"]) == {"x"} && Names([]) == {}
  {
    assert TrimStart("x") == "x" && TrimEnd("x") == "x";
    assert "x" in ["x"];
  }

  lemma GrantedAndWithdrawn(digest: Digest)
    ensures var plain, granted := Body("", [], []), Body("", ["x"], []);
            var t := Run(digest, NEW, [Managed(plain, granted)]);
            var t' := Run(digest, NEW, [Managed(plain, granted), Managed(Current(t), plain)]);
            && Current(t) == Normalized(granted) && Current(t') == Normalized(plain)
            && t.status == t'.status == Draft
  {
    var plain, granted := Body("", [], []), Body("", ["x"], []);
    var first := Managed(plain, granted);
    ManagedEdits(digest, NEW, plain, granted);
    hide Normalized, Do;
    assert [first][..0] == [];
    assert Run(digest, NEW, [first]) == Do(digest, NEW, first);
    var t := Run(digest, NEW, [first]);
    var second := Managed(Current(t), plain);
    ManagedEdits(digest, t, Current(t), plain);
    assert [first, second][..1] == [first];
    assert Run(digest, NEW, [first, second]) == Do(digest, t, second);
  }

  lemma DifferentGrants(a: Body, b: Body)
    requires SameGrants(a, Body("", ["x"], [])) && SameGrants(b, Body("", [], []))
    ensures !SameGrants(a, b) && SameGrants(a, Body("p", ["x"], []))
  {
    OneToolIsGranted();
    hide Names;
  }

  lemma PromptEditIsAllowed(read: Body, next: Body)
    requires SameGrants(read, next)
    ensures EditAllowed(Edit({AgentTemplateUpdate}, read, next))
  {
    RequiredPermissionsIff(read, next);
    hide RequiredPermissions, Names, Normalized, ContentStream;
    forall p <- RequiredPermissions(read, next) ensures p == AgentTemplateUpdate {
      match p
      case AgentTemplateUpdate => {}
      case AgentManage => {}
    }
  }

  /** An edit of the prompt alone, decided while a tool was granted and written
      after the tool was withdrawn, grants it again without AgentManage. */
  lemma RacingEditWidens(digest: Digest)
    ensures var plain, granted := Body("", [], []), Body("", ["x"], []);
            var read := Current(Run(digest, NEW, [Managed(plain, granted)]));
            var t := Run(digest, NEW, [Managed(plain, granted), Managed(read, plain)]);
            var stale := Edit({AgentTemplateUpdate}, read, Body("p", ["x"], []));
            && WithoutManage(stale) && EditAllowed(stale)
            && !SameGrants(Current(Do(digest, t, stale)), Current(t))
  {
    var plain, granted := Body("", [], []), Body("", ["x"], []);
    var read := Current(Run(digest, NEW, [Managed(plain, granted)]));
    var t := Run(digest, NEW, [Managed(plain, granted), Managed(read, plain)]);
    var stale := Edit({AgentTemplateUpdate}, read, Body("p", ["x"], []));
    GrantedAndWithdrawn(digest);
    assert AcceptsNewRevisions(t.status);
    assert WithoutManage(stale);
    hide *;
    NormalGrants(granted);
    NormalGrants(plain);
    DifferentGrants(read, Current(t));
    PromptEditIsAllowed(read, Body("p", ["x"], []));
    StaleEditWidensIff(digest, t, stale);
  }

  lemma RunOfFour(digest: Digest, t: Template, steps: seq<Step>)
    requires |steps| == 4
    ensures Run(digest, t, steps)
         == Do(digest, Do(digest, Do(digest, Do(digest, t, steps[0]), steps[1]), steps[2]), steps[3])
  {
    hide Do;
    assert steps[..3][..2] == steps[..2] && steps[..2][..1] == steps[..1];
    assert Run(digest, t, steps[..1]) == Do(digest, t, steps[0]);
    assert Run(digest, t, steps[..2]) == Do(digest, Do(digest, t, steps[0]), steps[1]);
    assert Run(digest, t, steps[..3]) == Do(digest, Do(digest, Do(digest, t, steps[0]), steps[1]), steps[2]);
  }

  /** A deprecation decided on a published template and written after it was
      retired brings the template back. */
  lemma RacingDeprecationRevives(digest: Digest, t: Template)
    requires t.status == Published
    ensures var retired := Do(digest, t, ChangeStatus(Published, Retired, Some(t.dependents)));
            retired.status == Retired
            && Do(digest, retired, ChangeStatus(Published, Deprecated, None)).status == Deprecated
  {
    hide DependentHash, Normalized, RequiredPermissions;
    assert ChangeAllowed(digest, t, ChangeStatus(Published, Retired, Some(t.dependents)));
  }
}
