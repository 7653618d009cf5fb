/** The state machine of an issue and the capabilities its transitions need. */
module IssueLifecycle {
  import opened Wrappers

  type Time = int

  datatype IssueStatus = Open | Triaged | ReadyForAgent | Resolved | Closed
  datatype CloseReason = Fixed | WontFix | Duplicate | Obsolete
  datatype Capability = IssueApproveAgentWork | IssueClose | IssueReopen | IssueUpdate

  /** `transition_allowed`. */
  predicate TransitionAllowed(from: IssueStatus, to: IssueStatus) {
    match from
    case Open => to in {Triaged, Resolved, Closed}
    case Triaged => to in {ReadyForAgent, Resolved, Closed}
    case ReadyForAgent => to in {Triaged, Resolved}
    case Resolved => to in {Closed, Open}
    case Closed => to in {Open}
  }

  /** `required_capability_for_transition`. */
  function RequiredCapability(to: IssueStatus): Capability {
    match to
    case ReadyForAgent => IssueApproveAgentWork
    case Resolved => IssueClose
    case Closed => IssueClose
    case Open => IssueReopen
    case Triaged => IssueUpdate
  }

  datatype TransitionError =
    | NotAllowed(from: IssueStatus, to: IssueStatus)
    | CloseReasonRequired
    | CloseReasonNotApplicable

  function Verdict(from: IssueStatus, to: IssueStatus, reason: Option<CloseReason>): Result<(), TransitionError> {
    if !TransitionAllowed(from, to) then Err(NotAllowed(from, to))
    else if to == Closed && reason.None? then Err(CloseReasonRequired)
    else if to != Closed && reason.Some? then Err(CloseReasonNotApplicable)
    else Ok(())
  }

  /** Exactly eleven moves are accepted, those into Closed with a reason and the
      others without; a move outside the table is refused as such whatever the
      reason, and only then is the reason looked at. */
  lemma AcceptedMoves(from: IssueStatus, to: IssueStatus, reason: Option<CloseReason>)
    ensures Verdict(from, to, reason).Ok? <==>
            || ((from, to) in {(Open, Triaged), (Open, Resolved), (Triaged, ReadyForAgent), (Triaged, Resolved),
                               (ReadyForAgent, Triaged), (ReadyForAgent, Resolved), (Resolved, Open), (Closed, Open)}
                && reason.None?)
            || ((from, to) in {(Open, Closed), (Triaged, Closed), (Resolved, Closed)} && reason.Some?)
    ensures Verdict(from, to, reason) == Err(CloseReasonRequired) <==>
            from in {Open, Triaged, Resolved} && to == Closed && reason.None?
    ensures Verdict(from, to, reason) == Err(CloseReasonNotApplicable) <==>
            to != Closed && reason.Some? && Verdict(from, to, None).Ok?
    ensures Verdict(from, to, reason) in {Ok(()), Err(CloseReasonRequired), Err(CloseReasonNotApplicable),
                                          Err(NotAllowed(from, to))}
  {
    match from
    case Open => {}
    case Triaged => {}
    case ReadyForAgent => {}
    case Resolved => {}
    case Closed => {}
  }

  class Issue {
    var status: IssueStatus
    var closeReason: Option<CloseReason>
    var updatedAt: Time

    predicate Valid()
      reads this
    {
      closeReason.Some? <==> status == Closed
    }

    constructor (now: Time)
      ensures Valid() && status == Open
    {
      status, closeReason, updatedAt := Open, None, now;
    }

    /** A refused transition changes nothing; an accepted one carries a reason
        exactly into Closed, whatever the record held before. */
    method TransitionTo(to: IssueStatus, reason: Option<CloseReason>, now: Time)
      returns (answer: Result<(), TransitionError>)
      modifies this
      ensures answer == Verdict(old(status), to, reason)
      ensures answer.Ok? ==> Valid() && status == to && closeReason == reason && updatedAt == now
      ensures answer.Err? ==> status == old(status) && closeReason == old(closeReason) && updatedAt == old(updatedAt)
    {
      if !TransitionAllowed(status, to) {
        return Err(NotAllowed(status, to));
      }
      match (to, reason)
      case (Closed, None) => return Err(CloseReasonRequired);
      case (_, _) =>
        if reason.Some? && to != Closed {
          return Err(CloseReasonNotApplicable);
        }
        status := to;
        closeReason := reason;
        updatedAt := now;
        return Ok(());
    }
  }

  // ------------------------------------------------------------------- runs

  /** The stored record. */
  datatype Record = Record(status: IssueStatus, closeReason: Option<CloseReason>)

  const NEW := Record(Open, None)

  /** A request: who makes it, the status it read, and what it asks for. What it
      read decides; the write that follows does not look again. */
  datatype Request = Request(capabilities: set<Capability>, seen: IssueStatus, to: IssueStatus,
                             reason: Option<CloseReason>)

  predicate Accepted(q: Request) {
    RequiredCapability(q.to) in q.capabilities && Verdict(q.seen, q.to, q.reason).Ok?
  }

  function Do(r: Record, q: Request): Record {
    if Accepted(q) then Record(q.to, q.reason) else r
  }

  function Run(r: Record, qs: seq<Request>): Record
    decreases qs
  {
    if qs == [] then r else Do(Run(r, qs[..|qs| - 1]), qs[|qs| - 1])
  }

  /** Whatever races: a record has a close reason exactly while it is Closed. */
  lemma {:induction false} CloseReasonIffClosed(qs: seq<Request>)
    ensures Run(NEW, qs).closeReason.Some? <==> Run(NEW, qs).status == Closed
    decreases qs
  {
    if qs != [] {
      CloseReasonIffClosed(qs[..|qs| - 1]);
    }
  }

  predicate MayApprove(q: Request) {
    IssueApproveAgentWork in q.capabilities
  }

  /** Whatever races: an issue that is ready for an agent was made so by the
      last accepted request, whose caller may approve agent work and had read
      Triaged. */
  lemma {:induction false} AgentWorkIsApproved(qs: seq<Request>) returns (i: nat)
    requires Run(NEW, qs).status == ReadyForAgent
    ensures i < |qs| && Accepted(qs[i]) && qs[i].to == ReadyForAgent && MayApprove(qs[i]) && qs[i].seen == Triaged
    ensures forall j :: i < j < |qs| ==> !Accepted(qs[j])
    decreases qs
  {
    var n := |qs| - 1;
    if Accepted(qs[n]) {
      i := n;
    } else {
      i := AgentWorkIsApproved(qs[..n]);
      forall j | i < j < n ensures !Accepted(qs[j]) {
        assert qs[..n][j] == qs[j];
      }
    }
  }

  // -------------------------------------------- exactly when runs are legal

  /** The record before and after request `i` of a run. */
  lemma RunSnoc(r: Record, qs: seq<Request>, i: nat)
    requires i < |qs|
    ensures Run(r, qs[..i + 1]) == Do(Run(r, qs[..i]), qs[i])
  {
    assert qs[..i + 1][..i] == qs[..i];
  }

  /** Request `i` makes the issue ready for an agent, or leaves it as ready as
      it was, only on a triaged issue. */
  ghost predicate EntersFromTriaged(r: Record, qs: seq<Request>, i: nat)
    requires i < |qs|
  {
    var before, after := Run(r, qs[..i]).status, Run(r, qs[..i + 1]).status;
    before != ReadyForAgent && after == ReadyForAgent ==> before == Triaged
  }

  /** An approval is written on a record that is still triaged, or ready already. */
  ghost predicate ApprovesInTime(r: Record, qs: seq<Request>, i: nat)
    requires i < |qs|
  {
    Accepted(qs[i]) && qs[i].to == ReadyForAgent ==> Run(r, qs[..i]).status in {Triaged, ReadyForAgent}
  }

  /** For every run, racing or not: every entry into ReadyForAgent comes directly
      from Triaged if and only if every accepted approval is written while the
      record still is Triaged, or is ReadyForAgent already. */
  lemma ReadyComesFromTriagedIff(r: Record, qs: seq<Request>)
    ensures (forall i :: 0 <= i < |qs| ==> EntersFromTriaged(r, qs, i))
       <==> (forall i :: 0 <= i < |qs| ==> ApprovesInTime(r, qs, i))
  {
    forall i | 0 <= i < |qs| ensures EntersFromTriaged(r, qs, i) <==> ApprovesInTime(r, qs, i) {
      RunSnoc(r, qs, i);
      hide Run, RequiredCapability;
    }
  }

  /** Request `i` leaves the status alone or follows an edge of the table. */
  ghost predicate FollowsAnEdge(r: Record, qs: seq<Request>, i: nat)
    requires i < |qs|
  {
    var before, after := Run(r, qs[..i]).status, Run(r, qs[..i + 1]).status;
    after == before || TransitionAllowed(before, after)
  }

  /** The table allows an accepted target from the status at the write, and not
      only from the one that was read. */
  ghost predicate AllowedAtTheWrite(r: Record, qs: seq<Request>, i: nat)
    requires i < |qs|
  {
    var present := Run(r, qs[..i]).status;
    Accepted(qs[i]) ==> qs[i].to == present || TransitionAllowed(present, qs[i].to)
  }

  /** For every run, racing or not: every change of status is an edge of the
      table if and only if every accepted target is allowed at the write. */
  lemma RunsFollowTheTableIff(r: Record, qs: seq<Request>)
    ensures (forall i :: 0 <= i < |qs| ==> FollowsAnEdge(r, qs, i))
       <==> (forall i :: 0 <= i < |qs| ==> AllowedAtTheWrite(r, qs, i))
  {
    forall i | 0 <= i < |qs| ensures FollowsAnEdge(r, qs, i) <==> AllowedAtTheWrite(r, qs, i) {
      RunSnoc(r, qs, i);
      hide Run, TransitionAllowed;
    }
  }

  /** Whatever races: every change of the record is made by a caller with the
      capability for the status it leads to, and stores what was asked for. */
  lemma ChangesAreAuthorised(r: Record, qs: seq<Request>, i: nat)
    requires i < |qs| && Run(r, qs[..i + 1]) != Run(r, qs[..i])
    ensures Run(r, qs[..i + 1]) == Record(qs[i].to, qs[i].reason)
    ensures qs[i].to == Open ==> IssueReopen in qs[i].capabilities
    ensures qs[i].to == Triaged ==> IssueUpdate in qs[i].capabilities
    ensures qs[i].to == ReadyForAgent ==> IssueApproveAgentWork in qs[i].capabilities
    ensures qs[i].to in {Resolved, Closed} ==> IssueClose in qs[i].capabilities
  {
    RunSnoc(r, qs, i);
  }

  /** One capability each is enough for what it is meant for: with it, and with
      the status and the reason right, the request is stored. */
  lemma CapabilitiesSuffice(r: Record, q: Request)
    requires Verdict(q.seen, q.to, q.reason).Ok?
    requires || (q.to == Open && IssueReopen in q.capabilities)
             || (q.to == Triaged && IssueUpdate in q.capabilities)
             || (q.to == ReadyForAgent && IssueApproveAgentWork in q.capabilities)
             || (q.to in {Resolved, Closed} && IssueClose in q.capabilities)
    ensures Do(r, q) == Record(q.to, q.reason)
  {
    hide Verdict;
  }

  /** A request acts on what it read: nothing came between. */
  ghost predicate AllFresh(r: Record, qs: seq<Request>) {
    forall i :: 0 <= i < |qs| ==> qs[i].seen == Run(r, qs[..i]).status
  }

  /** In particular when nothing comes between reading and writing: every change
      is an edge of the table, and ReadyForAgent is entered only from Triaged. */
  lemma FreshRunsFollowTheTable(r: Record, qs: seq<Request>)
    requires AllFresh(r, qs)
    ensures forall i :: 0 <= i < |qs| ==> FollowsAnEdge(r, qs, i) && EntersFromTriaged(r, qs, i)
  {
    forall i | 0 <= i < |qs| ensures AllowedAtTheWrite(r, qs, i) && ApprovesInTime(r, qs, i) {
      assert qs[i].seen == Run(r, qs[..i]).status;
      hide Run, RequiredCapability;
    }
    RunsFollowTheTableIff(r, qs);
    ReadyComesFromTriagedIff(r, qs);
  }

  const EVERYTHING: set<Capability> := {IssueApproveAgentWork, IssueClose, IssueReopen, IssueUpdate}

  function Ask(seen: IssueStatus, to: IssueStatus): Request {
    Request(EVERYTHING, seen, to, if to == Closed then Some(Fixed) else None)
  }

  /** A way back to Open, and a way on from there. */
  function WayHome(from: IssueStatus): seq<IssueStatus> {
    match from
    case Open => []
    case Triaged => [Resolved, Open]
    case ReadyForAgent => [Resolved, Open]
    case Resolved => [Open]
    case Closed => [Open]
  }

  function WayOut(to: IssueStatus): seq<IssueStatus> {
    match to
    case Open => []
    case Triaged => [Triaged]
    case ReadyForAgent => [Triaged, ReadyForAgent]
    case Resolved => [Resolved]
    case Closed => [Closed]
  }

  predicate Walk(from: IssueStatus, way: seq<IssueStatus>)
    decreases way
  {
    way != [] ==> TransitionAllowed(from, way[0]) && Walk(way[0], way[1..])
  }

  function End(from: IssueStatus, way: seq<IssueStatus>): IssueStatus {
    if way == [] then from else way[|way| - 1]
  }

  function Requests(from: IssueStatus, way: seq<IssueStatus>): seq<Request> {
    seq(|way|, i requires 0 <= i < |way| => Ask(if i == 0 then from else way[i - 1], way[i]))
  }

  lemma {:induction false} WalkPrefix(from: IssueStatus, way: seq<IssueStatus>)
    requires Walk(from, way) && way != []
    ensures Walk(from, way[..|way| - 1]) && TransitionAllowed(End(from, way[..|way| - 1]), way[|way| - 1])
    decreases way
  {
    if |way| > 1 {
      WalkPrefix(way[0], way[1..]);
      assert way[1..][..|way| - 2] == way[..|way| - 1][1..];
    }
  }

  lemma OneMoreFresh(r: Record, qs: seq<Request>, q: Request)
    requires AllFresh(r, qs) && q.seen == Run(r, qs).status
    ensures AllFresh(r, qs + [q]) && Run(r, qs + [q]) == Do(Run(r, qs), q)
  {
    var more := qs + [q];
    assert more[..|qs|] == qs;
    hide Do;
    forall i | 0 <= i < |more| ensures more[i].seen == Run(r, more[..i]).status {
      if i < |qs| {
        assert more[..i] == qs[..i];
      }
    }
  }

  lemma {:induction false} WalksRun(r: Record, way: seq<IssueStatus>)
    requires Walk(r.status, way)
    ensures Run(r, Requests(r.status, way)).status == End(r.status, way)
    ensures AllFresh(r, Requests(r.status, way))
    decreases way
  {
    if way != [] {
      var n := |way| - 1;
      WalkPrefix(r.status, way);
      WalksRun(r, way[..n]);
      var q := Ask(End(r.status, way[..n]), way[n]);
      OneMoreFresh(r, Requests(r.status, way[..n]), q);
      assert Requests(r.status, way) == Requests(r.status, way[..n]) + [q];
      hide Walk, AllFresh;
    }
  }

  /** From every status every other can be reached again. */
  lemma EveryStatusStaysReachable(r: Record, to: IssueStatus) returns (qs: seq<Request>)
    ensures AllFresh(r, qs) && Run(r, qs).status == to
  {
    var way := WayHome(r.status) + WayOut(to);
    assert Walk(r.status, way) by {
      WaysWalk(r.status, to);
    }
    if r.status == to {
      qs := [];
    } else {
      qs := Requests(r.status, way);
      WalksRun(r, way);
      assert End(r.status, way) == to;
    }
  }

  lemma {:induction false} WalkConcat(from: IssueStatus, a: seq<IssueStatus>, b: seq<IssueStatus>)
    requires Walk(from, a) && Walk(End(from, a), b)
    ensures Walk(from, a + b)
    decreases a
  {
    if a == [] {
      assert a + b == b;
    } else {
      assert (a + b)[1..] == a[1..] + b;
      WalkConcat(a[0], a[1..], b);
    }
  }

  lemma WaysWalk(from: IssueStatus, to: IssueStatus)
    ensures Walk(from, WayHome(from) + WayOut(to)) && End(from, WayHome(from)) == Open
  {
    HomeWalks(from);
    OutWalks(to);
    WalkConcat(from, WayHome(from), WayOut(to));
  }

  lemma HomeWalks(from: IssueStatus)
    ensures Walk(from, WayHome(from)) && End(from, WayHome(from)) == Open
  {
    assert [Resolved, Open][1..] == [Open] && [Open][1..] == [];
    assert Walk(Resolved, [Open]);
  }

  lemma OutWalks(to: IssueStatus)
    ensures Walk(Open, WayOut(to))
  {
    assert [Triaged, ReadyForAgent][1..] == [ReadyForAgent];
    assert Walk(Triaged, [ReadyForAgent]);
  }

  /** Requests that race can leave the table: an approval decided on a triaged
      issue and written after it was closed makes a closed issue ready for an
      agent. */
  lemma RacingApprovalRevivesAClosedIssue()
    ensures var qs := [Ask(Open, Triaged), Ask(Triaged, Closed), Ask(Triaged, ReadyForAgent)];
            Run(NEW, qs[..2]).status == Closed && Run(NEW, qs).status == ReadyForAgent
  {
    var qs := [Ask(Open, Triaged), Ask(Triaged, Closed), Ask(Triaged, ReadyForAgent)];
    assert qs[..2][..1] == qs[..1] && qs[..1][..0] == [];
    assert Run(NEW, qs[..2]) == Do(Run(NEW, qs[..1]), qs[1]);
  }
}
