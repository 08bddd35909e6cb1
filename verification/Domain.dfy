/** Statuses and transition tables (internal/domain). */
module Domain {
  datatype MissionStatus =
    Draft | Submitted | Reviewing | Accepted | Queued | Scheduled | Processing | MissionCompleted |
    Rejected | MissionCancelled

  datatype ReservationStatus =
    Allocated | Effective | Occupied | ReservationReleased | Expired | Escalated | ReservationCancelled

  datatype RunStatus =
    RunCreated | RunAssigned | RunInProgress | RunCompleted | RunCancelled | RunFailed

  datatype AssignmentStatus =
    Created | Assigned | Claimed | InProgress | Completed | Preempted | Cancelled

  datatype Party = OperationsDispatch | FieldEngineering | RobotOperations | SafetyAudit

  // The transition tables, as the set of targets of each status.

  function MissionTargets(s: MissionStatus): set<MissionStatus> {
    match s
    case Submitted => {Reviewing, Accepted, Rejected, Queued, MissionCancelled}
    case Reviewing => {Accepted, Rejected, Queued}
    case Accepted => {Queued, Scheduled, MissionCancelled}
    case Queued => {Scheduled, MissionCancelled}
    case Scheduled => {Processing, MissionCancelled}
    case Processing => {MissionCompleted, MissionCancelled}
    case _ => {}
  }

  function ReservationTargets(s: ReservationStatus): set<ReservationStatus> {
    match s
    case Allocated => {Effective, ReservationCancelled, Escalated}
    case Effective => {Occupied, Expired, Escalated, ReservationReleased}
    case Occupied => {ReservationReleased, Escalated}
    case Escalated => {Effective, ReservationReleased, ReservationCancelled}
    case _ => {}
  }

  function RunTargets(s: RunStatus): set<RunStatus> {
    match s
    case RunCreated => {RunAssigned, RunCancelled}
    case RunAssigned => {RunInProgress, RunCancelled}
    case RunInProgress => {RunCompleted, RunFailed, RunCancelled}
    case _ => {}
  }

  function AssignmentTargets(s: AssignmentStatus): set<AssignmentStatus> {
    match s
    case Created => {Assigned, Cancelled}
    case Assigned => {Claimed, Preempted, Cancelled}
    case Claimed => {Completed, InProgress, Preempted}
    case InProgress => {Completed, Preempted}
    case Preempted => {Assigned, Cancelled}
    case _ => {}
  }

  // How many status changes a mission or a run has left at most.

  function MissionRank(s: MissionStatus): nat {
    match s
    case Submitted => 6
    case Reviewing => 5
    case Accepted => 4
    case Queued => 3
    case Scheduled => 2
    case Processing => 1
    case _ => 0
  }

  function RunRank(s: RunStatus): nat {
    match s
    case RunCreated => 3
    case RunAssigned => 2
    case RunInProgress => 1
    case _ => 0
  }

  ghost predicate IsMissionPath(path: seq<MissionStatus>) {
    forall i {:trigger path[i]} | 0 < i < |path| :: path[i] in MissionTargets(path[i - 1])
  }

  ghost predicate IsRunPath(path: seq<RunStatus>) {
    forall i {:trigger path[i]} | 0 < i < |path| :: path[i] in RunTargets(path[i - 1])
  }

  /** No mission changes status more often than its rank allows: six times at most. */
  lemma {:induction false} MissionPathIsShort(path: seq<MissionStatus>)
    requires |path| > 0 && IsMissionPath(path)
    ensures |path| - 1 + MissionRank(path[|path| - 1]) <= MissionRank(path[0]) <= 6
  {
    if |path| > 1 {
      var front := path[..|path| - 1];
      MissionPathIsShort(front);
      assert path[|path| - 1] in MissionTargets(front[|front| - 1]);
    }
  }

  /** No run changes status more often than its rank allows: three times at most. */
  lemma {:induction false} RunPathIsShort(path: seq<RunStatus>)
    requires |path| > 0 && IsRunPath(path)
    ensures |path| - 1 + RunRank(path[|path| - 1]) <= RunRank(path[0]) <= 3
  {
    if |path| > 1 {
      var front := path[..|path| - 1];
      RunPathIsShort(front);
      assert path[|path| - 1] in RunTargets(front[|front| - 1]);
    }
  }
}

/** The transition-table object of internal/domain/state_machine.go. */
module StateMachines {
  import opened Common
  import opened Domain

  class StateMachine<S(==, !new)> {
    const initialState: S
    var transitions: map<S, map<S, bool>>

    constructor (initial: S)
      ensures initialState == initial
      ensures transitions == map[]
    {
      initialState := initial;
      transitions := map[];
    }

    predicate CanTransition(src: S, dst: S)
      reads this
    {
      src in transitions && dst in transitions[src] && transitions[src][dst]
    }

    /** The edges are those of the given table. */
    ghost predicate Follows(targets: S -> set<S>)
      reads this
    {
      forall src, dst :: CanTransition(src, dst) <==> dst in targets(src)
    }

    method Allow(src: S, dst: S)
      modifies this
      ensures forall s, d :: CanTransition(s, d) <==> old(CanTransition(s, d)) || (s == src && d == dst)
    {
      if src !in transitions {
        transitions := transitions[src := map[]];
      }
      transitions := transitions[src := transitions[src][dst := true]];
    }

    method AllowMany(src: S, dsts: seq<S>)
      modifies this
      ensures forall s, d :: CanTransition(s, d) <==> old(CanTransition(s, d)) || (s == src && d in dsts)
    {
      for i := 0 to |dsts|
        invariant forall s, d :: CanTransition(s, d) <==> old(CanTransition(s, d)) || (s == src && d in dsts[..i])
      {
        Allow(src, dsts[i]);
        assert dsts[..i + 1] == dsts[..i] + [dsts[i]];
      }
    }

    method MustTransition(src: S, dst: S) returns (r: Result<S>)
      ensures r == if CanTransition(src, dst) then Ok(dst) else Err(InvalidTransition)
    {
      if !CanTransition(src, dst) {
        return Err(InvalidTransition);
      }
      return Ok(dst);
    }
  }

  method MissionStateMachine() returns (sm: StateMachine<MissionStatus>)
    ensures fresh(sm) && sm.initialState == Submitted
    ensures sm.Follows(MissionTargets)
  {
    sm := new StateMachine(Submitted);
    sm.AllowMany(Submitted, [Reviewing, Accepted, Rejected, Queued, MissionCancelled]);
    sm.AllowMany(Reviewing, [Accepted, Rejected, Queued]);
    sm.AllowMany(Accepted, [Queued, Scheduled, MissionCancelled]);
    sm.AllowMany(Queued, [Scheduled, MissionCancelled]);
    sm.AllowMany(Scheduled, [Processing, MissionCancelled]);
    sm.AllowMany(Processing, [MissionCompleted, MissionCancelled]);
  }

  method ReservationStateMachine() returns (sm: StateMachine<ReservationStatus>)
    ensures fresh(sm) && sm.initialState == Allocated
    ensures sm.Follows(ReservationTargets)
  {
    sm := new StateMachine(Allocated);
    sm.AllowMany(Allocated, [Effective, ReservationCancelled, Escalated]);
    sm.AllowMany(Effective, [Occupied, Expired, Escalated, ReservationReleased]);
    sm.AllowMany(Occupied, [ReservationReleased, Escalated]);
    sm.AllowMany(Escalated, [Effective, ReservationReleased, ReservationCancelled]);
  }

  method MissionRunStateMachine() returns (sm: StateMachine<RunStatus>)
    ensures fresh(sm) && sm.initialState == RunCreated
    ensures sm.Follows(RunTargets)
  {
    sm := new StateMachine(RunCreated);
    sm.AllowMany(RunCreated, [RunAssigned, RunCancelled]);
    sm.AllowMany(RunAssigned, [RunInProgress, RunCancelled]);
    sm.AllowMany(RunInProgress, [RunCompleted, RunFailed, RunCancelled]);
  }

  method AssignmentStateMachine() returns (sm: StateMachine<AssignmentStatus>)
    ensures fresh(sm) && sm.initialState == Created
    ensures sm.Follows(AssignmentTargets)
  {
    sm := new StateMachine(Created);
    sm.AllowMany(Created, [Assigned, Cancelled]);
    sm.AllowMany(Assigned, [Claimed, Preempted, Cancelled]);
    sm.AllowMany(Claimed, [Completed, InProgress, Preempted]);
    sm.AllowMany(InProgress, [Completed, Preempted]);
    sm.AllowMany(Preempted, [Assigned, Cancelled]);
  }
}
