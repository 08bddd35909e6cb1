/** The results about the assignment service, for every schedule of its clients. */
module AssignmentTheorems {
  import opened Common
  import opened Optimistic
  import opened Domain
  import opened AssignmentProtocol
  import opened AssignmentSafety
  import Spec = AssignmentSpec

  // ---- Refinement --------------------------------------------------------------

  /** Either the row table and the log stay, or one atomic operation whose check holds
      on the table as it is now gives both. */
  ghost predicate AtomicOrNothing(s: State, s': State) {
    (s'.rows == s.rows && s'.log == s.log) ||
    exists op {:trigger Spec.Can(s.rows, op)} ::
      Spec.Can(s.rows, op) && s'.log == s.log + [op] && s'.rows == Spec.Apply(s.rows, op)
  }

  lemma CreateIsAtomic(s: State, id: Id)
    ensures AtomicOrNothing(s, AfterCreate(s, id))
  {
    assert id !in s.rows ==> Spec.Can(s.rows, Spec.Create(id));
  }

  lemma WriteAssignIsAtomic(s: State, c: Client)
    requires s.Pc(c).Assigning? && PcOk(s, c)
    ensures AtomicOrNothing(s, AfterWriteAssign(s, c))
  {
    assert Matches(s.rows, s.Pc(c).id, s.Pc(c).snapshot.version) ==> Spec.Can(s.rows, Spec.Assign(s.Pc(c).id));
  }

  lemma WriteClaimIsAtomic(s: State, c: Client, uuid: Id, expires: int)
    requires s.Pc(c).Claiming? && PcOk(s, c)
    ensures AtomicOrNothing(s, AfterWriteClaim(s, c, uuid, expires))
  {
    var Claiming(id, t, executor) := s.Pc(c);
    assert uuid != "" && Matches(s.rows, id, t.version) ==>
      Spec.Can(s.rows, Spec.Op.Claim(id, executor, uuid, expires));
  }

  lemma ClearClaimIsAtomic(s: State, c: Client)
    requires s.Pc(c).Clearing? && s.Pc(c).lease in s.claims && ClaimOk(s, s.Pc(c).lease)
    ensures AtomicOrNothing(s, AfterClearClaim(s, c))
  {
    var l := s.Pc(c).lease;
    var id := s.claims[l].task;
    assert Matches(s.rows, id, s.claims[l].mine.version) ==> Spec.Can(s.rows, Spec.Compensate(id, l));
  }

  lemma WriteReportIsAtomic(s: State, c: Client)
    requires s.Pc(c).Reporting? && PcOk(s, c)
    ensures AtomicOrNothing(s, AfterWriteReport(s, c))
  {
    var Reporting(id, t, executor) := s.Pc(c);
    assert Matches(s.rows, id, t.version) ==> Spec.Can(s.rows, Spec.Report(id, executor));
  }

  lemma WritePreemptIsAtomic(s: State, c: Client)
    requires s.Pc(c).Preempting? && PcOk(s, c)
    ensures AtomicOrNothing(s, AfterWritePreempt(s, c))
  {
    var Preempting(queue, now) := s.Pc(c);
    assert queue != [] && Matches(s.rows, queue[0].id, queue[0].snapshot.version) ==>
      Spec.Can(s.rows, Spec.Preempt(queue[0].id, now));
  }

  /** Reads and checks made statements earlier still amount to one atomic operation. */
  lemma StepIsAtomic(s: State, c: Client, a: Action)
    requires Inv(s)
    ensures AtomicOrNothing(s, Do(s, c, a))
  {
    assert PcOk(s, c);
    var pc := s.Pc(c);
    match a
    case CreateTask(id) => if pc.Idle? { CreateIsAtomic(s, id); }
    case WriteAssign => if pc.Assigning? { WriteAssignIsAtomic(s, c); }
    case WriteClaim(uuid, expires) => if pc.Claiming? { WriteClaimIsAtomic(s, c, uuid, expires); }
    case ClearClaim =>
      if pc.Clearing? {
        assert ClaimOk(s, pc.lease);
        ClearClaimIsAtomic(s, c);
      }
    case WriteReport => if pc.Reporting? { WriteReportIsAtomic(s, c); }
    case WritePreempt => if pc.Preempting? { WritePreemptIsAtomic(s, c); }
    case _ => ReadsChangeNoRow(s, c, a);
  }

  lemma ReadsChangeNoRow(s: State, c: Client, a: Action)
    requires !a.CreateTask? && !a.WriteAssign? && !a.WriteClaim? && !EndsAClaim(a)
    ensures Do(s, c, a).rows == s.rows && Do(s, c, a).log == s.log
  {
  }

  /** Every interleaving is a run of the atomic machine, operation for operation. */
  lemma InterleavingsAreAtomicRuns(events: seq<Event>)
    ensures Spec.Legal(Run(events).log) && Spec.Exec(Run(events).log) == Run(events).rows
  {
    RunKeepsInv(events);
  }

  /** The row a client is about to write, as it read it. */
  function AboutToWrite(pc: Pc): Option<Listed> {
    match pc
    case Assigning(id, t) => Some(Listed(id, t))
    case Claiming(id, t, _) => Some(Listed(id, t))
    case Reporting(id, t, _) => Some(Listed(id, t))
    case Preempting(queue, _) => if queue == [] then None else Some(queue[0])
    case _ => None
  }

  predicate IsItsWrite(pc: Pc, a: Action) {
    match pc
    case Assigning(_, _) => a.WriteAssign?
    case Claiming(_, _, _) => a.WriteClaim?
    case Reporting(_, _, _) => a.WriteReport?
    case Preempting(_, _) => a.WritePreempt?
    case _ => false
  }

  /** A version-guarded write takes effect exactly when nobody wrote since its read;
      otherwise both tables stay as they were. */
  lemma WriteWinsIffRowUntouched(events: seq<Event>, c: Client, a: Action)
    requires var pc := Run(events).Pc(c); AboutToWrite(pc).Some? && IsItsWrite(pc, a)
    requires a.WriteClaim? ==> a.uuid != "" && a.uuid !in Run(events).claims
    ensures var s := Run(events); var s' := Do(s, c, a); var Listed(id, t) := AboutToWrite(s.Pc(c)).value;
      && (s'.log != s.log <==> id in s.rows && s.rows[id] == t)
      && (s'.log == s.log ==> s'.rows == s.rows && s'.leases == s.leases)
  {
    RunKeepsInv(events);
    assert PcOk(Run(events), c);
  }

  // ---- A row over a whole run -----------------------------------------------------

  /** A row as it stood; one that is not there yet counts as version zero. */
  function RowAt(s: State, id: Id): Row<Task> {
    if id in s.rows then s.rows[id] else Row(0, Spec.NEW_TASK)
  }

  /** The row after each of the first statements of the run, none included. */
  ghost function RowHistory(events: seq<Event>, id: Id): (h: seq<Row<Task>>)
    ensures |h| == |events| + 1
  {
    (if events == [] then [] else RowHistory(events[..|events| - 1], id)) + [RowAt(Run(events), id)]
  }

  lemma {:induction false} RowHistoryHolds(events: seq<Event>, id: Id, n: nat)
    requires n <= |events|
    ensures RowHistory(events, id)[n] == RowAt(Run(events[..n]), id)
    decreases |events|
  {
    if n == |events| {
      assert events[..n] == events;
    } else {
      RowHistoryHolds(events[..|events| - 1], id, n);
      assert events[..|events| - 1][..n] == events[..n];
    }
  }

  lemma StepFollows(s: State, c: Client, a: Action, id: Id)
    ensures Follows(RowAt(s, id), RowAt(Do(s, c, a), id))
  {
    if id in s.rows {
      StepMovesRowForward(s, c, a, id);
    }
  }

  lemma {:induction false} RowsHaveHistories(events: seq<Event>, id: Id)
    ensures IsHistory(RowHistory(events, id))
    decreases |events|
  {
    if events != [] {
      var h := RowHistory(events, id);
      var front, last := events[..|events| - 1], events[|events| - 1];
      RowsHaveHistories(front, id);
      assert h[..|h| - 1] == RowHistory(front, id);
      RowHistoryHolds(events, id, |events| - 1);
      StepFollows(Run(front), last.client, last.action, id);
    }
  }

  /** Whatever was read from a row at any earlier moment of any run is a snapshot of it now,
      and its version is still current if and only if the row was the same all the time in
      between. */
  lemma EarlierReadsAreSnapshots(events: seq<Event>, read: nat, id: Id)
    requires read <= |events|
    ensures SnapshotOf(RowAt(Run(events[..read]), id), RowAt(Run(events), id))
    ensures RowAt(Run(events[..read]), id).version == RowAt(Run(events), id).version <==>
            forall m :: read <= m <= |events| ==> RowAt(Run(events[..m]), id) == RowAt(Run(events[..read]), id)
  {
    var h := RowHistory(events, id);
    RowsHaveHistories(events, id);
    EveryReadIsASnapshot(h, read);
    VersionHeldIffRowUntouched(h, read);
    assert events[..|events|] == events;
    forall m | read <= m <= |events| ensures h[m] == RowAt(Run(events[..m]), id) {
      RowHistoryHolds(events, id, m);
    }
  }

  // ---- Counting ----------------------------------------------------------------

  /** Claims, clears, assigns and completions of every task balance, whatever the
      number of workers and however their statements interleave. */
  lemma CountsBalanceInEveryRun(events: seq<Event>, id: Id)
    requires id in Run(events).rows
    ensures var s := Run(events);
      && Spec.WellShaped(s.rows[id].data)
      && Spec.Balanced(s.rows[id], Spec.Count(s.log, id, Spec.IsAssign), Spec.Count(s.log, id, Spec.IsClaim),
           Spec.Count(s.log, id, Spec.IsClear), Spec.Count(s.log, id, Spec.IsReport))
  {
    RunKeepsInv(events);
    Spec.CountsBalance(Run(events).log, id);
  }

  // ---- Rows and leases agree -----------------------------------------------------

  ghost predicate IsCurrentLease(s: State, l: Id) {
    l in s.claims && s.claims[l].task in s.rows
    && s.rows[s.claims[l].task].data.status == Claimed && s.rows[s.claims[l].task].data.lease == l
  }

  /** A client that won the row write ending this claim, and has yet to end the lease. */
  ghost predicate IsEnding(pc: Pc, l: Id) {
    (pc.Releasing? || pc.ReleasingAt? || pc.Revoking? || pc.RevokingAt?) && pc.lease == l
  }

  /** Each active lease is the current one of a claimed row, or is about to be ended by
      the client that won the row, or that client has looked for it in vain. */
  lemma ActiveLeasesAgree(events: seq<Event>, l: Id)
    requires var s := Run(events); l in s.leases && s.leases[l].data.status == Active
    ensures var s := Run(events);
      IsCurrentLease(s, l) || (exists c :: IsEnding(s.Pc(c), l)) || l in s.missed
  {
    RunKeepsInv(events);
    var s := Run(events);
    assert LeaseOk(s, l) && ClaimOk(s, l);
    if l !in s.missed && s.claims[l].fate.Ended? {
      assert IsEnding(s.Pc(s.claims[l].fate.client), l);
    }
  }

  /** And each claimed row has its active lease, unless its claimer has yet to insert it
      or to clear the claim. */
  lemma ClaimedRowsHaveTheirLease(events: seq<Event>, id: Id)
    requires var s := Run(events); id in s.rows && s.rows[id].data.status == Claimed
    ensures var s := Run(events); var l := s.rows[id].data.lease;
      (l in s.leases && s.leases[l].data == Lease(id, Active)) ||
      (l in s.claims && l !in s.leases && s.Pc(s.claims[l].client) in {Inserting(l), Clearing(l)})
  {
    RunKeepsInv(events);
    var s := Run(events);
    assert RowOk(s, id) && ClaimOk(s, s.rows[id].data.lease) && LeaseOk(s, s.rows[id].data.lease);
  }

  /** The operation at `at` took the row away from the claim that holds lease `l`. */
  ghost predicate EndedUnder(s: State, l: Id, at: nat) {
    && at < |s.log| && Spec.Legal(s.log[..at]) && l in s.claims && s.log[at].id == s.claims[l].task
    && s.log[at].id in Spec.Exec(s.log[..at])
    && Spec.Exec(s.log[..at])[s.log[at].id].data.status == Claimed
    && Spec.Exec(s.log[..at])[s.log[at].id].data.lease == l
  }

  /** A released lease had its task completed under it, a revoked one had it preempted
      under it; the row's write decides, and the lease follows. */
  lemma RowDecidesTheLease(events: seq<Event>, l: Id)
    requires l in Run(events).leases && Run(events).leases[l].data.status != Active
    ensures var s := Run(events);
      exists at: nat :: EndedUnder(s, l, at)
        && (s.leases[l].data.status == Released <==> s.log[at].Report?)
        && (s.leases[l].data.status == Revoked <==> s.log[at].Preempt?)
  {
    RunKeepsInv(events);
    var s := Run(events);
    assert LeaseOk(s, l) && ClaimOk(s, l);
    assert EndedUnder(s, l, s.claims[l].fate.at);
  }

  /** Once every client is between calls the two tables tell the same story but for the
      leases looked for in vain: exactly those are active without being current, and any
      other is active, released or revoked exactly as its claim is open, was completed or
      was preempted. */
  lemma AtRestTheTablesAgree(events: seq<Event>, l: Id)
    requires forall c :: Run(events).Pc(c) == Idle
    requires l in Run(events).leases
    ensures var s := Run(events); var status := s.leases[l].data.status;
      && l in s.claims
      && (l in s.missed <==> status == Active && !IsCurrentLease(s, l))
      && (l !in s.missed ==>
            && (status == Active <==> s.claims[l].fate.Open?)
            && (status == Released <==> HasEnded(s.claims[l].fate, ByReport))
            && (status == Revoked <==> HasEnded(s.claims[l].fate, ByPreempt)))
  {
    RunKeepsInv(events);
    var s := Run(events);
    assert LeaseOk(s, l) && ClaimOk(s, l);
    if IsCurrentLease(s, l) {
      assert RowOk(s, s.claims[l].task);
    }
  }

  // ---- Nothing that ended comes back ---------------------------------------------

  /** From `s` to `s'` nothing was taken back, and no completed row was touched. */
  ghost predicate Kept(s: State, s': State) {
    && Onward(s, s')
    && (forall id :: id in s.rows && s.rows[id].data.status == Completed ==> id in s'.rows && s'.rows[id] == s.rows[id])
  }

  lemma KeptOn(s: State, s': State, s'': State)
    requires Kept(s, s') && Kept(s', s'')
    ensures Kept(s, s'')
  {
    OnwardOn(s, s', s'');
  }

  /** No statement changes a completed row. */
  lemma StepKeepsCompletedRow(s: State, c: Client, a: Action, id: Id)
    requires Inv(s) && id in s.rows && s.rows[id].data.status == Completed
    ensures id in Do(s, c, a).rows && Do(s, c, a).rows[id] == s.rows[id]
  {
    StepIsAtomic(s, c, a);
    forall op: Spec.Op | op.id == id ensures !Spec.Can(s.rows, op) {
      Spec.CompletedIsFinal(s.log, op);
    }
  }

  lemma StepKeeps(s: State, c: Client, a: Action)
    requires Inv(s)
    ensures Kept(s, Do(s, c, a))
  {
    Advance(s, c, a);
    forall id | id in s.rows && s.rows[id].data.status == Completed
      ensures id in Do(s, c, a).rows && Do(s, c, a).rows[id] == s.rows[id]
    {
      StepKeepsCompletedRow(s, c, a, id);
    }
  }

  lemma RunMore(events: seq<Event>, c: Client, a: Action)
    ensures Run(events + [Event(c, a)]) == Do(Run(events), c, a)
  {
    assert (events + [Event(c, a)])[..|events|] == events;
  }

  lemma NextKeeps(events: seq<Event>, e: Event)
    ensures Kept(Run(events), Run(events + [e]))
  {
    RunKeepsInv(events);
    StepKeeps(Run(events), e.client, e.action);
    RunMore(events, e.client, e.action);
  }

  lemma {:induction false} RunsKeep(events: seq<Event>, more: seq<Event>)
    ensures Kept(Run(events), Run(events + more))
    decreases |more|
  {
    if more == [] {
      assert events + more == events;
    } else {
      var next := events + [more[0]];
      assert events + more == next + more[1..];
      NextKeeps(events, more[0]);
      RunsKeep(next, more[1..]);
      KeptOn(Run(events), Run(next), Run(next + more[1..]));
    }
  }

  /** However the run goes on: an ended lease never becomes active again and a completed
      task never changes again. */
  lemma TheEndedStayEnded(events: seq<Event>, more: seq<Event>)
    ensures var s := Run(events); var t := Run(events + more);
      && (forall l :: l in s.leases && s.leases[l].data.status != Active ==>
        l in t.leases && t.leases[l] == s.leases[l])
      && (forall id :: id in s.rows && s.rows[id].data.status == Completed ==> id in t.rows && t.rows[id] == s.rows[id])
  {
    RunsKeep(events, more);
  }

  /** A lease its ending client has missed stays active for good, once it is there. */
  lemma MissedLeasesStayActive(events: seq<Event>, more: seq<Event>, l: Id)
    requires l in Run(events).missed && l in Run(events).leases
    ensures var s := Run(events); var t := Run(events + more);
      && s.leases[l].data.status == Active
      && l in t.missed && l in t.leases && t.leases[l] == s.leases[l]
  {
    RunKeepsInv(events);
    assert LeaseOk(Run(events), l);
    RunsKeep(events, more);
  }

  /** A lease that was inserted while its claim was open is never missed: its fate follows
      the row's. */
  lemma InTimeLeasesAreNeverMissed(events: seq<Event>, more: seq<Event>, l: Id)
    requires l in Run(events).leases && l in Run(events).claims && Run(events).claims[l].fate.Open?
    ensures l in Run(events + more).leases && l !in Run(events + more).missed
  {
    RunKeepsInv(events);
    assert ClaimOk(Run(events), l);
    RunsKeep(events, more);
  }

  /** Every status change any statement commits is an edge of the transition table. */
  lemma StatusMovesAlongEdges(events: seq<Event>, c: Client, a: Action, id: Id)
    requires id in Run(events).rows
    ensures var s := Run(events); var s' := Do(s, c, a);
      id in s'.rows &&
      (s'.rows[id] == s.rows[id] || s'.rows[id].data.status in AssignmentTargets(s.rows[id].data.status))
  {
    RunKeepsInv(events);
    var s := Run(events);
    StepIsAtomic(s, c, a);
    forall op | Spec.Can(s.rows, op) && op.id == id
      ensures Spec.Apply(s.rows, op)[id].data.status in AssignmentTargets(s.rows[id].data.status)
    {
      Spec.EveryChangeIsAnEdge(s.log, op);
    }
  }

  // ---- The gap between the two tables ----------------------------------------------

  const ASSIGNED_ROW: Row<Task> := Row(2, Spec.NEW_TASK.(status := Assigned))
  const CLAIMED_ROW: Row<Task> := Row(3, Spec.Task(Claimed, "worker", "lease", Some(60)))
  const COMPLETED_ROW: Row<Task> := Row(4, CLAIMED_ROW.data.(status := Completed))

  lemma TaskGetsAssigned() returns (events: seq<Event>)
    ensures var s := Run(events);
      s.rows == map["t" := ASSIGNED_ROW] && s.leases == map[] && s.claims == map[] && s.missed == {}
        && s.pcs == map[0 := Idle]
  {
    events := [Event(0, CreateTask("t"))];
    RunMore([], 0, CreateTask("t"));
    assert [] + events == events;
    RunMore(events, 0, ReadToAssign("t"));
    events := events + [Event(0, ReadToAssign("t"))];
    RunMore(events, 0, WriteAssign);
    events := events + [Event(0, WriteAssign)];
  }

  lemma TaskGetsClaimed() returns (events: seq<Event>)
    ensures var s := Run(events);
      && s.rows == map["t" := CLAIMED_ROW] && s.leases == map[] && s.missed == {}
      && "lease" in s.claims && s.claims["lease"].task == "t"
      && s.pcs == map[0 := Idle, 1 := Inserting("lease")]
  {
    events := TaskGetsAssigned();
    RunMore(events, 1, ReadToClaim("t", "worker"));
    events := events + [Event(1, ReadToClaim("t", "worker"))];
    RunMore(events, 1, WriteClaim("lease", 60));
    events := events + [Event(1, WriteClaim("lease", 60))];
  }

  lemma ReportWinsTheRow() returns (events: seq<Event>)
    ensures var s := Run(events);
      && s.rows == map["t" := COMPLETED_ROW] && s.leases == map[] && s.missed == {}
      && "lease" in s.claims && s.claims["lease"].task == "t" && s.claims["lease"].fate.Ended?
      && s.pcs == map[0 := Idle, 1 := Inserting("lease"), 2 := Releasing("lease")]
  {
    events := TaskGetsClaimed();
    var s := Run(events);
    RunMore(events, 2, ReadToReport("t", "worker"));
    events := events + [Event(2, ReadToReport("t", "worker"))];
    assert Run(events) == s.To(2, Reporting("t", CLAIMED_ROW, "worker"));
    RunMore(events, 2, WriteReport);
    events := events + [Event(2, WriteReport)];
  }

  lemma ReportMissesTheLease() returns (events: seq<Event>)
    ensures var s := Run(events);
      && s.rows == map["t" := COMPLETED_ROW] && s.leases == map[] && s.missed == {"lease"}
      && "lease" in s.claims && s.claims["lease"].task == "t" && s.claims["lease"].fate.Ended?
      && s.pcs == map[0 := Idle, 1 := Inserting("lease"), 2 := Idle]
  {
    events := ReportWinsTheRow();
    RunMore(events, 2, ReadLease);
    events := events + [Event(2, ReadLease)];
  }

  /** The third case of ActiveLeasesAgree is real: when the same executor reports, and looks
      for the lease, before its claim call has inserted it, everyone finishes and the lease
      of a completed task stays active. */
  lemma LateLeaseOutlivesItsClaim() returns (events: seq<Event>)
    ensures var s := Run(events);
      && (forall c :: s.Pc(c) == Idle)
      && "t" in s.rows && s.rows["t"].data.status == Completed && s.rows["t"].data.lease == "lease"
      && "lease" in s.leases && s.leases["lease"].data.status == Active && s.missed == {"lease"}
  {
    events := ReportMissesTheLease();
    RunMore(events, 1, InsertLease(true));
    events := events + [Event(1, InsertLease(true))];
  }

  lemma LeaseComesLate() returns (events: seq<Event>)
    ensures var s := Run(events);
      && s.rows == map["t" := COMPLETED_ROW] && s.leases == map["lease" := Row(1, Lease("t", Active))] && s.missed == {}
      && s.pcs == map[0 := Idle, 1 := Idle, 2 := Releasing("lease")]
  {
    events := ReportWinsTheRow();
    RunMore(events, 1, InsertLease(true));
    events := events + [Event(1, InsertLease(true))];
  }

  /** Being late is not what decides: a lease inserted after its claim has ended, but before
      the ending client looks for it, is released like any other. */
  lemma LateLeaseMayStillBeReleased() returns (events: seq<Event>)
    ensures var s := Run(events);
      && (forall c :: s.Pc(c) == Idle)
      && "lease" in s.leases && s.leases["lease"].data.status == Released && s.missed == {}
  {
    events := LeaseComesLate();
    var s := Run(events);
    RunMore(events, 2, ReadLease);
    events := events + [Event(2, ReadLease)];
    assert Run(events) == s.To(2, ReleasingAt("lease", 1));
    RunMore(events, 2, WriteLease);
    events := events + [Event(2, WriteLease)];
  }
}
