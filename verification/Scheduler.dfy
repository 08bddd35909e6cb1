/** One undisturbed tick of the scheduling engine at one clock reading
    (internal/engine/engine.go and the service loops it calls). */
module Scheduler {
  import opened Common
  import opened Optimistic
  import opened Domain
  import opened Timestamps
  import R = Reservations
  import Spec = AssignmentSpec
  import P = AssignmentProtocol
  import Q = MissionQueue

  type Id = string

  // ---- What a tick does to one row -------------------------------------------------

  function Activated(r: Row<R.Reservation>): Row<R.Reservation> {
    Row(r.version + 1, r.data.(status := Effective))
  }

  function Climbed(r: Row<R.Reservation>): Row<R.Reservation> {
    Row(r.version + 1, R.EscalatedFrom(r.data, r.data.level))
  }

  function ActivatedRow(r: Row<R.Reservation>, now: Reading): Row<R.Reservation> {
    if R.Activates(r.data, now) then Activated(r) else r
  }

  function EscalatedRow(r: Row<R.Reservation>, nowText: string): Row<R.Reservation> {
    if R.IsOverdue(r.data, nowText) then Climbed(r) else r
  }

  function PreemptedRow(t: Row<Spec.Task>): Row<Spec.Task> {
    Row(t.version + 1, Spec.NEW_TASK.(status := Preempted))
  }

  function ReassignedRow(t: Row<Spec.Task>): Row<Spec.Task> {
    Row(t.version + 1, t.data.(status := Assigned))
  }

  function RevokedIfActive(l: Row<P.Lease>): Row<P.Lease> {
    if l.data.status == P.Active then Row(l.version + 1, l.data.(status := P.Revoked)) else l
  }

  function TickedReservation(r: Row<R.Reservation>, now: Reading): Row<R.Reservation> {
    EscalatedRow(ActivatedRow(r, now), Format(now))
  }

  function TickedTask(t: Row<Spec.Task>, now: Reading): Row<Spec.Task> {
    if Spec.IsOverdue(t.data, Seconds(now)) then ReassignedRow(PreemptedRow(t)) else t
  }

  function OverdueTasks(rows: Spec.Table, now: Reading): set<Id> {
    set id | id in rows && Spec.IsOverdue(rows[id].data, Seconds(now))
  }

  function DueReservations(rows: R.Table, now: Reading): set<Id> {
    set id | id in rows && R.Activates(rows[id].data, now)
  }

  function OverdueReservations(rows: R.Table, nowText: string): set<Id> {
    set id | id in rows && R.IsOverdue(rows[id].data, nowText)
  }

  // ---- When a tick does what it is for ------------------------------------------------

  /** Rows the escalation phase finds overdue once the activation phase is through. */
  function OverdueInTick(rows: R.Table, now: Reading): set<Id> {
    set id | id in rows && R.IsOverdue(ActivatedRow(rows[id], now).data, Format(now))
  }

  predicate ActivatedAndEscalated(r: Row<R.Reservation>, now: Reading) {
    R.Activates(r.data, now) && R.IsOverdue(ActivatedRow(r, now).data, Format(now))
  }

  predicate EscalatedEarly(r: Row<R.Reservation>, now: Reading) {
    TickedReservation(r, now).data.level > r.data.level && Nanos(now) <= Nanos(r.data.deadline)
  }

  predicate EscalatedLate(r: Row<R.Reservation>, now: Reading) {
    && r.data.status in {Effective, Occupied, Escalated} && TickedReservation(r, now) == r
    && Nanos(now) >= Nanos(r.data.deadline) + 1_000_000_000
  }

  /** The stored deadline is at one offset, the clock of the tick at the other. */
  predicate AtOffsets(r: Row<R.Reservation>, now: Reading, deadlineOffset: int, clockOffset: int) {
    R.AsStored(r.data) && r.data.deadline.offset == deadlineOffset && now.offset == clockOffset
  }

  /** A reservation from ten days before noon until noon at the given offset. */
  function UntilNoon(offset: int, seconds: int, status: ReservationStatus): Row<R.Reservation>
    requires IsOffset(offset) && 0 <= seconds < 60
  {
    var deadline := Noon(offset, seconds);
    Row(1, R.Reservation(status, 0, "", OperationsDispatch, deadline.(day := 10), deadline, Format(deadline)))
  }

  lemma TenDaysBefore(offset: int, seconds: int)
    requires IsOffset(offset) && 0 <= seconds < 60
    ensures Seconds(Noon(offset, seconds).(day := 10)) == Seconds(Noon(offset, seconds)) - 864_000
  {
    assert DayNumber(Noon(offset, seconds).(day := 10)) == DayNumber(Noon(offset, seconds)) - 10;
  }

  /** Whatever the row, no tick activates and escalates it at once if and only if the clock
      is not east of the stored deadline. */
  lemma TickIsExclusiveIff(deadlineOffset: int, clockOffset: int)
    requires IsOffset(deadlineOffset) && IsOffset(clockOffset)
    ensures deadlineOffset >= clockOffset <==>
            forall r: Row<R.Reservation>, now: Reading :: AtOffsets(r, now, deadlineOffset, clockOffset)
              ==> !ActivatedAndEscalated(r, now)
  {
    NeverTooEarlyIff(deadlineOffset, clockOffset);
    if deadlineOffset >= clockOffset {
      forall r: Row<R.Reservation>, now: Reading | AtOffsets(r, now, deadlineOffset, clockOffset)
        ensures !ActivatedAndEscalated(r, now)
      {
        assert !TooEarly(r.data.deadline, now);
      }
    } else {
      var r, now := UntilNoon(deadlineOffset, 0, Allocated), Noon(clockOffset, 1);
      NoonsCompare(deadlineOffset, 0, clockOffset, 1);
      TenDaysBefore(deadlineOffset, 0);
      assert AtOffsets(r, now, deadlineOffset, clockOffset) && ActivatedAndEscalated(r, now);
    }
  }

  /** Nothing is escalated before its deadline has passed, under the same condition. */
  lemma EscalatesOnlyPastDeadlineIff(deadlineOffset: int, clockOffset: int)
    requires IsOffset(deadlineOffset) && IsOffset(clockOffset)
    ensures deadlineOffset >= clockOffset <==>
            forall r: Row<R.Reservation>, now: Reading :: AtOffsets(r, now, deadlineOffset, clockOffset)
              ==> !EscalatedEarly(r, now)
  {
    NeverTooEarlyIff(deadlineOffset, clockOffset);
    if deadlineOffset >= clockOffset {
      forall r: Row<R.Reservation>, now: Reading | AtOffsets(r, now, deadlineOffset, clockOffset)
        ensures !EscalatedEarly(r, now)
      {
        assert !TooEarly(r.data.deadline, now);
      }
    } else {
      var r, now := UntilNoon(deadlineOffset, 0, Effective), Noon(clockOffset, 1);
      NoonsCompare(deadlineOffset, 0, clockOffset, 1);
      assert AtOffsets(r, now, deadlineOffset, clockOffset) && EscalatedEarly(r, now);
    }
  }

  /** Everything in use is escalated once its deadline is a second past, if and only if the
      clock is not west of the stored deadline. */
  lemma EscalatesPromptlyIff(deadlineOffset: int, clockOffset: int)
    requires IsOffset(deadlineOffset) && IsOffset(clockOffset)
    ensures deadlineOffset <= clockOffset <==>
            forall r: Row<R.Reservation>, now: Reading :: AtOffsets(r, now, deadlineOffset, clockOffset)
              ==> !EscalatedLate(r, now)
  {
    NeverTooLateIff(deadlineOffset, clockOffset);
    if deadlineOffset <= clockOffset {
      forall r: Row<R.Reservation>, now: Reading | AtOffsets(r, now, deadlineOffset, clockOffset)
        ensures !EscalatedLate(r, now)
      {
        assert !TooLate(r.data.deadline, now);
      }
    } else {
      var r, now := UntilNoon(deadlineOffset, 1, Effective), Noon(clockOffset, 0);
      NoonsCompare(deadlineOffset, 1, clockOffset, 0);
      assert AtOffsets(r, now, deadlineOffset, clockOffset) && EscalatedLate(r, now);
    }
  }

  /** With a deadline of nine in the morning at -08:00 and a clock that shows noon UTC, one
      tick activates a reservation and escalates it, five hours before that deadline. */
  lemma ActivatedAndEscalatedFiveHoursEarly()
    ensures var effective: Reading := Civil(2026, 8, 20, 3, 0, 0, 0, -480);
      var deadline: Reading := Civil(2026, 8, 20, 9, 0, 0, 0, -480);
      var now: Reading := Civil(2026, 8, 20, 12, 0, 0, 0, 0);
      var r := Row(1, R.Reservation(Allocated, 0, "", OperationsDispatch, effective, deadline, Format(deadline)));
      && ActivatedAndEscalated(r, now) && Seconds(deadline) - Seconds(now) == 5 * 3600
      && TickedReservation(r, now).data.status == Escalated && TickedReservation(r, now).data.level == 1
  {
    var effective := Civil(2026, 8, 20, 3, 0, 0, 0, -480);
    var deadline := Civil(2026, 8, 20, 9, 0, 0, 0, -480);
    var now := Civil(2026, 8, 20, 12, 0, 0, 0, 0);
    assert DayNumber(effective) == DayNumber(deadline) == DayNumber(now);
    TextFollowsLocalTime(deadline, now);
  }

  /** With a clock not east of the deadline a tick does one thing at most: a row in its
      effective period becomes effective, an overdue row climbs one level, others stay. */
  lemma TickActivatesOrEscalates(r: Row<R.Reservation>, now: Reading)
    requires R.AsStored(r.data) && r.data.deadline.offset >= now.offset
    ensures TickedReservation(r, now) ==
      if R.Activates(r.data, now) then Activated(r) else if R.IsOverdue(r.data, Format(now)) then Climbed(r) else r
  {
    TickIsExclusiveIff(r.data.deadline.offset, now.offset);
    assert AtOffsets(r, now, r.data.deadline.offset, now.offset);
  }

  /** A tick leaves no allocated row that is due and no expired claim; each preempted task
      is back in assigned, unclaimed, two versions on. */
  lemma TickLeavesNothingDue(r: Row<R.Reservation>, t: Row<Spec.Task>, now: Reading)
    ensures !R.Activates(TickedReservation(r, now).data, now)
    ensures !Spec.IsOverdue(TickedTask(t, now).data, Seconds(now))
    ensures TickedTask(t, now) ==
      if Spec.IsOverdue(t.data, Seconds(now)) then Row(t.version + 2, Spec.NEW_TASK.(status := Assigned)) else t
  {
  }

  /** Successive ticks over one row that nobody else moves. */
  function Ticks(r: Row<R.Reservation>, readings: seq<Reading>): Row<R.Reservation>
    decreases |readings|
  {
    if readings == [] then r else Ticks(TickedReservation(r, readings[0]), readings[1..])
  }

  /** The engine's clock goes on, in one zone. */
  predicate IsClock(readings: seq<Reading>) {
    forall i, j :: 0 <= i < j < |readings| ==>
      readings[i].offset == readings[j].offset && Seconds(readings[i]) <= Seconds(readings[j])
  }

  lemma StillOverdue(deadline: Reading, now: Reading, later: Reading)
    requires now.offset == later.offset && Seconds(now) <= Seconds(later) && Less(Format(deadline), Format(now))
    ensures Less(Format(deadline), Format(later))
  {
    TextFollowsLocalTime(deadline, now);
    TextFollowsLocalTime(deadline, later);
    FieldsBeforeIffEarlier(now, later);
    if LocalSeconds(now) == LocalSeconds(later) {
      assert Format(now) == Format(later);
    }
  }

  /** Escalation does not settle: an overdue row climbs one level on every tick, for as
      long as nobody else moves it. */
  lemma {:induction false} OverdueRowsClimbOnEveryTick(r: Row<R.Reservation>, readings: seq<Reading>)
    requires R.AsStored(r.data) && IsClock(readings) && (readings != [] ==> R.IsOverdue(r.data, Format(readings[0])))
    ensures Ticks(r, readings).data.level == r.data.level + |readings|
    decreases |readings|
  {
    if |readings| > 1 {
      var rest := readings[1..];
      assert rest[0] == readings[1];
      StillOverdue(r.data.deadline, readings[0], readings[1]);
      OverdueRowsClimbOnEveryTick(TickedReservation(r, readings[0]), rest);
    } else if |readings| == 1 {
      assert Ticks(r, readings) == TickedReservation(r, readings[0]);
    }
  }

  // ---- The loops, row by row ---------------------------------------------------------

  /** The rows `done` have been through the loop, the others are as they were. */

  ghost predicate ActivatedSoFar(before: R.Table, rows: R.Table, done: set<Id>) {
    rows.Keys == before.Keys &&
    forall id :: id in before ==> rows[id] == if id in done then Activated(before[id]) else before[id]
  }

  ghost predicate EscalatedSoFar(before: R.Table, rows: R.Table, done: set<Id>) {
    rows.Keys == before.Keys &&
    forall id :: id in before ==> rows[id] == if id in done then Climbed(before[id]) else before[id]
  }

  ghost predicate PreemptedSoFar(before: Spec.Table, rows: Spec.Table, done: set<Id>) {
    rows.Keys == before.Keys &&
    forall id :: id in before ==> rows[id] == if id in done then PreemptedRow(before[id]) else before[id]
  }

  ghost predicate ReassignedSoFar(before: Spec.Table, rows: Spec.Table, done: set<Id>) {
    rows.Keys == before.Keys &&
    forall id :: id in before ==> rows[id] == if id in done then ReassignedRow(before[id]) else before[id]
  }

  /** The active leases of the tasks `done` have been revoked. */
  ghost predicate RevokedSoFar(before: P.Leases, leases: P.Leases, rows: Spec.Table, done: set<Id>) {
    leases.Keys == before.Keys &&
    forall l :: l in before ==> leases[l] == if HeldBySome(rows, done, l) then RevokedIfActive(before[l]) else before[l]
  }

  /** One of the tasks `ids` holds lease `l`. */
  predicate HeldBySome(rows: Spec.Table, ids: set<Id>, l: Id) {
    l != "" && exists id :: id in ids && id in rows && rows[id].data.lease == l
  }

  /** From the level read to the next. */
  function StepOf(rows: R.Table, id: Id): R.EscalationRecord
    requires id in rows
  {
    R.EscalationRecord(id, rows[id].data.level, rows[id].data.level + 1)
  }

  /** The records that escalating each row of `ids` once leaves. */
  function Steps(rows: R.Table, ids: set<Id>): multiset<R.EscalationRecord> {
    multiset(set id | id in ids && id in rows :: StepOf(rows, id))
  }

  lemma OneMoreStep(rows: R.Table, ids: set<Id>, id: Id)
    requires id in rows && id !in ids
    ensures Steps(rows, ids + {id}) == Steps(rows, ids) + multiset{StepOf(rows, id)}
  {
    var steps := set i | i in ids && i in rows :: StepOf(rows, i);
    assert (set i | i in ids + {id} && i in rows :: StepOf(rows, i)) == steps + {StepOf(rows, id)};
    assert StepOf(rows, id) !in steps;
  }

  /** What a whole tick does to each table. */

  function TickedReservations(before: R.Table, now: Reading): R.Table {
    map id | id in before :: TickedReservation(before[id], now)
  }

  function TickedTasks(before: Spec.Table, now: Reading): Spec.Table {
    map id | id in before :: TickedTask(before[id], now)
  }

  function RevokedLeases(before: P.Leases, rows: Spec.Table, preempted: set<Id>): P.Leases {
    map l | l in before :: if HeldBySome(rows, preempted, l) then RevokedIfActive(before[l]) else before[l]
  }

  lemma PreemptedAndReassigned(before: Spec.Table, middle: Spec.Table, after: Spec.Table, now: Reading)
    requires PreemptedSoFar(before, middle, OverdueTasks(before, now))
    requires ReassignedSoFar(middle, after, OverdueTasks(before, now))
    ensures after == TickedTasks(before, now)
  {
  }

  /** Activation decides what escalation then finds, row by row. */
  lemma TwoPhases(before: R.Table, middle: R.Table, after: R.Table, now: Reading)
    requires ActivatedSoFar(before, middle, DueReservations(before, now))
    requires EscalatedSoFar(middle, after, OverdueReservations(middle, Format(now)))
    ensures after == TickedReservations(before, now)
    ensures OverdueReservations(middle, Format(now)) == OverdueInTick(before, now)
    ensures Steps(middle, OverdueReservations(middle, Format(now))) == Steps(before, OverdueInTick(before, now))
  {
    ActivatedByRow(before, middle, now);
    EscalatedByRow(middle, after, Format(now));
    ActivationKeepsSteps(before, middle, now);
  }

  lemma ActivatedByRow(before: R.Table, after: R.Table, now: Reading)
    requires ActivatedSoFar(before, after, DueReservations(before, now))
    ensures after == map id | id in before :: ActivatedRow(before[id], now)
  {
  }

  lemma EscalatedByRow(before: R.Table, after: R.Table, nowText: string)
    requires EscalatedSoFar(before, after, OverdueReservations(before, nowText))
    ensures after == map id | id in before :: EscalatedRow(before[id], nowText)
  {
  }

  lemma ActivationKeepsSteps(before: R.Table, middle: R.Table, now: Reading)
    requires ActivatedSoFar(before, middle, DueReservations(before, now))
    ensures forall ids :: Steps(middle, ids) == Steps(before, ids)
  {
    forall ids ensures Steps(middle, ids) == Steps(before, ids) {
      assert (set id | id in ids && id in middle :: StepOf(middle, id)) ==
             (set id | id in ids && id in before :: StepOf(before, id)) by {
        assert forall id :: id in before ==> StepOf(middle, id) == StepOf(before, id);
      }
    }
  }

  /** The head of the queue, if there is one, was promoted; nothing else moved. */
  ghost predicate HeadPromoted(before: Q.Table, after: Q.Table) {
    if Q.QueuedIn(before) == map[] then after == before
    else exists head :: Q.IsHead(Q.QueuedIn(before), head) && after == Q.Promoted(before, head)
  }

  datatype Stats = Stats(ticks: nat, activated: nat, escalated: nat, preempted: nat, advanced: nat)

  class Engine {
    var reservations: R.Table
    var records: multiset<R.EscalationRecord>
    var tasks: Spec.Table
    var leases: P.Leases
    var missions: Q.Table
    var stats: Stats

    constructor (reservations: R.Table, tasks: Spec.Table, leases: P.Leases, missions: Q.Table)
      ensures this.reservations == reservations && this.tasks == tasks && this.leases == leases
        && this.missions == missions
      ensures records == multiset{} && stats == Stats(0, 0, 0, 0, 0)
    {
      this.reservations, this.tasks, this.leases, this.missions := reservations, tasks, leases, missions;
      records := multiset{};
      stats := Stats(0, 0, 0, 0, 0);
    }

    /** UpdateReservationStatus, for an activation. */
    method ActivateOne(id: Id, ghost before: R.Table, ghost done: set<Id>) returns (won: bool)
      requires ActivatedSoFar(before, reservations, done) && id in before && id !in done
      modifies this`reservations
      ensures ActivatedSoFar(before, reservations, done + {id}) && won
    {
      var w := reservations[id];
      won := Matches(reservations, id, w.version);
      if won {
        reservations := Put(reservations, id, reservations[id].data.(status := Effective));
      }
    }

    /** ActivateEffective. Its count is lost: any positive count is returned as zero,
        unless the context has been cancelled meanwhile. */
    method ActivateEffective(now: Reading, cancelled: bool) returns (count: nat)
      modifies this`reservations
      ensures ActivatedSoFar(old(reservations), reservations, DueReservations(old(reservations), now))
      ensures count == if cancelled then |DueReservations(old(reservations), now)| else 0
    {
      ghost var before := reservations;
      ghost var due := DueReservations(before, now);
      var waiting := set id | id in reservations && reservations[id].data.status == Allocated;
      assert forall id :: id in due <==> id in waiting && R.IsDue(before[id].data, now);
      var todo := waiting;
      ghost var done: set<Id> := {};
      count := 0;
      while todo != {}
        invariant todo <= waiting <= before.Keys && todo !! done
        invariant forall id :: id in due ==> id in todo || id in done
        invariant done <= due && count == |done|
        invariant ActivatedSoFar(before, reservations, done)
        decreases todo
      {
        var id :| id in todo;
        todo := todo - {id};
        if R.IsDue(reservations[id].data, now) {
          var won := ActivateOne(id, before, done);
          if won {
            count := count + 1;
          }
          done := done + {id};
        }
      }
      assert done == due;
      if count > 0 && !cancelled {
        return 0;
      }
    }

    /** escalateOne: the row, then its record. */
    method EscalateOne(id: Id, ghost before: R.Table, ghost done: set<Id>, ghost recorded: multiset<R.EscalationRecord>)
      returns (won: bool)
      requires EscalatedSoFar(before, reservations, done) && id in before && id !in done
      requires records == recorded + Steps(before, done)
      modifies this`reservations, this`records
      ensures EscalatedSoFar(before, reservations, done + {id}) && won
      ensures records == recorded + Steps(before, done + {id})
    {
      var w := reservations[id];
      won := Matches(reservations, id, w.version);
      if won {
        reservations := Put(reservations, id, R.EscalatedFrom(reservations[id].data, w.data.level));
        records := records + multiset{R.EscalationRecord(id, w.data.level, w.data.level + 1)};
        OneMoreStep(before, done, id);
      }
    }

    /** EscalateOverdue: every row listed as overdue climbs one level and leaves one record. */
    method EscalateOverdue(now: Reading) returns (count: nat)
      modifies this`reservations, this`records
      ensures EscalatedSoFar(old(reservations), reservations, OverdueReservations(old(reservations), Format(now)))
      ensures records == old(records) + Steps(old(reservations), OverdueReservations(old(reservations), Format(now)))
      ensures count == |OverdueReservations(old(reservations), Format(now))|
    {
      var nowText := Format(now);
      var overdue := OverdueReservations(reservations, nowText);
      count := EscalateAll(overdue);
    }

    /** The loop over the listing. */
    method EscalateAll(overdue: set<Id>) returns (count: nat)
      requires overdue <= reservations.Keys
      modifies this`reservations, this`records
      ensures EscalatedSoFar(old(reservations), reservations, overdue)
      ensures records == old(records) + Steps(old(reservations), overdue)
      ensures count == |overdue|
    {
      ghost var before := reservations;
      var todo := overdue;
      ghost var done: set<Id> := {};
      count := 0;
      while todo != {}
        invariant todo !! done && todo + done == overdue
        invariant EscalatedSoFar(before, reservations, done)
        invariant records == old(records) + Steps(before, done)
        invariant count == |done|
        decreases todo
      {
        var id :| id in todo;
        todo := todo - {id};
        var won := EscalateOne(id, before, done, old(records));
        if won {
          count := count + 1;
        }
        done := done + {id};
      }
      assert done == overdue;
    }

    /** preemptOne: the row, then its lease. */
    method PreemptOne(id: Id, ghost before: Spec.Table, ghost leased: P.Leases, ghost done: set<Id>) returns (won: bool)
      requires PreemptedSoFar(before, tasks, done) && id in before && id !in done
      requires RevokedSoFar(leased, leases, before, done)
      modifies this`tasks, this`leases
      ensures PreemptedSoFar(before, tasks, done + {id}) && won
      ensures RevokedSoFar(leased, leases, before, done + {id})
    {
      var t := tasks[id];
      won := Matches(tasks, id, t.version);
      if won {
        tasks := Put(tasks, id, t.data.(claimedBy := "", lease := "", expires := None, status := Preempted));
        RevokeLease(t.data.lease);
        forall l
          ensures HeldBySome(before, done + {id}, l) <==> HeldBySome(before, done, l) || (l == t.data.lease && l != "")
        {
        }
      }
    }

    /** RevokeLease at the version just read; a missing lease is skipped. */
    method RevokeLease(lease: Id)
      modifies this`leases
      ensures leases == if lease != "" && lease in old(leases)
        then old(leases)[lease := RevokedIfActive(old(leases)[lease])] else old(leases)
    {
      if lease != "" && lease in leases {
        leases := P.EndLease(leases, lease, leases[lease].version, P.Revoked);
      }
    }

    /** PreemptExpiredClaims: the rows are cleared, their active leases revoked. */
    method PreemptExpiredClaims(now: Reading) returns (preempted: set<Id>)
      modifies this`tasks, this`leases
      ensures preempted == OverdueTasks(old(tasks), now)
      ensures PreemptedSoFar(old(tasks), tasks, preempted)
      ensures RevokedSoFar(old(leases), leases, old(tasks), preempted)
    {
      ghost var before, leased := tasks, leases;
      var overdue := OverdueTasks(tasks, now);
      var todo := overdue;
      preempted := {};
      while todo != {}
        invariant todo !! preempted && todo + preempted == overdue
        invariant PreemptedSoFar(before, tasks, preempted)
        invariant RevokedSoFar(leased, leases, before, preempted)
        decreases todo
      {
        var id :| id in todo;
        todo := todo - {id};
        var won := PreemptOne(id, before, leased, preempted);
        if won {
          preempted := preempted + {id};
        }
      }
      assert preempted == overdue;
    }

    /** Reassign, called with nobody else writing. */
    method Reassign(id: Id) returns (r: Result<()>)
      modifies this`tasks
      ensures id !in old(tasks) ==> r == Err(NotFound)
      ensures id in old(tasks) && Assigned !in AssignmentTargets(old(tasks)[id].data.status) ==>
        r == Err(InvalidTransition)
      ensures id in old(tasks) && Assigned in AssignmentTargets(old(tasks)[id].data.status) ==>
        r.Ok? && tasks == old(tasks)[id := ReassignedRow(old(tasks)[id])]
      ensures r.Err? ==> tasks == old(tasks)
    {
      if id !in tasks {
        return Err(NotFound);
      }
      var t := tasks[id];
      if Assigned !in AssignmentTargets(t.data.status) {
        return Err(InvalidTransition);
      }
      if Matches(tasks, id, t.version) {
        tasks := Put(tasks, id, tasks[id].data.(status := Assigned));
      }
      return Ok(());
    }

    /** The loop over the preempted tasks. */
    method ReassignAll(preempted: set<Id>)
      requires forall id :: id in preempted ==> id in tasks && tasks[id].data.status == Preempted
      modifies this`tasks
      ensures ReassignedSoFar(old(tasks), tasks, preempted)
    {
      var todo := preempted;
      ghost var done: set<Id> := {};
      while todo != {}
        invariant todo !! done && todo + done == preempted
        invariant ReassignedSoFar(old(tasks), tasks, done)
        decreases todo
      {
        var id :| id in todo;
        todo := todo - {id};
        var _ := Reassign(id);
        done := done + {id};
      }
      assert done == preempted;
    }

    /** AdvanceQueued, called with nobody else writing. */
    method AdvanceQueued() returns (top: Option<Id>)
      modifies this`missions
      ensures top.None? <==> Q.QueuedIn(old(missions)) == map[]
      ensures top.None? ==> missions == old(missions)
      ensures top.Some? ==>
        Q.IsHead(Q.QueuedIn(old(missions)), top.value) && missions == Q.Promoted(old(missions), top.value)
    {
      var queued := Q.QueuedIn(missions);
      if queued == map[] {
        return None;
      }
      var first := Q.FirstOf(queued);
      if Matches(missions, first, missions[first].version) {
        missions := Q.Promoted(missions, first);
      }
      return Some(first);
    }

    /** AdvanceQueued again and again, until it returns nothing. */
    method DrainQueue() returns (picks: seq<Id>)
      modifies this`missions
      ensures Q.Drains(old(missions), picks) && missions == Q.Drained(old(missions), picks)
      ensures |picks| == |Q.QueuedIn(old(missions))| && Q.QueuedIn(missions) == map[]
    {
      picks := [];
      var top := AdvanceQueued();
      while top.Some?
        invariant Q.Drains(old(missions), picks)
        invariant top.None? ==> missions == Q.Drained(old(missions), picks) && Q.QueuedIn(missions) == map[]
        invariant top.Some? ==>
          && Q.IsHead(Q.QueuedIn(Q.Drained(old(missions), picks)), top.value)
          && missions == Q.Promoted(Q.Drained(old(missions), picks), top.value)
        invariant |picks| + |Q.QueuedIn(Q.Drained(old(missions), picks))| == |Q.QueuedIn(old(missions))|
        decreases |Q.QueuedIn(Q.Drained(old(missions), picks))|
      {
        Q.PromotionShortensTheQueue(Q.Drained(old(missions), picks), top.value);
        Q.DrainsOneMore(old(missions), picks, top.value);
        picks := picks + [top.value];
        top := AdvanceQueued();
      }
    }

    /** tick: the four phases, and what the engine counts of them. The number of activated
        rows never reaches the statistics. */
    method Tick(now: Reading, cancelled: bool)
      modifies this
      ensures reservations == TickedReservations(old(reservations), now)
      ensures records == old(records) + Steps(old(reservations), OverdueInTick(old(reservations), now))
      ensures tasks == TickedTasks(old(tasks), now)
      ensures leases == RevokedLeases(old(leases), old(tasks), OverdueTasks(old(tasks), now))
      ensures HeadPromoted(old(missions), missions)
      ensures stats == Stats(
        old(stats).ticks + 1,
        old(stats).activated,
        old(stats).escalated + |OverdueInTick(old(reservations), now)|,
        old(stats).preempted + |OverdueTasks(old(tasks), now)|,
        old(stats).advanced + (if Q.QueuedIn(old(missions)) == map[] then 0 else 1))
    {
      stats := stats.(ticks := stats.ticks + 1);
      TickReservations(now, cancelled);
      TickTasksAndQueue(now);
    }

    /** Phases 1 and 2. */
    method TickReservations(now: Reading, cancelled: bool)
      modifies this`reservations, this`records, this`stats
      ensures reservations == TickedReservations(old(reservations), now)
      ensures records == old(records) + Steps(old(reservations), OverdueInTick(old(reservations), now))
      ensures stats == old(stats).(escalated := old(stats).escalated + |OverdueInTick(old(reservations), now)|)
    {
      TickActivation(now, cancelled);
      ghost var middle := reservations;
      TickEscalation(now);
      TwoPhases(old(reservations), middle, reservations, now);
    }

    method TickActivation(now: Reading, cancelled: bool)
      modifies this`reservations, this`stats
      ensures ActivatedSoFar(old(reservations), reservations, DueReservations(old(reservations), now))
      ensures stats == old(stats)
    {
      var activated := ActivateEffective(now, cancelled);
      if activated > 0 {
        var observed := 0;
        stats := stats.(activated := stats.activated + observed);
      }
    }

    method TickEscalation(now: Reading)
      modifies this`reservations, this`records, this`stats
      ensures EscalatedSoFar(old(reservations), reservations, OverdueReservations(old(reservations), Format(now)))
      ensures records == old(records) + Steps(old(reservations), OverdueReservations(old(reservations), Format(now)))
      ensures stats ==
        old(stats).(escalated := old(stats).escalated + |OverdueReservations(old(reservations), Format(now))|)
    {
      var escalated := EscalateOverdue(now);
      stats := stats.(escalated := stats.escalated + escalated);
    }

    /** Phases 3 and 4. */
    method TickTasksAndQueue(now: Reading)
      modifies this`tasks, this`leases, this`missions, this`stats
      ensures tasks == TickedTasks(old(tasks), now)
      ensures leases == RevokedLeases(old(leases), old(tasks), OverdueTasks(old(tasks), now))
      ensures HeadPromoted(old(missions), missions)
      ensures stats == old(stats).(
        preempted := old(stats).preempted + |OverdueTasks(old(tasks), now)|,
        advanced := old(stats).advanced + (if Q.QueuedIn(old(missions)) == map[] then 0 else 1))
    {
      TickTasks(now);
      TickQueue();
    }

    /** Phase 3. */
    method TickTasks(now: Reading)
      modifies this`tasks, this`leases, this`stats
      ensures tasks == TickedTasks(old(tasks), now)
      ensures leases == RevokedLeases(old(leases), old(tasks), OverdueTasks(old(tasks), now))
      ensures stats == old(stats).(preempted := old(stats).preempted + |OverdueTasks(old(tasks), now)|)
    {
      var preempted := PreemptExpiredClaims(now);
      stats := stats.(preempted := stats.preempted + |preempted|);
      ghost var middle := tasks;
      ReassignAll(preempted);
      PreemptedAndReassigned(old(tasks), middle, tasks, now);
    }

    /** Phase 4. */
    method TickQueue()
      modifies this`missions, this`stats
      ensures HeadPromoted(old(missions), missions)
      ensures stats ==
        old(stats).(advanced := old(stats).advanced + (if Q.QueuedIn(old(missions)) == map[] then 0 else 1))
    {
      var adv := AdvanceQueued();
      if adv.Some? {
        stats := stats.(advanced := stats.advanced + 1);
      }
    }
  }
}
