/** internal/assignment/service.go over internal/store/assignment_repo.go and
    lease_repo.go, with other clients running between any two statements. */
module AssignmentService {
  import opened Common
  import opened Optimistic
  import opened Domain
  import opened StateMachines
  import opened AssignmentProtocol
  import opened AssignmentSafety
  import Spec = AssignmentSpec

  lemma StepIssuesOnly(s: State, c: Client, a: Action, uuid: Id)
    requires Inv(s) && uuid !in s.claims && !(a.WriteClaim? && a.uuid == uuid)
    ensures uuid !in Do(s, c, a).claims
  {
    assert PcOk(s, c);
  }

  lemma OthersKeepMyPlace(s: State, c: Client, a: Action, me: Client)
    requires c != me
    ensures Do(s, c, a).Pc(me) == s.Pc(me)
  {
  }

  lemma FreshMeansNoLease(s: State, uuid: Id)
    requires Inv(s) && uuid !in s.claims
    ensures uuid !in s.leases
  {
    assert LeaseOk(s, uuid);
  }

  /** A row that is still as the report or the preemption read it holds an open claim. */
  lemma WinnerEndsAnOpenClaim(s: State, c: Client, id: Id, t: Row<Task>)
    requires Inv(s)
    requires (s.Pc(c).Reporting? && s.Pc(c).id == id && s.Pc(c).snapshot == t) ||
             (s.Pc(c).Preempting? && s.Pc(c).queue != [] && s.Pc(c).queue[0] == Listed(id, t))
    ensures id in s.rows && SnapshotOf(t, s.rows[id])
    ensures Matches(s.rows, id, t.version) ==>
      t.data.lease != "" && t.data.lease in s.claims && s.claims[t.data.lease].task == id
  {
    assert PcOk(s, c) && RowOk(s, id);
  }

  datatype ClaimResult = ClaimResult(lease: Id, expires: int)
  datatype PreemptResult = PreemptResult(task: Id, prevExecutor: string)

  /** Committed by this call: `op` stands in the log after the first `before` entries. */
  ghost predicate Committed(log: seq<Spec.Op>, before: nat, op: Spec.Op) {
    exists at :: before <= at < |log| && log[at] == op
  }

  lemma StaysCommitted(log: seq<Spec.Op>, log': seq<Spec.Op>, before: nat, op: Spec.Op)
    requires log <= log' && Committed(log, before, op)
    ensures Committed(log', before, op)
  {
    var at :| before <= at < |log| && log[at] == op;
    assert log'[at] == op;
  }

  /** The last statement of the call is the row write: exactly one version on from the
      row the call read, and the newest entry of the log. */
  ghost predicate JustWrote(s: State, id: Id, read: Row<Task>, task: Task, op: Spec.Op) {
    && id in s.rows && s.rows[id] == Row(read.version + 1, task)
    && |s.log| > 0 && s.log[|s.log| - 1] == op
  }

  ghost predicate ClaimedBy(s: State, l: Id, id: Id, c: Client, executor: string, expires: int) {
    && l in s.claims && s.claims[l].task == id && s.claims[l].client == c
    && s.claims[l].mine.data == Spec.Task(Claimed, executor, l, Some(expires))
  }

  function Closing(how: How): LeaseStatus {
    if how == ByReport then Released else Revoked
  }

  /** The lease has the status its claim's end calls for, or was looked for in vain. */
  ghost predicate IsClosed(s: State, l: Id, status: LeaseStatus) {
    l in s.missed || (l in s.leases && s.leases[l].data.status == status != Active)
  }

  /** This client ended the claim on task `id` after log place `before`, and its lease. */
  ghost predicate LeaseClosed(s: State, l: Id, id: Id, how: How, c: Client, before: nat) {
    && EndedAs(s, l, how, c) && s.claims[l].task == id && s.claims[l].fate.at >= before
    && IsClosed(s, l, Closing(how))
  }

  /** This client preempted the task during the call, and ended the lease of its claim. */
  ghost predicate WasPreempted(s: State, id: Id, now: int, c: Client, before: nat) {
    && Committed(s.log, before, Spec.Preempt(id, now))
    && exists l :: LeaseClosed(s, l, id, ByPreempt, c, before)
  }

  lemma StaysPreempted(s: State, s': State, id: Id, now: int, c: Client, before: nat)
    requires Onward(s, s') && WasPreempted(s, id, now, c, before)
    ensures WasPreempted(s', id, now, c, before)
  {
    StaysCommitted(s.log, s'.log, before, Spec.Preempt(id, now));
    var l :| LeaseClosed(s, l, id, ByPreempt, c, before);
    assert LeaseClosed(s', l, id, ByPreempt, c, before);
  }

  ghost predicate WasOverdue(rows: Spec.Table, result: PreemptResult, now: int) {
    && result.task in rows && Spec.IsOverdue(rows[result.task].data, now)
    && result.prevExecutor == rows[result.task].data.claimedBy
  }

  /** What the calls so far are known to have done: each result is one of them, on a task
      that was overdue, no task twice, and every row gone through has been written to. */
  ghost predicate Progress(rows: Spec.Table, s: State, results: seq<PreemptResult>, listed: seq<Listed>, n: nat,
                           now: int, c: Client, before: nat)
    requires n <= |listed|
  {
    && (forall k :: 0 <= k < |results| ==> WasPreempted(s, results[k].task, now, c, before))
    && (forall k :: 0 <= k < |results| ==> WasOverdue(rows, results[k], now))
    && (forall k :: 0 <= k < |results| ==> IsAmong(results[k].task, listed, n))
    && (forall k, l :: 0 <= k < l < |results| ==> results[k].task != results[l].task)
    && (forall k :: 0 <= k < n ==> WrittenSince(s.rows, listed[k].id, listed[k].snapshot))
  }

  predicate IsAmong(id: Id, listed: seq<Listed>, n: nat)
    requires n <= |listed|
  {
    exists k :: 0 <= k < n && listed[k].id == id
  }

  /** What the listing returned: the overdue rows as they were, no row twice. */
  ghost predicate IsOverdueListing(rows: Spec.Table, listed: seq<Listed>, now: int) {
    && (forall k :: 0 <= k < |listed| ==>
          && listed[k].id in rows && rows[listed[k].id] == listed[k].snapshot
          && Spec.IsOverdue(listed[k].snapshot.data, now))
    && (forall id :: id in rows && Spec.IsOverdue(rows[id].data, now) ==> IsAmong(id, listed, |listed|))
    && (forall k, l :: 0 <= k < l < |listed| ==> listed[k].id != listed[l].id)
  }

  lemma ProgressStays(rows: Spec.Table, s: State, s': State, results: seq<PreemptResult>, listed: seq<Listed>, n: nat,
                      now: int, c: Client, before: nat)
    requires n <= |listed| && Progress(rows, s, results, listed, n, now, c, before) && Onward(s, s')
    ensures Progress(rows, s', results, listed, n, now, c, before)
  {
    forall k | 0 <= k < |results| ensures WasPreempted(s', results[k].task, now, c, before) {
      StaysPreempted(s, s', results[k].task, now, c, before);
    }
    forall k | 0 <= k < n ensures WrittenSince(s'.rows, listed[k].id, listed[k].snapshot) {
      assert WrittenSince(s.rows, listed[k].id, listed[k].snapshot);
    }
  }

  lemma AreAmongMore(results: seq<PreemptResult>, listed: seq<Listed>, n: nat)
    requires n < |listed| && forall k, l :: 0 <= k < l < |listed| ==> listed[k].id != listed[l].id
    requires forall k :: 0 <= k < |results| ==> IsAmong(results[k].task, listed, n)
    ensures forall k :: 0 <= k < |results| ==>
      IsAmong(results[k].task, listed, n + 1) && results[k].task != listed[n].id
    ensures IsAmong(listed[n].id, listed, n + 1)
  {
    forall k | 0 <= k < |results|
      ensures IsAmong(results[k].task, listed, n + 1) && results[k].task != listed[n].id
    {
      var i :| 0 <= i < n && listed[i].id == results[k].task;
      assert listed[i].id != listed[n].id;
    }
  }

  lemma OneMoreResult(rows: Spec.Table, s: State, results: seq<PreemptResult>, listed: seq<Listed>, n: nat,
                      now: int, c: Client, before: nat, won: bool)
    requires n < |listed| && IsOverdueListing(rows, listed, now)
    requires Progress(rows, s, results, listed, n, now, c, before)
    requires WrittenSince(s.rows, listed[n].id, listed[n].snapshot)
    requires won ==> WasPreempted(s, listed[n].id, now, c, before)
    ensures Progress(rows, s, if won then results + [PreemptResult(listed[n].id, listed[n].snapshot.data.claimedBy)]
                              else results, listed, n + 1, now, c, before)
  {
    AreAmongMore(results, listed, n);
  }

  lemma AllWritten(rows: Spec.Table, s: State, results: seq<PreemptResult>, listed: seq<Listed>, now: int, c: Client,
                   before: nat)
    requires IsOverdueListing(rows, listed, now)
    requires Progress(rows, s, results, listed, |listed|, now, c, before)
    ensures forall id :: id in rows && Spec.IsOverdue(rows[id].data, now) ==> WrittenSince(s.rows, id, rows[id])
  {
    forall id | id in rows && Spec.IsOverdue(rows[id].data, now) ensures WrittenSince(s.rows, id, rows[id]) {
      var k :| 0 <= k < |listed| && listed[k].id == id;
      assert listed[k].snapshot == rows[id];
    }
  }

  /** `id` is due no later than any of `ids`. */
  predicate IsEarliest(rows: Spec.Table, ids: set<Id>, id: Id)
    requires forall x :: x in ids ==> x in rows && rows[x].data.expires.Some?
  {
    id in ids && forall x :: x in ids ==> rows[id].data.expires.value <= rows[x].data.expires.value
  }

  lemma EarliestExists(rows: Spec.Table, ids: set<Id>)
    requires ids != {} && forall x :: x in ids ==> x in rows && rows[x].data.expires.Some?
    ensures exists id :: IsEarliest(rows, ids, id)
  {
    var x :| x in ids;
    if ids == {x} {
      assert IsEarliest(rows, ids, x);
    } else {
      EarliestExists(rows, ids - {x});
      var y :| IsEarliest(rows, ids - {x}, y);
      assert IsEarliest(rows, ids, if rows[x].data.expires.value <= rows[y].data.expires.value then x else y);
    }
  }

  class Service {
    /** The two tables, with the history of the run beside them. */
    var db: State
    const leaseTimeout: nat
    const sm: StateMachine<AssignmentStatus>

    constructor (leaseTimeout: nat)
      ensures Valid() && db == INIT && this.leaseTimeout == leaseTimeout
    {
      var machine := AssignmentStateMachine();
      sm := machine;
      this.leaseTimeout := leaseTimeout;
      db := INIT;
    }

    ghost predicate Valid()
      reads this, sm
    {
      Inv(db) && sm.Follows(AssignmentTargets)
    }

    ghost predicate At(me: Client, pc: Pc)
      reads this, sm
    {
      Valid() && db.Pc(me) == pc
    }

    // ---- The statements --------------------------------------------------------

    method GetAssignment(id: Id) returns (t: Option<Row<Task>>)
      ensures t == if id in db.rows then Some(db.rows[id]) else None
    {
      t := if id in db.rows then Some(db.rows[id]) else None;
    }

    method UpdateAssignmentStatus(id: Id, status: AssignmentStatus, version: nat) returns (affected: nat)
      modifies this
      ensures affected == if Matches(old(db).rows, id, version) then 1 else 0
      ensures affected == 0 ==> db == old(db)
      ensures affected == 1 ==> db == old(db).(rows := Put(old(db).rows, id, old(db).rows[id].data.(status := status)))
    {
      affected := 0;
      if Matches(db.rows, id, version) {
        db := db.(rows := Put(db.rows, id, db.rows[id].data.(status := status)));
        affected := 1;
      }
    }

    method UpdateAssignmentClaim(id: Id, claimedBy: string, lease: Id, expires: int, version: nat)
        returns (affected: nat)
      modifies this
      ensures affected == if Matches(old(db).rows, id, version) then 1 else 0
      ensures affected == 0 ==> db == old(db)
      ensures affected == 1 ==>
        db == old(db).(rows := Put(old(db).rows, id, Spec.Task(Claimed, claimedBy, lease, Some(expires))))
    {
      affected := 0;
      if Matches(db.rows, id, version) {
        var t := db.rows[id].data.(claimedBy := claimedBy, lease := lease, expires := Some(expires), status := Claimed);
        db := db.(rows := Put(db.rows, id, t));
        affected := 1;
      }
    }

    method ClearAssignmentClaim(id: Id, version: nat) returns (affected: nat)
      modifies this
      ensures affected == if Matches(old(db).rows, id, version) then 1 else 0
      ensures affected == 0 ==> db == old(db)
      ensures affected == 1 ==> db == old(db).(rows := Put(old(db).rows, id, Spec.NEW_TASK.(status := Preempted)))
    {
      affected := 0;
      if Matches(db.rows, id, version) {
        var t := db.rows[id].data.(claimedBy := "", lease := "", expires := None, status := Preempted);
        db := db.(rows := Put(db.rows, id, t));
        affected := 1;
      }
    }

    /** The overdue claims, earliest expiry first. */
    method ListExpiredClaims(now: int) returns (order: seq<Id>)
      ensures IsListing(db.rows, now, order)
    {
      order := [];
      var overdue := set id | id in db.rows && Spec.IsOverdue(db.rows[id].data, now);
      var todo := overdue;
      while todo != {}
        invariant todo <= overdue
        invariant forall id :: id in order <==> id in overdue - todo
        invariant SortedByExpiry(db.rows, order)
        invariant order != [] ==> forall x :: x in todo ==>
          db.rows[order[|order| - 1]].data.expires.value <= db.rows[x].data.expires.value
        decreases todo
      {
        EarliestExists(db.rows, todo);
        var id :| IsEarliest(db.rows, todo, id);
        todo := todo - {id};
        order := order + [id];
      }
    }

    method GetLease(lease: Id) returns (l: Option<Row<Lease>>)
      ensures l == if lease in db.leases then Some(db.leases[lease]) else None
    {
      l := if lease in db.leases then Some(db.leases[lease]) else None;
    }

    /** CreateLease, which may fail for reasons of its own. */
    method CreateLease(lease: Id, task: Id) returns (ok: bool)
      modifies this
      ensures db == if ok then old(db).(leases := old(db).leases[lease := Row(1, Lease(task, Active))]) else old(db)
    {
      ok := *;
      if ok {
        db := db.(leases := db.leases[lease := Row(1, Lease(task, Active))]);
      }
    }

    /** ReleaseLease and RevokeLease: only an active lease that is still as it was read. */
    method CloseLease(lease: Id, status: LeaseStatus, version: nat)
      modifies this
      ensures db == old(db).(leases := EndLease(old(db).leases, lease, version, status))
    {
      if lease in db.leases {
        var row := db.leases[lease];
        if row.version == version && row.data.status == Active {
          db := db.(leases := db.leases[lease := Row(version + 1, row.data.(status := status))]);
        }
      }
    }

    // ---- The other clients --------------------------------------------------------

    /** Any statements of any other clients, in any order; `uuid` is not theirs to use. */
    method Interfere(me: Client, uuid: Id)
      requires Valid()
      modifies this
      ensures At(me, old(db).Pc(me)) && Onward(old(db), db)
      ensures uuid !in old(db).claims ==> uuid !in db.claims
    {
      var n: nat := *;
      while n > 0
        invariant At(me, old(db).Pc(me)) && Onward(old(db), db)
        invariant uuid !in old(db).claims ==> uuid !in db.claims
      {
        var c: Client := *;
        var a: Action := *;
        if c != me && !(a.WriteClaim? && a.uuid == uuid) {
          OneStep(me, c, a, uuid);
        }
        n := n - 1;
      }
    }

    method OneStep(me: Client, c: Client, a: Action, uuid: Id)
      requires Valid() && c != me && !(a.WriteClaim? && a.uuid == uuid)
      modifies this
      ensures At(me, old(db).Pc(me)) && Onward(old(db), db)
      ensures uuid !in old(db).claims ==> uuid !in db.claims
    {
      Advance(db, c, a);
      OthersKeepMyPlace(db, c, a, me);
      if uuid !in db.claims {
        StepIssuesOnly(db, c, a, uuid);
      }
      db := Do(db, c, a);
    }

    // ---- The service calls ----------------------------------------------------------

    /** Assign, and Reassign: the two have the same statements. */
    method Assign(me: Client, id: Id) returns (r: Result<()>)
      requires At(me, Idle)
      modifies this
      ensures At(me, Idle) && Onward(old(db), db)
      ensures r == Err(NotFound) <==> id !in old(db).rows
      ensures id in old(db).rows ==>
        (r == Err(InvalidTransition) <==> Assigned !in AssignmentTargets(old(db).rows[id].data.status))
      ensures r.Ok? ==>
        && id in old(db).rows
        && JustWrote(db, id, old(db).rows[id], old(db).rows[id].data.(status := Assigned), Spec.Assign(id))
      ensures r == Err(Conflict) ==> id in old(db).rows && WrittenSince(db.rows, id, old(db).rows[id])
    {
      var found := GetAssignment(id);
      if found.None? {
        return Err(NotFound);
      }
      var t := found.value;
      var next := sm.MustTransition(t.data.status, Assigned);
      if next.Err? {
        return Err(next.error);
      }
      Advance(db, me, ReadToAssign(id));
      db := db.To(me, Assigning(id, t));
      ghost var s := db;

      Interfere(me, "");

      OnwardOn(old(db), s, db);
      ghost var s' := db;
      var won := TakeAssign(me, id, t, next.value);
      OnwardOn(old(db), s', db);
      return if won then Ok(()) else Err(Conflict);
    }

    /** The row write of Assign. */
    method TakeAssign(me: Client, id: Id, t: Row<Task>, status: AssignmentStatus) returns (won: bool)
      requires At(me, Assigning(id, t)) && status == Assigned
      modifies this
      ensures At(me, Idle) && Onward(old(db), db)
      ensures won ==> JustWrote(db, id, t, t.data.(status := Assigned), Spec.Assign(id))
      ensures !won ==> WrittenSince(db.rows, id, t)
    {
      assert PcOk(db, me);
      Advance(db, me, WriteAssign);
      var affected := UpdateAssignmentStatus(id, status, t.version);
      won := affected > 0;
      db := db.(log := if won then db.log + [Spec.Assign(id)] else db.log).To(me, Idle);
    }

    method Claim(me: Client, id: Id, executor: string, now: int, uuid: Id) returns (r: Result<ClaimResult>)
      requires At(me, Idle)
      requires uuid != "" && uuid !in db.claims  // the identifier is fresh
      modifies this
      ensures At(me, Idle) && Onward(old(db), db)
      ensures r.Ok? ==>
        && r.value == ClaimResult(uuid, now + leaseTimeout)
        && ClaimedBy(db, uuid, id, me, executor, now + leaseTimeout)
        && Committed(db.log, |old(db).log|, Spec.Op.Claim(id, executor, uuid, now + leaseTimeout))
        && uuid in db.leases && db.leases[uuid].data.task == id
      ensures r.Err? && r.error != Internal ==> uuid !in db.claims && uuid !in db.leases
      ensures r == Err(Internal) ==> uuid in db.claims && db.claims[uuid].fate.Ended? && uuid !in db.leases
      ensures executor == "" <==> r == Err(Validation)
      ensures executor != "" ==> (r == Err(NotFound) <==> id !in old(db).rows)
      ensures executor != "" && id in old(db).rows ==>
        (r == Err(InvalidTransition) <==> old(db).rows[id].data.status != Assigned)
      ensures r == Err(Conflict) ==> id in old(db).rows && WrittenSince(db.rows, id, old(db).rows[id])
    {
      FreshMeansNoLease(db, uuid);
      if executor == "" {
        return Err(Validation);
      }
      var found := GetAssignment(id);
      if found.None? {
        return Err(NotFound);
      }
      var t := found.value;
      if t.data.status != Assigned {
        return Err(InvalidTransition);
      }
      r := ClaimRead(me, id, t, executor, now + leaseTimeout, uuid);
    }

    /** Claim from its read on. */
    method ClaimRead(me: Client, id: Id, t: Row<Task>, executor: string, expires: int, uuid: Id)
      returns (r: Result<ClaimResult>)
      requires At(me, Idle) && id in db.rows && db.rows[id] == t && t.data.status == Assigned && executor != ""
      requires uuid != "" && uuid !in db.claims
      modifies this
      ensures At(me, Idle) && Onward(old(db), db)
      ensures r.Ok? ==>
        && r.value == ClaimResult(uuid, expires)
        && ClaimedBy(db, uuid, id, me, executor, expires)
        && Committed(db.log, |old(db).log|, Spec.Op.Claim(id, executor, uuid, expires))
        && uuid in db.leases && db.leases[uuid].data.task == id
      ensures r.Err? ==> r.error in {Conflict, Internal} && uuid !in db.leases
      ensures r == Err(Conflict) ==> uuid !in db.claims && WrittenSince(db.rows, id, t)
      ensures r == Err(Internal) ==> uuid in db.claims && db.claims[uuid].fate.Ended?
    {
      Advance(db, me, ReadToClaim(id, executor));
      db := db.To(me, Claiming(id, t, executor));
      ghost var s := db;
      r := ClaimChecked(me, id, t, executor, expires, uuid);
      OnwardOn(old(db), s, db);
    }

    method ClaimChecked(me: Client, id: Id, t: Row<Task>, executor: string, expires: int, uuid: Id)
      returns (r: Result<ClaimResult>)
      requires At(me, Claiming(id, t, executor))
      requires uuid != "" && uuid !in db.claims
      modifies this
      ensures At(me, Idle) && Onward(old(db), db)
      ensures r.Ok? ==>
        && r.value == ClaimResult(uuid, expires)
        && ClaimedBy(db, uuid, id, me, executor, expires)
        && Committed(db.log, |old(db).log|, Spec.Op.Claim(id, executor, uuid, expires))
        && uuid in db.leases && db.leases[uuid].data.task == id
      ensures r.Err? ==> r.error in {Conflict, Internal} && uuid !in db.leases
      ensures r == Err(Conflict) ==> uuid !in db.claims && WrittenSince(db.rows, id, t)
      ensures r == Err(Internal) ==> uuid in db.claims && db.claims[uuid].fate.Ended?
    {
      Interfere(me, uuid);

      ghost var s := db;
      var won := TakeClaim(me, id, t, executor, uuid, expires);
      OnwardOn(old(db), s, db);
      if !won {
        FreshMeansNoLease(db, uuid);
        return Err(Conflict);
      }
      ghost var s' := db;
      assert Committed(db.log, |old(db).log|, Spec.Op.Claim(id, executor, uuid, expires)) by {
        assert db.log[|db.log| - 1] == Spec.Op.Claim(id, executor, uuid, expires);
      }
      r := ClaimTaken(me, id, uuid, expires);
      OnwardOn(old(db), s', db);
      StaysCommitted(s'.log, db.log, |old(db).log|, Spec.Op.Claim(id, executor, uuid, expires));
    }

    /** The row write of Claim. */
    method TakeClaim(me: Client, id: Id, t: Row<Task>, executor: string, uuid: Id, expires: int) returns (won: bool)
      requires At(me, Claiming(id, t, executor)) && uuid != "" && uuid !in db.claims
      modifies this
      ensures At(me, if won then Inserting(uuid) else Idle) && Onward(old(db), db)
      ensures won ==>
        && db.log == old(db).log + [Spec.Op.Claim(id, executor, uuid, expires)]
        && ClaimedBy(db, uuid, id, me, executor, expires)
      ensures !won ==> db.claims == old(db).claims && WrittenSince(db.rows, id, t)
    {
      assert PcOk(db, me);
      Advance(db, me, WriteClaim(uuid, expires));
      var affected := UpdateAssignmentClaim(id, executor, uuid, expires, t.version);
      if affected == 0 {
        db := db.To(me, Idle);
        return false;
      }
      db := db.(claims := db.claims[uuid := AssignmentProtocol.Claim(id, me, db.rows[id], Open)],
                log := db.log + [Spec.Op.Claim(id, executor, uuid, expires)]).To(me, Inserting(uuid));
      return true;
    }

    /** Claim from its row write on. */
    method ClaimTaken(me: Client, id: Id, uuid: Id, expires: int) returns (r: Result<ClaimResult>)
      requires At(me, Inserting(uuid)) && uuid in db.claims && db.claims[uuid].task == id
      modifies this
      ensures At(me, Idle) && Onward(old(db), db) && uuid in db.claims
      ensures r == Ok(ClaimResult(uuid, expires)) || r == Err(Internal)
      ensures r.Ok? ==> uuid in db.leases && db.leases[uuid].data == Lease(id, Active)
      ensures r.Err? ==> db.claims[uuid].fate.Ended? && uuid !in db.leases
    {
      Interfere(me, "");

      ghost var s := db;
      r := FinishClaim(me, id, uuid, expires);
      OnwardOn(old(db), s, db);
    }

    /** The second half of Claim: insert the lease, or take the claim back. */
    method FinishClaim(me: Client, id: Id, uuid: Id, expires: int) returns (r: Result<ClaimResult>)
      requires At(me, Inserting(uuid)) && uuid in db.claims && db.claims[uuid].task == id
      modifies this
      ensures At(me, Idle) && Onward(old(db), db) && uuid in db.claims
      ensures r == Ok(ClaimResult(uuid, expires)) || r == Err(Internal)
      ensures r.Ok? ==> uuid in db.leases && db.leases[uuid].data == Lease(id, Active)
      ensures r.Err? ==> db.claims[uuid].fate.Ended? && uuid !in db.leases
    {
      ghost var s := db;
      var created := CreateLease(uuid, id);
      Advance(s, me, InsertLease(created));
      if created {
        db := db.To(me, Idle);
        return Ok(ClaimResult(uuid, expires));
      }
      var version := db.claims[uuid].mine.version;
      db := db.To(me, Clearing(uuid));
      ghost var s' := db;
      TakeBack(me, id, uuid, version);
      OnwardOn(old(db), s', db);
      return Err(Internal);
    }

    /** The compensation, with the others in between. */
    method TakeBack(me: Client, id: Id, uuid: Id, version: nat)
      requires At(me, Clearing(uuid)) && uuid in db.claims
      requires db.claims[uuid].task == id && db.claims[uuid].mine.version == version
      modifies this
      ensures At(me, Idle) && Onward(old(db), db)
      ensures uuid in db.claims && db.claims[uuid].fate.Ended? && uuid !in db.leases
    {
      Interfere(me, "");

      ghost var s := db;
      ClearClaimOf(me, id, uuid, version);
      OnwardOn(old(db), s, db);
    }

    method ClearClaimOf(me: Client, id: Id, uuid: Id, version: nat)
      requires At(me, Clearing(uuid)) && uuid in db.claims
      requires db.claims[uuid].task == id && db.claims[uuid].mine.version == version
      modifies this
      ensures At(me, Idle) && Onward(old(db), db)
      ensures uuid in db.claims && db.claims[uuid].fate.Ended? && uuid !in db.leases
    {
      assert PcOk(db, me) && ClaimOk(db, uuid);
      Advance(db, me, ClearClaim);
      var affected := ClearAssignmentClaim(id, version);
      if affected == 1 {
        db := db.(claims := db.claims[uuid := db.claims[uuid].(fate := Fate.Ended(ByCompensation, me, |db.log|))],
                  log := db.log + [Spec.Compensate(id, uuid)]);
      }
      db := db.To(me, Idle);
    }

    method Report(me: Client, id: Id, executor: string) returns (r: Result<()>)
      requires At(me, Idle)
      modifies this
      ensures At(me, Idle) && Onward(old(db), db)
      ensures r.Ok? ==> Committed(db.log, |old(db).log|, Spec.Report(id, executor))
      ensures r.Ok? ==> exists l :: LeaseClosed(db, l, id, ByReport, me, |old(db).log|)
      ensures executor == "" <==> r == Err(Validation)
      ensures executor != "" ==> (r == Err(NotFound) <==> id !in old(db).rows)
      ensures executor != "" && id in old(db).rows ==>
        (r == Err(Forbidden) <==> old(db).rows[id].data.claimedBy != executor)
      ensures executor != "" && id in old(db).rows && old(db).rows[id].data.claimedBy == executor ==>
        (r == Err(InvalidTransition) <==> Completed !in AssignmentTargets(old(db).rows[id].data.status))
      ensures r == Err(Conflict) ==> id in old(db).rows && WrittenSince(db.rows, id, old(db).rows[id])
    {
      if executor == "" {
        return Err(Validation);
      }
      var found := GetAssignment(id);
      if found.None? {
        return Err(NotFound);
      }
      var t := found.value;
      if t.data.claimedBy != executor {
        return Err(Forbidden);
      }
      var next := sm.MustTransition(t.data.status, Completed);
      if next.Err? {
        return Err(next.error);
      }
      r := ReportRead(me, id, t, executor, next.value);
    }

    /** Report from its read on. */
    method ReportRead(me: Client, id: Id, t: Row<Task>, executor: string, status: AssignmentStatus)
      returns (r: Result<()>)
      requires At(me, Idle) && id in db.rows && db.rows[id] == t && t.data.claimedBy == executor != ""
      requires Completed in AssignmentTargets(t.data.status) && status == Completed
      modifies this
      ensures At(me, Idle) && Onward(old(db), db)
      ensures r.Ok? ==> Committed(db.log, |old(db).log|, Spec.Report(id, executor))
      ensures r.Ok? ==> exists l :: LeaseClosed(db, l, id, ByReport, me, |old(db).log|)
      ensures r.Err? ==> r.error == Conflict && WrittenSince(db.rows, id, t)
    {
      Advance(db, me, ReadToReport(id, executor));
      db := db.To(me, Reporting(id, t, executor));
      ghost var s := db;
      r := ReportChecked(me, id, t, executor, status);
      OnwardOn(old(db), s, db);
    }

    method ReportChecked(me: Client, id: Id, t: Row<Task>, executor: string, status: AssignmentStatus)
      returns (r: Result<()>)
      requires At(me, Reporting(id, t, executor)) && status == Completed
      modifies this
      ensures At(me, Idle) && Onward(old(db), db)
      ensures r.Ok? ==> Committed(db.log, |old(db).log|, Spec.Report(id, executor))
      ensures r.Ok? ==> exists l :: LeaseClosed(db, l, id, ByReport, me, |old(db).log|)
      ensures r.Err? ==> r.error == Conflict && WrittenSince(db.rows, id, t)
    {
      Interfere(me, "");

      ghost var s := db;
      var won := TakeReport(me, id, t, executor, status);
      OnwardOn(old(db), s, db);
      if !won {
        return Err(Conflict);
      }
      ghost var s' := db;
      assert Committed(db.log, |old(db).log|, Spec.Report(id, executor)) by {
        assert db.log[|db.log| - 1] == Spec.Report(id, executor);
      }
      CloseAfterwards(me, t.data.lease, Released);
      OnwardOn(old(db), s', db);
      StaysCommitted(s'.log, db.log, |old(db).log|, Spec.Report(id, executor));
      assert LeaseClosed(db, t.data.lease, id, ByReport, me, |old(db).log|);
      return Ok(());
    }

    /** The row write of Report. */
    method TakeReport(me: Client, id: Id, t: Row<Task>, executor: string, status: AssignmentStatus) returns (won: bool)
      requires At(me, Reporting(id, t, executor)) && status == Completed
      modifies this
      ensures At(me, if won then Releasing(t.data.lease) else Idle) && Onward(old(db), db)
      ensures won ==>
        && db.log == old(db).log + [Spec.Report(id, executor)]
        && EndedAs(db, t.data.lease, ByReport, me)
        && db.claims[t.data.lease].fate.at == |old(db).log|
        && db.claims[t.data.lease].task == id
      ensures !won ==> WrittenSince(db.rows, id, t)
    {
      WinnerEndsAnOpenClaim(db, me, id, t);
      Advance(db, me, WriteReport);
      var affected := UpdateAssignmentStatus(id, status, t.version);
      if affected == 0 {
        db := db.To(me, Idle);
        return false;
      }
      db := db.(claims := EndClaim(db, t.data.lease, Fate.Ended(ByReport, me, |db.log|)),
                log := db.log + [Spec.Report(id, executor)]).To(me, Releasing(t.data.lease));
      return true;
    }

    method PreemptExpiredClaims(me: Client, now: int) returns (results: seq<PreemptResult>)
      requires At(me, Idle)
      modifies this
      ensures At(me, Idle) && Onward(old(db), db)
      ensures forall i :: 0 <= i < |results| ==> WasPreempted(db, results[i].task, now, me, |old(db).log|)
      ensures forall i :: 0 <= i < |results| ==> WasOverdue(old(db).rows, results[i], now)
      ensures forall i, j :: 0 <= i < j < |results| ==> results[i].task != results[j].task
      ensures forall id :: id in old(db).rows && Spec.IsOverdue(old(db).rows[id].data, now) ==>
        WrittenSince(db.rows, id, old(db).rows[id])
    {
      var expired := List(me, now);
      ghost var s := db;
      results := PreemptAll(me, expired, now, old(db).rows);
      OnwardOn(old(db), s, db);
      ghost var s' := db;
      Advance(db, me, WritePreempt);
      db := db.To(me, Idle);
      OnwardOn(old(db), s', db);
      ProgressStays(old(db).rows, s', db, results, expired, |expired|, now, me, |old(db).log|);
      AllWritten(old(db).rows, db, results, expired, now, me, |old(db).log|);
    }

    /** The read PreemptExpiredClaims begins with. */
    method List(me: Client, now: int) returns (expired: seq<Listed>)
      requires At(me, Idle)
      modifies this
      ensures At(me, Preempting(expired, now)) && Onward(old(db), db) && db.log == old(db).log
      ensures IsOverdueListing(old(db).rows, expired, now)
    {
      var order := ListExpiredClaims(now);
      Advance(db, me, ListOverdue(now, order));
      expired := Snapshots(db.rows, order);
      assert forall k :: 0 <= k < |order| ==> order[k] in order && expired[k] == Listed(order[k], db.rows[order[k]]);
      forall id | id in db.rows && Spec.IsOverdue(db.rows[id].data, now) ensures IsAmong(id, expired, |expired|) {
        var k :| 0 <= k < |order| && order[k] == id;
        assert expired[k].id == id;
      }
      db := db.To(me, Preempting(expired, now));
    }

    /** The loop over the listing. */
    method PreemptAll(me: Client, expired: seq<Listed>, now: int, ghost rows: Spec.Table)
      returns (results: seq<PreemptResult>)
      requires At(me, Preempting(expired, now)) && IsOverdueListing(rows, expired, now)
      modifies this
      ensures At(me, Preempting([], now)) && Onward(old(db), db)
      ensures Progress(rows, db, results, expired, |expired|, now, me, |old(db).log|)
    {
      results := [];
      var i := 0;
      assert expired[0..] == expired;
      while i < |expired|
        invariant 0 <= i <= |expired|
        invariant At(me, Preempting(expired[i..], now)) && Onward(old(db), db)
        invariant Progress(rows, db, results, expired, i, now, me, |old(db).log|)
      {
        ghost var s := db;
        var won := PreemptOne(me, expired[i..], now, |old(db).log|);
        assert expired[i..][1..] == expired[i + 1..];
        OnwardOn(old(db), s, db);
        ProgressStays(rows, s, db, results, expired, i, now, me, |old(db).log|);
        OneMoreResult(rows, db, results, expired, i, now, me, |old(db).log|, won);
        if won {
          results := results + [PreemptResult(expired[i].id, expired[i].snapshot.data.claimedBy)];
        }
        i := i + 1;
      }
      assert expired[|expired|..] == [];
    }

    /** preemptOne on the head of the listing: true if the row write won, and then the lease
        of the claim is revoked too. */
    method PreemptOne(me: Client, queue: seq<Listed>, now: int, ghost before: nat) returns (won: bool)
      requires At(me, Preempting(queue, now)) && queue != [] && before <= |db.log|
      modifies this
      ensures At(me, Preempting(queue[1..], now)) && Onward(old(db), db)
      ensures won ==> WasPreempted(db, queue[0].id, now, me, before)
      ensures WrittenSince(db.rows, queue[0].id, queue[0].snapshot)
    {
      Interfere(me, "");

      ghost var s := db;
      won := PreemptHead(me, queue, now, before);
      OnwardOn(old(db), s, db);
    }

    method PreemptHead(me: Client, queue: seq<Listed>, now: int, ghost before: nat) returns (won: bool)
      requires At(me, Preempting(queue, now)) && queue != [] && before <= |db.log|
      modifies this
      ensures At(me, Preempting(queue[1..], now)) && Onward(old(db), db)
      ensures won ==> WasPreempted(db, queue[0].id, now, me, before)
      ensures WrittenSince(db.rows, queue[0].id, queue[0].snapshot)
    {
      won := TakePreempt(me, queue, now);
      if won {
        ghost var s := db;
        var l := queue[0].snapshot.data.lease;
        assert Committed(db.log, before, Spec.Preempt(queue[0].id, now)) by {
          assert db.log[|db.log| - 1] == Spec.Preempt(queue[0].id, now);
        }
        CloseAfterwards(me, l, Revoked);
        OnwardOn(old(db), s, db);
        StaysCommitted(s.log, db.log, before, Spec.Preempt(queue[0].id, now));
        assert LeaseClosed(db, l, queue[0].id, ByPreempt, me, before);
      }
    }

    /** The row write of preemptOne. */
    method TakePreempt(me: Client, queue: seq<Listed>, now: int) returns (won: bool)
      requires At(me, Preempting(queue, now)) && queue != []
      modifies this
      ensures Onward(old(db), db) && WrittenSince(db.rows, queue[0].id, queue[0].snapshot)
      ensures At(me, if won then Revoking(queue[0].snapshot.data.lease, queue[1..], now)
        else Preempting(queue[1..], now))
      ensures won ==> var Listed(id, t) := queue[0];
        && db.log == old(db).log + [Spec.Preempt(id, now)]
        && EndedAs(db, t.data.lease, ByPreempt, me)
        && db.claims[t.data.lease].fate.at == |old(db).log|
        && db.claims[t.data.lease].task == id
    {
      var Listed(id, t) := queue[0];
      WinnerEndsAnOpenClaim(db, me, id, t);
      Advance(db, me, WritePreempt);
      var affected := ClearAssignmentClaim(id, t.version);
      if affected == 0 {
        db := db.To(me, Preempting(queue[1..], now));
        return false;
      }
      db := db.(claims := EndClaim(db, t.data.lease, Fate.Ended(ByPreempt, me, |db.log|)),
                log := db.log + [Spec.Preempt(id, now)]).To(me, Revoking(t.data.lease, queue[1..], now));
      return true;
    }

    /** The lease half of Report (release) and of preemptOne (revoke). */
    method CloseAfterwards(me: Client, l: Id, status: LeaseStatus)
      requires Valid()
      requires (status == Released && db.Pc(me) == Releasing(l)) ||
               (status == Revoked && db.Pc(me).Revoking? && db.Pc(me).lease == l)
      modifies this
      ensures At(me, if status == Released then Idle else Preempting(old(db).Pc(me).queue, old(db).Pc(me).now))
      ensures Onward(old(db), db) && IsClosed(db, l, status)
    {
      Interfere(me, "");

      ghost var s := db;
      CloseNow(me, l, status);
      OnwardOn(old(db), s, db);
    }

    /** GetLease, and what follows from it. */
    method CloseNow(me: Client, l: Id, status: LeaseStatus)
      requires Valid()
      requires (status == Released && db.Pc(me) == Releasing(l)) ||
               (status == Revoked && db.Pc(me).Revoking? && db.Pc(me).lease == l)
      modifies this
      ensures At(me, if status == Released then Idle else Preempting(old(db).Pc(me).queue, old(db).Pc(me).now))
      ensures Onward(old(db), db) && IsClosed(db, l, status)
    {
      var pc := db.Pc(me);
      Advance(db, me, ReadLease);
      var after := if status == Released then Idle else Preempting(pc.queue, pc.now);
      var lease := GetLease(l);
      if lease.None? {
        db := db.(missed := db.missed + {l}).To(me, after);
        return;
      }
      var v := lease.value.version;
      db := db.To(me, if status == Released then ReleasingAt(l, v) else RevokingAt(l, v, pc.queue, pc.now));
      ghost var s := db;
      CloseFound(me, l, status, v, after);
      OnwardOn(old(db), s, db);
    }

    method CloseFound(me: Client, l: Id, status: LeaseStatus, v: nat, after: Pc)
      requires Valid()
      requires (status == Released && after == Idle && db.Pc(me) == ReleasingAt(l, v)) ||
               (status == Revoked && after.Preempting? && db.Pc(me) == RevokingAt(l, v, after.queue, after.now))
      modifies this
      ensures At(me, after) && Onward(old(db), db) && IsClosed(db, l, status)
    {
      Interfere(me, "");

      ghost var s := db;
      CloseAt(me, l, status, v, after);
      OnwardOn(old(db), s, db);
    }

    /** The guarded lease write. */
    method CloseAt(me: Client, l: Id, status: LeaseStatus, v: nat, after: Pc)
      requires Valid()
      requires (status == Released && after == Idle && db.Pc(me) == ReleasingAt(l, v)) ||
               (status == Revoked && after.Preempting? && db.Pc(me) == RevokingAt(l, v, after.queue, after.now))
      modifies this
      ensures At(me, after) && Onward(old(db), db) && IsClosed(db, l, status)
    {
      assert PcOk(db, me);
      Advance(db, me, WriteLease);
      CloseLease(l, status, v);
      db := db.To(me, after);
    }
  }
}
