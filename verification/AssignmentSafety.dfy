/** What every interleaving of the assignment service keeps. */
module AssignmentSafety {
  import opened Common
  import opened Optimistic
  import opened Domain
  import opened AssignmentProtocol
  import Spec = AssignmentSpec

  // ---- What one client's statement does to the others --------------------------

  /** Client `c` may move rows forward, end open claims, and touch only the leases
      of claims it made or ended. */
  ghost predicate Guarantee(s: State, s': State, c: Client) {
    && (forall d :: d != c ==> s'.Pc(d) == s.Pc(d))
    && (forall id :: id in s.rows ==> RowMoved(s, s', id))
    && (forall l :: l in s.claims ==> ClaimMoved(s, s', l, c))
    && (forall l :: l in s.leases || l in s'.leases ==> LeaseMoved(s, s', l, c))
    && (forall l :: l in s.missed || l in s'.missed ==> MissedMoved(s, s', l, c))
  }

  ghost predicate RowMoved(s: State, s': State, id: Id)
    requires id in s.rows
  {
    id in s'.rows && (s'.rows[id] == s.rows[id] || s.rows[id].version < s'.rows[id].version)
  }

  ghost predicate ClaimMoved(s: State, s': State, l: Id, c: Client)
    requires l in s.claims
  {
    && l in s'.claims
    && s'.claims[l].(fate := s.claims[l].fate) == s.claims[l]
    && (s.claims[l].fate == s'.claims[l].fate ||
        (s.claims[l].fate == Open && (HasEnded(s'.claims[l].fate, ByCompensation) ==> s.claims[l].client == c)))
  }

  ghost predicate LeaseMoved(s: State, s': State, l: Id, c: Client) {
    if l in s.leases then
      l in s'.leases && (s'.leases[l] == s.leases[l] || EndedAs(s, l, ByReport, c) || EndedAs(s, l, ByPreempt, c))
    else
      l in s.claims && s.claims[l].client == c && ActiveIfThere(s', l)
  }

  /** Only the client that ended a claim may miss its lease, and not once it is there. */
  ghost predicate MissedMoved(s: State, s': State, l: Id, c: Client) {
    l in s'.missed && (l in s.missed || (l !in s.leases && (EndedAs(s, l, ByReport, c) || EndedAs(s, l, ByPreempt, c))))
  }

  /** So whatever another client knows stays true. */
  lemma OthersStayOk(s: State, s': State, c: Client)
    requires (forall d :: PcOk(s, d)) && Guarantee(s, s', c) && PcOk(s', c)
    ensures forall d :: PcOk(s', d)
  {
    forall d ensures PcOk(s', d) {
      assert PcOk(s, d);
    }
  }

  /** The lease a client is about to insert, or to end. */
  function LeaseOf(pc: Pc): Option<Id> {
    match pc
    case Inserting(l) => Some(l)
    case Clearing(l) => Some(l)
    case Releasing(l) => Some(l)
    case ReleasingAt(l, _) => Some(l)
    case Revoking(l, _, _) => Some(l)
    case RevokingAt(l, _, _, _) => Some(l)
    case _ => None
  }

  /** The statement of `c` leaves all rows but `id` and all claims and leases but `l` alone. */
  ghost predicate TouchesOnly(s: State, s': State, c: Client, id: Id, l: Id) {
    && s.log <= s'.log
    && (forall i :: i != id && i in s'.rows ==> i in s.rows && s'.rows[i] == s.rows[i])
    && (forall k :: k != l && k in s'.claims ==> k in s.claims && s'.claims[k] == s.claims[k])
    && (forall k :: k != l && k in s'.leases ==> k in s.leases && s'.leases[k] == s.leases[k])
    && (forall k :: k != l ==> (k in s'.missed <==> k in s.missed))
    && (l in s.claims ==> s.claims[l].task == id)
    && (id in s.rows && id in s'.rows && s.rows[id].data.status == Claimed && s.rows[id] != s'.rows[id] ==>
          s.rows[id].data.lease == l)
    && (s.Pc(c) == s'.Pc(c) || LeaseOf(s.Pc(c)) in {None, Some(l)})
  }

  /** Away from what moved, claims, leases and rows stay as they should. */
  lemma OtherClaimStaysOk(s: State, s': State, c: Client, id: Id, l: Id, k: Id)
    requires Guarantee(s, s', c) && TouchesOnly(s, s', c, id, l) && k != l
    requires ClaimOk(s, k) && (k in s.claims ==> RowOk(s, s.claims[k].task))
    ensures ClaimOk(s', k)
  {
    if k in s.claims {
      if s.claims[k].fate.Ended? {
        EndStaysOk(s, s', k);
      }
      assert EndIsNear(s, k) ==> EndIsNear(s', k);
    }
  }

  lemma EndStaysOk(s: State, s': State, k: Id)
    requires s.log <= s'.log && k in s.claims && k in s'.claims && s'.claims[k] == s.claims[k]
    requires s.claims[k].fate.Ended? && EndOk(s, k)
    ensures EndOk(s', k)
  {
    assert s'.log[..s.claims[k].fate.at] == s.log[..s.claims[k].fate.at];
  }

  lemma OtherLeaseStaysOk(s: State, s': State, c: Client, id: Id, l: Id, k: Id)
    requires Guarantee(s, s', c) && TouchesOnly(s, s', c, id, l) && k != l && LeaseOk(s, k)
    ensures LeaseOk(s', k)
  {
  }

  lemma OtherRowStaysOk(s: State, s': State, c: Client, id: Id, l: Id, i: Id)
    requires Guarantee(s, s', c) && TouchesOnly(s, s', c, id, l) && i != id && RowOk(s, i)
    ensures RowOk(s', i)
  {
  }

  // ---- Each statement keeps the invariant ------------------------------------

  /** What the invariant says of the one client, row, claim and lease. */
  ghost predicate LocalOk(s: State, c: Client, id: Id, l: Id) {
    PcOk(s, c) && RowOk(s, id) && ClaimOk(s, l) && LeaseOk(s, l)
  }

  ghost predicate LogOk(s: State) {
    Spec.Legal(s.log) && Spec.Exec(s.log) == s.rows
  }

  lemma KeepsInv(s: State, s': State, c: Client, id: Id, l: Id)
    requires Inv(s) && Guarantee(s, s', c) && TouchesOnly(s, s', c, id, l) && LocalOk(s', c, id, l) && LogOk(s')
    ensures Inv(s')
  {
    OthersStayOk(s, s', c);
    forall i ensures RowOk(s', i) {
      assert RowOk(s, i);
      if i != id {
        OtherRowStaysOk(s, s', c, id, l, i);
      }
    }
    forall k ensures ClaimOk(s', k) && LeaseOk(s', k) {
      assert ClaimOk(s, k) && LeaseOk(s, k) && (k in s.claims ==> RowOk(s, s.claims[k].task));
      if k != l {
        OtherClaimStaysOk(s, s', c, id, l, k);
        OtherLeaseStaysOk(s, s', c, id, l, k);
      }
    }
  }

  lemma CreateMoves(s: State, c: Client, id: Id)
    requires s.Pc(c).Idle? && id !in s.rows && LocalOk(s, c, id, "") && "" !in s.claims
    ensures var s' := AfterCreate(s, id);
      Guarantee(s, s', c) && TouchesOnly(s, s', c, id, "") && LocalOk(s', c, id, "")
  {
  }

  lemma CreateKeepsInv(s: State, c: Client, id: Id)
    requires Inv(s) && s.Pc(c).Idle?
    ensures Inv(AfterCreate(s, id))
  {
    if id !in s.rows {
      Spec.ExtendRun(s.log, Spec.Create(id));
      assert PcOk(s, c) && ClaimOk(s, "") && LeaseOk(s, "");
      CreateMoves(s, c, id);
      KeepsInv(s, AfterCreate(s, id), c, id, "");
    }
  }

  /** A statement that leaves both tables alone. */
  lemma ReadKeepsInv(s: State, s': State, c: Client)
    requires Inv(s) && PcOk(s', c)
    requires s'.(pcs := s.pcs) == s && forall d :: d != c ==> s'.Pc(d) == s.Pc(d)
    requires LeaseOf(s.Pc(c)).None?
    ensures Inv(s')
  {
    assert RowOk(s, "") && ClaimOk(s, "") && LeaseOk(s, "");
    KeepsInv(s, s', c, "", "");
  }

  lemma WonAssignMoves(s: State, c: Client)
    requires s.Pc(c).Assigning? && Matches(s.rows, s.Pc(c).id, s.Pc(c).snapshot.version)
    requires LocalOk(s, c, s.Pc(c).id, "") && "" !in s.claims
    ensures var s' := AfterWriteAssign(s, c);
      Guarantee(s, s', c) && TouchesOnly(s, s', c, s.Pc(c).id, "") && LocalOk(s', c, s.Pc(c).id, "")
  {
  }

  lemma WriteAssignKeepsInv(s: State, c: Client)
    requires Inv(s) && s.Pc(c).Assigning?
    ensures Inv(AfterWriteAssign(s, c))
  {
    var Assigning(id, t) := s.Pc(c);
    var s' := AfterWriteAssign(s, c);
    assert PcOk(s, c) && RowOk(s, id) && ClaimOk(s, "") && LeaseOk(s, "");
    if Matches(s.rows, id, t.version) {
      Spec.ExtendRun(s.log, Spec.Assign(id));
      WonAssignMoves(s, c);
      KeepsInv(s, s', c, id, "");
    } else {
      ReadKeepsInv(s, s', c);
    }
  }

  lemma WonClaimMoves(s: State, c: Client, uuid: Id, expires: int)
    requires s.Pc(c).Claiming? && Matches(s.rows, s.Pc(c).id, s.Pc(c).snapshot.version)
    requires LocalOk(s, c, s.Pc(c).id, uuid) && uuid != "" && uuid !in s.claims
    ensures var s' := AfterWriteClaim(s, c, uuid, expires);
      Guarantee(s, s', c) && TouchesOnly(s, s', c, s.Pc(c).id, uuid) && LocalOk(s', c, s.Pc(c).id, uuid)
  {
  }

  lemma WriteClaimKeepsInv(s: State, c: Client, uuid: Id, expires: int)
    requires Inv(s) && s.Pc(c).Claiming?
    ensures Inv(AfterWriteClaim(s, c, uuid, expires))
  {
    var Claiming(id, t, executor) := s.Pc(c);
    var s' := AfterWriteClaim(s, c, uuid, expires);
    assert PcOk(s, c) && RowOk(s, id) && ClaimOk(s, uuid) && LeaseOk(s, uuid);
    if uuid == "" || uuid in s.claims {
    } else if Matches(s.rows, id, t.version) {
      Spec.ExtendRun(s.log, Spec.Op.Claim(id, executor, uuid, expires));
      WonClaimMoves(s, c, uuid, expires);
      KeepsInv(s, s', c, id, uuid);
    } else {
      ReadKeepsInv(s, s', c);
    }
  }

  lemma InsertLeaseMoves(s: State, c: Client, succeeds: bool)
    requires s.Pc(c).Inserting? && s.Pc(c).lease in s.claims
    requires LocalOk(s, c, s.claims[s.Pc(c).lease].task, s.Pc(c).lease)
    ensures var s' := AfterInsertLease(s, c, succeeds); var l := s.Pc(c).lease; var id := s.claims[l].task;
      Guarantee(s, s', c) && TouchesOnly(s, s', c, id, l) && LocalOk(s', c, id, l)
  {
  }

  lemma InsertLeaseKeepsInv(s: State, c: Client, succeeds: bool)
    requires Inv(s) && s.Pc(c).Inserting? && s.Pc(c).lease in s.claims
    ensures Inv(AfterInsertLease(s, c, succeeds))
  {
    var l := s.Pc(c).lease;
    assert PcOk(s, c) && ClaimOk(s, l) && LeaseOk(s, l) && RowOk(s, s.claims[l].task);
    InsertLeaseMoves(s, c, succeeds);
    KeepsInv(s, AfterInsertLease(s, c, succeeds), c, s.claims[l].task, l);
  }

  lemma ClearClaimMoves(s: State, c: Client)
    requires s.Pc(c).Clearing? && s.Pc(c).lease in s.claims && LogOk(s)
    requires LocalOk(s, c, s.claims[s.Pc(c).lease].task, s.Pc(c).lease)
    ensures var s' := AfterClearClaim(s, c); var l := s.Pc(c).lease; var id := s.claims[l].task;
      Guarantee(s, s', c) && TouchesOnly(s, s', c, id, l)
  {
    ClearClaimTouchesOnly(s, c);
  }

  lemma ClearClaimTouchesOnly(s: State, c: Client)
    requires s.Pc(c).Clearing? && s.Pc(c).lease in s.claims
    requires LocalOk(s, c, s.claims[s.Pc(c).lease].task, s.Pc(c).lease)
    ensures var s' := AfterClearClaim(s, c); var l := s.Pc(c).lease; var id := s.claims[l].task;
      TouchesOnly(s, s', c, id, l)
  {
  }

  lemma ClearClaimStaysOk(s: State, c: Client)
    requires s.Pc(c).Clearing? && s.Pc(c).lease in s.claims && LogOk(s)
    requires LocalOk(s, c, s.claims[s.Pc(c).lease].task, s.Pc(c).lease)
    ensures var s' := AfterClearClaim(s, c); var l := s.Pc(c).lease; var id := s.claims[l].task;
      LocalOk(s', c, id, l)
  {
    assert AfterClearClaim(s, c).log[..|s.log|] == s.log;
  }

  lemma ClearClaimKeepsInv(s: State, c: Client)
    requires Inv(s) && s.Pc(c).Clearing? && s.Pc(c).lease in s.claims
    ensures Inv(AfterClearClaim(s, c))
  {
    var l := s.Pc(c).lease;
    var id := s.claims[l].task;
    assert PcOk(s, c) && ClaimOk(s, l) && LeaseOk(s, l) && RowOk(s, id);
    if Matches(s.rows, id, s.claims[l].mine.version) {
      Spec.ExtendRun(s.log, Spec.Compensate(id, l));
    }
    ClearClaimMoves(s, c);
    ClearClaimStaysOk(s, c);
    KeepsInv(s, AfterClearClaim(s, c), c, id, l);
  }

  lemma WonReportMoves(s: State, c: Client)
    requires s.Pc(c).Reporting? && Matches(s.rows, s.Pc(c).id, s.Pc(c).snapshot.version) && LogOk(s)
    requires LocalOk(s, c, s.Pc(c).id, s.Pc(c).snapshot.data.lease)
    ensures var s' := AfterWriteReport(s, c); var Reporting(id, t, _) := s.Pc(c);
      Guarantee(s, s', c) && TouchesOnly(s, s', c, id, t.data.lease)
  {
  }

  lemma WonReportStaysOk(s: State, c: Client)
    requires s.Pc(c).Reporting? && Matches(s.rows, s.Pc(c).id, s.Pc(c).snapshot.version) && LogOk(s)
    requires LocalOk(s, c, s.Pc(c).id, s.Pc(c).snapshot.data.lease)
    ensures var s' := AfterWriteReport(s, c); var Reporting(id, t, _) := s.Pc(c);
      LocalOk(s', c, id, t.data.lease)
  {
    assert AfterWriteReport(s, c).log[..|s.log|] == s.log;
  }

  lemma WriteReportKeepsInv(s: State, c: Client)
    requires Inv(s) && s.Pc(c).Reporting?
    ensures Inv(AfterWriteReport(s, c))
  {
    var Reporting(id, t, executor) := s.Pc(c);
    var s' := AfterWriteReport(s, c);
    assert PcOk(s, c) && RowOk(s, id);
    if Matches(s.rows, id, t.version) {
      assert ClaimOk(s, t.data.lease) && LeaseOk(s, t.data.lease);
      Spec.ExtendRun(s.log, Spec.Report(id, executor));
      WonReportMoves(s, c);
    WonReportStaysOk(s, c);
      KeepsInv(s, s', c, id, t.data.lease);
    } else {
      ReadKeepsInv(s, s', c);
    }
  }

  lemma RestOfQueueOk(s: State, s': State, queue: seq<Listed>, now: int)
    requires ListedOk(s, queue, now) && queue != []
    requires forall id :: id in s.rows ==> RowMoved(s, s', id)
    ensures ListedOk(s', queue[1..], now)
  {
    forall i | 0 <= i < |queue| - 1
      ensures SnapshotOk(s', queue[1..][i].id, queue[1..][i].snapshot)
        && Spec.IsOverdue(queue[1..][i].snapshot.data, now)
    {
      assert queue[1..][i] == queue[i + 1];
    }
  }

  lemma WonPreemptMoves(s: State, c: Client)
    requires s.Pc(c).Preempting? && s.Pc(c).queue != [] && LogOk(s)
    requires Matches(s.rows, s.Pc(c).queue[0].id, s.Pc(c).queue[0].snapshot.version)
    requires LocalOk(s, c, s.Pc(c).queue[0].id, s.Pc(c).queue[0].snapshot.data.lease)
    ensures var s' := AfterWritePreempt(s, c); var Listed(id, t) := s.Pc(c).queue[0];
      Guarantee(s, s', c) && TouchesOnly(s, s', c, id, t.data.lease)
  {
  }

  lemma WonPreemptStaysOk(s: State, c: Client)
    requires s.Pc(c).Preempting? && s.Pc(c).queue != [] && LogOk(s)
    requires Matches(s.rows, s.Pc(c).queue[0].id, s.Pc(c).queue[0].snapshot.version)
    requires LocalOk(s, c, s.Pc(c).queue[0].id, s.Pc(c).queue[0].snapshot.data.lease)
    ensures var s' := AfterWritePreempt(s, c); var Listed(id, t) := s.Pc(c).queue[0];
      LocalOk(s', c, id, t.data.lease)
  {
    var Preempting(queue, now) := s.Pc(c);
    RestOfQueueOk(s, AfterWritePreempt(s, c), queue, now);
    assert AfterWritePreempt(s, c).log[..|s.log|] == s.log;
  }

  lemma WonPreemptKeepsInv(s: State, c: Client)
    requires Inv(s) && s.Pc(c).Preempting? && s.Pc(c).queue != []
    requires Matches(s.rows, s.Pc(c).queue[0].id, s.Pc(c).queue[0].snapshot.version)
    ensures Inv(AfterWritePreempt(s, c))
  {
    var Preempting(queue, now) := s.Pc(c);
    var Listed(id, t) := queue[0];
    assert PcOk(s, c) && RowOk(s, id);
    assert ClaimOk(s, t.data.lease) && LeaseOk(s, t.data.lease);
    Spec.ExtendRun(s.log, Spec.Preempt(id, now));
    WonPreemptMoves(s, c);
    WonPreemptStaysOk(s, c);
    KeepsInv(s, AfterWritePreempt(s, c), c, id, t.data.lease);
  }

  lemma WritePreemptKeepsInv(s: State, c: Client)
    requires Inv(s) && s.Pc(c).Preempting?
    ensures Inv(AfterWritePreempt(s, c))
  {
    var Preempting(queue, now) := s.Pc(c);
    var s' := AfterWritePreempt(s, c);
    assert PcOk(s, c);
    if queue != [] {
      RestOfQueueOk(s, s, queue, now);
      if Matches(s.rows, queue[0].id, queue[0].snapshot.version) {
        WonPreemptKeepsInv(s, c);
      } else {
        ReadKeepsInv(s, s', c);
      }
    } else {
      ReadKeepsInv(s, s', c);
    }
  }

  lemma ReadLeaseMoves(s: State, c: Client)
    requires (s.Pc(c).Releasing? || s.Pc(c).Revoking?) && s.Pc(c).lease in s.claims
    requires PcOk(s, c)
    ensures var s' := AfterReadLease(s, c); var l := s.Pc(c).lease; var id := s.claims[l].task;
      Guarantee(s, s', c) && TouchesOnly(s, s', c, id, l)
  {
  }

  lemma ReadLeaseStaysOk(s: State, c: Client)
    requires (s.Pc(c).Releasing? || s.Pc(c).Revoking?) && s.Pc(c).lease in s.claims
    requires LocalOk(s, c, s.claims[s.Pc(c).lease].task, s.Pc(c).lease)
    ensures var s' := AfterReadLease(s, c); var l := s.Pc(c).lease; var id := s.claims[l].task;
      LocalOk(s', c, id, l)
  {
  }

  lemma ReadLeaseKeepsInv(s: State, c: Client)
    requires Inv(s) && (s.Pc(c).Releasing? || s.Pc(c).Revoking?)
    ensures Inv(AfterReadLease(s, c))
  {
    var l := s.Pc(c).lease;
    assert PcOk(s, c) && ClaimOk(s, l) && LeaseOk(s, l) && RowOk(s, s.claims[l].task);
    ReadLeaseMoves(s, c);
    ReadLeaseStaysOk(s, c);
    KeepsInv(s, AfterReadLease(s, c), c, s.claims[l].task, l);
  }

  lemma WriteLeaseMoves(s: State, c: Client)
    requires (s.Pc(c).ReleasingAt? || s.Pc(c).RevokingAt?) && s.Pc(c).lease in s.claims
    requires PcOk(s, c)
    ensures var s' := AfterWriteLease(s, c); var l := s.Pc(c).lease; var id := s.claims[l].task;
      Guarantee(s, s', c) && TouchesOnly(s, s', c, id, l)
  {
  }

  lemma WriteLeaseStaysOk(s: State, c: Client)
    requires (s.Pc(c).ReleasingAt? || s.Pc(c).RevokingAt?) && s.Pc(c).lease in s.claims
    requires LocalOk(s, c, s.claims[s.Pc(c).lease].task, s.Pc(c).lease)
    ensures var s' := AfterWriteLease(s, c); var l := s.Pc(c).lease; var id := s.claims[l].task;
      LocalOk(s', c, id, l)
  {
  }

  lemma WriteLeaseKeepsInv(s: State, c: Client)
    requires Inv(s) && (s.Pc(c).ReleasingAt? || s.Pc(c).RevokingAt?)
    ensures Inv(AfterWriteLease(s, c))
  {
    var l := s.Pc(c).lease;
    assert PcOk(s, c) && ClaimOk(s, l) && LeaseOk(s, l) && RowOk(s, s.claims[l].task);
    WriteLeaseMoves(s, c);
    WriteLeaseStaysOk(s, c);
    KeepsInv(s, AfterWriteLease(s, c), c, s.claims[l].task, l);
  }

  lemma ListKeepsInv(s: State, c: Client, now: int, order: seq<Id>)
    requires Inv(s) && s.Pc(c).Idle?
    ensures Inv(AfterListOverdue(s, c, now, order))
  {
    if IsListing(s.rows, now, order) {
      assert forall i :: 0 <= i < |order| ==> order[i] in order;
      ReadKeepsInv(s, AfterListOverdue(s, c, now, order), c);
    }
  }

  lemma StepKeepsInv(s: State, c: Client, a: Action)
    requires Inv(s)
    ensures Inv(Do(s, c, a))
  {
    var pc := s.Pc(c);
    match a
    case CreateTask(id) => if pc.Idle? { CreateKeepsInv(s, c, id); }
    case WriteAssign => if pc.Assigning? { WriteAssignKeepsInv(s, c); }
    case WriteClaim(uuid, expires) => if pc.Claiming? { WriteClaimKeepsInv(s, c, uuid, expires); }
    case InsertLease(succeeds) => if pc.Inserting? && pc.lease in s.claims { InsertLeaseKeepsInv(s, c, succeeds); }
    case ClearClaim => if pc.Clearing? && pc.lease in s.claims { ClearClaimKeepsInv(s, c); }
    case WriteReport => if pc.Reporting? { WriteReportKeepsInv(s, c); }
    case WritePreempt => if pc.Preempting? { WritePreemptKeepsInv(s, c); }
    case ReadLease => if pc.Releasing? || pc.Revoking? { ReadLeaseKeepsInv(s, c); }
    case WriteLease => if pc.ReleasingAt? || pc.RevokingAt? { WriteLeaseKeepsInv(s, c); }
    case ListOverdue(now, order) => if pc.Idle? { ListKeepsInv(s, c, now, order); }
    case _ => if pc.Idle? { ReadKeepsInv(s, Do(s, c, a), c); }
  }

  lemma {:induction false} RunKeepsInv(events: seq<Event>)
    ensures Inv(Run(events))
  {
    if events != [] {
      var last := events[|events| - 1];
      RunKeepsInv(events[..|events| - 1]);
      StepKeepsInv(Run(events[..|events| - 1]), last.client, last.action);
    }
  }

  // ---- What no statement takes back ---------------------------------------------

  /** The log only grows, rows only move on, a claim changes only by ending, once, and the
      leases go one way. */
  ghost predicate Onward(s: State, s': State) {
    s.log <= s'.log && RowsForward(s.rows, s'.rows) && ClaimsOnward(s, s') && LeasesOnward(s, s')
  }

  ghost predicate ClaimsOnward(s: State, s': State) {
    forall l :: l in s.claims ==>
      && l in s'.claims
      && s'.claims[l].(fate := s.claims[l].fate) == s.claims[l]
      && (s.claims[l].fate.Ended? ==> s'.claims[l] == s.claims[l])
  }

  /** An ended lease stays as it is, so does a missed one, and a lease that is there can
      no longer be missed. */
  ghost predicate LeasesOnward(s: State, s': State) {
    && s.missed <= s'.missed
    && (forall l :: l in s.leases ==>
          && l in s'.leases
          && (l in s'.missed <==> l in s.missed)
          && (s.leases[l].data.status != Active || l in s.missed ==> s'.leases[l] == s.leases[l]))
  }

  lemma OnwardOn(s: State, s': State, s'': State)
    requires Onward(s, s') && Onward(s', s'')
    ensures Onward(s, s'')
  {
  }

  lemma StepKeepsTheLog(s: State, c: Client, a: Action)
    ensures s.log <= Do(s, c, a).log
  {
  }

  lemma StepMovesRowForward(s: State, c: Client, a: Action, id: Id)
    requires id in s.rows
    ensures id in Do(s, c, a).rows && Follows(s.rows[id], Do(s, c, a).rows[id])
  {
  }

  predicate EndsAClaim(a: Action) {
    a.ClearClaim? || a.WriteReport? || a.WritePreempt?
  }

  lemma QuietStepMovesClaimsOnward(s: State, c: Client, a: Action)
    requires !EndsAClaim(a)
    ensures ClaimsOnward(s, Do(s, c, a))
  {
  }

  lemma EndingStepMovesClaimsOnward(s: State, c: Client, a: Action)
    requires Inv(s) && EndsAClaim(a)
    ensures ClaimsOnward(s, Do(s, c, a))
  {
    assert PcOk(s, c);
    match a
    case ClearClaim => if s.Pc(c).Clearing? { assert ClaimOk(s, s.Pc(c).lease); }
    case WriteReport => if s.Pc(c).Reporting? { ReportMovesClaimsOnward(s, c); }
    case WritePreempt => if s.Pc(c).Preempting? { PreemptMovesClaimsOnward(s, c); }
  }

  lemma ReportMovesClaimsOnward(s: State, c: Client)
    requires s.Pc(c).Reporting? && PcOk(s, c) && RowOk(s, s.Pc(c).id)
    ensures ClaimsOnward(s, AfterWriteReport(s, c))
  {
  }

  lemma PreemptMovesClaimsOnward(s: State, c: Client)
    requires s.Pc(c).Preempting? && PcOk(s, c)
    requires s.Pc(c).queue != [] ==> RowOk(s, s.Pc(c).queue[0].id)
    ensures ClaimsOnward(s, AfterWritePreempt(s, c))
  {
  }

  lemma StepMovesLeasesOnward(s: State, c: Client, a: Action)
    requires PcOk(s, c)
    ensures LeasesOnward(s, Do(s, c, a))
  {
  }

  /** Every statement of every client keeps the invariant and takes nothing back. */
  lemma Advance(s: State, c: Client, a: Action)
    requires Inv(s)
    ensures Inv(Do(s, c, a)) && Onward(s, Do(s, c, a))
  {
    StepKeepsInv(s, c, a);
    StepKeepsTheLog(s, c, a);
    forall id | id in s.rows ensures id in Do(s, c, a).rows && Follows(s.rows[id], Do(s, c, a).rows[id]) {
      StepMovesRowForward(s, c, a, id);
    }
    if EndsAClaim(a) {
      EndingStepMovesClaimsOnward(s, c, a);
    } else {
      QuietStepMovesClaimsOnward(s, c, a);
    }
    assert PcOk(s, c);
    StepMovesLeasesOnward(s, c, a);
  }
}
