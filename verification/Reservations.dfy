/** Route reservations: activation, escalation and intervention, by any number of
    concurrent clients (internal/routing/service.go, internal/store/window_repo.go). */
module Reservations {
  import opened Common
  import opened Optimistic
  import opened Domain
  import opened Timestamps
  import Itoa

  type Id = string

  /** A row of route_reservations. The times are read back from their columns, whole
      seconds in the zone of the request that made the row; `deadlineText` is the column. */
  datatype Reservation = Reservation(
    status: ReservationStatus, level: nat, assignee: string, party: Party,
    effective: Reading, deadline: Reading, deadlineText: string)

  type Table = map<Id, Row<Reservation>>

  /** Activation compares instants. */
  predicate IsDue(r: Reservation, now: Reading) {
    Nanos(r.effective) <= Nanos(now) < Nanos(r.deadline)
  }

  /** The listing of overdue rows compares the column with the text of the clock. */
  predicate IsOverdue(r: Reservation, nowText: string) {
    Less(r.deadlineText, nowText) && r.status in {Effective, Occupied, Escalated}
  }

  /** What windowCreate writes; the columns keep whole seconds. */
  function NewReservation(party: Party, effective: Reading, deadline: Reading): Reservation {
    Reservation(Allocated, 0, "", party, Truncated(effective), Truncated(deadline), Format(deadline))
  }

  /** The column says what the row's deadline is, to the second. */
  predicate AsStored(r: Reservation) {
    r.deadlineText == Format(r.deadline) && r.deadline.nanos == 0
  }

  function AssigneeOf(level: nat): string {
    if level == 0 then "" else "level-" + Itoa.Decimal(level) + "-assignee"
  }

  function EscalateParty(p: Party): Party {
    match p
    case OperationsDispatch => FieldEngineering
    case FieldEngineering => RobotOperations
    case RobotOperations => SafetyAudit
    case SafetyAudit => SafetyAudit
  }

  /** What an escalation read at level `level` sets: the party column is not among it. */
  function EscalatedFrom(r: Reservation, level: nat): Reservation {
    r.(status := Escalated, level := level + 1, assignee := AssigneeOf(level + 1))
  }

  datatype EscalationRecord = EscalationRecord(id: Id, fromLevel: nat, toLevel: nat)

  datatype Listed = Listed(id: Id, snapshot: Row<Reservation>)

  datatype Pc =
    | Idle
    | Forcing(id: Id, snapshot: Row<Reservation>, target: ReservationStatus)
    | Activating(queue: seq<Listed>)
    | Escalating(queue: seq<Listed>)
    | Recording(rec: EscalationRecord, queue: seq<Listed>)

  /** `lost` are records whose insert failed, `escalations` the won escalation writes,
      `parties` the party each row was created with. */
  datatype State = State(
    rows: Table,
    pcs: seq<Pc>,
    records: multiset<EscalationRecord>,
    lost: multiset<EscalationRecord>,
    escalations: multiset<Id>,
    parties: map<Id, Party>)
  {
    function To(c: nat, pc: Pc): State
      requires c < |pcs|
    {
      this.(pcs := pcs[c := pc])
    }
  }

  function Init(clients: nat): State {
    State(map[], seq(clients, _ => Idle), multiset{}, multiset{}, multiset{}, map[])
  }

  datatype Action =
    | Create(id: Id, party: Party, effective: Reading, deadline: Reading)
    | ReadToForce(id: Id, target: ReservationStatus)
    | ListAllocated(now: Reading, order: seq<Id>)
    | ListOverdue(nowText: string, order: seq<Id>)
    | Write
    | InsertRecord(succeeds: bool)

  function AfterCreate(s: State, id: Id, party: Party, effective: Reading, deadline: Reading): State {
    if id in s.rows || Nanos(deadline) <= Nanos(effective) then s
    else
      s.(rows := s.rows[id := Row(1, NewReservation(party, effective, deadline))], parties := s.parties[id := party])
  }

  function Snapshots(rows: Table, order: seq<Id>): seq<Listed>
    requires forall id :: id in order ==> id in rows
  {
    seq(|order|, i requires 0 <= i < |order| => Listed(order[i], rows[order[i]]))
  }

  /** Rows that ActivateEffective goes on to update. */
  predicate Activates(r: Reservation, now: Reading) {
    r.status == Allocated && IsDue(r, now)
  }

  function AfterListAllocated(s: State, c: nat, now: Reading, order: seq<Id>): State
    requires c < |s.pcs|
  {
    if forall id :: id in order ==> id in s.rows && Activates(s.rows[id].data, now)
    then s.To(c, Activating(Snapshots(s.rows, order)))
    else s
  }

  function AfterListOverdue(s: State, c: nat, nowText: string, order: seq<Id>): State
    requires c < |s.pcs|
  {
    if forall id :: id in order ==> id in s.rows && IsOverdue(s.rows[id].data, nowText)
    then s.To(c, Escalating(Snapshots(s.rows, order)))
    else s
  }

  function AfterForce(s: State, c: nat): State
    requires c < |s.pcs| && s.pcs[c].Forcing?
  {
    var Forcing(id, w, target) := s.pcs[c];
    if Matches(s.rows, id, w.version)
    then s.(rows := Put(s.rows, id, s.rows[id].data.(status := target))).To(c, Idle)
    else s.To(c, Idle)
  }

  function AfterActivate(s: State, c: nat): State
    requires c < |s.pcs| && s.pcs[c].Activating?
  {
    var queue := s.pcs[c].queue;
    if queue == [] then s.To(c, Idle) else
    var Listed(id, w) := queue[0];
    if Matches(s.rows, id, w.version)
    then s.(rows := Put(s.rows, id, s.rows[id].data.(status := Effective))).To(c, Activating(queue[1..]))
    else s.To(c, Activating(queue[1..]))
  }

  function AfterEscalate(s: State, c: nat): State
    requires c < |s.pcs| && s.pcs[c].Escalating?
  {
    var queue := s.pcs[c].queue;
    if queue == [] then s.To(c, Idle) else
    var Listed(id, w) := queue[0];
    if Matches(s.rows, id, w.version)
    then s.(rows := Put(s.rows, id, EscalatedFrom(s.rows[id].data, w.data.level)),
            escalations := s.escalations + multiset{id})
          .To(c, Recording(EscalationRecord(id, w.data.level, w.data.level + 1), queue[1..]))
    else s.To(c, Escalating(queue[1..]))
  }

  function AfterInsertRecord(s: State, c: nat, succeeds: bool): State
    requires c < |s.pcs| && s.pcs[c].Recording?
  {
    var Recording(rec, queue) := s.pcs[c];
    s.(records := if succeeds then s.records + multiset{rec} else s.records,
       lost := if succeeds then s.lost else s.lost + multiset{rec}).To(c, Escalating(queue))
  }

  /** Client `c` runs its next statement; a statement that is not its next one is not run. */
  function Do(s: State, c: nat, a: Action): State {
    if c >= |s.pcs| then s else
    var pc := s.pcs[c];
    match a
    case Create(id, party, effective, deadline) =>
      if pc.Idle? then AfterCreate(s, id, party, effective, deadline) else s
    case ReadToForce(id, target) =>
      if pc.Idle? && id in s.rows && target in ReservationTargets(s.rows[id].data.status)
      then s.To(c, Forcing(id, s.rows[id], target)) else s
    case ListAllocated(now, order) => if pc.Idle? then AfterListAllocated(s, c, now, order) else s
    case ListOverdue(nowText, order) => if pc.Idle? then AfterListOverdue(s, c, nowText, order) else s
    case Write =>
      if pc.Forcing? then AfterForce(s, c)
      else if pc.Activating? then AfterActivate(s, c)
      else if pc.Escalating? then AfterEscalate(s, c)
      else s
    case InsertRecord(succeeds) => if pc.Recording? then AfterInsertRecord(s, c, succeeds) else s
  }

  datatype Event = Event(client: nat, action: Action)

  /** A whole run, from the empty database, under the given schedule. */
  function Run(clients: nat, events: seq<Event>): (s: State)
    ensures |s.pcs| == clients
  {
    if events == [] then Init(clients)
    else
      var last := events[|events| - 1];
      Do(Run(clients, events[..|events| - 1]), last.client, last.action)
  }

  // ---- The ladder of records ---------------------------------------------------

  function RecordOf(pc: Pc): multiset<EscalationRecord> {
    if pc.Recording? then multiset{pc.rec} else multiset{}
  }

  /** Records that clients have still to insert. */
  function InFlight(pcs: seq<Pc>): multiset<EscalationRecord> {
    if pcs == [] then multiset{} else RecordOf(pcs[0]) + InFlight(pcs[1..])
  }

  lemma {:induction false} InFlightAfterUpdate(pcs: seq<Pc>, c: nat, pc: Pc, rec: EscalationRecord)
    requires c < |pcs|
    ensures InFlight(pcs[c := pc])[rec] + RecordOf(pcs[c])[rec] == InFlight(pcs)[rec] + RecordOf(pc)[rec]
  {
    if c > 0 {
      InFlightAfterUpdate(pcs[1..], c - 1, pc, rec);
      assert pcs[c := pc][1..] == pcs[1..][c - 1 := pc];
    } else {
      assert pcs[c := pc][1..] == pcs[1..];
    }
  }

  lemma {:induction false} NothingInFlight(pcs: seq<Pc>)
    requires forall c :: 0 <= c < |pcs| ==> !pcs[c].Recording?
    ensures InFlight(pcs) == multiset{}
  {
    if pcs != [] {
      assert !pcs[0].Recording?;
      forall c | 0 <= c < |pcs| - 1 ensures !pcs[1..][c].Recording? {
        assert pcs[1..][c] == pcs[c + 1];
      }
      NothingInFlight(pcs[1..]);
    }
  }

  /** (0,1), (1,2), ..., (level-1, level) for the row, each once, and nothing else. */
  predicate OnLadder(rows: Table, rec: EscalationRecord) {
    rec.id in rows && rec.toLevel == rec.fromLevel + 1 && rec.toLevel <= rows[rec.id].data.level
  }

  ghost predicate LadderOk(s: State, rec: EscalationRecord) {
    (s.records + s.lost + InFlight(s.pcs))[rec] == if OnLadder(s.rows, rec) then 1 else 0
  }

  predicate QueueOk(s: State, queue: seq<Listed>) {
    forall i :: 0 <= i < |queue| ==> queue[i].id in s.rows && SnapshotOf(queue[i].snapshot, s.rows[queue[i].id])
  }

  predicate PcOk(s: State, pc: Pc) {
    match pc
    case Idle => true
    case Forcing(id, w, target) => id in s.rows && SnapshotOf(w, s.rows[id])
      && target in ReservationTargets(w.data.status)
    case Activating(queue) => QueueOk(s, queue) && forall i :: 0 <= i < |queue| ==>
      queue[i].snapshot.data.status == Allocated
    case Escalating(queue) => QueueOk(s, queue) && forall i :: 0 <= i < |queue| ==>
      queue[i].snapshot.data.status in {Effective, Occupied, Escalated}
    case Recording(_, queue) => QueueOk(s, queue) && forall i :: 0 <= i < |queue| ==>
      queue[i].snapshot.data.status in {Effective, Occupied, Escalated}
  }

  predicate RowOk(s: State, id: Id) {
    if id in s.rows then
      var r := s.rows[id].data;
      && r.assignee == AssigneeOf(r.level)
      && s.escalations[id] == r.level
      && id in s.parties && r.party == s.parties[id]
    else
      s.escalations[id] == 0
  }

  ghost predicate Inv(s: State) {
    && (forall c :: 0 <= c < |s.pcs| ==> PcOk(s, s.pcs[c]))
    && (forall id :: RowOk(s, id))
    && (forall rec :: LadderOk(s, rec))
  }

  predicate Moved(r: Row<Reservation>, r': Row<Reservation>) {
    r' == r || r.version < r'.version
  }

  function Rung(rows: Table, rec: EscalationRecord): nat {
    if OnLadder(rows, rec) then 1 else 0
  }

  /** A client moved: what it added to the records is what the ladder gained. */
  ghost predicate Balanced(s: State, s': State, was: Pc, pc: Pc, rec: EscalationRecord) {
    s'.records[rec] + s'.lost[rec] + RecordOf(pc)[rec] + Rung(s.rows, rec)
      == s.records[rec] + s.lost[rec] + RecordOf(was)[rec] + Rung(s'.rows, rec)
  }

  lemma LadderStaysOk(s: State, s': State, c: nat, pc: Pc, rec: EscalationRecord)
    requires LadderOk(s, rec) && c < |s.pcs| && s'.pcs == s.pcs[c := pc] && Balanced(s, s', s.pcs[c], pc, rec)
    ensures LadderOk(s', rec)
  {
    InFlightAfterUpdate(s.pcs, c, pc, rec);
  }

  lemma MoveKeepsInv(s: State, s': State, c: nat, pc: Pc)
    requires Inv(s) && c < |s.pcs| && s'.pcs == s.pcs[c := pc] && PcOk(s', pc)
    requires forall id :: id in s.rows ==> id in s'.rows && Moved(s.rows[id], s'.rows[id])
    requires forall id :: RowOk(s', id)
    requires forall rec :: Balanced(s, s', s.pcs[c], pc, rec)
    ensures Inv(s')
  {
    forall d | 0 <= d < |s'.pcs| ensures PcOk(s', s'.pcs[d]) {
      if d != c {
        assert PcOk(s, s.pcs[d]);
      }
    }
    forall rec ensures LadderOk(s', rec) {
      assert LadderOk(s, rec);
      assert Balanced(s, s', s.pcs[c], pc, rec);
      LadderStaysOk(s, s', c, pc, rec);
    }
  }

  lemma CreateKeepsInv(s: State, id: Id, party: Party, effective: Reading, deadline: Reading)
    requires Inv(s)
    ensures Inv(AfterCreate(s, id, party, effective, deadline))
  {
    if id !in s.rows && Nanos(effective) < Nanos(deadline) {
      NewRowKeepsInv(s, id, NewReservation(party, effective, deadline));
    }
  }

  lemma NewRowKeepsInv(s: State, id: Id, r: Reservation)
    requires Inv(s) && id !in s.rows && r.level == 0 && r.assignee == ""
    ensures Inv(s.(rows := s.rows[id := Row(1, r)], parties := s.parties[id := r.party]))
  {
    var s' := s.(rows := s.rows[id := Row(1, r)], parties := s.parties[id := r.party]);
    forall d | 0 <= d < |s'.pcs| ensures PcOk(s', s'.pcs[d]) {
      assert PcOk(s, s.pcs[d]);
    }
    forall i ensures RowOk(s', i) {
      assert RowOk(s, i);
    }
    forall rec ensures LadderOk(s', rec) {
      assert LadderOk(s, rec);
    }
  }

  lemma ReadKeepsInv(s: State, c: nat, pc: Pc)
    requires Inv(s) && c < |s.pcs| && PcOk(s, pc) && RecordOf(pc) == RecordOf(s.pcs[c])
    ensures Inv(s.To(c, pc))
  {
    forall id ensures RowOk(s.To(c, pc), id) {
      assert RowOk(s, id);
    }
    MoveKeepsInv(s, s.To(c, pc), c, pc);
  }

  lemma StatusWriteKeepsInv(s: State, c: nat)
    requires Inv(s) && c < |s.pcs| && (s.pcs[c].Forcing? || s.pcs[c].Activating?)
    ensures Inv(Do(s, c, Write))
  {
    var s' := Do(s, c, Write);
    assert PcOk(s, s.pcs[c]);
    forall id ensures RowOk(s', id) {
      assert RowOk(s, id);
    }
    MoveKeepsInv(s, s', c, s'.pcs[c]);
  }

  lemma WonEscalationKeepsInv(s: State, c: nat)
    requires Inv(s) && c < |s.pcs| && s.pcs[c].Escalating? && s.pcs[c].queue != []
    requires Matches(s.rows, s.pcs[c].queue[0].id, s.pcs[c].queue[0].snapshot.version)
    ensures Inv(AfterEscalate(s, c))
  {
    var s' := AfterEscalate(s, c);
    var Listed(id, w) := s.pcs[c].queue[0];
    assert PcOk(s, s.pcs[c]);
    assert s.rows[id] == w;
    forall i ensures RowOk(s', i) {
      assert RowOk(s, i);
    }
    var rec0 := EscalationRecord(id, w.data.level, w.data.level + 1);
    forall rec ensures OnLadder(s'.rows, rec) <==> OnLadder(s.rows, rec) || rec == rec0 {
    }
    MoveKeepsInv(s, s', c, s'.pcs[c]);
  }

  lemma InsertRecordKeepsInv(s: State, c: nat, succeeds: bool)
    requires Inv(s) && c < |s.pcs| && s.pcs[c].Recording?
    ensures Inv(AfterInsertRecord(s, c, succeeds))
  {
    var s' := AfterInsertRecord(s, c, succeeds);
    assert PcOk(s, s.pcs[c]);
    forall i ensures RowOk(s', i) {
      assert RowOk(s, i);
    }
    MoveKeepsInv(s, s', c, s'.pcs[c]);
  }

  lemma ListingKeepsInv(s: State, c: nat, a: Action)
    requires Inv(s) && c < |s.pcs| && s.pcs[c].Idle? && (a.ReadToForce? || a.ListAllocated? || a.ListOverdue?)
    ensures Inv(Do(s, c, a))
  {
    if !a.ReadToForce? {
      assert forall i :: 0 <= i < |a.order| ==> a.order[i] in a.order;
    }
    if Do(s, c, a) != s {
      ReadKeepsInv(s, c, Do(s, c, a).pcs[c]);
    }
  }

  lemma EscalateKeepsInv(s: State, c: nat)
    requires Inv(s) && c < |s.pcs| && s.pcs[c].Escalating?
    ensures Inv(Do(s, c, Write))
  {
    var pc := s.pcs[c];
    assert PcOk(s, pc);
    if pc.queue != [] && Matches(s.rows, pc.queue[0].id, pc.queue[0].snapshot.version) {
      WonEscalationKeepsInv(s, c);
    } else {
      ReadKeepsInv(s, c, AfterEscalate(s, c).pcs[c]);
    }
  }

  lemma StepKeepsInv(s: State, c: nat, a: Action)
    requires Inv(s)
    ensures Inv(Do(s, c, a))
  {
    if c < |s.pcs| {
      var pc := s.pcs[c];
      match a
      case Create(id, party, effective, deadline) => if pc.Idle? { CreateKeepsInv(s, id, party, effective, deadline); }
      case Write =>
        if pc.Forcing? || pc.Activating? {
          StatusWriteKeepsInv(s, c);
        } else if pc.Escalating? {
          EscalateKeepsInv(s, c);
        }
      case InsertRecord(succeeds) => if pc.Recording? { InsertRecordKeepsInv(s, c, succeeds); }
      case _ => if pc.Idle? { ListingKeepsInv(s, c, a); }
    }
  }

  lemma {:induction false} RunKeepsInv(clients: nat, events: seq<Event>)
    ensures Inv(Run(clients, events))
  {
    if events == [] {
      NothingInFlight(Init(clients).pcs);
    } else {
      var last := events[|events| - 1];
      RunKeepsInv(clients, events[..|events| - 1]);
      StepKeepsInv(Run(clients, events[..|events| - 1]), last.client, last.action);
    }
  }

  // ---- The results -----------------------------------------------------------------

  /** The level of a reservation counts its escalations, and names its assignee. */
  lemma LevelCountsEscalations(clients: nat, events: seq<Event>, id: Id)
    requires id in Run(clients, events).rows
    ensures var s := Run(clients, events);
      s.rows[id].data.level == s.escalations[id] && s.rows[id].data.assignee == AssigneeOf(s.rows[id].data.level)
  {
    RunKeepsInv(clients, events);
    assert RowOk(Run(clients, events), id);
  }

  /** Stored records, records in flight and records whose insert failed together hold
      each step (i, i+1) below the level exactly once, and no other record. */
  lemma RecordsFormTheLadder(clients: nat, events: seq<Event>, rec: EscalationRecord)
    ensures var s := Run(clients, events);
      (s.records + s.lost + InFlight(s.pcs))[rec] == if OnLadder(s.rows, rec) then 1 else 0
  {
    RunKeepsInv(clients, events);
    assert LadderOk(Run(clients, events), rec);
  }

  /** With no failed insert and every client between calls, the stored records are the ladder. */
  lemma AtRestTheStoredRecordsAreTheLadder(clients: nat, events: seq<Event>, rec: EscalationRecord)
    requires Run(clients, events).lost == multiset{}
    requires forall c :: 0 <= c < clients ==> Run(clients, events).pcs[c].Idle?
    ensures Run(clients, events).records[rec] == if OnLadder(Run(clients, events).rows, rec) then 1 else 0
  {
    RecordsFormTheLadder(clients, events, rec);
    NothingInFlight(Run(clients, events).pcs);
  }

  /** One statement: a row keeps its status or moves along an edge of the table, save that
      an escalated row may be escalated again; its level stays, or rises by one with an
      escalation; its party and its times never change. */
  ghost predicate LegalMove(r: Reservation, r': Reservation) {
    && (r'.status == r.status || r'.status in ReservationTargets(r.status))
    && (r'.level == r.level || (r'.level == r.level + 1 && r'.status == Escalated))
    && r'.party == r.party && r'.effective == r.effective && r'.deadline == r.deadline
      && r'.deadlineText == r.deadlineText
  }

  ghost predicate MovesLegally(s: State, s': State, id: Id) {
    && id in s.rows && id in s'.rows && LegalMove(s.rows[id].data, s'.rows[id].data)
    && (s'.rows[id].data.status == s.rows[id].data.status ==>
          s'.rows[id] == s.rows[id] || s.rows[id].data.status == Escalated)
  }

  lemma WriteMovesLegally(s: State, c: nat, id: Id)
    requires id in s.rows && c < |s.pcs| && PcOk(s, s.pcs[c])
    ensures MovesLegally(s, Do(s, c, Write), id)
  {
  }

  lemma OthersMoveNoRow(s: State, c: nat, a: Action, id: Id)
    requires !a.Write? && id in s.rows
    ensures id in Do(s, c, a).rows && Do(s, c, a).rows[id] == s.rows[id]
  {
  }

  lemma StepMovesLegally(s: State, c: nat, a: Action, id: Id)
    requires id in s.rows && (c < |s.pcs| ==> PcOk(s, s.pcs[c]))
    ensures MovesLegally(s, Do(s, c, a), id)
  {
    if a.Write? && c < |s.pcs| {
      WriteMovesLegally(s, c, id);
    } else if !a.Write? {
      OthersMoveNoRow(s, c, a, id);
    }
  }

  lemma StatementsMoveLegally(clients: nat, events: seq<Event>, c: nat, a: Action, id: Id)
    requires id in Run(clients, events).rows
    ensures var s := Run(clients, events); var s' := Do(s, c, a);
      && id in s'.rows && LegalMove(s.rows[id].data, s'.rows[id].data)
      && (s'.rows[id].data.status == s.rows[id].data.status ==>
        s'.rows[id] == s.rows[id] || s.rows[id].data.status == Escalated)
  {
    RunKeepsInv(clients, events);
    var s := Run(clients, events);
    assert RowOk(s, id);
    StepMovesLegally(s, c, a, id);
  }

  lemma NewReservationsAreStored(party: Party, effective: Reading, deadline: Reading)
    ensures AsStored(NewReservation(party, effective, deadline))
  {
    assert Format(Truncated(deadline)) == Format(deadline);
  }

  /** In every reachable row the column says what the deadline is, and parseTime makes
      that deadline of it again. */
  lemma {:induction false} TimesAreAsStored(clients: nat, events: seq<Event>, id: Id)
    requires id in Run(clients, events).rows
    ensures var r := Run(clients, events).rows[id].data;
      AsStored(r) && ParseTime(r.deadlineText) == r.deadline
  {
    if events != [] {
      var front, last := events[..|events| - 1], events[|events| - 1];
      if id in Run(clients, front).rows {
        TimesAreAsStored(clients, front, id);
        StatementsMoveLegally(clients, front, last.client, last.action, id);
      } else {
        StepStores(Run(clients, front), last.client, last.action, id);
      }
      FormatReadsBack(Run(clients, events).rows[id].data.deadline);
    }
  }

  lemma StepStores(s: State, c: nat, a: Action, id: Id)
    requires id !in s.rows && id in Do(s, c, a).rows
    ensures AsStored(Do(s, c, a).rows[id].data)
  {
    assert a.Create?;
    NewReservationsAreStored(a.party, a.effective, a.deadline);
  }

  /** The level of `id` has not fallen and its party has not moved from `s` to `s'`; if its
      status was final, its whole row is the same. */
  ghost predicate NeverFell(s: State, s': State, id: Id) {
    id in s.rows ==>
      && id in s'.rows
      && s.rows[id].data.level <= s'.rows[id].data.level
      && s.rows[id].data.party == s'.rows[id].data.party
      && (ReservationTargets(s.rows[id].data.status) == {} ==> s'.rows[id] == s.rows[id])
  }

  lemma NeverFellFurther(s: State, s': State, s'': State, id: Id)
    requires NeverFell(s, s', id) && NeverFell(s', s'', id)
    ensures NeverFell(s, s'', id)
  {
  }

  lemma NextNeverFalls(clients: nat, events: seq<Event>, e: Event, id: Id)
    ensures NeverFell(Run(clients, events), Run(clients, events + [e]), id)
  {
    assert (events + [e])[..|events|] == events;
    if id in Run(clients, events).rows {
      StatementsMoveLegally(clients, events, e.client, e.action, id);
    }
  }

  /** Levels never fall and the responsible party never moves, however the run goes on; a
      released, expired or cancelled reservation keeps its whole row. */
  lemma {:induction false} LevelsNeverFall(clients: nat, events: seq<Event>, more: seq<Event>, id: Id)
    ensures NeverFell(Run(clients, events), Run(clients, events + more), id)
    decreases |more|
  {
    if more == [] {
      assert events + more == events;
    } else {
      var next := events + [more[0]];
      assert events + more == next + more[1..];
      NextNeverFalls(clients, events, more[0], id);
      LevelsNeverFall(clients, next, more[1..], id);
      NeverFellFurther(Run(clients, events), Run(clients, next), Run(clients, next + more[1..]), id);
    }
  }
}
