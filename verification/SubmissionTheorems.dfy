/** Admission and idempotency, for every schedule of the clients. */
module SubmissionTheorems {
  import opened Common
  import opened Optimistic
  import opened Quotas
  import opened Submission

  // ---- Each statement keeps the invariant ------------------------------------

  /** The quota table moves forward and the missions only grow. */
  ghost predicate Forward(s: State, s': State) {
    && (forall key :: key in s.quotas ==> key in s'.quotas && QuotaMoved(s.quotas[key], s'.quotas[key]))
    && s.missions <= s'.missions
  }

  predicate QuotaMoved(q: Row<Quota>, q': Row<Quota>) {
    q' == q || q.version < q'.version
  }

  lemma BackedStays(missions: seq<Mission>, missions': seq<Mission>, idemKey: string, answer: Answer)
    requires missions <= missions' && Backed(missions, idemKey, answer)
    ensures Backed(missions', idemKey, answer)
  {
    if answer.Created? {
      var i :| 0 <= i < |missions| && missions[i].idemKey == idemKey && missions[i].id == answer.mission;
      assert missions'[i] == missions[i];
    }
  }

  lemma PcStaysOk(s: State, s': State, pc: Pc)
    requires Forward(s, s') && PcOk(s, pc)
    ensures PcOk(s', pc)
  {
    if pc.Caching? {
      BackedStays(s.missions, s'.missions, pc.req.idemKey, pc.answer);
    }
  }

  /** The answers given out so far stay true. */
  lemma AnswersStayBacked(s: State, s': State)
    requires Inv(s) && Forward(s, s') && s'.records == s.records && s'.replies == s.replies
    ensures forall k :: k in s'.records ==> Backed(s'.missions, k, s'.records[k].answer)
    ensures forall i :: 0 <= i < |s'.replies| ==> Backed(s'.missions, s'.replies[i].idemKey, s'.replies[i].answer)
  {
    forall k | k in s.records ensures Backed(s'.missions, k, s.records[k].answer) {
      BackedStays(s.missions, s'.missions, k, s.records[k].answer);
    }
    forall i | 0 <= i < |s.replies| ensures Backed(s'.missions, s.replies[i].idemKey, s.replies[i].answer) {
      BackedStays(s.missions, s'.missions, s.replies[i].idemKey, s.replies[i].answer);
    }
  }

  /** A client moved to `pc`; the books of its own row balance, the other rows stay. */
  lemma MoveKeepsInv(s: State, s': State, c: nat, pc: Pc)
    requires Inv(s) && c < |s.pcs| && s'.pcs == s.pcs[c := pc]
    requires Forward(s, s') && PcOk(s', pc)
    requires s'.records == s.records && s'.replies == s.replies && s'.released == s.released
    requires forall i, j :: 0 <= i < j < |s'.missions| && s'.missions[i].idemKey == s'.missions[j].idemKey ==>
      s'.missions[i].idemKey == ""
    requires forall key :: CoveredAfter(s, s', c, pc, key)
    ensures Inv(s')
  {
    AnswersStayBacked(s, s');
    forall d | 0 <= d < |s'.pcs| ensures PcOk(s', s'.pcs[d]) {
      if d != c {
        assert PcOk(s, s.pcs[d]);
        PcStaysOk(s, s', s.pcs[d]);
      }
    }
    forall key ensures Covered(s', key) {
      assert Covered(s, key) && CoveredAfter(s, s', c, pc, key);
      OwedAfterUpdate(s.pcs, c, pc, key);
    }
  }

  /** What the row of `key` must hold once the client has moved. */
  predicate CoveredAfter(s: State, s': State, c: nat, pc: Pc, key: Key)
    requires c < |s.pcs|
  {
    var owed := Owed(s.pcs, key) - OwedBy(s.pcs[c], key) + OwedBy(pc, key);
    if key in s'.quotas then
      var q := s'.quotas[key].data;
      && s'.quotas[key].version >= 1 && InBounds(q)
      && Energy(s'.missions, key) + owed <= q.used + q.reserved + ReleasedOn(s', key)
    else
      Energy(s'.missions, key) + owed <= 0 && ReleasedOn(s', key) == 0
  }

  /** Statements that only read, and give back or promise no units. */
  lemma ReadKeepsInv(s: State, c: nat, pc: Pc)
    requires Inv(s) && c < |s.pcs| && PcOk(s, pc)
    requires forall key :: OwedBy(pc, key) == OwedBy(s.pcs[c], key)
    ensures Inv(s.To(c, pc))
  {
    forall key ensures CoveredAfter(s, s.To(c, pc), c, pc, key) {
      assert Covered(s, key);
    }
    MoveKeepsInv(s, s.To(c, pc), c, pc);
  }

  lemma SubmitKeepsInv(s: State, c: nat, req: Request, now: int)
    requires Inv(s) && c < |s.pcs| && s.pcs[c].Idle?
    ensures Inv(AfterSubmit(s, c, req, now))
  {
    if req.energy > 0 {
      if IsFresh(s, req.idemKey, now) {
        assert Backed(s.missions, req.idemKey, s.records[req.idemKey].answer);
        ReplyKeepsInv(s, s.(replies := s.replies + [Reply(req.idemKey, s.records[req.idemKey].answer)]));
      } else {
        ReadKeepsInv(s, c, Selecting(req, 0));
      }
    }
  }

  lemma ReplyKeepsInv(s: State, s': State)
    requires Inv(s) && s' == s.(replies := s'.replies) && |s'.replies| == |s.replies| + 1 && s.replies <= s'.replies
    requires var last := s'.replies[|s.replies|]; Backed(s.missions, last.idemKey, last.answer)
    ensures Inv(s')
  {
    forall key ensures Covered(s', key) {
      assert Covered(s, key);
    }
    forall d | 0 <= d < |s'.pcs| ensures PcOk(s', s'.pcs[d]) {
      assert PcOk(s, s.pcs[d]);
    }
  }

  lemma InsertKeepsInv(s: State, c: nat)
    requires Inv(s) && c < |s.pcs| && s.pcs[c].Inserting?
    ensures Inv(AfterInsert(s, c))
  {
    var Inserting(req, attempt) := s.pcs[c];
    assert PcOk(s, s.pcs[c]);
    if req.key in s.quotas {
      ReadKeepsInv(s, c, Selecting(req, attempt));
    } else {
      var s' := AfterInsert(s, c);
      forall key ensures CoveredAfter(s, s', c, s'.pcs[c], key) {
        assert Covered(s, key);
      }
      MoveKeepsInv(s, s', c, s'.pcs[c]);
    }
  }

  lemma ReserveKeepsInv(s: State, c: nat, locked: bool)
    requires Inv(s) && c < |s.pcs| && s.pcs[c].Reserving?
    ensures Inv(AfterReserve(s, c, locked))
  {
    var s' := AfterReserve(s, c, locked);
    assert PcOk(s, s.pcs[c]);
    forall key ensures CoveredAfter(s, s', c, s'.pcs[c], key) {
      assert Covered(s, key);
    }
    MoveKeepsInv(s, s', c, s'.pcs[c]);
  }

  lemma CreateKeepsInv(s: State, c: nat, id: Id, succeeds: bool)
    requires Inv(s) && c < |s.pcs| && s.pcs[c].Creating?
    ensures Inv(AfterCreate(s, c, id, succeeds))
  {
    var Creating(req, q) := s.pcs[c];
    var s' := AfterCreate(s, c, id, succeeds);
    assert PcOk(s, s.pcs[c]);
    if succeeds && !KeyTaken(s.missions, req.idemKey) {
      var n := |s.missions|;
      assert s'.missions[..n] == s.missions;
      assert s'.missions[n].idemKey == req.idemKey && s'.missions[n].id == id;
      forall key ensures CoveredAfter(s, s', c, s'.pcs[c], key) {
        assert Covered(s, key);
      }
      MoveKeepsInv(s, s', c, s'.pcs[c]);
    } else {
      ReadKeepsInv(s, c, RollingBack(req, q));
    }
  }

  lemma RollbackKeepsInv(s: State, c: nat)
    requires Inv(s) && c < |s.pcs| && s.pcs[c].RollingBack?
    ensures Inv(AfterRollback(s, c))
  {
    var s' := AfterRollback(s, c);
    assert PcOk(s, s.pcs[c]);
    forall key ensures CoveredAfter(s, s', c, Idle, key) {
      assert Covered(s, key);
    }
    MoveKeepsInv(s, s', c, Idle);
  }

  lemma CacheKeepsInv(s: State, c: nat, now: int)
    requires Inv(s) && c < |s.pcs| && s.pcs[c].Caching?
    ensures Inv(AfterCache(s, c, now))
  {
    var s' := AfterCache(s, c, now);
    assert PcOk(s, s.pcs[c]);
    ReadKeepsInv(s, c, Idle);
    var s1 := s.To(c, Idle);
    forall key ensures Covered(s', key) {
      assert Covered(s1, key);
    }
    forall d | 0 <= d < |s'.pcs| ensures PcOk(s', s'.pcs[d]) {
      assert PcOk(s1, s1.pcs[d]);
    }
  }

  lemma QuotaCallKeepsCovered(s: State, st: Statement, key: Key)
    requires Covered(s, key)
    ensures Covered(AfterQuotaCall(s, st), key)
  {
  }

  lemma QuotaCallMovesForward(s: State, st: Statement)
    ensures Forward(s, AfterQuotaCall(s, st))
  {
  }

  lemma QuotaCallKeepsInv(s: State, st: Statement)
    requires Inv(s)
    ensures Inv(AfterQuotaCall(s, st))
  {
    var s' := AfterQuotaCall(s, st);
    forall key ensures Covered(s', key) {
      assert Covered(s, key);
      QuotaCallKeepsCovered(s, st, key);
    }
    QuotaCallMovesForward(s, st);
    forall d | 0 <= d < |s'.pcs| ensures PcOk(s', s'.pcs[d]) {
      assert PcOk(s, s.pcs[d]);
      PcStaysOk(s, s', s.pcs[d]);
    }
    AnswersStayBacked(s, s');
  }

  lemma StepKeepsInv(s: State, c: nat, a: Action)
    requires Inv(s)
    ensures Inv(Do(s, c, a))
  {
    if c < |s.pcs| {
      var pc := s.pcs[c];
      assert PcOk(s, pc);
      match a
      case Submit(req, now) => if pc.Idle? { SubmitKeepsInv(s, c, req, now); }
      case SelectQuota => if pc.Selecting? { ReadKeepsInv(s, c, AfterSelect(s, c).pcs[c]); }
      case InsertQuota => if pc.Inserting? { InsertKeepsInv(s, c); }
      case ReserveQuota(locked) => if pc.Reserving? { ReserveKeepsInv(s, c, locked); }
      case Reread => if pc.Rereading? && pc.req.key in s.quotas { ReadKeepsInv(s, c, AfterReread(s, c).pcs[c]); }
      case CreateMission(id, succeeds) => if pc.Creating? { CreateKeepsInv(s, c, id, succeeds); }
      case Rollback => if pc.RollingBack? { RollbackKeepsInv(s, c); }
      case Cache(now) => if pc.Caching? { CacheKeepsInv(s, c, now); }
      case QuotaCall(st) => QuotaCallKeepsInv(s, st);
    }
  }

  lemma {:induction false} RunKeepsInv(clients: nat, events: seq<Event>)
    ensures Inv(Run(clients, events))
  {
    if events == [] {
      forall key ensures Covered(Init(clients), key) {
        IdleOwesNothing(Init(clients).pcs, key);
      }
    } else {
      var last := events[|events| - 1];
      RunKeepsInv(clients, events[..|events| - 1]);
      StepKeepsInv(Run(clients, events[..|events| - 1]), last.client, last.action);
    }
  }

  // ---- Admission -----------------------------------------------------------------

  predicate IsRelease(e: Event) {
    e.action.QuotaCall? && e.action.statement.Release?
  }

  lemma {:induction false} NothingReleased(clients: nat, events: seq<Event>, key: Key)
    requires forall i :: 0 <= i < |events| ==> !IsRelease(events[i])
    ensures ReleasedOn(Run(clients, events), key) == 0
  {
    if events != [] {
      assert !IsRelease(events[|events| - 1]);
      NothingReleased(clients, events[..|events| - 1], key);
    }
  }

  /** The limit of the row for `key`; no row, no units. */
  function LimitOf(s: State, key: Key): int {
    if key in s.quotas && s.quotas[key].data.limit > 0 then s.quotas[key].data.limit else 0
  }

  /** The energy of all missions created on a row never exceeds its daily limit plus what
      the quota service gave back on it, failed inserts and rollbacks included. */
  lemma AdmissionBound(clients: nat, events: seq<Event>, key: Key)
    ensures var s := Run(clients, events);
      Energy(s.missions, key) <= LimitOf(s, key) + ReleasedOn(s, key)
  {
    RunKeepsInv(clients, events);
    var s := Run(clients, events);
    assert Covered(s, key);
    forall c | 0 <= c < |s.pcs| && !s.pcs[c].Idle? ensures s.pcs[c].req.energy > 0 {
      assert PcOk(s, s.pcs[c]);
    }
    OwedIsPositive(s.pcs, key);
  }

  /** Without manual releases the limit itself is the bound. */
  lemma AdmissionNeverExceedsTheLimit(clients: nat, events: seq<Event>, key: Key)
    requires forall i :: 0 <= i < |events| ==> !IsRelease(events[i])
    ensures Energy(Run(clients, events).missions, key) <= LimitOf(Run(clients, events), key)
  {
    NothingReleased(clients, events, key);
    AdmissionBound(clients, events, key);
  }

  // ---- A call nobody disturbs ------------------------------------------------------

  /** Statements of one client, back to back; those its course skips are not run. */
  function Perform(s: State, c: nat, actions: seq<Action>): State
    decreases |actions|
  {
    if actions == [] then s else Perform(Do(s, c, actions[0]), c, actions[1..])
  }

  lemma {:induction false} PerformParts(s: State, c: nat, a: seq<Action>, b: seq<Action>)
    ensures Perform(s, c, a + b) == Perform(Perform(s, c, a), c, b)
    decreases |a|
  {
    if a == [] {
      assert a + b == b;
    } else {
      PerformParts(Do(s, c, a[0]), c, a[1..], b);
      assert (a + b)[1..] == a[1..] + b;
    }
  }

  lemma PerformTwo(s: State, c: nat, a: Action, b: Action)
    ensures Perform(s, c, [a, b]) == Do(Do(s, c, a), c, b)
  {
    assert [a, b][1..] == [b];
    assert Perform(Do(s, c, a), c, [b]) == Do(Do(s, c, a), c, b);
  }

  function Selection(req: Request, now: int): seq<Action> {
    [Submit(req, now), SelectQuota] + [InsertQuota]
  }

  function Reservation(): seq<Action> {
    [ReserveQuota(false), Reread]
  }

  function Creation(now: int, id: Id): seq<Action> {
    [CreateMission(id, true), Rollback] + [Cache(now)]
  }

  function Alone(s: State, c: nat, req: Request, now: int, id: Id): State {
    Perform(s, c, Selection(req, now) + (Reservation() + Creation(now, id)))
  }

  function RowFor(s: State, req: Request): Row<Quota> {
    if req.key in s.quotas then s.quotas[req.key] else Row(1, Quota(req.limit, 0, 0))
  }

  /** The row with the energy of one request reserved. */
  function Charged(row: Row<Quota>, req: Request): Row<Quota> {
    Row(row.version + 1, row.data.(reserved := row.data.reserved + req.energy))
  }

  /** The answer of a call: its record, unless the key has one, and its reply. */
  function Answered(s: State, req: Request, answer: Answer, now: int): State {
    s.(records := if req.idemKey == "" || req.idemKey in s.records then s.records
                  else s.records[req.idemKey := Record(answer, Stored(now + DAY))],
       replies := s.replies + [Reply(req.idemKey, answer)])
  }

  /** What a Submit that runs alone makes of all the tables. A fresh record answers. Else the
      remainder decides between a rejection and a charge; and a charge ends in a mission,
      queued when the row is then more than four fifths full, unless the key already has
      one: then nothing is made, recorded or answered, and the charge stays. */
  function AfterAlone(s: State, req: Request, now: int, id: Id): State {
    if req.energy <= 0 then
      s
    else if IsFresh(s, req.idemKey, now) then
      s.(replies := s.replies + [Reply(req.idemKey, s.records[req.idemKey].answer)])
    else
      var row := RowFor(s, req);
      var charged := Charged(row, req);
      var queued := 5 * (charged.data.used + charged.data.reserved) > 4 * charged.data.limit;
      if row.data.limit - row.data.used - row.data.reserved < req.energy then
        Answered(s, req, NoQuota, now).(quotas := s.quotas[req.key := row])
      else if KeyTaken(s.missions, req.idemKey) then
        s.(quotas := s.quotas[req.key := charged])
      else
        Answered(s, req, Created(id, queued), now).(
          quotas := s.quotas[req.key := charged],
          missions := s.missions + [Mission(id, req.idemKey, req.key, req.energy, queued)])
  }

  lemma SubmitAlone(s: State, c: nat, req: Request, now: int, id: Id)
    requires Inv(s) && c < |s.pcs| && s.pcs[c].Idle?
    ensures Alone(s, c, req, now, id) == AfterAlone(s, req, now, id)
  {
    PerformParts(s, c, Selection(req, now), Reservation() + Creation(now, id));
    if req.energy <= 0 || IsFresh(s, req.idemKey, now) {
      AnswerAlone(s, c, req, now, id);
    } else if Remaining(RowFor(s, req).data) >= req.energy {
      assert Covered(s, req.key);
      AffordAlone(s, c, req, now, id);
    } else {
      TurnDownAlone(s, c, req, now, id);
    }
  }

  lemma AffordAlone(s: State, c: nat, req: Request, now: int, id: Id)
    requires c < |s.pcs| && s.pcs[c].Idle? && !IsFresh(s, req.idemKey, now)
    requires 0 < req.energy <= Remaining(RowFor(s, req).data)
      && (req.key in s.quotas ==> InBounds(s.quotas[req.key].data))
    ensures Perform(Perform(s, c, Selection(req, now)), c, Reservation() + Creation(now, id)) ==
      AfterAlone(s, req, now, id)
  {
    var row := RowFor(s, req);
    var s2 := s.(quotas := s.quotas[req.key := row]);
    SelectAlone(s, c, req, now, row);
    ChargeAlone(s2, c, req, row, now, id);
    assert s2.quotas[req.key := Charged(row, req)] == s.quotas[req.key := Charged(row, req)];
  }

  lemma TurnDownAlone(s: State, c: nat, req: Request, now: int, id: Id)
    requires c < |s.pcs| && s.pcs[c].Idle? && req.energy > 0 && !IsFresh(s, req.idemKey, now)
    requires Remaining(RowFor(s, req).data) < req.energy
    ensures Perform(Perform(s, c, Selection(req, now)), c, Reservation() + Creation(now, id)) ==
      AfterAlone(s, req, now, id)
  {
    var row := RowFor(s, req);
    SelectAlone(s, c, req, now, row);
    RejectAlone(s.(quotas := s.quotas[req.key := row]), c, req, now, id);
  }

  /** A Submit that runs alone makes a mission if and only if it is not answered from a
      record, its energy is positive and covered by the remainder, and its key is free. */
  lemma SubmitAloneAdmitsIff(s: State, c: nat, req: Request, now: int, id: Id)
    requires Inv(s) && c < |s.pcs| && s.pcs[c].Idle?
    ensures var s' := Alone(s, c, req, now, id);
      |s'.missions| == |s.missions| + 1 <==>
        && !IsFresh(s, req.idemKey, now) && !KeyTaken(s.missions, req.idemKey)
        && 0 < req.energy <= Remaining(RowFor(s, req).data)
  {
    SubmitAlone(s, c, req, now, id);
  }

  /** A replay whose record has expired, or was never stored, although its mission exists:
      nothing is made, recorded or answered, and the energy stays reserved. */
  lemma TakenKeyLosesUnits(s: State, c: nat, req: Request, now: int, id: Id)
    requires Inv(s) && c < |s.pcs| && s.pcs[c].Idle?
    requires KeyTaken(s.missions, req.idemKey) && !IsFresh(s, req.idemKey, now)
    requires 0 < req.energy <= Remaining(RowFor(s, req).data)
    ensures Alone(s, c, req, now, id) == s.(quotas := s.quotas[req.key := Charged(RowFor(s, req), req)])
  {
    SubmitAlone(s, c, req, now, id);
  }

  /** Between calls only a Submit is run. */
  lemma {:induction false} IdleRunsNothing(s: State, c: nat, actions: seq<Action>)
    requires c < |s.pcs| && s.pcs[c].Idle?
    requires forall i :: 0 <= i < |actions| ==> !actions[i].Submit? && !actions[i].QuotaCall?
    ensures Perform(s, c, actions) == s
    decreases |actions|
  {
    if actions != [] {
      assert Do(s, c, actions[0]) == s;
      IdleRunsNothing(s, c, actions[1..]);
    }
  }

  /** A request that is refused, or answered from a record, ends with its first statement. */
  lemma AnswerAlone(s: State, c: nat, req: Request, now: int, id: Id)
    requires c < |s.pcs| && s.pcs[c].Idle? && (req.energy <= 0 || IsFresh(s, req.idemKey, now))
    ensures Perform(Perform(s, c, Selection(req, now)), c, Reservation() + Creation(now, id)) ==
      AfterAlone(s, req, now, id)
  {
    var s1 := Do(s, c, Submit(req, now));
    assert s1 == AfterAlone(s, req, now, id);
    assert Selection(req, now)[1..] == [SelectQuota, InsertQuota];
    IdleRunsNothing(s1, c, [SelectQuota, InsertQuota]);
    IdleRunsNothing(s1, c, Reservation() + Creation(now, id));
  }

  lemma ChargeAlone(s: State, c: nat, req: Request, row: Row<Quota>, now: int, id: Id)
    requires c < |s.pcs| && s.pcs[c].Idle?
    requires req.key in s.quotas && s.quotas[req.key] == row && 0 < req.energy <= Remaining(row.data)
    ensures var charged := Charged(row, req);
      var queued := NearlyFull(charged.data);
      Perform(s.To(c, Checked(req, 0, row)), c, Reservation() + Creation(now, id)) ==
        if KeyTaken(s.missions, req.idemKey) then
          s.(quotas := s.quotas[req.key := charged])
        else
          Answered(s, req, Created(id, queued), now).(
            quotas := s.quotas[req.key := charged],
            missions := s.missions + [Mission(id, req.idemKey, req.key, req.energy, queued)])
  {
    PerformParts(s.To(c, Checked(req, 0, row)), c, Reservation(), Creation(now, id));
    ReserveAlone(s, c, req, row);
    var s2 := s.(quotas := s.quotas[req.key := Charged(row, req)]);
    if KeyTaken(s.missions, req.idemKey) {
      FailAlone(s2, c, req, Charged(row, req), now, id);
    } else {
      CreateAlone(s2, c, req, Charged(row, req), now, id);
    }
  }

  lemma CreationInParts(s: State, c: nat, now: int, id: Id)
    ensures Perform(s, c, Creation(now, id)) == Do(Do(Do(s, c, CreateMission(id, true)), c, Rollback), c, Cache(now))
  {
    PerformParts(s, c, [CreateMission(id, true), Rollback], [Cache(now)]);
    PerformTwo(s, c, CreateMission(id, true), Rollback);
  }

  /** The insert and the answer. */
  lemma CreateAlone(s: State, c: nat, req: Request, q: Row<Quota>, now: int, id: Id)
    requires c < |s.pcs| && s.pcs[c].Idle? && !KeyTaken(s.missions, req.idemKey)
    ensures var queued := NearlyFull(q.data);
      Perform(s.To(c, Creating(req, q)), c, Creation(now, id)) ==
        Answered(s, req, Created(id, queued), now).(
          missions := s.missions + [Mission(id, req.idemKey, req.key, req.energy, queued)])
  {
    CreationInParts(s.To(c, Creating(req, q)), c, now, id);
    var s1 := Do(s.To(c, Creating(req, q)), c, CreateMission(id, true));
    assert s1.pcs[c] == Caching(req, Created(id, NearlyFull(q.data)));
    assert Do(s1, c, Rollback) == s1;
    assert s1.pcs[c := Idle] == s.pcs;
  }

  /** The insert that fails, and the rollback that finds no row at its version. */
  lemma FailAlone(s: State, c: nat, req: Request, q: Row<Quota>, now: int, id: Id)
    requires c < |s.pcs| && s.pcs[c].Idle? && KeyTaken(s.missions, req.idemKey)
    requires req.key in s.quotas && s.quotas[req.key] == q
    ensures Perform(s.To(c, Creating(req, q)), c, Creation(now, id)) == s
  {
    CreationInParts(s.To(c, Creating(req, q)), c, now, id);
    var s1 := Do(s.To(c, Creating(req, q)), c, CreateMission(id, true));
    assert s1 == s.To(c, RollingBack(req, q));
    var s2 := Do(s1, c, Rollback);
    assert s2.pcs == s.pcs[c := Idle] == s.pcs;
    assert s2 == s;
  }

  /** A rejected call runs none of the statements in between. */
  lemma RejectAlone(s: State, c: nat, req: Request, now: int, id: Id)
    requires c < |s.pcs| && s.pcs[c].Idle?
    ensures Perform(s.To(c, Caching(req, NoQuota)), c, Reservation() + Creation(now, id)) ==
      Answered(s, req, NoQuota, now)
  {
    var s1 := s.To(c, Caching(req, NoQuota));
    PerformParts(s1, c, Reservation(), Creation(now, id));
    PerformTwo(s1, c, ReserveQuota(false), Reread);
    CreationInParts(s1, c, now, id);
    assert s1.pcs[c] == Caching(req, NoQuota);
    assert s1.pcs[c := Idle] == s.pcs;
  }

  /** Up to the check in Go. */
  lemma SelectAlone(s: State, c: nat, req: Request, now: int, row: Row<Quota>)
    requires c < |s.pcs| && s.pcs[c].Idle? && req.energy > 0 && !IsFresh(s, req.idemKey, now)
    requires row == RowFor(s, req)
    ensures Perform(s, c, Selection(req, now)) ==
      s.(quotas := s.quotas[req.key := row]).To(c, Checked(req, 0, row))
  {
    PerformParts(s, c, [Submit(req, now), SelectQuota], [InsertQuota]);
    PerformTwo(s, c, Submit(req, now), SelectQuota);
    var s1 := Do(s, c, Submit(req, now));
    assert s1 == s.To(c, Selecting(req, 0));
    var s2 := Do(s1, c, SelectQuota);
    if req.key in s.quotas {
      assert s.quotas[req.key := row] == s.quotas;
      assert s2.pcs == s.pcs[c := Checked(req, 0, row)];
    } else {
      assert s2.pcs == s.pcs[c := Inserting(req, 0)];
      assert Do(s2, c, InsertQuota).pcs == s.pcs[c := Checked(req, 0, row)];
    }
  }

  /** The reservation, and what the re-read then finds. */
  lemma ReserveAlone(s: State, c: nat, req: Request, row: Row<Quota>)
    requires c < |s.pcs| && req.key in s.quotas && s.quotas[req.key] == row && 0 < req.energy <= Remaining(row.data)
    ensures Perform(s.To(c, Checked(req, 0, row)), c, Reservation()) ==
      s.(quotas := s.quotas[req.key := Charged(row, req)]).To(c, Creating(req, Charged(row, req)))
  {
    var s1 := s.To(c, Checked(req, 0, row));
    PerformTwo(s1, c, ReserveQuota(false), Reread);
    assert s1.pcs[c] == Reserving(req, 0, row);
    var s2 := Do(s1, c, ReserveQuota(false));
    assert s2.pcs == s.pcs[c := Rereading(req)];
    assert Do(s2, c, Reread).pcs == s.pcs[c := Creating(req, s2.quotas[req.key])];
  }

  // ---- The rollback ----------------------------------------------------------------

  /** A statement of the Submit of client `c`; calls of the quota service are not. */
  predicate IsOwn(e: Event, c: nat) {
    e.client == c && !e.action.QuotaCall?
  }

  predicate WritesRow(s: State, s': State, key: Key) {
    key in s.quotas && key in s'.quotas && s'.quotas[key] != s.quotas[key]
  }

  /** How many statements among `more`, run after `events`, wrote to the row and were not
      this client's own. */
  function WritesByOthers(clients: nat, events: seq<Event>, more: seq<Event>, c: nat, key: Key): nat
    decreases |more|
  {
    if more == [] then
      0
    else
      var front, last := more[..|more| - 1], more[|more| - 1];
      var s := Run(clients, events + front);
      WritesByOthers(clients, events, front, c, key) +
        (if !IsOwn(last, c) && WritesRow(s, Do(s, last.client, last.action), key) then 1 else 0)
  }

  /** What its Submit runs between the re-read and the rollback. */
  predicate OnlyCreates(more: seq<Event>, c: nat) {
    forall i :: 0 <= i < |more| && IsOwn(more[i], c) ==> more[i].action.CreateMission?
  }

  lemma StepMovesQuotas(s: State, c: nat, a: Action, key: Key)
    requires key in s.quotas
    ensures key in Do(s, c, a).quotas && Follows(s.quotas[key], Do(s, c, a).quotas[key])
    ensures a.CreateMission? ==> Do(s, c, a).quotas == s.quotas
  {
  }

  lemma RunNext(clients: nat, events: seq<Event>, e: Event)
    ensures Run(clients, events + [e]) == Do(Run(clients, events), e.client, e.action)
  {
    assert (events + [e])[..|events|] == events;
  }

  predicate HasVersion(s: State, key: Key, version: nat) {
    key in s.quotas && s.quotas[key].version == version
  }

  lemma StepMovesVersion(s: State, e: Event, c: nat, key: Key, version: nat)
    requires HasVersion(s, key, version) && (IsOwn(e, c) ==> e.action.CreateMission?)
    ensures var s' := Do(s, e.client, e.action);
      HasVersion(s', key, version + if !IsOwn(e, c) && WritesRow(s, s', key) then 1 else 0)
  {
    StepMovesQuotas(s, e.client, e.action, key);
  }

  /** While its Submit only creates, the version of the row rises by the others' writes. */
  lemma {:induction false} VersionCountsOthers(clients: nat, events: seq<Event>, more: seq<Event>, c: nat,
      key: Key, v: nat)
    requires HasVersion(Run(clients, events), key, v) && OnlyCreates(more, c)
    ensures HasVersion(Run(clients, events + more), key, v + WritesByOthers(clients, events, more, c, key))
    decreases |more|
  {
    if more == [] {
      assert events + more == events;
    } else {
      var front, last := more[..|more| - 1], more[|more| - 1];
      VersionCountsOthers(clients, events, front, c, key, v);
      assert events + more == events + front + [last];
      RunNext(clients, events + front, last);
      StepMovesVersion(Run(clients, events + front), last, c, key, v + WritesByOthers(clients, events, front, c, key));
    }
  }

  /** Where a client stands between its re-read and its rollback. */
  predicate IsCreating(pc: Pc, req: Request, q: Row<Quota>) {
    pc == Creating(req, q) || pc == RollingBack(req, q) || (pc.Caching? && pc.req == req)
  }

  lemma StepKeepsCreating(s: State, e: Event, c: nat, req: Request, q: Row<Quota>)
    requires c < |s.pcs| && IsCreating(s.pcs[c], req, q) && (IsOwn(e, c) ==> e.action.CreateMission?)
    ensures var s' := Do(s, e.client, e.action); c < |s'.pcs| && IsCreating(s'.pcs[c], req, q)
  {
    if e.client == c {
      OwnStepKeepsCreating(s, e.action, c, req, q);
    } else {
      OthersKeepMyPlace(s, e.client, e.action, c);
    }
  }

  lemma OwnStepKeepsCreating(s: State, a: Action, c: nat, req: Request, q: Row<Quota>)
    requires c < |s.pcs| && IsCreating(s.pcs[c], req, q) && (a.CreateMission? || a.QuotaCall?)
    ensures c < |Do(s, c, a).pcs| && IsCreating(Do(s, c, a).pcs[c], req, q)
  {
  }

  lemma OthersKeepMyPlace(s: State, c: nat, a: Action, me: nat)
    requires me < |s.pcs| && c != me
    ensures me < |Do(s, c, a).pcs| && Do(s, c, a).pcs[me] == s.pcs[me]
  {
  }

  lemma {:induction false} StaysCreating(clients: nat, events: seq<Event>, more: seq<Event>, c: nat, req: Request,
      q: Row<Quota>)
    requires c < clients && Run(clients, events).pcs[c] == Creating(req, q) && OnlyCreates(more, c)
    ensures IsCreating(Run(clients, events + more).pcs[c], req, q)
    decreases |more|
  {
    if more == [] {
      assert events + more == events;
    } else {
      var front, last := more[..|more| - 1], more[|more| - 1];
      StaysCreating(clients, events, front, c, req, q);
      assert events + more == events + front + [last];
      RunNext(clients, events + front, last);
      StepKeepsCreating(Run(clients, events + front), last, c, req, q);
    }
  }

  /** The rollback after `writes` foreign writes: it gives the units back if there was
      exactly one and the row still holds that much, and changes nothing otherwise. */
  ghost predicate RollsBackIff(s: State, c: nat, writes: nat) {
    c < |s.pcs| && s.pcs[c].RollingBack? && var req := s.pcs[c].req;
    req.key in s.quotas && var row := s.quotas[req.key];
    Do(s, c, Rollback).quotas ==
      if writes == 1 && row.data.reserved >= req.energy
      then s.quotas[req.key := Row(row.version + 1, row.data.(reserved := row.data.reserved - req.energy))]
      else s.quotas
  }

  /** After a failed insert the units come back if and only if, since the re-read, others
      wrote to the row exactly once, and the row still holds that much. */
  lemma RollbackWorksIff(clients: nat, events: seq<Event>, c: nat, more: seq<Event>)
    requires c < clients && Run(clients, events).pcs[c].Rereading? && OnlyCreates(more, c)
    requires Run(clients, events + [Event(c, Reread)] + more).pcs[c].RollingBack?
    ensures var start := events + [Event(c, Reread)]; var key := Run(clients, events).pcs[c].req.key;
      RollsBackIff(Run(clients, start + more), c, WritesByOthers(clients, start, more, c, key))
  {
    var start := events + [Event(c, Reread)];
    var req, q := RereadStarts(clients, events, c);
    StaysCreating(clients, start, more, c, req, q);
    VersionCountsOthers(clients, start, more, c, req.key, q.version);
    RollbackNeedsTheNextVersion(Run(clients, start + more), c, req, q,
      WritesByOthers(clients, start, more, c, req.key));
  }

  lemma RereadStarts(clients: nat, events: seq<Event>, c: nat) returns (req: Request, q: Row<Quota>)
    requires c < clients && Run(clients, events).pcs[c].Rereading?
    ensures req == Run(clients, events).pcs[c].req
    ensures var s := Run(clients, events + [Event(c, Reread)]);
      s.pcs[c] == Creating(req, q) && HasVersion(s, req.key, q.version)
  {
    var s := Run(clients, events);
    RunKeepsInv(clients, events);
    assert PcOk(s, s.pcs[c]);
    RunNext(clients, events, Event(c, Reread));
    req, q := s.pcs[c].req, s.quotas[s.pcs[c].req.key];
  }

  lemma RollbackNeedsTheNextVersion(s: State, c: nat, req: Request, q: Row<Quota>, writes: nat)
    requires c < |s.pcs| && s.pcs[c] == RollingBack(req, q) && HasVersion(s, req.key, q.version + writes)
    ensures RollsBackIff(s, c, writes)
  {
  }

  /** So a Submit whose insert fails while nobody else writes keeps its reservation. */
  lemma UndisturbedFailureKeepsTheUnits(clients: nat, events: seq<Event>, c: nat, id: Id)
    requires c < clients && Run(clients, events).pcs[c].Rereading?
    ensures var s := Run(clients, events);
      var s' := Do(Do(Do(s, c, Reread), c, CreateMission(id, false)), c, Rollback);
      s'.pcs[c] == Idle && s'.missions == s.missions && s'.quotas == s.quotas
  {
    RunKeepsInv(clients, events);
    var s := Run(clients, events);
    assert PcOk(s, s.pcs[c]);
    var s1 := Do(s, c, Reread);
    var s2 := Do(s1, c, CreateMission(id, false));
    assert s2.pcs[c].RollingBack?;
  }

  // ---- Idempotency -----------------------------------------------------------------

  /** At most one mission per key, and every answer for the key that names a mission,
      cached or not, expired or not, names that one. */
  lemma OneMissionPerKey(clients: nat, events: seq<Event>, i: nat, j: nat)
    requires var s := Run(clients, events);
      i < |s.replies| && j < |s.replies| && s.replies[i].idemKey == s.replies[j].idemKey != ""
      && s.replies[i].answer.Created? && s.replies[j].answer.Created?
    ensures var s := Run(clients, events);
      && s.replies[i].answer.mission == s.replies[j].answer.mission
      && exists m :: 0 <= m < |s.missions|
           && s.missions[m].idemKey == s.replies[i].idemKey && s.missions[m].id == s.replies[i].answer.mission
           && forall n :: 0 <= n < |s.missions| && s.missions[n].idemKey == s.replies[i].idemKey ==> n == m
  {
    RunKeepsInv(clients, events);
    var s := Run(clients, events);
    var a, b := s.replies[i], s.replies[j];
    assert Backed(s.missions, a.idemKey, a.answer) && Backed(s.missions, b.idemKey, b.answer);
    var m :| 0 <= m < |s.missions| && s.missions[m].idemKey == a.idemKey && s.missions[m].id == a.answer.mission;
    var n :| 0 <= n < |s.missions| && s.missions[n].idemKey == b.idemKey && s.missions[n].id == b.answer.mission;
    assert m == n;
  }

  lemma StepKeepsRecords(s: State, c: nat, a: Action, k: string)
    requires k in s.records
    ensures k in Do(s, c, a).records && Do(s, c, a).records[k] == s.records[k]
  {
  }

  lemma NextKeepsRecords(clients: nat, events: seq<Event>, e: Event, k: string)
    requires k in Run(clients, events).records
    ensures k in Run(clients, events + [e]).records
      && Run(clients, events + [e]).records[k] == Run(clients, events).records[k]
  {
    assert (events + [e])[..|events|] == events;
    StepKeepsRecords(Run(clients, events), e.client, e.action, k);
  }

  /** A record, once inserted, is never replaced, expired or not. */
  lemma {:induction false} RecordsNeverChange(clients: nat, events: seq<Event>, more: seq<Event>, k: string)
    requires k in Run(clients, events).records
    ensures k in Run(clients, events + more).records
    ensures Run(clients, events + more).records[k] == Run(clients, events).records[k]
  {
    if more == [] {
      assert events + more == events;
    } else {
      var front := more[..|more| - 1];
      RecordsNeverChange(clients, events, front, k);
      assert events + more == events + front + [more[|more| - 1]];
      NextKeepsRecords(clients, events + front, more[|more| - 1], k);
    }
  }

  /** Replays: once a call has cached its answer under a key that had no record, any later
      Submit with the key and an unexpired record, on any client between calls, gets that
      answer and changes no table; whatever ran in between. */
  lemma ReplayReturnsTheFirstAnswer(clients: nat, events: seq<Event>, c: nat, t0: int, more: seq<Event>, d: nat,
      req: Request, now: int)
    requires c < clients && d < clients
    requires Run(clients, events).pcs[c].Caching? && Run(clients, events).pcs[c].req.idemKey == req.idemKey != ""
    requires req.idemKey !in Run(clients, events).records
    requires Run(clients, events + [Event(c, Cache(t0))] + more).pcs[d].Idle?
    requires req.energy > 0 && now <= Stored(t0 + DAY)
    ensures var first := Run(clients, events).pcs[c].answer;
      var s := Run(clients, events + [Event(c, Cache(t0))] + more);
      Do(s, d, Submit(req, now)) == s.(replies := s.replies + [Reply(req.idemKey, first)])
  {
    var cached := events + [Event(c, Cache(t0))];
    assert cached[..|events|] == events;
    RunKeepsInv(clients, events);
    RunKeepsInv(clients, cached + more);
    RecordsNeverChange(clients, cached, more, req.idemKey);
  }
}
