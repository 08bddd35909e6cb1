/** Intervention and escalation as the programs they are (internal/routing/service.go), with
    other clients running between any two of their statements. */
module RoutingService {
  import opened Common
  import opened Optimistic
  import opened Domain
  import opened Reservations
  import opened StateMachines
  import opened Timestamps

  datatype EscalationResult = EscalationResult(
    id: Id, fromLevel: nat, toLevel: nat, newParty: Party, newAssignee: string)

  /** What one client may count on while the others run. */
  ghost predicate Continues(s: State, s': State, me: nat) {
    && |s'.pcs| == |s.pcs| && (me < |s.pcs| ==> s'.pcs[me] == s.pcs[me])
    && s.records <= s'.records && s.lost <= s'.lost
    && (forall id :: id in s.rows ==> id in s'.rows && Onward(s.rows[id], s'.rows[id]))
  }

  predicate Onward(r: Row<Reservation>, r': Row<Reservation>) {
    r.version <= r'.version && r.data.level <= r'.data.level && r'.data.party == r.data.party
  }

  lemma StepKeepsPlaces(s: State, c: nat, a: Action, me: nat)
    requires c != me
    ensures |Do(s, c, a).pcs| == |s.pcs| && (me < |s.pcs| ==> Do(s, c, a).pcs[me] == s.pcs[me])
  {
  }

  lemma StepKeepsRecords(s: State, c: nat, a: Action)
    ensures s.records <= Do(s, c, a).records && s.lost <= Do(s, c, a).lost
  {
    if a.InsertRecord? {
      if c < |s.pcs| && s.pcs[c].Recording? {
        InsertsAdd(s, c, a.succeeds);
      }
    } else {
      OthersAddNoRecord(s, c, a);
    }
  }

  lemma InsertsAdd(s: State, c: nat, succeeds: bool)
    requires c < |s.pcs| && s.pcs[c].Recording?
    ensures s.records <= AfterInsertRecord(s, c, succeeds).records && s.lost <= AfterInsertRecord(s, c, succeeds).lost
  {
  }

  lemma OthersAddNoRecord(s: State, c: nat, a: Action)
    requires !a.InsertRecord?
    ensures Do(s, c, a).records == s.records && Do(s, c, a).lost == s.lost
  {
  }

  lemma StepMovesVersionsForward(s: State, c: nat, a: Action, id: Id)
    requires id in s.rows
    ensures id in Do(s, c, a).rows && s.rows[id].version <= Do(s, c, a).rows[id].version
  {
  }

  lemma StepContinues(s: State, c: nat, a: Action, me: nat)
    requires Inv(s) && c != me
    ensures Continues(s, Do(s, c, a), me)
  {
    StepKeepsPlaces(s, c, a, me);
    StepKeepsRecords(s, c, a);
    forall id | id in s.rows ensures id in Do(s, c, a).rows && Onward(s.rows[id], Do(s, c, a).rows[id]) {
      assert RowOk(s, id);
      StepMovesVersionsForward(s, c, a, id);
      StepMovesLegally(s, c, a, id);
    }
  }

  lemma ContinuesOn(s: State, s': State, s'': State, me: nat)
    requires Continues(s, s', me) && Continues(s', s'', me)
    ensures Continues(s, s'', me)
  {
  }

  function RecordFor(r: EscalationResult): EscalationRecord {
    EscalationRecord(r.id, r.fromLevel, r.toLevel)
  }

  /** One level up, announced with the next party of the chain; its record was issued once,
      and the row has at least that level but still its first party. */
  ghost predicate TookPlace(s: State, r: EscalationResult) {
    && r.toLevel == r.fromLevel + 1 && r.newAssignee == AssigneeOf(r.toLevel)
    && (s.records + s.lost)[RecordFor(r)] == 1
    && r.id in s.rows && r.toLevel <= s.rows[r.id].data.level
    && r.newParty == EscalateParty(s.rows[r.id].data.party)
  }

  lemma TookPlaceStays(s: State, s': State, me: nat, r: EscalationResult)
    requires Inv(s') && Continues(s, s', me) && TookPlace(s, r)
    ensures TookPlace(s', r)
  {
    assert LadderOk(s', RecordFor(r));
  }

  lemma RecordedTookPlace(s: State, s': State, w: Reservation, r: EscalationResult)
    requires r == EscalationResult(r.id, w.level, w.level + 1, EscalateParty(w.party), AssigneeOf(w.level + 1))
    requires r.id in s.rows && s.rows[r.id].data == EscalatedFrom(w, w.level)
    requires Continues(s, s', |s.pcs|) && (s'.records + s'.lost)[RecordFor(r)] == 1
    ensures TookPlace(s', r)
  {
  }

  /** What the listing returned: exactly the overdue rows, each once. */
  ghost predicate IsListing(rows: Table, nowText: string, order: seq<Id>) {
    && (forall id :: id in order <==> id in rows && IsOverdue(rows[id].data, nowText))
    && (forall i, j :: 0 <= i < j < |order| ==> order[i] != order[j])
  }

  ghost predicate WasOverdue(rows: Table, r: EscalationResult, nowText: string) {
    r.id in rows && IsOverdue(rows[r.id].data, nowText) && r.fromLevel == rows[r.id].data.level
  }

  predicate ListedOverdue(rows: Table, item: Listed, nowText: string) {
    item.id in rows && IsOverdue(rows[item.id].data, nowText) && item.snapshot == rows[item.id]
  }

  predicate DifferentRows(listed: seq<Listed>) {
    forall i, j :: 0 <= i < j < |listed| ==> listed[i].id != listed[j].id
  }

  ghost predicate AllTookPlace(s: State, results: seq<EscalationResult>) {
    forall k :: 0 <= k < |results| ==> TookPlace(s, results[k])
  }

  ghost predicate AllWereOverdue(rows: Table, results: seq<EscalationResult>, nowText: string) {
    forall k :: 0 <= k < |results| ==> WasOverdue(rows, results[k], nowText)
  }

  lemma AllTookPlaceStays(s: State, s': State, results: seq<EscalationResult>)
    requires Inv(s') && Continues(s, s', |s.pcs|) && AllTookPlace(s, results)
    ensures AllTookPlace(s', results)
  {
    forall k | 0 <= k < |results| ensures TookPlace(s', results[k]) {
      TookPlaceStays(s, s', |s.pcs|, results[k]);
    }
  }

  predicate Lists(listed: seq<Listed>, id: Id) {
    exists i :: 0 <= i < |listed| && listed[i].id == id
  }

  /** Results of different rows, all among those listed. */
  ghost predicate AllFrom(results: seq<EscalationResult>, listed: seq<Listed>) {
    && (forall k :: 0 <= k < |results| ==> Lists(listed, results[k].id))
    && (forall k, l :: 0 <= k < l < |results| ==> results[k].id != results[l].id)
  }

  lemma ListsMore(listed: seq<Listed>, n: nat, id: Id)
    requires n < |listed|
    requires Lists(listed[..n], id) || listed[n].id == id
    ensures Lists(listed[..n + 1], id)
  {
    if Lists(listed[..n], id) {
      var i :| 0 <= i < n && listed[..n][i].id == id;
      assert listed[..n + 1][i].id == id;
    } else {
      assert listed[..n + 1][n].id == id;
    }
  }

  /** The next row, escalated or not. */
  lemma AllFromMore(results: seq<EscalationResult>, listed: seq<Listed>, n: nat, more: Option<EscalationResult>)
    requires n < |listed| && DifferentRows(listed) && AllFrom(results, listed[..n])
      && (more.Some? ==> more.value.id == listed[n].id)
    ensures AllFrom(if more.Some? then results + [more.value] else results, listed[..n + 1])
  {
    forall k | 0 <= k < |results| ensures Lists(listed[..n + 1], results[k].id) && results[k].id != listed[n].id {
      ListsMore(listed, n, results[k].id);
      var i :| 0 <= i < n && listed[..n][i].id == results[k].id;
      assert listed[i].id != listed[n].id;
    }
    ListsMore(listed, n, listed[n].id);
  }

  /** The loop of EscalateOverdue after `n` of the rows listed. */
  ghost predicate Progress(rows: Table, s: State, results: seq<EscalationResult>, listed: seq<Listed>, n: nat,
      nowText: string)
    requires n <= |listed|
  {
    && AllTookPlace(s, results) && AllWereOverdue(rows, results, nowText) && AllFrom(results, listed[..n])
    && (forall k :: 0 <= k < n ==> WrittenSince(s.rows, listed[k].id, listed[k].snapshot))
  }

  lemma MoreProgress(rows: Table, s: State, s': State, results: seq<EscalationResult>, listed: seq<Listed>, n: nat,
      nowText: string, more: Option<EscalationResult>)
    requires n < |listed| && DifferentRows(listed) && ListedOverdue(rows, listed[n], nowText)
    requires Progress(rows, s, results, listed, n, nowText) && Inv(s') && Continues(s, s', |s.pcs|)
    requires WrittenSince(s'.rows, listed[n].id, listed[n].snapshot)
    requires more.Some? ==>
      && TookPlace(s', more.value)
      && more.value.id == listed[n].id
      && more.value.fromLevel == listed[n].snapshot.data.level
    ensures Progress(rows, s', if more.Some? then results + [more.value] else results, listed, n + 1, nowText)
  {
    AllTookPlaceStays(s, s', results);
    AllFromMore(results, listed, n, more);
  }

  lemma AllWritten(rows: Table, s: State, results: seq<EscalationResult>, listed: seq<Listed>, nowText: string)
    requires Progress(rows, s, results, listed, |listed|, nowText)
    requires forall i :: 0 <= i < |listed| ==> ListedOverdue(rows, listed[i], nowText)
    requires forall id :: id in rows && IsOverdue(rows[id].data, nowText) ==> Lists(listed, id)
    ensures forall id :: id in rows && IsOverdue(rows[id].data, nowText) ==> WrittenSince(s.rows, id, rows[id])
  {
    forall id | id in rows && IsOverdue(rows[id].data, nowText) ensures WrittenSince(s.rows, id, rows[id]) {
      var k :| 0 <= k < |listed| && listed[k].id == id;
      assert ListedOverdue(rows, listed[k], nowText) && WrittenSince(s.rows, listed[k].id, listed[k].snapshot);
    }
  }

  class Service {
    /** The tables, with the history of the run beside them. */
    var db: State
    const sm: StateMachine<ReservationStatus>

    constructor (clients: nat)
      ensures db == Init(clients) && Inv(db) && sm.Follows(ReservationTargets)
    {
      var machine := ReservationStateMachine();
      sm := machine;
      db := Init(clients);
      new;
      RunKeepsInv(clients, []);
    }

    ghost predicate At(me: nat, pc: Pc)
      reads this, sm
    {
      sm.Follows(ReservationTargets) && Inv(db) && me < |db.pcs| && db.pcs[me] == pc
    }

    // ---- The statements --------------------------------------------------------

    method UpdateReservationStatus(id: Id, status: ReservationStatus, version: nat) returns (affected: nat)
      modifies this
      ensures affected == if Matches(old(db).rows, id, version) then 1 else 0
      ensures affected == 0 ==> db == old(db)
      ensures affected == 1 ==> db == old(db).(rows := Put(old(db).rows, id, old(db).rows[id].data.(status := status)))
    {
      affected := 0;
      if Matches(db.rows, id, version) {
        db := db.(rows := Put(db.rows, id, db.rows[id].data.(status := status)));
        affected := 1;
      }
    }

    method UpdateReservationAssignedTo(id: Id, assignee: string, level: nat, version: nat) returns (affected: nat)
      modifies this
      ensures affected == if Matches(old(db).rows, id, version) then 1 else 0
      ensures affected == 0 ==> db == old(db)
      ensures affected == 1 ==>
        db == old(db).(rows := Put(old(db).rows, id,
          old(db).rows[id].data.(status := Escalated, level := level, assignee := assignee)))
    {
      affected := 0;
      if Matches(db.rows, id, version) {
        db := db.(rows := Put(db.rows, id,
          db.rows[id].data.(assignee := assignee, level := level, status := Escalated)));
        affected := 1;
      }
    }

    method ListExpiredWindows(nowText: string) returns (order: seq<Id>)
      ensures IsListing(db.rows, nowText, order)
    {
      order := [];
      var overdue := set id | id in db.rows && IsOverdue(db.rows[id].data, nowText);
      var todo := overdue;
      while todo != {}
        invariant todo <= overdue
        invariant forall id :: id in order <==> id in overdue - todo
        invariant forall i, j :: 0 <= i < j < |order| ==> order[i] != order[j]
        decreases todo
      {
        var id :| id in todo;
        assert id !in order;
        todo := todo - {id};
        order := order + [id];
      }
    }

    /** Any statements of any other clients. */
    method Interfere(me: nat)
      requires Inv(db)
      modifies this
      ensures Inv(db) && Continues(old(db), db, me)
    {
      var n: nat := *;
      while n > 0
        invariant Inv(db) && Continues(old(db), db, me)
      {
        var c: nat := *;
        var a: Action := *;
        if c != me {
          StepKeepsInv(db, c, a);
          StepContinues(db, c, a, me);
          ContinuesOn(old(db), db, Do(db, c, a), me);
          db := Do(db, c, a);
        }
        n := n - 1;
      }
    }

    // ---- The service calls -----------------------------------------------------------

    /** Success means the row moved from the very status the check had seen. */
    method ForceIntervene(me: nat, id: Id, target: ReservationStatus) returns (r: Result<()>)
      requires At(me, Idle)
      modifies this
      ensures At(me, Idle)
      ensures r == Err(NotFound) <==> id !in old(db).rows
      ensures id in old(db).rows ==>
        (r == Err(InvalidTransition) <==> target !in ReservationTargets(old(db).rows[id].data.status))
      ensures r.Ok? ==>
        && id in old(db).rows && id in db.rows
        && db.rows[id] == Row(old(db).rows[id].version + 1, old(db).rows[id].data.(status := target))
      ensures r == Err(Conflict) ==> id in old(db).rows && WrittenSince(db.rows, id, old(db).rows[id])
    {
      if id !in db.rows {
        return Err(NotFound);
      }
      var w := db.rows[id];
      var next := sm.MustTransition(w.data.status, target);
      if next.Err? {
        return Err(next.error);
      }
      StepKeepsInv(db, me, ReadToForce(id, target));
      db := db.To(me, Forcing(id, w, target));

      Interfere(me);

      var won := WriteForced(me, id, w, next.value);
      return if won then Ok(()) else Err(Conflict);
    }

    /** The guarded write of ForceIntervene. */
    method WriteForced(me: nat, id: Id, w: Row<Reservation>, target: ReservationStatus) returns (won: bool)
      requires At(me, Forcing(id, w, target))
      modifies this
      ensures At(me, Idle) && id in db.rows
      ensures won ==> db.rows[id] == Row(w.version + 1, w.data.(status := target))
      ensures !won ==> WrittenSince(db.rows, id, w)
    {
      assert PcOk(db, db.pcs[me]);
      StatusWriteKeepsInv(db, me);
      var affected := UpdateReservationStatus(id, target, w.version);
      db := db.To(me, Idle);
      won := affected == 1;
    }

    method Release(me: nat, id: Id) returns (r: Result<()>)
      requires At(me, Idle)
      modifies this
      ensures At(me, Idle)
      ensures r == Err(NotFound) <==> id !in old(db).rows
      ensures id in old(db).rows ==>
        (r == Err(InvalidTransition) <==> old(db).rows[id].data.status !in {Effective, Occupied, Escalated})
      ensures r == Err(Conflict) ==> id in old(db).rows && WrittenSince(db.rows, id, old(db).rows[id])
      ensures r.Ok? ==>
        && id in old(db).rows && id in db.rows
        && db.rows[id] == Row(old(db).rows[id].version + 1, old(db).rows[id].data.(status := ReservationReleased))
    {
      r := ForceIntervene(me, id, ReservationReleased);
    }

    /** Every result tells of an escalation that took place during the call, on a row that
        was overdue when it began; no row is escalated twice. */
    method EscalateOverdue(me: nat, now: Reading) returns (results: seq<EscalationResult>)
      requires At(me, Idle)
      modifies this
      ensures At(me, Idle)
      ensures AllTookPlace(db, results) && AllWereOverdue(old(db).rows, results, Format(now))
      ensures forall i, j :: 0 <= i < j < |results| ==> results[i].id != results[j].id
      ensures forall id :: id in old(db).rows && IsOverdue(old(db).rows[id].data, Format(now)) ==>
        WrittenSince(db.rows, id, old(db).rows[id])
    {
      var nowText := Format(now);
      var expired := List(me, nowText);
      results := EscalateAll(me, expired, nowText, old(db).rows);
      AllWritten(old(db).rows, db, results, expired, nowText);
      StepKeepsInv(db, me, Write);
      db := db.To(me, Idle);
    }

    /** The loop of EscalateOverdue. */
    method EscalateAll(me: nat, expired: seq<Listed>, nowText: string, ghost rows: Table)
        returns (results: seq<EscalationResult>)
      requires At(me, Escalating(expired)) && DifferentRows(expired)
      requires forall i :: 0 <= i < |expired| ==> ListedOverdue(rows, expired[i], nowText)
      modifies this
      ensures At(me, Escalating([])) && Progress(rows, db, results, expired, |expired|, nowText)
    {
      results := [];
      var i := 0;
      assert expired[0..] == expired;
      while i < |expired|
        invariant 0 <= i <= |expired|
        invariant At(me, Escalating(expired[i..])) && Progress(rows, db, results, expired, i, nowText)
      {
        ghost var s := db;
        var result := EscalateOne(me, expired[i..]);
        assert expired[i..][1..] == expired[i + 1..];
        MoreProgress(rows, s, db, results, expired, i, nowText, result);
        if result.Some? {
          results := results + [result.value];
        }
        i := i + 1;
      }
    }

    /** The read EscalateOverdue begins with. */
    method List(me: nat, nowText: string) returns (expired: seq<Listed>)
      requires At(me, Idle)
      modifies this
      ensures At(me, Escalating(expired))
      ensures forall i :: 0 <= i < |expired| ==> ListedOverdue(old(db).rows, expired[i], nowText)
      ensures DifferentRows(expired)
      ensures forall id :: id in old(db).rows && IsOverdue(old(db).rows[id].data, nowText) ==> Lists(expired, id)
    {
      var order := ListExpiredWindows(nowText);
      assert forall i :: 0 <= i < |order| ==> order[i] in order;
      StepKeepsInv(db, me, ListOverdue(nowText, order));
      expired := Snapshots(db.rows, order);
      forall id | id in old(db).rows && IsOverdue(old(db).rows[id].data, nowText) ensures Lists(expired, id) {
        var k :| 0 <= k < |order| && order[k] == id;
        assert expired[k].id == id;
      }
      db := db.To(me, Escalating(expired));
    }

    /** escalateOne, on the head of the listing: the row, then its record. */
    method EscalateOne(me: nat, queue: seq<Listed>) returns (r: Option<EscalationResult>)
      requires At(me, Escalating(queue)) && queue != []
      modifies this
      ensures At(me, Escalating(queue[1..])) && Continues(old(db), db, |db.pcs|)
      ensures WrittenSince(db.rows, queue[0].id, queue[0].snapshot)
      ensures r.Some? ==> TookPlace(db, r.value) && r.value.id == queue[0].id
      ensures r.Some? ==> r.value.fromLevel == queue[0].snapshot.data.level
    {
      Interfere(me);
      r := EscalateHead(me, queue);
    }

    method EscalateHead(me: nat, queue: seq<Listed>) returns (r: Option<EscalationResult>)
      requires At(me, Escalating(queue)) && queue != []
      modifies this
      ensures At(me, Escalating(queue[1..])) && Continues(old(db), db, |db.pcs|)
      ensures WrittenSince(db.rows, queue[0].id, queue[0].snapshot)
      ensures r.Some? ==> TookPlace(db, r.value) && r.value.id == queue[0].id
      ensures r.Some? ==> r.value.fromLevel == queue[0].snapshot.data.level
    {
      var Listed(id, w) := queue[0];
      var newLevel := w.data.level + 1;
      var won := WriteEscalation(me, queue);
      if !won {
        return None;
      }
      var newParty := EscalateParty(w.data.party);
      ghost var s := db;
      Record(me, EscalationRecord(id, w.data.level, newLevel), queue[1..]);
      r := Some(EscalationResult(id, w.data.level, newLevel, newParty, AssigneeOf(newLevel)));
      RecordedTookPlace(s, db, w.data, r.value);
    }

    /** The record of an escalation that won its write. */
    method Record(me: nat, rec: EscalationRecord, queue: seq<Listed>)
      requires At(me, Recording(rec, queue))
      modifies this
      ensures At(me, Escalating(queue)) && Continues(old(db), db, |db.pcs|)
      ensures (db.records + db.lost)[rec] == 1
    {
      Interfere(me);
      ghost var s := db;
      InsertEscalation(me, rec, queue);
      assert LadderOk(db, rec);
    }

    /** The guarded write of an escalation. */
    method WriteEscalation(me: nat, queue: seq<Listed>) returns (won: bool)
      requires At(me, Escalating(queue)) && queue != []
      modifies this
      ensures Continues(old(db), db, |db.pcs|)
      ensures WrittenSince(db.rows, queue[0].id, queue[0].snapshot)
      ensures !won ==> At(me, Escalating(queue[1..])) && db.rows == old(db).rows
      ensures won ==> var Listed(id, w) := queue[0];
        && At(me, Recording(EscalationRecord(id, w.data.level, w.data.level + 1), queue[1..]))
        && id in db.rows && db.rows[id].data == EscalatedFrom(w.data, w.data.level)
    {
      var Listed(id, w) := queue[0];
      assert PcOk(db, db.pcs[me]);
      EscalateKeepsInv(db, me);
      var affected := UpdateReservationAssignedTo(id, AssigneeOf(w.data.level + 1), w.data.level + 1, w.version);
      won := affected > 0;
      if won {
        db := db.(escalations := db.escalations + multiset{id})
          .To(me, Recording(EscalationRecord(id, w.data.level, w.data.level + 1), queue[1..]));
      } else {
        db := db.To(me, Escalating(queue[1..]));
      }
    }

    /** InsertEscalation, whose failure is ignored. */
    method InsertEscalation(me: nat, rec: EscalationRecord, queue: seq<Listed>)
      requires At(me, Recording(rec, queue))
      modifies this
      ensures At(me, Escalating(queue))
      ensures db.rows == old(db).rows && |db.pcs| == |old(db).pcs|
      ensures db.records + db.lost == old(db).records + old(db).lost + multiset{rec}
      ensures old(db).records <= db.records && old(db).lost <= db.lost
    {
      var succeeds: bool := *;
      InsertRecordKeepsInv(db, me, succeeds);
      if succeeds {
        db := db.(records := db.records + multiset{rec}).To(me, Escalating(queue));
      } else {
        db := db.(lost := db.lost + multiset{rec}).To(me, Escalating(queue));
      }
    }
  }
}
