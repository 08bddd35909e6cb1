/** Mission runs (internal/missionrun/service.go, internal/store/missionrun_repo.go). */
module MissionRuns {
  import opened Common
  import opened Optimistic
  import opened Domain
  import opened StateMachines

  type Id = string
  type Client = nat
  datatype MissionRun = MissionRun(status: RunStatus, units: int, startedAt: Option<int>, completedAt: Option<int>)
  type Table = map<Id, Row<MissionRun>>

  const NEW_RUN := MissionRun(RunCreated, 0, None, None)

  /** Between two statements: about to write a status; about to write the units of a
      completion; about to complete, `mine` being the row as read or as the units write
      left it. */
  datatype Pc =
    | Idle
    | Moving(id: Id, mine: Row<MissionRun>, target: RunStatus)
    | Measuring(id: Id, mine: Row<MissionRun>, units: int)
    | Completing(id: Id, mine: Row<MissionRun>, units: int)

  /** `paths` holds the statuses each run has had, `writers` the client behind each version
      of its row, both oldest first. */
  datatype State = State(
    rows: Table,
    pcs: map<Client, Pc>,
    paths: map<Id, seq<RunStatus>>,
    writers: map<Id, seq<Client>>)
  {
    function Pc(c: Client): Pc {
      if c in pcs then pcs[c] else Idle
    }

    function To(c: Client, pc: Pc): State {
      this.(pcs := pcs[c := pc])
    }

    function By(id: Id, c: Client): State {
      this.(writers := writers[id := (if id in writers then writers[id] else []) + [c]])
    }
  }

  const INIT := State(map[], map[], map[], map[])

  datatype Action =
    | Create(id: Id)
    | ReadToMove(id: Id, target: RunStatus)
    | ReadToComplete(id: Id, units: int)
    | WriteUnits
    | WriteStatus(now: int)

  /** The columns UpdateMissionRunStatus sets. */
  function Moved(r: MissionRun, target: RunStatus, now: int): MissionRun {
    MissionRun(target, r.units,
               if target == RunInProgress then Some(now) else r.startedAt,
               if target == RunCompleted then Some(now) else r.completedAt)
  }

  function AfterCreate(s: State, c: Client, id: Id): State {
    if id in s.rows then s
    else s.(rows := s.rows[id := Row(1, NEW_RUN)], paths := s.paths[id := [RunCreated]],
      writers := s.writers[id := [c]])
  }

  /** Assign, StartProgress and Cancel differ in the target only. */
  function AfterReadToMove(s: State, c: Client, id: Id, target: RunStatus): State {
    if target in {RunAssigned, RunInProgress, RunCancelled} && id in s.rows
      && target in RunTargets(s.rows[id].data.status)
    then s.To(c, Moving(id, s.rows[id], target))
    else s
  }

  function AfterReadToComplete(s: State, c: Client, id: Id, units: int): State {
    if id in s.rows && RunCompleted in RunTargets(s.rows[id].data.status)
    then s.To(c, if units > 0 then Measuring(id, s.rows[id], units) else Completing(id, s.rows[id], units))
    else s
  }

  function AfterWriteUnits(s: State, c: Client): State
    requires s.Pc(c).Measuring?
  {
    var Measuring(id, mine, units) := s.Pc(c);
    if Matches(s.rows, id, mine.version) then
      var rows := Put(s.rows, id, s.rows[id].data.(units := units));
      s.(rows := rows).By(id, c).To(c, Completing(id, rows[id], units))
    else s.To(c, Idle)
  }

  function AfterWriteStatus(s: State, c: Client, now: int): State
    requires s.Pc(c).Moving? || s.Pc(c).Completing?
  {
    var pc := s.Pc(c);
    var target := if pc.Moving? then pc.target else RunCompleted;
    if Matches(s.rows, pc.id, pc.mine.version) && pc.id in s.paths
    then s.(rows := Put(s.rows, pc.id, Moved(s.rows[pc.id].data, target, now)),
            paths := s.paths[pc.id := s.paths[pc.id] + [target]]).By(pc.id, c).To(c, Idle)
    else s.To(c, Idle)
  }

  function Do(s: State, c: Client, a: Action): State {
    var pc := s.Pc(c);
    match a
    case Create(id) => if pc.Idle? then AfterCreate(s, c, id) else s
    case ReadToMove(id, target) => if pc.Idle? then AfterReadToMove(s, c, id, target) else s
    case ReadToComplete(id, units) => if pc.Idle? then AfterReadToComplete(s, c, id, units) else s
    case WriteUnits => if pc.Measuring? then AfterWriteUnits(s, c) else s
    case WriteStatus(now) => if pc.Moving? || pc.Completing? then AfterWriteStatus(s, c, now) else s
  }

  datatype Event = Event(client: Client, action: Action)

  function Run(events: seq<Event>): State {
    if events == [] then INIT
    else
      var last := events[|events| - 1];
      Do(Run(events[..|events| - 1]), last.client, last.action)
  }

  // ---- The invariant ----------------------------------------------------------

  ghost predicate PcOk(s: State, c: Client) {
    var pc := s.Pc(c);
    !pc.Idle? ==>
      && pc.id in s.rows && SnapshotOf(pc.mine, s.rows[pc.id])
      && (pc.Moving? ==> pc.target != RunCompleted && pc.target in RunTargets(pc.mine.data.status))
      && (!pc.Moving? ==> pc.mine.data.status == RunInProgress)
      && (pc.Completing? && pc.units > 0 ==> pc.mine.data.units == pc.units)
  }

  /** started_at is set from the start of the run on, completed_at exactly on completion. */
  ghost predicate RowOk(s: State, id: Id) {
    id in s.rows ==> id in s.paths && id in s.writers && HistoryOk(s.rows[id], s.paths[id], s.writers[id])
  }

  ghost predicate HistoryOk(row: Row<MissionRun>, path: seq<RunStatus>, writers: seq<Client>) {
    var r := row.data;
    && (r.completedAt.Some? <==> r.status == RunCompleted)
    && (r.status in {RunInProgress, RunCompleted} ==> r.startedAt.Some?)
    && (r.status in {RunCreated, RunAssigned} ==> r.startedAt.None?)
    && |path| > 0 && IsRunPath(path) && path[|path| - 1] == r.status
    && |writers| == row.version
  }

  ghost predicate Inv(s: State) {
    (forall c :: PcOk(s, c)) && (forall id :: RowOk(s, id))
  }

  lemma PathGrows(path: seq<RunStatus>, target: RunStatus)
    requires |path| > 0 && IsRunPath(path) && target in RunTargets(path[|path| - 1])
    ensures IsRunPath(path + [target])
  {
  }

  lemma WriteStatusKeepsPcs(s: State, c: Client, now: int, d: Client)
    requires (s.Pc(c).Moving? || s.Pc(c).Completing?) && PcOk(s, c) && PcOk(s, d)
    ensures PcOk(AfterWriteStatus(s, c, now), d)
  {
  }

  lemma WriteStatusKeepsRows(s: State, c: Client, now: int, id: Id)
    requires (s.Pc(c).Moving? || s.Pc(c).Completing?) && PcOk(s, c) && RowOk(s, id)
    ensures RowOk(AfterWriteStatus(s, c, now), id)
  {
    var pc := s.Pc(c);
    if id == pc.id && Matches(s.rows, id, pc.mine.version) {
      MoveKeepsHistory(s.rows[id], s.paths[id], s.writers[id], if pc.Moving? then pc.target else RunCompleted, now, c);
    }
  }

  /** A row moved along an edge. */
  lemma MoveKeepsHistory(row: Row<MissionRun>, path: seq<RunStatus>, writers: seq<Client>, target: RunStatus,
                         now: int, c: Client)
    requires HistoryOk(row, path, writers) && target in RunTargets(row.data.status)
    ensures HistoryOk(Row(row.version + 1, Moved(row.data, target, now)), path + [target], writers + [c])
  {
    PathGrows(path, target);
  }

  lemma WriteStatusKeepsInv(s: State, c: Client, now: int)
    requires Inv(s) && (s.Pc(c).Moving? || s.Pc(c).Completing?)
    ensures Inv(AfterWriteStatus(s, c, now))
  {
    var s' := AfterWriteStatus(s, c, now);
    assert PcOk(s, c);
    forall d ensures PcOk(s', d) {
      assert PcOk(s, d);
      WriteStatusKeepsPcs(s, c, now, d);
    }
    forall id ensures RowOk(s', id) {
      assert RowOk(s, id);
      WriteStatusKeepsRows(s, c, now, id);
    }
  }

  lemma StepKeepsInv(s: State, c: Client, a: Action)
    requires Inv(s)
    ensures Inv(Do(s, c, a))
  {
    if a.WriteStatus? && (s.Pc(c).Moving? || s.Pc(c).Completing?) {
      WriteStatusKeepsInv(s, c, a.now);
    } else {
      var s' := Do(s, c, a);
      assert PcOk(s, c);
      forall d ensures PcOk(s', d) {
        assert PcOk(s, d);
      }
      forall id ensures RowOk(s', id) {
        assert RowOk(s, id);
      }
    }
  }

  lemma {:induction false} RunKeepsInv(events: seq<Event>)
    ensures Inv(Run(events))
  {
    if events == [] {
      assert forall c :: INIT.Pc(c) == Idle;
    } else {
      var last := events[|events| - 1];
      RunKeepsInv(events[..|events| - 1]);
      StepKeepsInv(Run(events[..|events| - 1]), last.client, last.action);
    }
  }

  // ---- The results --------------------------------------------------------------

  predicate IsFinal(status: RunStatus) {
    status in {RunCompleted, RunCancelled, RunFailed}
  }

  /** A completed or cancelled run is frozen, units and timestamps included: no statement
      already under way can touch it. */
  lemma StepKeepsFinalRuns(s: State, c: Client, a: Action, id: Id)
    requires Inv(s) && id in s.rows && IsFinal(s.rows[id].data.status)
    ensures id in Do(s, c, a).rows && Do(s, c, a).rows[id] == s.rows[id]
  {
    assert PcOk(s, c);
  }

  lemma {:induction false} FinalRunsAreFrozen(events: seq<Event>, more: seq<Event>, id: Id)
    requires id in Run(events).rows && IsFinal(Run(events).rows[id].data.status)
    ensures id in Run(events + more).rows && Run(events + more).rows[id] == Run(events).rows[id]
  {
    if more == [] {
      assert events + more == events;
    } else {
      var front := more[..|more| - 1];
      var last := more[|more| - 1];
      FinalRunsAreFrozen(events, front, id);
      assert (events + more)[..|events + more| - 1] == events + front;
      RunKeepsInv(events + front);
      StepKeepsFinalRuns(Run(events + front), last.client, last.action, id);
    }
  }

  /** The second write of a completion wins exactly when nobody wrote since the first one:
      the two take consecutive versions and the row holds the units reported. */
  lemma CompletionIsAllOrConflict(events: seq<Event>, c: Client, now: int)
    requires Run(events).Pc(c).Completing? && Run(events).Pc(c).units > 0
    ensures var s := Run(events); var Completing(id, mine, units) := s.Pc(c); var s' := Do(s, c, WriteStatus(now));
      && id in s.rows
      && (s'.rows != s.rows <==> s.rows[id] == mine)
      && (s'.rows != s.rows ==>
            && s'.rows[id].version == mine.version + 1
            && s'.rows[id].data.units == units
            && s'.rows[id].data.status == RunCompleted
            && s'.rows[id].data.completedAt == Some(now))
  {
    RunKeepsInv(events);
    var s := Run(events);
    assert PcOk(s, c) && RowOk(s, s.Pc(c).id);
    if s.rows[s.Pc(c).id] == s.Pc(c).mine {
      assert Do(s, c, WriteStatus(now)).rows[s.Pc(c).id].version == s.rows[s.Pc(c).id].version + 1;
    }
  }

  /** A run changes status at most three times, each time along an edge of the table. */
  lemma StatusFollowsTheTable(events: seq<Event>, id: Id)
    requires id in Run(events).rows
    ensures var paths := Run(events).paths;
      && id in paths && |paths[id]| > 0 && IsRunPath(paths[id])
      && paths[id][|paths[id]| - 1] == Run(events).rows[id].data.status
      && |paths[id]| - 1 <= 3
  {
    RunKeepsInv(events);
    assert RowOk(Run(events), id);
    RunPathIsShort(Run(events).paths[id]);
  }

  /** Between the two states only other clients wrote, and rows and writers kept in step. */
  ghost predicate OnlyOthersWrote(s: State, s': State, me: Client) {
    forall id :: id in s.rows && id in s.writers && |s.writers[id]| == s.rows[id].version ==>
      && id in s'.rows && id in s'.writers && |s'.writers[id]| == s'.rows[id].version
      && s.writers[id] <= s'.writers[id]
      && forall v :: |s.writers[id]| <= v < |s'.writers[id]| ==> s'.writers[id][v] != me
  }

  lemma StepIsByOthers(s: State, c: Client, a: Action, me: Client)
    requires c != me
    ensures OnlyOthersWrote(s, Do(s, c, a), me)
  {
    if a.Create? {
      CreateIsByOthers(s, c, a, me);
    }
  }

  lemma CreateIsByOthers(s: State, c: Client, a: Action, me: Client)
    requires c != me && a.Create?
    ensures OnlyOthersWrote(s, Do(s, c, a), me)
  {
  }

  lemma OnlyOthersWroteOn(s: State, s': State, s'': State, me: Client)
    requires OnlyOthersWrote(s, s', me) && OnlyOthersWrote(s', s'', me)
    ensures OnlyOthersWrote(s, s'', me)
  {
  }

  lemma OthersGoOn(start: State, s: State, c: Client, a: Action, me: Client)
    requires Inv(s) && c != me && OnlyOthersWrote(start, s, me)
    ensures Inv(Do(s, c, a)) && Do(s, c, a).Pc(me) == s.Pc(me) && OnlyOthersWrote(start, Do(s, c, a), me)
  {
    StepKeepsInv(s, c, a);
    StepIsByOthers(s, c, a, me);
    OnlyOthersWroteOn(start, s, Do(s, c, a), me);
  }

  /** Since the row was `read`, somebody other than `me` wrote a version of it. */
  ghost predicate OvertakenBy(s: State, id: Id, read: Row<MissionRun>, me: Client) {
    id in s.writers && exists v :: read.version <= v < |s.writers[id]| && s.writers[id][v] != me
  }

  lemma LostMeansOvertaken(s: State, s': State, id: Id, read: Row<MissionRun>, me: Client)
    requires OnlyOthersWrote(s, s', me) && id in s.rows && id in s.writers && |s.writers[id]| == s.rows[id].version
    requires read.version <= s.rows[id].version && WrittenSince(s'.rows, id, s.rows[id])
    ensures OvertakenBy(s', id, read, me)
  {
    assert s'.writers[id][s.rows[id].version] != me;
  }

  /** The row a successful Complete leaves: two consecutive writes, or one without units. */
  function CompletedFrom(before: Row<MissionRun>, units: int, now: int): Row<MissionRun> {
    if units > 0 then Row(before.version + 2, Moved(before.data.(units := units), RunCompleted, now))
    else Row(before.version + 1, Moved(before.data, RunCompleted, now))
  }

  // ---- The service ----------------------------------------------------------------

  class Service {
    var db: State
    const sm: StateMachine<RunStatus>

    constructor ()
      ensures Valid() && db == INIT
    {
      var machine := MissionRunStateMachine();
      sm := machine;
      db := INIT;
      new;
      assert forall c :: INIT.Pc(c) == Idle;
    }

    ghost predicate Valid()
      reads this, sm
    {
      Inv(db) && sm.Follows(RunTargets)
    }

    method GetMissionRun(id: Id) returns (r: Option<Row<MissionRun>>)
      ensures r == if id in db.rows then Some(db.rows[id]) else None
    {
      r := if id in db.rows then Some(db.rows[id]) else None;
    }

    method UpdateMissionRunStatus(id: Id, status: RunStatus, version: nat, now: int) returns (affected: nat)
      modifies this
      ensures affected == if Matches(old(db).rows, id, version) then 1 else 0
      ensures affected == 0 ==> db == old(db)
      ensures affected == 1 ==>
        db == old(db).(rows := Put(old(db).rows, id, Moved(old(db).rows[id].data, status, now)))
    {
      affected := 0;
      if Matches(db.rows, id, version) {
        var r := db.rows[id].data.(status := status);
        if status == RunInProgress {
          r := r.(startedAt := Some(now));
        }
        if status == RunCompleted {
          r := r.(completedAt := Some(now));
        }
        db := db.(rows := Put(db.rows, id, r));
        affected := 1;
      }
    }

    method UpdateActualUnits(id: Id, units: int, version: nat) returns (affected: nat)
      modifies this
      ensures affected == if Matches(old(db).rows, id, version) then 1 else 0
      ensures affected == 0 ==> db == old(db)
      ensures affected == 1 ==> db == old(db).(rows := Put(old(db).rows, id, old(db).rows[id].data.(units := units)))
    {
      affected := 0;
      if Matches(db.rows, id, version) {
        db := db.(rows := Put(db.rows, id, db.rows[id].data.(units := units)));
        affected := 1;
      }
    }

    /** Any statements of any other clients. */
    method Interfere(me: Client)
      requires Valid()
      modifies this
      ensures Valid() && db.Pc(me) == old(db).Pc(me) && OnlyOthersWrote(old(db), db, me)
    {
      var n: nat := *;
      while n > 0
        invariant Valid() && db.Pc(me) == old(db).Pc(me) && OnlyOthersWrote(old(db), db, me)
      {
        var c: Client := *;
        var a: Action := *;
        if c != me {
          OneStep(me, c, a, old(db));
        }
        n := n - 1;
      }
    }

    method OneStep(me: Client, c: Client, a: Action, ghost start: State)
      requires Valid() && c != me && OnlyOthersWrote(start, db, me)
      modifies this
      ensures Valid() && db.Pc(me) == old(db).Pc(me) && OnlyOthersWrote(start, db, me)
    {
      OthersGoOn(start, db, c, a, me);
      db := Do(db, c, a);
    }

    /** Assign, StartProgress and Cancel. */
    method Move(me: Client, id: Id, target: RunStatus, now: int) returns (r: Result<()>)
      requires Valid() && db.Pc(me) == Idle && target in {RunAssigned, RunInProgress, RunCancelled}
      modifies this
      ensures Valid() && db.Pc(me) == Idle
      ensures r == Err(NotFound) <==> id !in old(db).rows
      ensures id in old(db).rows ==>
        (r == Err(InvalidTransition) <==> target !in RunTargets(old(db).rows[id].data.status))
      ensures r.Ok? ==>
        && id in old(db).rows && id in db.rows
        && db.rows[id] == Row(old(db).rows[id].version + 1, Moved(old(db).rows[id].data, target, now))
      ensures r == Err(Conflict) ==> id in old(db).rows && OvertakenBy(db, id, old(db).rows[id], me)
    {
      var found := GetMissionRun(id);
      if found.None? {
        return Err(NotFound);
      }
      var wo := found.value;
      var next := sm.MustTransition(wo.data.status, target);
      if next.Err? {
        return Err(next.error);
      }
      assert RowOk(db, id);
      StepKeepsInv(db, me, ReadToMove(id, target));
      db := db.To(me, Moving(id, wo, target));
      ghost var s := db;

      Interfere(me);

      ghost var s' := db;
      var won := WriteStatusOf(me, id, wo, next.value, now);
      if !won {
        LostMeansOvertaken(s, s', id, wo, me);
        return Err(Conflict);
      }
      return Ok(());
    }

    /** The status write, at the version the client holds. */
    method WriteStatusOf(me: Client, id: Id, mine: Row<MissionRun>, status: RunStatus, now: int) returns (won: bool)
      requires Valid()
      requires db.Pc(me) == Moving(id, mine, status) || (db.Pc(me).Completing? && db.Pc(me).id == id &&
               db.Pc(me).mine == mine && status == RunCompleted)
      modifies this
      ensures Valid() && db.Pc(me) == Idle && id in db.rows
      ensures won ==> db.rows[id] == Row(mine.version + 1, Moved(mine.data, status, now))
      ensures !won ==> db.writers == old(db).writers && db.rows == old(db).rows && WrittenSince(db.rows, id, mine)
    {
      assert PcOk(db, me) && RowOk(db, id);
      WriteStatusKeepsInv(db, me, now);
      var affected := UpdateMissionRunStatus(id, status, mine.version, now);
      won := affected > 0;
      if won {
        db := db.(paths := db.paths[id := db.paths[id] + [status]]).By(id, me).To(me, Idle);
      } else {
        db := db.To(me, Idle);
      }
    }

    /** Complete: the units first, then the status at the version that write produced. */
    method Complete(me: Client, id: Id, units: int, now: int) returns (r: Result<()>)
      requires Valid() && db.Pc(me) == Idle
      modifies this
      ensures Valid() && db.Pc(me) == Idle
      ensures r == Err(NotFound) <==> id !in old(db).rows
      ensures id in old(db).rows ==>
        (r == Err(InvalidTransition) <==> RunCompleted !in RunTargets(old(db).rows[id].data.status))
      ensures r.Ok? ==>
        && id in old(db).rows && id in db.rows
        && db.rows[id] == CompletedFrom(old(db).rows[id], units, now)
      ensures r == Err(Conflict) ==> id in old(db).rows && OvertakenBy(db, id, old(db).rows[id], me)
    {
      var found := GetMissionRun(id);
      if found.None? {
        return Err(NotFound);
      }
      var wo := found.value;
      var next := sm.MustTransition(wo.data.status, RunCompleted);
      if next.Err? {
        return Err(next.error);
      }
      assert RowOk(db, id);
      StepKeepsInv(db, me, ReadToComplete(id, units));
      db := AfterReadToComplete(db, me, id, units);
      if units <= 0 {
        r := CompleteStatus(me, id, wo, wo, next.value, now);
        return;
      }
      ghost var s := db;
      Interfere(me);
      ghost var s' := db;
      var won := WriteUnitsOf(me, id, wo, units);
      if !won {
        LostMeansOvertaken(s, s', id, wo, me);
        return Err(Conflict);
      }
      r := CompleteStatus(me, id, wo, Row(wo.version + 1, wo.data.(units := units)), next.value, now);
    }

    /** The status write of Complete, at the version of the row as it is now. */
    method CompleteStatus(me: Client, id: Id, ghost read: Row<MissionRun>, mine: Row<MissionRun>,
        status: RunStatus, now: int)
      returns (r: Result<()>)
      requires Valid() && db.Pc(me).Completing? && db.Pc(me).id == id && db.Pc(me).mine == mine
        && status == RunCompleted
      requires id in db.rows && db.rows[id] == mine && id in db.writers && |db.writers[id]| == mine.version
      requires read.version <= mine.version
      modifies this
      ensures Valid() && db.Pc(me) == Idle && id in db.rows
      ensures r.Ok? ==> db.rows[id] == Row(mine.version + 1, Moved(mine.data, status, now))
      ensures r.Err? ==> r.error == Conflict && OvertakenBy(db, id, read, me)
    {
      ghost var s := db;
      Interfere(me);
      ghost var s' := db;
      var won := WriteStatusOf(me, id, mine, status, now);
      if !won {
        LostMeansOvertaken(s, s', id, read, me);
        return Err(Conflict);
      }
      return Ok(());
    }

    /** The units write of Complete. */
    method WriteUnitsOf(me: Client, id: Id, wo: Row<MissionRun>, units: int) returns (won: bool)
      requires Valid() && db.Pc(me) == Measuring(id, wo, units)
      modifies this
      ensures Valid() && id in db.rows && id in db.writers && |db.writers[id]| == db.rows[id].version
      ensures won ==>
        && db.rows[id] == Row(wo.version + 1, wo.data.(units := units))
        && db.Pc(me) == Completing(id, db.rows[id], units)
      ensures !won ==>
        && db.Pc(me) == Idle && db.writers == old(db).writers && db.rows == old(db).rows
        && WrittenSince(db.rows, id, wo)
    {
      assert PcOk(db, me) && RowOk(db, id);
      StepKeepsInv(db, me, WriteUnits);
      var affected := UpdateActualUnits(id, units, wo.version);
      won := affected > 0;
      if won {
        db := db.By(id, me).To(me, Completing(id, db.rows[id], units));
      } else {
        db := db.To(me, Idle);
      }
    }
  }
}
