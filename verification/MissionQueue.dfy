/** The life of a submitted mission: cancelling, re-prioritising and promoting it
    (internal/mission/service.go, internal/store/mission_repo.go). */
module MissionQueue {
  import opened Common
  import opened Optimistic
  import opened Domain
  import opened StateMachines

  type Id = string
  datatype Mission = Mission(status: MissionStatus, priority: int, createdAt: int)
  type Table = map<Id, Row<Mission>>

  /** ORDER BY priority ASC, created_at ASC. */
  predicate NotAfter(a: Mission, b: Mission) {
    a.priority < b.priority || (a.priority == b.priority && a.createdAt <= b.createdAt)
  }

  function QueuedIn(rows: Table): map<Id, Mission> {
    map id | id in rows && rows[id].data.status == Queued :: rows[id].data
  }

  /** A queued mission the listing may put first. */
  predicate IsHead(queued: map<Id, Mission>, id: Id) {
    id in queued && forall other :: other in queued ==> NotAfter(queued[id], queued[other])
  }

  /** AdvanceQueued when nobody else writes. */
  function Promoted(rows: Table, id: Id): Table
    requires id in rows
  {
    Put(rows, id, rows[id].data.(status := Scheduled))
  }

  // ---- Draining an undisturbed queue -------------------------------------------

  /** Successive calls promoted `picks`, each time the head of the queue as it was. */
  ghost predicate Drains(rows: Table, picks: seq<Id>) {
    picks == [] || (IsHead(QueuedIn(rows), picks[0]) && Drains(Promoted(rows, picks[0]), picks[1..]))
  }

  ghost function Drained(rows: Table, picks: seq<Id>): Table
    requires Drains(rows, picks)
  {
    if picks == [] then rows else Drained(Promoted(rows, picks[0]), picks[1..])
  }

  /** One more call, after the others. */
  lemma {:induction false} DrainsOneMore(rows: Table, picks: seq<Id>, id: Id)
    requires Drains(rows, picks) && IsHead(QueuedIn(Drained(rows, picks)), id)
    ensures Drains(rows, picks + [id]) && Drained(rows, picks + [id]) == Promoted(Drained(rows, picks), id)
    decreases |picks|
  {
    if picks == [] {
      assert ([] + [id])[1..] == [];
    } else {
      DrainsOneMore(Promoted(rows, picks[0]), picks[1..], id);
      assert (picks + [id])[1..] == picks[1..] + [id];
    }
  }

  lemma PromotionShortensTheQueue(rows: Table, id: Id)
    requires id in QueuedIn(rows)
    ensures |QueuedIn(Promoted(rows, id))| == |QueuedIn(rows)| - 1
  {
    assert QueuedIn(Promoted(rows, id)).Keys == QueuedIn(rows).Keys - {id};
    assert |QueuedIn(rows).Keys| == |QueuedIn(rows)|;
    assert |QueuedIn(Promoted(rows, id)).Keys| == |QueuedIn(Promoted(rows, id))|;
  }

  /** Successive calls promote different missions, in queue order. */
  lemma {:induction false} DrainingFollowsTheOrder(rows: Table, picks: seq<Id>)
    requires Drains(rows, picks)
    ensures forall i :: 0 <= i < |picks| ==> picks[i] in QueuedIn(rows)
    ensures forall i, j :: 0 <= i < j < |picks| ==>
      picks[i] != picks[j] && NotAfter(rows[picks[i]].data, rows[picks[j]].data)
  {
    if picks != [] {
      var rest := picks[1..];
      var rows' := Promoted(rows, picks[0]);
      DrainingFollowsTheOrder(rows', rest);
      forall j | 0 < j < |picks|
          ensures picks[j] != picks[0] && picks[j] in QueuedIn(rows) && rows'[picks[j]] == rows[picks[j]] {
        assert rest[j - 1] == picks[j] && rest[j - 1] in QueuedIn(rows');
      }
      forall i, j | 0 <= i < j < |picks|
          ensures picks[i] != picks[j] && NotAfter(rows[picks[i]].data, rows[picks[j]].data) {
        if i > 0 {
          assert rest[i - 1] == picks[i] && rest[j - 1] == picks[j];
        }
      }
    }
  }

  /** Each pick moves to scheduled with one more version, and nothing else moves. */
  lemma {:induction false} DrainingTouchesOnlyPicks(rows: Table, picks: seq<Id>, id: Id)
    requires Drains(rows, picks) && id in rows
    ensures id in Drained(rows, picks) && Drained(rows, picks)[id] ==
      if id in picks then Row(rows[id].version + 1, rows[id].data.(status := Scheduled)) else rows[id]
    ensures Drained(rows, picks).Keys == rows.Keys
  {
    if picks != [] {
      var rows' := Promoted(rows, picks[0]);
      DrainingTouchesOnlyPicks(rows', picks[1..], id);
      DrainingFollowsTheOrder(rows, picks);
      assert picks == [picks[0]] + picks[1..];
      if id in picks[1..] {
        var k :| 0 <= k < |picks| - 1 && picks[1..][k] == id;
        assert picks[k + 1] == id;
      }
    }
  }

  /** After as many calls as there were queued missions, each was promoted once and the
      queue is empty. */
  lemma DrainingEmptiesTheQueue(rows: Table, picks: seq<Id>)
    requires Drains(rows, picks) && |picks| == |QueuedIn(rows)|
    ensures (set id | id in picks) == QueuedIn(rows).Keys
    ensures QueuedIn(Drained(rows, picks)) == map[]
  {
    DrainingFollowsTheOrder(rows, picks);
    DistinctPicks(picks);
    var picked := set id | id in picks;
    assert |QueuedIn(rows).Keys| == |QueuedIn(rows)|;
    SubsetOfSameSize(picked, QueuedIn(rows).Keys);
    forall id ensures id !in QueuedIn(Drained(rows, picks)) {
      if id in rows {
        DrainingTouchesOnlyPicks(rows, picks, id);
        assert id in QueuedIn(rows) <==> id in picked;
      } else if picks != [] {
        DrainingTouchesOnlyPicks(rows, picks, picks[0]);
      }
    }
  }

  lemma {:induction false} DistinctPicks(picks: seq<Id>)
    requires forall i, j :: 0 <= i < j < |picks| ==> picks[i] != picks[j]
    ensures |set id | id in picks| == |picks|
  {
    if picks != [] {
      var front := picks[..|picks| - 1];
      var last := picks[|picks| - 1];
      DistinctPicks(front);
      assert (set id | id in picks) == (set id | id in front) + {last};
    }
  }

  lemma SubsetOfSameSize(a: set<Id>, b: set<Id>)
    requires a <= b && |a| == |b|
    ensures a == b
  {
    if x :| x in b && x !in a {
      assert |b - {x}| == |b| - 1;
      SubsetIsSmaller(a, b - {x});
    }
  }

  lemma {:induction false} SubsetIsSmaller(a: set<Id>, b: set<Id>)
    requires a <= b
    ensures |a| <= |b|
    decreases a
  {
    if a != {} {
      var x :| x in a;
      SubsetIsSmaller(a - {x}, b - {x});
    }
  }

  // ---- Every interleaving --------------------------------------------------------

  type Client = nat

  datatype Pc =
    | Idle
    | Cancelling(id: Id, snapshot: Row<Mission>)
    | Prioritising(id: Id, snapshot: Row<Mission>, priority: int)
    | Advancing(id: Id, snapshot: Row<Mission>, listed: map<Id, Mission>)

  /** `paths` holds the statuses each mission has had, oldest first. */
  datatype State = State(rows: Table, pcs: map<Client, Pc>, paths: map<Id, seq<MissionStatus>>) {
    function Pc(c: Client): Pc {
      if c in pcs then pcs[c] else Idle
    }
  }

  const INIT := State(map[], map[], map[])

  datatype Action =
    | Create(id: Id, mission: Mission)
    | ReadToCancel(id: Id)
    | ReadToPrioritise(id: Id, priority: int)
    | ListQueued(head: Id)
    | Write

  /** The write a client has decided on, and the columns it sets on the row as it is. */
  function Changed(m: Mission, pc: Pc): Mission {
    match pc
    case Idle => m
    case Cancelling(_, _) => m.(status := MissionCancelled)
    case Prioritising(_, _, p) => m.(priority := p)
    case Advancing(_, _, _) => m.(status := Scheduled)
  }

  function AfterWrite(s: State, c: Client): State
    requires !s.Pc(c).Idle?
  {
    var pc := s.Pc(c);
    if !Matches(s.rows, pc.id, pc.snapshot.version) then s.(pcs := s.pcs[c := Idle])
    else
      var m := s.rows[pc.id].data;
      State(Put(s.rows, pc.id, Changed(m, pc)), s.pcs[c := Idle],
            if Changed(m, pc).status == m.status || pc.id !in s.paths then s.paths
            else s.paths[pc.id := s.paths[pc.id] + [Changed(m, pc).status]])
  }

  function Do(s: State, c: Client, a: Action): State {
    if a.Write? then
      if s.Pc(c).Idle? then s else AfterWrite(s, c)
    else if !s.Pc(c).Idle? then s
    else match a
      case Create(id, m) =>
        if id in s.rows || m.status !in {Accepted, Queued} then s
        else State(s.rows[id := Row(1, m)], s.pcs, s.paths[id := [m.status]])
      case ReadToCancel(id) =>
        if id in s.rows && MissionCancelled in MissionTargets(s.rows[id].data.status)
        then s.(pcs := s.pcs[c := Cancelling(id, s.rows[id])]) else s
      case ReadToPrioritise(id, p) =>
        if id in s.rows && 1 <= p <= 10
        then s.(pcs := s.pcs[c := Prioritising(id, s.rows[id], p)]) else s
      case ListQueued(head) =>
        if IsHead(QueuedIn(s.rows), head)
        then s.(pcs := s.pcs[c := Advancing(head, s.rows[head], QueuedIn(s.rows))]) else s
  }

  datatype Event = Event(client: Client, action: Action)

  function Run(events: seq<Event>): State {
    if events == [] then INIT
    else
      var last := events[|events| - 1];
      Do(Run(events[..|events| - 1]), last.client, last.action)
  }

  ghost predicate PcOk(s: State, c: Client) {
    var pc := s.Pc(c);
    !pc.Idle? ==>
      && pc.id in s.rows && SnapshotOf(pc.snapshot, s.rows[pc.id])
      && (pc.Cancelling? ==> MissionCancelled in MissionTargets(pc.snapshot.data.status))
      && (pc.Advancing? ==>
        IsHead(pc.listed, pc.id) && pc.snapshot.data == pc.listed[pc.id] && pc.snapshot.data.status == Queued)
  }

  ghost predicate PathOk(s: State, id: Id) {
    id in s.rows ==>
      && id in s.paths && |s.paths[id]| > 0 && IsMissionPath(s.paths[id])
      && s.paths[id][|s.paths[id]| - 1] == s.rows[id].data.status
  }

  ghost predicate Inv(s: State) {
    (forall c :: PcOk(s, c)) && (forall id :: PathOk(s, id))
  }

  lemma WriteKeepsPcs(s: State, c: Client, d: Client)
    requires !s.Pc(c).Idle? && PcOk(s, c) && PcOk(s, d)
    ensures PcOk(AfterWrite(s, c), d)
  {
  }

  lemma WriteKeepsPaths(s: State, c: Client, id: Id)
    requires !s.Pc(c).Idle? && PcOk(s, c) && PathOk(s, id)
    ensures PathOk(AfterWrite(s, c), id)
  {
    var s' := AfterWrite(s, c);
    if id == s.Pc(c).id && s'.paths != s.paths {
      assert s'.rows[id].data.status in MissionTargets(s.rows[id].data.status);
    }
  }

  lemma WriteKeepsInv(s: State, c: Client)
    requires Inv(s) && !s.Pc(c).Idle?
    ensures Inv(AfterWrite(s, c))
  {
    var s' := AfterWrite(s, c);
    assert PcOk(s, c);
    forall d ensures PcOk(s', d) {
      assert PcOk(s, d);
      WriteKeepsPcs(s, c, d);
    }
    forall id ensures PathOk(s', id) {
      assert PathOk(s, id);
      WriteKeepsPaths(s, c, id);
    }
  }

  lemma ReadKeepsPcs(s: State, c: Client, a: Action, d: Client)
    requires !a.Write? && PcOk(s, d)
    ensures PcOk(Do(s, c, a), d)
  {
  }

  lemma ReadKeepsPaths(s: State, c: Client, a: Action, id: Id)
    requires !a.Write? && PathOk(s, id)
    ensures PathOk(Do(s, c, a), id)
  {
  }

  lemma StepKeepsInv(s: State, c: Client, a: Action)
    requires Inv(s)
    ensures Inv(Do(s, c, a))
  {
    if a.Write? {
      if !s.Pc(c).Idle? {
        WriteKeepsInv(s, c);
      }
    } else {
      var s' := Do(s, c, a);
      forall d ensures PcOk(s', d) {
        assert PcOk(s, d);
        ReadKeepsPcs(s, c, a, d);
      }
      forall id ensures PathOk(s', id) {
        assert PathOk(s, id);
        ReadKeepsPaths(s, c, a, id);
      }
    }
  }

  lemma {:induction false} RunKeepsInv(events: seq<Event>)
    ensures Inv(Run(events))
  {
    if events == [] {
      assert forall c :: INIT.Pc(c) == Idle;
    } else {
      var last := events[|events| - 1];
      RunKeepsInv(events[..|events| - 1]);
      StepKeepsInv(Run(events[..|events| - 1]), last.client, last.action);
    }
  }

  /** The statuses of every mission, in every run, follow the transition table, so a
      mission changes status at most six times. */
  lemma StatusFollowsTheTable(events: seq<Event>, id: Id)
    requires id in Run(events).rows
    ensures var paths := Run(events).paths;
      && id in paths && |paths[id]| > 0 && IsMissionPath(paths[id])
      && paths[id][|paths[id]| - 1] == Run(events).rows[id].data.status
      && |paths[id]| - 1 <= 6
  {
    RunKeepsInv(events);
    assert PathOk(Run(events), id);
    MissionPathIsShort(Run(events).paths[id]);
  }

  /** A promotion that wins moves the first of the missions listed, with the priority it
      was listed with, from queued to scheduled; one that loses moves nothing. */
  lemma PromotionTakesTheListedHead(events: seq<Event>, c: Client)
    requires Run(events).Pc(c).Advancing?
    ensures var s := Run(events); var Advancing(id, _, listed) := s.Pc(c); var s' := Do(s, c, Write);
      && IsHead(listed, id) && id in s.rows
      && (s'.rows != s.rows ==> s.rows[id].data == listed[id] && s'.rows == Promoted(s.rows, id))
      && (s'.rows != s.rows <==> s.rows[id] == s.Pc(c).snapshot)
  {
    RunKeepsInv(events);
    var s := Run(events);
    assert PcOk(s, c);
    if Matches(s.rows, s.Pc(c).id, s.Pc(c).snapshot.version) {
      assert Do(s, c, Write).rows[s.Pc(c).id].version == s.rows[s.Pc(c).id].version + 1;
    }
  }

  /** A rejected, completed or cancelled mission keeps its status, however the run goes on. */
  lemma {:induction false} FinalStatusStays(events: seq<Event>, more: seq<Event>, id: Id)
    requires id in Run(events).rows && MissionTargets(Run(events).rows[id].data.status) == {}
    ensures id in Run(events + more).rows && Run(events + more).rows[id].data.status == Run(events).rows[id].data.status
  {
    if more == [] {
      assert events + more == events;
    } else {
      var front := more[..|more| - 1];
      var last := more[|more| - 1];
      FinalStatusStays(events, front, id);
      assert (events + more)[..|events + more| - 1] == events + front;
      RunKeepsInv(events + front);
      assert PcOk(Run(events + front), last.client);
    }
  }

  /** The first row of the listing. */
  method FirstOf(queued: map<Id, Mission>) returns (first: Id)
    requires queued != map[]
    ensures IsHead(queued, first)
  {
    var todo := queued.Keys;
    first :| first in todo;
    while todo != {}
      invariant todo <= queued.Keys && first in queued
      invariant forall id :: id in queued && id !in todo ==> NotAfter(queued[first], queued[id])
      decreases todo
    {
      var id :| id in todo;
      todo := todo - {id};
      if !NotAfter(queued[first], queued[id]) {
        first := id;
      }
    }
  }

  // ---- The service -----------------------------------------------------------------

  class Service {
    /** The table, with the history of the run beside it. */
    var db: State
    const sm: StateMachine<MissionStatus>

    constructor ()
      ensures Valid() && db == INIT
    {
      var machine := MissionStateMachine();
      sm := machine;
      db := INIT;
      new;
      assert forall c :: INIT.Pc(c) == Idle;
    }

    ghost predicate Valid()
      reads this, sm
    {
      Inv(db) && sm.Follows(MissionTargets)
    }

    method UpdateMissionStatus(id: Id, status: MissionStatus, version: nat) returns (affected: nat)
      modifies this
      ensures affected == if Matches(old(db).rows, id, version) then 1 else 0
      ensures db == if affected == 1
        then old(db).(rows := Put(old(db).rows, id, old(db).rows[id].data.(status := status))) else old(db)
    {
      affected := 0;
      if Matches(db.rows, id, version) {
        db := db.(rows := Put(db.rows, id, db.rows[id].data.(status := status)));
        affected := 1;
      }
    }

    method UpdatePriorityColumn(id: Id, priority: int, version: nat) returns (affected: nat)
      modifies this
      ensures affected == if Matches(old(db).rows, id, version) then 1 else 0
      ensures db == if affected == 1
        then old(db).(rows := Put(old(db).rows, id, old(db).rows[id].data.(priority := priority))) else old(db)
    {
      affected := 0;
      if Matches(db.rows, id, version) {
        db := db.(rows := Put(db.rows, id, db.rows[id].data.(priority := priority)));
        affected := 1;
      }
    }

    /** Any statements of any other clients. */
    method Interfere(me: Client)
      requires Valid()
      modifies this
      ensures Valid() && db.Pc(me) == old(db).Pc(me)
    {
      var n: nat := *;
      while n > 0
        invariant Valid() && db.Pc(me) == old(db).Pc(me)
      {
        var c: Client := *;
        var a: Action := *;
        if c != me {
          StepKeepsInv(db, c, a);
          db := Do(db, c, a);
        }
        n := n - 1;
      }
    }

    /** Success means the row was cancelled as it was when the call began. */
    method Cancel(me: Client, id: Id) returns (r: Result<()>)
      requires Valid() && db.Pc(me) == Idle
      modifies this
      ensures Valid() && db.Pc(me) == Idle
      ensures r == Err(NotFound) <==> id !in old(db).rows
      ensures id in old(db).rows ==>
        (r == Err(InvalidTransition) <==> MissionCancelled !in MissionTargets(old(db).rows[id].data.status))
      ensures r.Ok? ==>
        && id in old(db).rows && id in db.rows
        && Wrote(old(db).rows[id], db.rows[id], old(db).rows[id].data.(status := MissionCancelled))
      ensures r == Err(Conflict) ==> id in old(db).rows && WrittenSince(db.rows, id, old(db).rows[id])
    {
      if id !in db.rows {
        return Err(NotFound);
      }
      var d := db.rows[id];
      var next := sm.MustTransition(d.data.status, MissionCancelled);
      if next.Err? {
        return Err(next.error);
      }
      StepKeepsInv(db, me, ReadToCancel(id));
      db := db.(pcs := db.pcs[me := Cancelling(id, d)]);

      Interfere(me);

      var won := WriteStatus(me, id, d, next.value);
      return if won then Ok(()) else Err(Conflict);
    }

    /** The status write of Cancel and of AdvanceQueued. */
    method WriteStatus(me: Client, id: Id, d: Row<Mission>, status: MissionStatus) returns (won: bool)
      requires Valid() && !db.Pc(me).Idle? && db.Pc(me).id == id && db.Pc(me).snapshot == d
      requires if status == MissionCancelled then db.Pc(me).Cancelling? else status == Scheduled && db.Pc(me).Advancing?
      modifies this
      ensures Valid() && db.Pc(me) == Idle && id in db.rows
      ensures won ==> Wrote(d, db.rows[id], d.data.(status := status))
      ensures !won ==> WrittenSince(db.rows, id, d)
    {
      assert PcOk(db, me) && PathOk(db, id);
      WriteKeepsInv(db, me);
      var affected := UpdateMissionStatus(id, status, d.version);
      won := affected > 0;
      db := db.(pcs := db.pcs[me := Idle]);
      if won {
        db := db.(paths := db.paths[id := db.paths[id] + [status]]);
      }
    }

    method UpdatePriority(me: Client, id: Id, priority: int) returns (r: Result<()>)
      requires Valid() && db.Pc(me) == Idle
      modifies this
      ensures Valid() && db.Pc(me) == Idle
      ensures r == Err(NotFound) <==> id !in old(db).rows
      ensures id in old(db).rows ==> (r == Err(Validation) <==> !(1 <= priority <= 10))
      ensures r.Ok? ==>
        && id in old(db).rows && id in db.rows
        && Wrote(old(db).rows[id], db.rows[id], old(db).rows[id].data.(priority := priority))
      ensures r == Err(Conflict) ==> id in old(db).rows && WrittenSince(db.rows, id, old(db).rows[id])
    {
      if id !in db.rows {
        return Err(NotFound);
      }
      var d := db.rows[id];
      if priority < 1 || priority > 10 {
        return Err(Validation);
      }
      StepKeepsInv(db, me, ReadToPrioritise(id, priority));
      db := db.(pcs := db.pcs[me := Prioritising(id, d, priority)]);

      Interfere(me);

      assert PcOk(db, me) && PathOk(db, id);
      WriteKeepsInv(db, me);
      var affected := UpdatePriorityColumn(id, priority, d.version);
      db := db.(pcs := db.pcs[me := Idle]);
      return if affected == 0 then Err(Conflict) else Ok(());
    }

    /** A promotion takes the mission the listing put first, unless somebody wrote to it
        meanwhile; an empty queue is no error. */
    method AdvanceQueued(me: Client) returns (r: Result<Option<Id>>)
      requires Valid() && db.Pc(me) == Idle
      modifies this
      ensures Valid() && db.Pc(me) == Idle
      ensures r == Ok(None) <==> QueuedIn(old(db).rows) == map[]
      ensures r == Ok(None) ==> db == old(db)
      ensures r.Ok? && r.value.Some? ==>
        var id := r.value.value;
        && IsHead(QueuedIn(old(db).rows), id) && id in db.rows
        && Wrote(old(db).rows[id], db.rows[id], old(db).rows[id].data.(status := Scheduled))
      ensures r.Err? ==> exists id :: IsHead(QueuedIn(old(db).rows), id) && WrittenSince(db.rows, id, old(db).rows[id])
    {
      var queued := QueuedIn(db.rows);
      if queued == map[] {
        return Ok(None);
      }
      var id := FirstOf(queued);
      var top := db.rows[id];
      var next := sm.MustTransition(top.data.status, Scheduled);
      if next.Err? {
        assert false;  // a queued mission may always be scheduled
      }
      StepKeepsInv(db, me, ListQueued(id));
      db := db.(pcs := db.pcs[me := Advancing(id, top, queued)]);

      Interfere(me);

      var won := WriteStatus(me, id, top, next.value);
      return if won then Ok(Some(id)) else Err(Conflict);
    }
  }

  /** One write, and it found the row as it was at the start. */
  predicate Wrote(before: Row<Mission>, after: Row<Mission>, mission: Mission) {
    after == Row(before.version + 1, mission)
  }
}
