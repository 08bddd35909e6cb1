/** Mission intake as it runs: any number of clients inside Submit, each between two of
    its statements, beside callers of the quota service
    (internal/mission/service.go, internal/mission/submit.go). */
module Submission {
  import opened Common
  import opened Optimistic
  import opened Quotas

  type Id = string

  /** What Submit makes of a valid request: its quota row, that row's configured limit,
      the energy to reserve and the idempotency key ("" for none). */
  datatype Request = Request(idemKey: string, key: Key, limit: int, energy: int)

  datatype Mission = Mission(id: Id, idemKey: string, key: Key, energy: int, queued: bool)

  datatype Answer = NoQuota | Created(mission: Id, queued: bool)

  /** A row of idempotency_records; times are nanoseconds, stored as whole seconds. */
  datatype Record = Record(answer: Answer, expires: int)

  const SECOND: int := 1_000_000_000
  const DAY: int := 86_400 * SECOND
  const RETRIES: nat := 25

  function Stored(t: int): int {
    t / SECOND * SECOND
  }

  datatype Pc =
    | Idle
    | Selecting(req: Request, attempt: nat)
    | Inserting(req: Request, attempt: nat)
    | Reserving(req: Request, attempt: nat, q: Row<Quota>)
    | Rereading(req: Request)
    | Creating(req: Request, q: Row<Quota>)
    | RollingBack(req: Request, q: Row<Quota>)
    | Caching(req: Request, answer: Answer)

  datatype Reply = Reply(idemKey: string, answer: Answer)

  /** `replies` and `released` (units given back through the quota service) are the
      history of the run. */
  datatype State = State(
    quotas: Table,
    missions: seq<Mission>,
    records: map<string, Record>,
    pcs: seq<Pc>,
    replies: seq<Reply>,
    released: map<Key, int>)
  {
    function To(c: nat, pc: Pc): State
      requires c < |pcs|
    {
      this.(pcs := pcs[c := pc])
    }
  }

  function Init(clients: nat): State {
    State(map[], [], map[], seq(clients, _ => Idle), [], map[])
  }

  function ReleasedOn(s: State, key: Key): int {
    if key in s.released then s.released[key] else 0
  }

  datatype Action =
    | Submit(req: Request, now: int)
    | SelectQuota
    | InsertQuota
    | ReserveQuota(locked: bool)
    | Reread
    | CreateMission(id: Id, succeeds: bool)
    | Rollback
    | Cache(now: int)
    | QuotaCall(statement: Statement)

  /** The record answers a request made now. */
  predicate IsFresh(s: State, idemKey: string, now: int) {
    idemKey != "" && idemKey in s.records && now <= s.records[idemKey].expires
  }

  function AfterSubmit(s: State, c: nat, req: Request, now: int): State
    requires c < |s.pcs|
  {
    if req.energy <= 0 then s
    else if IsFresh(s, req.idemKey, now)
    then s.(replies := s.replies + [Reply(req.idemKey, s.records[req.idemKey].answer)])
    else s.To(c, Selecting(req, 0))
  }

  /** The check in Go that follows a quota read. */
  function Checked(req: Request, attempt: nat, q: Row<Quota>): Pc {
    if Available(q.data) < req.energy then Caching(req, NoQuota) else Reserving(req, attempt, q)
  }

  function AfterSelect(s: State, c: nat): State
    requires c < |s.pcs| && s.pcs[c].Selecting?
  {
    var Selecting(req, attempt) := s.pcs[c];
    s.To(c, if req.key in s.quotas then Checked(req, attempt, s.quotas[req.key]) else Inserting(req, attempt))
  }

  function AfterInsert(s: State, c: nat): State
    requires c < |s.pcs| && s.pcs[c].Inserting?
  {
    var Inserting(req, attempt) := s.pcs[c];
    if req.key in s.quotas then s.To(c, Selecting(req, attempt))
    else
      var quotas := Exec(s.quotas, Insert(req.key, req.limit));
      s.(quotas := quotas).To(c, Checked(req, attempt, quotas[req.key]))
  }

  function AfterReserve(s: State, c: nat, locked: bool): State
    requires c < |s.pcs| && s.pcs[c].Reserving?
  {
    var Reserving(req, attempt, q) := s.pcs[c];
    var st := Reserve(req.key, req.energy, q.version);
    if !locked && Hits(s.quotas, st) then s.(quotas := Exec(s.quotas, st)).To(c, Rereading(req))
    else s.To(c, if attempt < RETRIES then Selecting(req, attempt + 1) else Idle)
  }

  function AfterReread(s: State, c: nat): State
    requires c < |s.pcs| && s.pcs[c].Rereading? && s.pcs[c].req.key in s.quotas
  {
    var req := s.pcs[c].req;
    s.To(c, Creating(req, s.quotas[req.key]))
  }

  /** The unique index over non-empty keys. */
  predicate KeyTaken(missions: seq<Mission>, idemKey: string) {
    idemKey != "" && exists i :: 0 <= i < |missions| && missions[i].idemKey == idemKey
  }

  function AfterCreate(s: State, c: nat, id: Id, succeeds: bool): State
    requires c < |s.pcs| && s.pcs[c].Creating?
  {
    var Creating(req, q) := s.pcs[c];
    if succeeds && !KeyTaken(s.missions, req.idemKey) then
      var queued := NearlyFull(q.data);
      s.(missions := s.missions + [Mission(id, req.idemKey, req.key, req.energy, queued)])
       .To(c, Caching(req, Created(id, queued)))
    else s.To(c, RollingBack(req, q))
  }

  /** The release that follows a failed insert: at the version after the one re-read. */
  function RollbackOf(pc: Pc): Statement
    requires pc.RollingBack?
  {
    Release(pc.req.key, pc.req.energy, pc.q.version + 1)
  }

  function AfterRollback(s: State, c: nat): State
    requires c < |s.pcs| && s.pcs[c].RollingBack?
  {
    s.(quotas := Exec(s.quotas, RollbackOf(s.pcs[c]))).To(c, Idle)
  }

  /** INSERT into idempotency_records: a key that is there already, fresh or expired, stays. */
  function AfterCache(s: State, c: nat, now: int): State
    requires c < |s.pcs| && s.pcs[c].Caching?
  {
    var Caching(req, answer) := s.pcs[c];
    var k := req.idemKey;
    s.(records := if k == "" || k in s.records then s.records else s.records[k := Record(answer, Stored(now + DAY))],
       replies := s.replies + [Reply(k, answer)]).To(c, Idle)
  }

  /** Reserve, Commit and Release of the quota service, statement by statement. */
  function AfterQuotaCall(s: State, st: Statement): State {
    if !NonNegative(st) then s else
    s.(quotas := Exec(s.quotas, st),
       released := if st.Release? && Hits(s.quotas, st)
         then s.released[st.key := ReleasedOn(s, st.key) + st.amount] else s.released)
  }

  /** Client `c` runs its next statement; a statement that is not its next one is not run. */
  function Do(s: State, c: nat, a: Action): State {
    if c >= |s.pcs| then s else
    var pc := s.pcs[c];
    match a
    case Submit(req, now) => if pc.Idle? then AfterSubmit(s, c, req, now) else s
    case SelectQuota => if pc.Selecting? then AfterSelect(s, c) else s
    case InsertQuota => if pc.Inserting? then AfterInsert(s, c) else s
    case ReserveQuota(locked) => if pc.Reserving? then AfterReserve(s, c, locked) else s
    case Reread => if pc.Rereading? && pc.req.key in s.quotas then AfterReread(s, c) else s
    case CreateMission(id, succeeds) => if pc.Creating? then AfterCreate(s, c, id, succeeds) else s
    case Rollback => if pc.RollingBack? then AfterRollback(s, c) else s
    case Cache(now) => if pc.Caching? then AfterCache(s, c, now) else s
    case QuotaCall(st) => AfterQuotaCall(s, st)
  }

  datatype Event = Event(client: nat, action: Action)

  /** A whole run, from the empty database, under the given schedule. */
  function Run(clients: nat, events: seq<Event>): (s: State)
    ensures |s.pcs| == clients
  {
    if events == [] then Init(clients)
    else
      var last := events[|events| - 1];
      Do(Run(clients, events[..|events| - 1]), last.client, last.action)
  }

  // ---- What the run has promised -----------------------------------------------

  /** Energy of the missions created against one quota row. */
  function Energy(missions: seq<Mission>, key: Key): int {
    if missions == [] then
      0
    else
      var last := missions[|missions| - 1];
      Energy(missions[..|missions| - 1], key) + (if last.key == key then last.energy else 0)
  }

  /** Units a client has reserved and not yet turned into a mission or given up. */
  function OwedBy(pc: Pc, key: Key): int {
    if (pc.Rereading? || pc.Creating? || pc.RollingBack?) && pc.req.key == key then pc.req.energy else 0
  }

  function Owed(pcs: seq<Pc>, key: Key): int {
    if pcs == [] then 0 else OwedBy(pcs[0], key) + Owed(pcs[1..], key)
  }

  lemma {:induction false} OwedAfterUpdate(pcs: seq<Pc>, c: nat, pc: Pc, key: Key)
    requires c < |pcs|
    ensures Owed(pcs[c := pc], key) == Owed(pcs, key) - OwedBy(pcs[c], key) + OwedBy(pc, key)
  {
    if c > 0 {
      OwedAfterUpdate(pcs[1..], c - 1, pc, key);
      assert pcs[c := pc][1..] == pcs[1..][c - 1 := pc];
    } else {
      assert pcs[c := pc][1..] == pcs[1..];
    }
  }

  lemma {:induction false} IdleOwesNothing(pcs: seq<Pc>, key: Key)
    requires forall c :: 0 <= c < |pcs| ==> pcs[c].Idle?
    ensures Owed(pcs, key) == 0
  {
    if pcs != [] {
      assert pcs[0].Idle?;
      IdleOwesNothing(pcs[1..], key);
    }
  }

  lemma {:induction false} OwedIsPositive(pcs: seq<Pc>, key: Key)
    requires forall c :: 0 <= c < |pcs| && !pcs[c].Idle? ==> pcs[c].req.energy > 0
    ensures Owed(pcs, key) >= 0
  {
    if pcs != [] {
      assert !pcs[0].Idle? ==> pcs[0].req.energy > 0;
      OwedIsPositive(pcs[1..], key);
    }
  }

  /** Missions made and units owed never exceed what the row holds, counting what the
      quota service gave back. */
  predicate Covered(s: State, key: Key) {
    if key in s.quotas then
      var q := s.quotas[key].data;
      && s.quotas[key].version >= 1 && InBounds(q)
      && Energy(s.missions, key) + Owed(s.pcs, key) <= q.used + q.reserved + ReleasedOn(s, key)
    else
      Energy(s.missions, key) + Owed(s.pcs, key) <= 0 && ReleasedOn(s, key) == 0
  }

  ghost predicate HasMission(missions: seq<Mission>, idemKey: string, id: Id) {
    exists i :: 0 <= i < |missions| && missions[i].idemKey == idemKey && missions[i].id == id
  }

  /** An answer that names a mission names one made under its own key. */
  ghost predicate Backed(missions: seq<Mission>, idemKey: string, answer: Answer) {
    answer.Created? ==> HasMission(missions, idemKey, answer.mission)
  }

  ghost predicate PcOk(s: State, pc: Pc) {
    && (!pc.Idle? ==> pc.req.energy > 0)
    && (pc.Reserving? ==> pc.req.key in s.quotas && SnapshotOf(pc.q, s.quotas[pc.req.key]))
    && (pc.Rereading? ==> pc.req.key in s.quotas)
    && (pc.Creating? || pc.RollingBack? ==> pc.req.key in s.quotas && SnapshotOf(pc.q, s.quotas[pc.req.key]))
    && (pc.Caching? ==> Backed(s.missions, pc.req.idemKey, pc.answer))
  }

  ghost predicate Inv(s: State) {
    && (forall key :: Covered(s, key))
    && (forall c :: 0 <= c < |s.pcs| ==> PcOk(s, s.pcs[c]))
    && (forall i, j :: 0 <= i < j < |s.missions| && s.missions[i].idemKey == s.missions[j].idemKey ==>
      s.missions[i].idemKey == "")
    && (forall k :: k in s.records ==> Backed(s.missions, k, s.records[k].answer))
    && (forall i :: 0 <= i < |s.replies| ==> Backed(s.missions, s.replies[i].idemKey, s.replies[i].answer))
  }
}
