/** The assignment service as it runs: any number of clients, each between two of
    its own database statements at any time. Rows and leases live in two tables
    that no transaction spans. */
module AssignmentProtocol {
  import opened Common
  import opened Optimistic
  import opened Domain
  import Spec = AssignmentSpec

  type Id = Spec.Id
  type Task = Spec.Task
  type Client = nat

  datatype LeaseStatus = Active | Released | Revoked

  /** A row of task_leases. */
  datatype Lease = Lease(task: Id, status: LeaseStatus)

  type Leases = map<Id, Row<Lease>>

  datatype How = ByReport | ByPreempt | ByCompensation

  /** Whether a claim has ended: how, by which client's row write, and at which
      place in the log of committed operations. */
  datatype Fate = Open | Ended(how: How, client: Client, at: nat)

  /** A claim whose row write won: `mine` is the row as that write left it. */
  datatype Claim = Claim(task: Id, client: Client, mine: Row<Task>, fate: Fate)

  datatype Listed = Listed(id: Id, snapshot: Row<Task>)

  /** Where a client stands between two statements, with the values it carries. */
  datatype Pc =
    | Idle
    | Assigning(id: Id, snapshot: Row<Task>)
    | Claiming(id: Id, snapshot: Row<Task>, executor: string)
    | Inserting(lease: Id)
    | Clearing(lease: Id)
    | Reporting(id: Id, snapshot: Row<Task>, executor: string)
    | Releasing(lease: Id)
    | ReleasingAt(lease: Id, version: nat)
    | Preempting(queue: seq<Listed>, now: int)
    | Revoking(lease: Id, queue: seq<Listed>, now: int)
    | RevokingAt(lease: Id, version: nat, queue: seq<Listed>, now: int)

  /** `claims`, `missed` and `log` are the history of the run; the service keeps none of
      them. `missed` holds the leases that the client which ended their claim looked for
      in vain. */
  datatype State = State(
    rows: Spec.Table,
    leases: Leases,
    pcs: map<Client, Pc>,
    claims: map<Id, Claim>,
    missed: set<Id>,
    log: seq<Spec.Op>)
  {
    function Pc(c: Client): Pc {
      if c in pcs then pcs[c] else Idle
    }

    function To(c: Client, pc: Pc): State {
      this.(pcs := pcs[c := pc])
    }
  }

  const INIT := State(map[], map[], map[], map[], {}, [])

  // ---- The statements ------------------------------------------------------

  /** One statement of one client, with whatever the outside decides for it. */
  datatype Action =
    | CreateTask(id: Id)
    | ReadToAssign(id: Id)
    | WriteAssign
    | ReadToClaim(id: Id, executor: string)
    | WriteClaim(uuid: Id, expires: int)
    | InsertLease(succeeds: bool)
    | ClearClaim
    | ReadToReport(id: Id, executor: string)
    | WriteReport
    | ListOverdue(now: int, order: seq<Id>)
    | WritePreempt
    | ReadLease
    | WriteLease

  function AfterCreate(s: State, id: Id): State {
    if id in s.rows then s
    else s.(rows := s.rows[id := Row(1, Spec.NEW_TASK)], log := s.log + [Spec.Create(id)])
  }

  function AfterReadToAssign(s: State, c: Client, id: Id): State {
    if id in s.rows && Assigned in AssignmentTargets(s.rows[id].data.status)
    then s.To(c, Assigning(id, s.rows[id]))
    else s
  }

  function AfterWriteAssign(s: State, c: Client): State
    requires s.Pc(c).Assigning?
  {
    var Assigning(id, t) := s.Pc(c);
    if Matches(s.rows, id, t.version)
    then s.(rows := Put(s.rows, id, s.rows[id].data.(status := Assigned)),
            log := s.log + [Spec.Assign(id)]).To(c, Idle)
    else s.To(c, Idle)
  }

  function AfterReadToClaim(s: State, c: Client, id: Id, executor: string): State {
    if executor != "" && id in s.rows && s.rows[id].data.status == Assigned
    then s.To(c, Claiming(id, s.rows[id], executor))
    else s
  }

  function AfterWriteClaim(s: State, c: Client, uuid: Id, expires: int): State
    requires s.Pc(c).Claiming?
  {
    var Claiming(id, t, executor) := s.Pc(c);
    if uuid == "" || uuid in s.claims then s   // identifiers are fresh
    else if Matches(s.rows, id, t.version) then
      var rows := Put(s.rows, id, Spec.Task(Claimed, executor, uuid, Some(expires)));
      s.(rows := rows,
         claims := s.claims[uuid := Claim(id, c, rows[id], Open)],
         log := s.log + [Spec.Op.Claim(id, executor, uuid, expires)]).To(c, Inserting(uuid))
    else s.To(c, Idle)
  }

  function AfterInsertLease(s: State, c: Client, succeeds: bool): State
    requires s.Pc(c).Inserting? && s.Pc(c).lease in s.claims
  {
    var l := s.Pc(c).lease;
    if succeeds
    then s.(leases := s.leases[l := Row(1, Lease(s.claims[l].task, Active))]).To(c, Idle)
    else s.To(c, Clearing(l))
  }

  /** The compensation: clear the claim at the version its own write produced. */
  function AfterClearClaim(s: State, c: Client): State
    requires s.Pc(c).Clearing? && s.Pc(c).lease in s.claims
  {
    var l := s.Pc(c).lease;
    var Claim(id, _, mine, _) := s.claims[l];
    if Matches(s.rows, id, mine.version)
    then s.(rows := Put(s.rows, id,
      s.rows[id].data.(status := Preempted, claimedBy := "", lease := "", expires := None)),
            claims := s.claims[l := s.claims[l].(fate := Fate.Ended(ByCompensation, c, |s.log|))],
            log := s.log + [Spec.Compensate(id, l)]).To(c, Idle)
    else s.To(c, Idle)
  }

  function AfterReadToReport(s: State, c: Client, id: Id, executor: string): State {
    if executor != "" && id in s.rows
       && s.rows[id].data.claimedBy == executor
       && Completed in AssignmentTargets(s.rows[id].data.status)
    then s.To(c, Reporting(id, s.rows[id], executor))
    else s
  }

  function EndClaim(s: State, l: Id, fate: Fate): map<Id, Claim> {
    if l in s.claims then s.claims[l := s.claims[l].(fate := fate)] else s.claims
  }

  function AfterWriteReport(s: State, c: Client): State
    requires s.Pc(c).Reporting?
  {
    var Reporting(id, t, executor) := s.Pc(c);
    if Matches(s.rows, id, t.version)
    then s.(rows := Put(s.rows, id, s.rows[id].data.(status := Completed)),
            claims := EndClaim(s, t.data.lease, Fate.Ended(ByReport, c, |s.log|)),
            log := s.log + [Spec.Report(id, executor)])
          .To(c, if t.data.lease != "" then Releasing(t.data.lease) else Idle)
    else s.To(c, Idle)
  }

  /** What ListExpiredClaims returns: every overdue claim once, earliest expiry first. */
  predicate IsListing(rows: Spec.Table, now: int, order: seq<Id>) {
    && (forall id :: id in order ==> id in rows && Spec.IsOverdue(rows[id].data, now))
    && (forall id :: id in rows && Spec.IsOverdue(rows[id].data, now) ==> id in order)
    && SortedByExpiry(rows, order)
  }

  predicate SortedByExpiry(rows: Spec.Table, order: seq<Id>) {
    && (forall id :: id in order ==> id in rows && rows[id].data.expires.Some?)
    && (forall i, j :: 0 <= i < j < |order| ==>
          && order[i] != order[j]
          && rows[order[i]].data.expires.value <= rows[order[j]].data.expires.value)
  }

  function Snapshots(rows: Spec.Table, order: seq<Id>): seq<Listed>
    requires forall id :: id in order ==> id in rows
  {
    seq(|order|, i requires 0 <= i < |order| => Listed(order[i], rows[order[i]]))
  }

  function AfterListOverdue(s: State, c: Client, now: int, order: seq<Id>): State {
    if IsListing(s.rows, now, order)
    then s.To(c, Preempting(Snapshots(s.rows, order), now))
    else s
  }

  function AfterWritePreempt(s: State, c: Client): State
    requires s.Pc(c).Preempting?
  {
    var Preempting(queue, now) := s.Pc(c);
    if queue == [] then s.To(c, Idle) else
    var Listed(id, t) := queue[0];
    if Matches(s.rows, id, t.version)
    then s.(rows := Put(s.rows, id,
      s.rows[id].data.(status := Preempted, claimedBy := "", lease := "", expires := None)),
            claims := EndClaim(s, t.data.lease, Fate.Ended(ByPreempt, c, |s.log|)),
            log := s.log + [Spec.Preempt(id, now)])
          .To(c, if t.data.lease != "" then Revoking(t.data.lease, queue[1..], now) else Preempting(queue[1..], now))
    else s.To(c, Preempting(queue[1..], now))
  }

  /** GetLease, for a release or for a revocation; a missing lease is skipped. */
  function AfterReadLease(s: State, c: Client): State
    requires s.Pc(c).Releasing? || s.Pc(c).Revoking?
  {
    var l := s.Pc(c).lease;
    var s' := if l in s.leases then s else s.(missed := s.missed + {l});
    match s.Pc(c)
    case Releasing(_) =>
      s'.To(c, if l in s.leases then ReleasingAt(l, s.leases[l].version) else Idle)
    case Revoking(_, queue, now) =>
      s'.To(c, if l in s.leases then RevokingAt(l, s.leases[l].version, queue, now) else Preempting(queue, now))
  }

  function EndLease(leases: Leases, l: Id, version: nat, status: LeaseStatus): Leases {
    if Matches(leases, l, version) && leases[l].data.status == Active
    then Put(leases, l, leases[l].data.(status := status))
    else leases
  }

  /** Of all the clients that read an active lease, the first to end it decides its status:
      whatever version the others carry, no later attempt changes any lease. */
  lemma FirstToEndALeaseWins(leases: Leases, l: Id, first: LeaseStatus)
    requires l in leases && leases[l].data.status == Active && first != Active
    ensures var after := EndLease(leases, l, leases[l].version, first);
      && l in after && after[l] == Row(leases[l].version + 1, leases[l].data.(status := first))
      && (forall k :: k != l ==> (k in after <==> k in leases) && (k in leases ==> after[k] == leases[k]))
      && (forall version, later :: EndLease(after, l, version, later) == after)
  {
  }

  function AfterWriteLease(s: State, c: Client): State
    requires s.Pc(c).ReleasingAt? || s.Pc(c).RevokingAt?
  {
    match s.Pc(c)
    case ReleasingAt(l, v) =>
      s.(leases := EndLease(s.leases, l, v, Released)).To(c, Idle)
    case RevokingAt(l, v, queue, now) =>
      s.(leases := EndLease(s.leases, l, v, Revoked)).To(c, Preempting(queue, now))
  }

  /** The state after client `c` runs its next statement; a statement that is not
      the client's next one is not run. */
  function Do(s: State, c: Client, a: Action): State {
    var pc := s.Pc(c);
    match a
    case CreateTask(id) => if pc.Idle? then AfterCreate(s, id) else s
    case ReadToAssign(id) => if pc.Idle? then AfterReadToAssign(s, c, id) else s
    case WriteAssign => if pc.Assigning? then AfterWriteAssign(s, c) else s
    case ReadToClaim(id, executor) => if pc.Idle? then AfterReadToClaim(s, c, id, executor) else s
    case WriteClaim(uuid, expires) => if pc.Claiming? then AfterWriteClaim(s, c, uuid, expires) else s
    case InsertLease(succeeds) =>
      if pc.Inserting? && pc.lease in s.claims then AfterInsertLease(s, c, succeeds) else s
    case ClearClaim => if pc.Clearing? && pc.lease in s.claims then AfterClearClaim(s, c) else s
    case ReadToReport(id, executor) => if pc.Idle? then AfterReadToReport(s, c, id, executor) else s
    case WriteReport => if pc.Reporting? then AfterWriteReport(s, c) else s
    case ListOverdue(now, order) => if pc.Idle? then AfterListOverdue(s, c, now, order) else s
    case WritePreempt => if pc.Preempting? then AfterWritePreempt(s, c) else s
    case ReadLease => if pc.Releasing? || pc.Revoking? then AfterReadLease(s, c) else s
    case WriteLease => if pc.ReleasingAt? || pc.RevokingAt? then AfterWriteLease(s, c) else s
  }

  datatype Event = Event(client: Client, action: Action)

  /** A whole run, from the empty database, under the given schedule. */
  ghost function Run(events: seq<Event>): State {
    if events == [] then INIT
    else
      var last := events[|events| - 1];
      Do(Run(events[..|events| - 1]), last.client, last.action)
  }

  // ---- The invariant ---------------------------------------------------------

  ghost predicate SnapshotOk(s: State, id: Id, snapshot: Row<Task>) {
    id in s.rows && SnapshotOf(snapshot, s.rows[id])
  }

  ghost predicate ListedOk(s: State, queue: seq<Listed>, now: int) {
    forall i :: 0 <= i < |queue| ==>
      && SnapshotOk(s, queue[i].id, queue[i].snapshot)
      && Spec.IsOverdue(queue[i].snapshot.data, now)
  }

  ghost predicate EndedAs(s: State, l: Id, how: How, c: Client) {
    l in s.claims && HasEnded(s.claims[l].fate, how) && s.claims[l].fate.client == c
  }

  predicate HasEnded(fate: Fate, how: How) {
    fate.Ended? && fate.how == how
  }

  predicate ActiveIfThere(s: State, l: Id) {
    l in s.leases ==> s.leases[l].data.status == Active
  }

  ghost predicate PcOk(s: State, c: Client) {
    match s.Pc(c)
    case Idle => true
    case Assigning(id, t) => SnapshotOk(s, id, t) && Assigned in AssignmentTargets(t.data.status)
    case Claiming(id, t, executor) => SnapshotOk(s, id, t) && t.data.status == Assigned && executor != ""
    case Inserting(l) => l in s.claims && s.claims[l].client == c && l !in s.leases
      && !HasEnded(s.claims[l].fate, ByCompensation)
    case Clearing(l) => l in s.claims && s.claims[l].client == c && l !in s.leases
      && !HasEnded(s.claims[l].fate, ByCompensation)
    case Reporting(id, t, executor) =>
      SnapshotOk(s, id, t) && t.data.claimedBy == executor != "" && Completed in AssignmentTargets(t.data.status)
    case Releasing(l) => EndedAs(s, l, ByReport, c) && l !in s.missed && ActiveIfThere(s, l)
    case ReleasingAt(l, v) => EndedAs(s, l, ByReport, c) && l !in s.missed && IsActiveAt(s, l, v)
    case Preempting(queue, now) => ListedOk(s, queue, now)
    case Revoking(l, queue, now) =>
      EndedAs(s, l, ByPreempt, c) && l !in s.missed && ActiveIfThere(s, l) && ListedOk(s, queue, now)
    case RevokingAt(l, v, queue, now) =>
      EndedAs(s, l, ByPreempt, c) && l !in s.missed && IsActiveAt(s, l, v) && ListedOk(s, queue, now)
  }

  predicate IsActiveAt(s: State, l: Id, v: nat) {
    l in s.leases && l in s.claims && s.leases[l] == Row(v, Lease(s.claims[l].task, Active))
  }

  ghost predicate RowOk(s: State, id: Id) {
    id in s.rows ==>
      var t := s.rows[id].data;
      Spec.WellShaped(t) &&
      (t.status in {Claimed, Completed} ==>
        t.lease in s.claims && s.claims[t.lease].task == id &&
        (if t.status == Claimed then s.claims[t.lease].fate == Open else HasEnded(s.claims[t.lease].fate, ByReport)))
  }

  ghost predicate ClaimOk(s: State, l: Id) {
    (l in s.missed ==>
      l in s.claims && (HasEnded(s.claims[l].fate, ByReport) || HasEnded(s.claims[l].fate, ByPreempt))) &&
    (l in s.claims ==>
      var Claim(id, c, mine, fate) := s.claims[l];
      && l != ""
      && id in s.rows && SnapshotOf(mine, s.rows[id])
      && mine.data.status == Claimed && mine.data.lease == l
      && (fate == Open ==> s.rows[id] == mine)
      && (fate == Open && l !in s.leases ==> s.Pc(c) in {Inserting(l), Clearing(l)})
      && (HasEnded(fate, ByCompensation) ==> l !in s.leases)
      && (fate.Ended? ==> EndOk(s, l) && mine.version < s.rows[id].version)
      && (l in s.missed || EndIsNear(s, l) || HasEnded(fate, ByCompensation)
          || (l in s.leases && s.leases[l].data.status != Active)))
  }

  ghost predicate LeaseOk(s: State, l: Id) {
    l in s.leases ==>
      && l in s.claims
      && s.leases[l].data.task == s.claims[l].task
      && (s.leases[l].data.status == Active <==> s.leases[l].version == 1)
      && (s.leases[l].data.status == Released ==> HasEnded(s.claims[l].fate, ByReport))
      && (s.leases[l].data.status == Revoked ==> HasEnded(s.claims[l].fate, ByPreempt))
      && (l in s.missed ==> s.leases[l].data.status == Active)
  }

  /** The log tells how the claim ended: the operation at `at` is the one, and the
      row it changed was still the row the claim had written. */
  ghost predicate EndOk(s: State, l: Id)
    requires l in s.claims && s.claims[l].fate.Ended?
  {
    var Claim(id, _, mine, Ended(how, _, at)) := s.claims[l];
    && at < |s.log|
    && Spec.Legal(s.log[..at]) && id in Spec.Exec(s.log[..at]) && Spec.Exec(s.log[..at])[id] == mine
    && s.log[at].id == id
    && (match how
        case ByReport => s.log[at].Report?
        case ByPreempt => s.log[at].Preempt?
        case ByCompensation => s.log[at].Compensate?)
  }

  /** The claim is open, or the client that ended it is about to end the lease too. */
  ghost predicate EndIsNear(s: State, l: Id)
    requires l in s.claims
  {
    match s.claims[l].fate
    case Open => true
    case Ended(ByReport, c, _) =>
      s.Pc(c) == Releasing(l) || (s.Pc(c).ReleasingAt? && s.Pc(c).lease == l)
    case Ended(ByPreempt, c, _) =>
      (s.Pc(c).Revoking? || s.Pc(c).RevokingAt?) && s.Pc(c).lease == l
    case Ended(ByCompensation, _, _) => false
  }

  ghost predicate Inv(s: State) {
    && Spec.Legal(s.log) && Spec.Exec(s.log) == s.rows
    && (forall c :: PcOk(s, c))
    && (forall id :: RowOk(s, id))
    && (forall l :: ClaimOk(s, l))
    && (forall l :: LeaseOk(s, l))
  }
}
