/** The atomic machine the assignment service is meant to be: every operation
    checks the row and changes it in one indivisible step. */
module AssignmentSpec {
  import opened Common
  import opened Optimistic
  import opened Domain

  type Id = string

  /** A row of robot_assignments. `lease` and `claimedBy` are "" when the claim is
      cleared; times are whole seconds, as the column stores them. */
  datatype Task = Task(status: AssignmentStatus, claimedBy: string, lease: Id, expires: Option<int>)

  const NEW_TASK := Task(Created, "", "", None)

  type Table = map<Id, Row<Task>>

  /** One committed change of a row. */
  datatype Op =
    | Create(id: Id)
    | Assign(id: Id)
    | Claim(id: Id, executor: string, lease: Id, expires: int)
    | Report(id: Id, executor: string)
    | Preempt(id: Id, now: int)
    | Compensate(id: Id, lease: Id)

  predicate IsOverdue(t: Task, now: int) {
    t.expires.Some? && t.expires.value < now && t.status in {Claimed, InProgress}
  }

  /** The check of each operation, made on the row it changes. */
  predicate Can(rows: Table, op: Op) {
    if op.Create? then op.id !in rows else
    op.id in rows &&
    var t := rows[op.id].data;
    match op
    case Assign(_) => Assigned in AssignmentTargets(t.status)
    case Claim(_, executor, lease, _) => t.status == Assigned && executor != "" && lease != ""
    case Report(_, executor) => executor != "" && t.claimedBy == executor && Completed in AssignmentTargets(t.status)
    case Preempt(_, now) => IsOverdue(t, now)
    case Compensate(_, lease) => t.status == Claimed && t.lease == lease
  }

  /** The columns each operation sets; the others stay. */
  function Changed(t: Task, op: Op): Task {
    match op
    case Create(_) => NEW_TASK
    case Assign(_) => t.(status := Assigned)
    case Claim(_, executor, lease, expires) => Task(Claimed, executor, lease, Some(expires))
    case Report(_, _) => t.(status := Completed)
    case Preempt(_, _) => Task(Preempted, "", "", None)
    case Compensate(_, _) => Task(Preempted, "", "", None)
  }

  function Apply(rows: Table, op: Op): Table
    requires Can(rows, op)
  {
    if op.Create? then rows[op.id := Row(1, NEW_TASK)]
    else Put(rows, op.id, Changed(rows[op.id].data, op))
  }

  /** A run of the atomic machine: every operation finds its check true. */
  ghost predicate Legal(ops: seq<Op>)
    decreases |ops|, 0
  {
    ops == [] || (Legal(ops[..|ops| - 1]) && Can(Exec(ops[..|ops| - 1]), ops[|ops| - 1]))
  }

  /** The table after a legal run that starts from an empty one. */
  ghost function Exec(ops: seq<Op>): Table
    requires Legal(ops)
    decreases |ops|, 1
  {
    if ops == [] then map[] else Apply(Exec(ops[..|ops| - 1]), ops[|ops| - 1])
  }

  lemma ExtendRun(ops: seq<Op>, op: Op)
    requires Legal(ops) && Can(Exec(ops), op)
    ensures Legal(ops + [op]) && Exec(ops + [op]) == Apply(Exec(ops), op)
  {
    assert (ops + [op])[..|ops|] == ops;
  }

  // ---- Counting -------------------------------------------------------------

  datatype Kind = IsAssign | IsClaim | IsClear | IsReport

  predicate HasKind(op: Op, kind: Kind) {
    match kind
    case IsAssign => op.Assign?
    case IsClaim => op.Claim?
    case IsClear => op.Preempt? || op.Compensate?
    case IsReport => op.Report?
  }

  function Count(ops: seq<Op>, id: Id, kind: Kind): nat {
    if ops == [] then
      0
    else
      var last := ops[|ops| - 1];
      Count(ops[..|ops| - 1], id, kind) + (if last.id == id && HasKind(last, kind) then 1 else 0)
  }

  /** Where the claim columns stand in each status a run can reach. */
  predicate WellShaped(t: Task) {
    match t.status
    case Created => t == NEW_TASK
    case Assigned => t == NEW_TASK.(status := Assigned)
    case Preempted => t == NEW_TASK.(status := Preempted)
    case Claimed => t.claimedBy != "" && t.lease != "" && t.expires.Some?
    case Completed => t.claimedBy != "" && t.lease != "" && t.expires.Some?
    case _ => false
  }

  predicate Balanced(row: Row<Task>, assigns: nat, claims: nat, clears: nat, reports: nat) {
    && claims == clears + (if row.data.status in {Claimed, Completed} then 1 else 0)
    && assigns == claims + (if row.data.status == Assigned then 1 else 0)
    && reports == (if row.data.status == Completed then 1 else 0)
    && row.version == 1 + assigns + claims + clears + reports
  }

  /** The books of one task balance after any legal run. */
  lemma {:induction false} CountsBalance(ops: seq<Op>, id: Id)
    requires Legal(ops)
    ensures id in Exec(ops) ==>
      && WellShaped(Exec(ops)[id].data)
      && Balanced(Exec(ops)[id], Count(ops, id, IsAssign), Count(ops, id, IsClaim), Count(ops, id, IsClear),
        Count(ops, id, IsReport))
    ensures id !in Exec(ops) ==> forall kind :: Count(ops, id, kind) == 0
  {
    if ops != [] {
      CountsBalance(ops[..|ops| - 1], id);
    }
  }

  /** Every operation of a legal run takes its row along an edge of the transition table. */
  lemma EveryChangeIsAnEdge(ops: seq<Op>, op: Op)
    requires Legal(ops) && Can(Exec(ops), op) && !op.Create?
    ensures Apply(Exec(ops), op)[op.id].data.status in AssignmentTargets(Exec(ops)[op.id].data.status)
  {
  }

  /** A completed task is never touched again: no operation passes its check. */
  lemma CompletedIsFinal(ops: seq<Op>, op: Op)
    requires Legal(ops) && op.id in Exec(ops) && Exec(ops)[op.id].data.status == Completed
    ensures !Can(Exec(ops), op)
  {
  }
}
