/** The reservation phases of an undisturbed tick are runs of the reservation protocol: what
    that protocol keeps, a tick keeps. */
module TickRuns {
  import opened Common
  import opened Optimistic
  import opened Domain
  import opened Timestamps
  import opened Programs
  import R = Reservations
  import S = Scheduler

  type Id = string

  /** Statements of one client, back to back. */
  function Perform(s: R.State, c: nat, actions: seq<R.Action>): R.State {
    InTurn(By(c), s, actions)
  }

  function By(c: nat): (R.State, R.Action) -> R.State {
    (s, a) => R.Do(s, c, a)
  }

  lemma {:induction false} PerformKeepsInv(s: R.State, c: nat, actions: seq<R.Action>)
    requires R.Inv(s)
    ensures R.Inv(Perform(s, c, actions))
    decreases |actions|
  {
    if actions != [] {
      R.StepKeepsInv(s, c, actions[0]);
      PerformKeepsInv(R.Do(s, c, actions[0]), c, actions[1..]);
    }
  }

  lemma PerformOne(s: R.State, c: nat, a: R.Action)
    ensures Perform(s, c, [a]) == R.Do(s, c, a)
  {
    OneInTurn(By(c), s, a);
  }

  lemma PerformParts(s: R.State, c: nat, a: seq<R.Action>, b: seq<R.Action>)
    ensures Perform(s, c, a + b) == Perform(Perform(s, c, a), c, b)
  {
    PartsInTurn(By(c), s, a, b);
  }

  /** The rows listed are as they were listed, none of them twice. */
  ghost predicate IsFresh(rows: R.Table, queue: seq<R.Listed>) {
    && (forall i :: 0 <= i < |queue| ==> queue[i].id in rows && rows[queue[i].id] == queue[i].snapshot)
    && (forall i, j :: 0 <= i < j < |queue| ==> queue[i].id != queue[j].id)
  }

  function Ids(queue: seq<R.Listed>): set<Id> {
    set i | 0 <= i < |queue| :: queue[i].id
  }

  lemma IdsOfRest(queue: seq<R.Listed>)
    requires queue != []
    ensures Ids(queue) == Ids(queue[1..]) + {queue[0].id}
  {
    forall id ensures id in Ids(queue) <==> id in Ids(queue[1..]) + {queue[0].id} {
      if id in Ids(queue) {
        var i :| 0 <= i < |queue| && queue[i].id == id;
        assert i > 0 ==> queue[1..][i - 1].id == id;
      }
      if id in Ids(queue[1..]) {
        var i :| 0 <= i < |queue| - 1 && queue[1..][i].id == id;
        assert queue[i + 1].id == id;
      }
    }
  }

  lemma RestIsFresh(rows: R.Table, queue: seq<R.Listed>, row: Row<R.Reservation>)
    requires queue != [] && IsFresh(rows, queue)
    ensures IsFresh(rows[queue[0].id := row], queue[1..]) && queue[0].id !in Ids(queue[1..])
  {
    forall i | 0 <= i < |queue| - 1 ensures queue[1..][i] == queue[i + 1] && queue[1..][i].id != queue[0].id {
    }
  }

  // ---- Activation --------------------------------------------------------------------

  function Writes(n: nat): seq<R.Action> {
    seq(n, _ => R.Write)
  }

  lemma {:induction false} WritesActivate(s: R.State, c: nat, queue: seq<R.Listed>)
    requires c < |s.pcs| && s.pcs[c] == R.Activating(queue) && IsFresh(s.rows, queue)
    ensures var s' := Perform(s, c, Writes(|queue| + 1));
      OnlyRowsMoved(s, s', c) && S.ActivatedSoFar(s.rows, s'.rows, Ids(queue))
    decreases |queue|
  {
    var s1 := R.Do(s, c, R.Write);
    assert Writes(|queue| + 1)[1..] == Writes(|queue|);
    if queue == [] {
      PerformOne(s, c, R.Write);
      assert Writes(1) == [R.Write];
      assert Ids(queue) == {};
    } else {
      var id := queue[0].id;
      ActivatesOne(s, c, queue);
      RestIsFresh(s.rows, queue, S.Activated(s.rows[id]));
      IdsOfRest(queue);
      WritesActivate(s1, c, queue[1..]);
      OneMoreActivated(s.rows, Perform(s1, c, Writes(|queue|)).rows, Ids(queue[1..]), id);
    }
  }

  ghost predicate OnlyRowsMoved(s: R.State, s': R.State, c: nat) {
    c < |s.pcs| && s' == s.(rows := s'.rows).To(c, R.Idle)
  }

  lemma ActivatesOne(s: R.State, c: nat, queue: seq<R.Listed>)
    requires c < |s.pcs| && s.pcs[c] == R.Activating(queue) && queue != [] && IsFresh(s.rows, queue)
    ensures var id := queue[0].id;
      R.Do(s, c, R.Write) == s.(rows := s.rows[id := S.Activated(s.rows[id])]).To(c, R.Activating(queue[1..]))
  {
  }

  lemma OneMoreActivated(before: R.Table, after: R.Table, rest: set<Id>, id: Id)
    requires id in before && id !in rest
    requires S.ActivatedSoFar(before[id := S.Activated(before[id])], after, rest)
    ensures S.ActivatedSoFar(before, after, rest + {id})
  {
  }

  lemma Listing(s: R.State, ids: set<Id>) returns (order: seq<Id>)
    requires forall id :: id in ids ==> id in s.rows
    ensures forall id :: id in order <==> id in ids
    ensures IsFresh(s.rows, R.Snapshots(s.rows, order)) && Ids(R.Snapshots(s.rows, order)) == ids
  {
    order := Enumerate(ids);
    var queue := R.Snapshots(s.rows, order);
    assert forall i :: 0 <= i < |order| ==> order[i] in order && queue[i] == R.Listed(order[i], s.rows[order[i]]);
    forall id ensures id in Ids(queue) <==> id in ids {
      if id in ids {
        var i :| 0 <= i < |order| && order[i] == id;
        assert queue[i].id == id;
      }
    }
  }

  lemma Enumerate(ids: set<Id>) returns (order: seq<Id>)
    ensures forall id :: id in order <==> id in ids
    ensures forall i, j :: 0 <= i < j < |order| ==> order[i] != order[j]
    decreases ids
  {
    if ids == {} {
      order := [];
    } else {
      var id :| id in ids;
      order := Enumerate(ids - {id});
      order := order + [id];
    }
  }

  /** What ActivateEffective does when undisturbed is a run of the protocol. */
  lemma ActivationIsARun(s: R.State, c: nat, now: Reading) returns (actions: seq<R.Action>)
    requires R.Inv(s) && c < |s.pcs| && s.pcs[c].Idle?
    ensures var s' := Perform(s, c, actions);
      && R.Inv(s') && s' == s.(rows := s'.rows)
      && S.ActivatedSoFar(s.rows, s'.rows, S.DueReservations(s.rows, now))
  {
    var order := Listing(s, S.DueReservations(s.rows, now));
    var queue := R.Snapshots(s.rows, order);
    actions := [R.ListAllocated(now, order)] + Writes(|queue| + 1);
    PerformParts(s, c, [R.ListAllocated(now, order)], Writes(|queue| + 1));
    var s1 := s.To(c, R.Activating(queue));
    assert R.Do(s, c, R.ListAllocated(now, order)) == s1;
    PerformOne(s, c, R.ListAllocated(now, order));
    WritesActivate(s1, c, queue);
    PerformKeepsInv(s, c, actions);
    assert s.pcs[c := R.Idle] == s.pcs;
  }

  // ---- Escalation --------------------------------------------------------------------

  function WritesAndRecords(n: nat): seq<R.Action> {
    if n == 0 then [R.Write] else [R.Write, R.InsertRecord(true)] + WritesAndRecords(n - 1)
  }

  lemma {:induction false} WritesEscalate(s: R.State, c: nat, queue: seq<R.Listed>)
    requires c < |s.pcs| && s.pcs[c] == R.Escalating(queue) && IsFresh(s.rows, queue)
    ensures var s' := Perform(s, c, WritesAndRecords(|queue|));
      OnlyEscalated(s, s', c) && ClimbedWithRecords(s, s', Ids(queue))
    decreases |queue|
  {
    if queue == [] {
      NothingEscalates(s, c);
    } else {
      var s2 := EscalatesOne(s, c, queue);
      HeadLeavesTheRest(s, s2, c, queue);
      WritesEscalate(s2, c, queue[1..]);
      var s' := Perform(s2, c, WritesAndRecords(|queue| - 1));
      OneMoreClimbed(s, s2, s', c, queue);
      assert Perform(s, c, WritesAndRecords(|queue|)) == s' by {
        PerformParts(s, c, [R.Write, R.InsertRecord(true)], WritesAndRecords(|queue| - 1));
      }
    }
  }

  lemma NothingEscalates(s: R.State, c: nat)
    requires c < |s.pcs| && s.pcs[c] == R.Escalating([])
    ensures var s' := Perform(s, c, [R.Write]);
      OnlyEscalated(s, s', c) && ClimbedWithRecords(s, s', {})
  {
    assert S.Steps(s.rows, {}) == multiset{};
    PerformOne(s, c, R.Write);
  }

  lemma HeadLeavesTheRest(s: R.State, s2: R.State, c: nat, queue: seq<R.Listed>)
    requires HeadClimbed(s, s2, c, queue) && IsFresh(s.rows, queue)
    ensures IsFresh(s2.rows, queue[1..])
    ensures Ids(queue) == Ids(queue[1..]) + {queue[0].id} && queue[0].id !in Ids(queue[1..])
  {
    RestIsFresh(s.rows, queue, S.Climbed(s.rows[queue[0].id]));
    IdsOfRest(queue);
  }

  ghost predicate OnlyEscalated(s: R.State, s': R.State, c: nat) {
    && c < |s.pcs|
    && s' == s.(rows := s'.rows, records := s'.records, escalations := s'.escalations).To(c, R.Idle)
  }

  ghost predicate ClimbedWithRecords(s: R.State, s': R.State, ids: set<Id>) {
    S.EscalatedSoFar(s.rows, s'.rows, ids) && s'.records == s.records + S.Steps(s.rows, ids)
  }

  /** Where the write and the record of the first row of the queue lead. */
  ghost predicate HeadClimbed(s: R.State, s2: R.State, c: nat, queue: seq<R.Listed>) {
    && c < |s.pcs| && queue != [] && queue[0].id in s.rows
    && s2 == s.(rows := s2.rows, records := s2.records, escalations := s2.escalations).To(c, R.Escalating(queue[1..]))
    && s2.rows == s.rows[queue[0].id := S.Climbed(s.rows[queue[0].id])]
    && s2.records == s.records + multiset{S.StepOf(s.rows, queue[0].id)}
  }

  lemma OneMoreClimbed(s: R.State, s2: R.State, s': R.State, c: nat, queue: seq<R.Listed>)
    requires HeadClimbed(s, s2, c, queue) && queue[0].id !in Ids(queue[1..])
    requires OnlyEscalated(s2, s', c) && ClimbedWithRecords(s2, s', Ids(queue[1..]))
    ensures OnlyEscalated(s, s', c) && ClimbedWithRecords(s, s', Ids(queue[1..]) + {queue[0].id})
  {
    var id, rest := queue[0].id, Ids(queue[1..]);
    OtherStepsStay(s.rows, id, S.Climbed(s.rows[id]), rest);
    S.OneMoreStep(s.rows, rest, id);
    assert S.EscalatedSoFar(s.rows, s'.rows, rest + {id});
  }

  lemma OtherStepsStay(rows: R.Table, id: Id, row: Row<R.Reservation>, ids: set<Id>)
    requires id in rows && id !in ids
    ensures S.Steps(rows[id := row], ids) == S.Steps(rows, ids)
  {
    assert (set i | i in ids && i in rows[id := row] :: S.StepOf(rows[id := row], i)) ==
           (set i | i in ids && i in rows :: S.StepOf(rows, i)) by {
      assert forall i :: i in ids && i in rows ==> S.StepOf(rows[id := row], i) == S.StepOf(rows, i);
    }
  }

  lemma EscalatesOne(s: R.State, c: nat, queue: seq<R.Listed>) returns (s2: R.State)
    requires c < |s.pcs| && s.pcs[c] == R.Escalating(queue) && queue != [] && IsFresh(s.rows, queue)
    ensures s2 == Perform(s, c, [R.Write, R.InsertRecord(true)])
    ensures HeadClimbed(s, s2, c, queue) && s2.pcs[c] == R.Escalating(queue[1..])
  {
    var s1 := R.Do(s, c, R.Write);
    s2 := R.Do(s1, c, R.InsertRecord(true));
    PerformParts(s, c, [R.Write], [R.InsertRecord(true)]);
    PerformOne(s, c, R.Write);
    PerformOne(s1, c, R.InsertRecord(true));
    assert [R.Write] + [R.InsertRecord(true)] == [R.Write, R.InsertRecord(true)];
    assert s1.pcs[c] == R.Recording(S.StepOf(s.rows, queue[0].id), queue[1..]);
  }

  /** What EscalateOverdue does when undisturbed, its records inserted, is a run of the
      protocol. */
  lemma EscalationIsARun(s: R.State, c: nat, nowText: string) returns (actions: seq<R.Action>)
    requires R.Inv(s) && c < |s.pcs| && s.pcs[c].Idle?
    ensures var s' := Perform(s, c, actions);
      && R.Inv(s') && s' == s.(rows := s'.rows, records := s'.records, escalations := s'.escalations)
      && S.EscalatedSoFar(s.rows, s'.rows, S.OverdueReservations(s.rows, nowText))
      && s'.records == s.records + S.Steps(s.rows, S.OverdueReservations(s.rows, nowText))
  {
    var order := Listing(s, S.OverdueReservations(s.rows, nowText));
    var queue := R.Snapshots(s.rows, order);
    actions := [R.ListOverdue(nowText, order)] + WritesAndRecords(|queue|);
    PerformParts(s, c, [R.ListOverdue(nowText, order)], WritesAndRecords(|queue|));
    var s1 := s.To(c, R.Escalating(queue));
    assert R.Do(s, c, R.ListOverdue(nowText, order)) == s1;
    PerformOne(s, c, R.ListOverdue(nowText, order));
    WritesEscalate(s1, c, queue);
    PerformKeepsInv(s, c, actions);
    assert s.pcs[c := R.Idle] == s.pcs;
  }

  /** The two reservation phases of a tick, one after the other. */
  lemma TickIsARun(s: R.State, c: nat, now: Reading) returns (actions: seq<R.Action>)
    requires R.Inv(s) && c < |s.pcs| && s.pcs[c].Idle?
    ensures var s' := Perform(s, c, actions);
      && R.Inv(s') && s'.rows == S.TickedReservations(s.rows, now)
      && s'.records == s.records + S.Steps(s.rows, S.OverdueInTick(s.rows, now))
      && s'.lost == s.lost && s'.pcs == s.pcs
  {
    var first := ActivationIsARun(s, c, now);
    var middle := Perform(s, c, first);
    var second := EscalationIsARun(middle, c, Format(now));
    actions := first + second;
    PerformParts(s, c, first, second);
    S.TwoPhases(s.rows, middle.rows, Perform(middle, c, second).rows, now);
  }
}
