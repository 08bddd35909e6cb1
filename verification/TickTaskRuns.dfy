/** The task and queue phases of an undisturbed tick are runs of their protocols: what
    those protocols keep, a tick keeps. */
module TickTaskRuns {
  import opened Common
  import opened Optimistic
  import opened Domain
  import opened Timestamps
  import opened Programs
  import Spec = AssignmentSpec
  import P = AssignmentProtocol
  import Safety = AssignmentSafety
  import Q = MissionQueue
  import S = Scheduler

  type Id = string

  function Perform(s: P.State, c: P.Client, actions: seq<P.Action>): P.State {
    InTurn(By(c), s, actions)
  }

  function By(c: P.Client): (P.State, P.Action) -> P.State {
    (s, a) => P.Do(s, c, a)
  }

  lemma {:induction false} PerformKeepsInv(s: P.State, c: P.Client, actions: seq<P.Action>)
    requires P.Inv(s)
    ensures P.Inv(Perform(s, c, actions))
    decreases |actions|
  {
    if actions != [] {
      Safety.StepKeepsInv(s, c, actions[0]);
      PerformKeepsInv(P.Do(s, c, actions[0]), c, actions[1..]);
    }
  }

  lemma PerformTwo(s: P.State, c: P.Client, a: P.Action, b: P.Action)
    ensures Perform(s, c, [a, b]) == P.Do(P.Do(s, c, a), c, b)
  {
    assert [a] + [b] == [a, b];
    PartsInTurn(By(c), s, [a], [b]);
    OneInTurn(By(c), s, a);
    OneInTurn(By(c), P.Do(s, c, a), b);
  }

  // ---- Preemption --------------------------------------------------------------------

  /** The rows listed are as they were listed, none of them twice. */
  ghost predicate IsFresh(rows: Spec.Table, queue: seq<P.Listed>) {
    && (forall i :: 0 <= i < |queue| ==> queue[i].id in rows && rows[queue[i].id] == queue[i].snapshot)
    && (forall i, j :: 0 <= i < j < |queue| ==> queue[i].id != queue[j].id)
  }

  function Ids(queue: seq<P.Listed>): set<Id> {
    set i | 0 <= i < |queue| :: queue[i].id
  }

  lemma IdsOfRest(queue: seq<P.Listed>)
    requires queue != []
    ensures Ids(queue) == Ids(queue[1..]) + {queue[0].id}
  {
    forall id ensures id in Ids(queue) <==> id in Ids(queue[1..]) + {queue[0].id} {
      if id in Ids(queue) {
        var i :| 0 <= i < |queue| && queue[i].id == id;
        assert i > 0 ==> queue[1..][i - 1].id == id;
      }
      if id in Ids(queue[1..]) {
        var i :| 0 <= i < |queue| - 1 && queue[1..][i].id == id;
        assert queue[i + 1].id == id;
      }
    }
  }

  lemma RestIsFresh(rows: Spec.Table, queue: seq<P.Listed>, row: Row<Spec.Task>)
    requires queue != [] && IsFresh(rows, queue)
    ensures IsFresh(rows[queue[0].id := row], queue[1..]) && queue[0].id !in Ids(queue[1..])
  {
    forall i | 0 <= i < |queue| - 1 ensures queue[1..][i] == queue[i + 1] && queue[1..][i].id != queue[0].id {
    }
  }

  /** The tasks `ids` have been preempted and their leases revoked. */
  ghost predicate ClaimsPreempted(s: P.State, s': P.State, ids: set<Id>) {
    S.PreemptedSoFar(s.rows, s'.rows, ids) && S.RevokedSoFar(s.leases, s'.leases, s.rows, ids)
  }

  function AfterRevoking(leases: P.Leases, l: Id): P.Leases {
    if l != "" && l in leases then leases[l := S.RevokedIfActive(leases[l])] else leases
  }

  /** Where the statements for the first task of the queue lead. */
  ghost predicate HeadPreempted(s: P.State, s2: P.State, queue: seq<P.Listed>) {
    && queue != [] && queue[0].id in s.rows
    && s2.rows == s.rows[queue[0].id := S.PreemptedRow(s.rows[queue[0].id])]
    && s2.leases == AfterRevoking(s.leases, s.rows[queue[0].id].data.lease)
  }

  lemma OneMorePreempted(s: P.State, s2: P.State, s': P.State, queue: seq<P.Listed>)
    requires HeadPreempted(s, s2, queue) && queue[0].id !in Ids(queue[1..])
    requires ClaimsPreempted(s2, s', Ids(queue[1..]))
    ensures ClaimsPreempted(s, s', Ids(queue[1..]) + {queue[0].id})
  {
    var id, rest := queue[0].id, Ids(queue[1..]);
    forall l ensures S.HeldBySome(s.rows, rest + {id}, l) <==>
                     S.HeldBySome(s2.rows, rest, l) || (l != "" && l == s.rows[id].data.lease) {
      assert forall i :: i in rest ==> (i in s2.rows <==> i in s.rows);
      assert forall i :: i in rest && i in s.rows ==> s2.rows[i] == s.rows[i];
    }
  }

  /** The statements for the first task of the queue: the row, then its lease. */
  lemma PreemptsOne(s: P.State, c: P.Client, queue: seq<P.Listed>, now: int) returns (actions: seq<P.Action>)
    requires s.Pc(c) == P.Preempting(queue, now) && queue != [] && IsFresh(s.rows, queue)
    ensures var s2 := Perform(s, c, actions);
      HeadPreempted(s, s2, queue) && s2.Pc(c) == P.Preempting(queue[1..], now)
  {
    var lease := s.rows[queue[0].id].data.lease;
    var s1 := P.Do(s, c, P.WritePreempt);
    OneInTurn(By(c), s, P.WritePreempt);
    if lease == "" {
      actions := [P.WritePreempt];
    } else {
      var more := RevokesOne(s1, c, lease, queue[1..], now);
      actions := [P.WritePreempt] + more;
      PartsInTurn(By(c), s, [P.WritePreempt], more);
    }
  }

  lemma RevokesOne(s: P.State, c: P.Client, lease: Id, queue: seq<P.Listed>, now: int) returns (actions: seq<P.Action>)
    requires s.Pc(c) == P.Revoking(lease, queue, now) && lease != ""
    ensures var s' := Perform(s, c, actions);
      && s'.rows == s.rows && s'.leases == AfterRevoking(s.leases, lease)
      && s'.Pc(c) == P.Preempting(queue, now)
  {
    if lease in s.leases {
      actions := [P.ReadLease, P.WriteLease];
      PerformTwo(s, c, P.ReadLease, P.WriteLease);
    } else {
      actions := [P.ReadLease];
      OneInTurn(By(c), s, P.ReadLease);
    }
  }

  lemma {:induction false} PreemptsAll(s: P.State, c: P.Client, queue: seq<P.Listed>, now: int)
      returns (actions: seq<P.Action>)
    requires s.Pc(c) == P.Preempting(queue, now) && IsFresh(s.rows, queue)
    ensures var s' := Perform(s, c, actions);
      ClaimsPreempted(s, s', Ids(queue)) && s'.Pc(c) == P.Idle
    decreases |queue|
  {
    if queue == [] {
      actions := [P.WritePreempt];
      OneInTurn(By(c), s, P.WritePreempt);
      assert Ids(queue) == {};
    } else {
      var first := PreemptsOne(s, c, queue, now);
      var s2 := Perform(s, c, first);
      RestIsFresh(s.rows, queue, S.PreemptedRow(s.rows[queue[0].id]));
      IdsOfRest(queue);
      var more := PreemptsAll(s2, c, queue[1..], now);
      OneMorePreempted(s, s2, Perform(s2, c, more), queue);
      actions := first + more;
      PartsInTurn(By(c), s, first, more);
    }
  }

  /** Overdue claims, earliest expiry first. */
  lemma {:induction false} ListingExists(rows: Spec.Table, ids: set<Id>) returns (order: seq<Id>)
    requires forall id :: id in ids ==> id in rows && rows[id].data.expires.Some?
    ensures P.SortedByExpiry(rows, order)
    ensures forall id :: id in order <==> id in ids
    decreases ids
  {
    if ids == {} {
      order := [];
    } else {
      var last := Latest(rows, ids);
      order := ListingExists(rows, ids - {last});
      order := order + [last];
    }
  }

  lemma {:induction false} Latest(rows: Spec.Table, ids: set<Id>) returns (last: Id)
    requires ids != {} && forall id :: id in ids ==> id in rows && rows[id].data.expires.Some?
    ensures last in ids
    ensures forall id :: id in ids ==> rows[id].data.expires.value <= rows[last].data.expires.value
    decreases ids
  {
    var some :| some in ids;
    if ids == {some} {
      last := some;
    } else {
      var other := Latest(rows, ids - {some});
      last := if rows[other].data.expires.value <= rows[some].data.expires.value then some else other;
    }
  }

  lemma SnapshotsAreFresh(rows: Spec.Table, order: seq<Id>)
    requires forall id :: id in order ==> id in rows
    requires forall i, j :: 0 <= i < j < |order| ==> order[i] != order[j]
    ensures IsFresh(rows, P.Snapshots(rows, order)) && Ids(P.Snapshots(rows, order)) == set id | id in order
  {
    var queue := P.Snapshots(rows, order);
    assert forall i :: 0 <= i < |order| ==> order[i] in order && queue[i] == P.Listed(order[i], rows[order[i]]);
    forall id ensures id in Ids(queue) <==> id in order {
      if id in order {
        var i :| 0 <= i < |order| && order[i] == id;
        assert queue[i].id == id;
      }
    }
  }

  lemma PreemptionIsARun(s: P.State, c: P.Client, now: Reading) returns (actions: seq<P.Action>)
    requires s.Pc(c).Idle?
    ensures var s' := Perform(s, c, actions);
      ClaimsPreempted(s, s', S.OverdueTasks(s.rows, now)) && s'.Pc(c) == P.Idle
  {
    var overdue := S.OverdueTasks(s.rows, now);
    var order := ListingExists(s.rows, overdue);
    SnapshotsAreFresh(s.rows, order);
    var list := P.ListOverdue(Seconds(now), order);
    var s1 := P.Do(s, c, list);
    OneInTurn(By(c), s, list);
    assert (set id | id in order) == overdue;
    var more := PreemptsAll(s1, c, P.Snapshots(s.rows, order), Seconds(now));
    actions := [list] + more;
    PartsInTurn(By(c), s, [list], more);
  }

  // ---- Reassignment ------------------------------------------------------------------

  ghost predicate TasksReassigned(s: P.State, s': P.State, ids: set<Id>) {
    S.ReassignedSoFar(s.rows, s'.rows, ids) && s'.leases == s.leases
  }

  lemma ReassignsOne(s: P.State, c: P.Client, id: Id)
    requires s.Pc(c).Idle? && id in s.rows && s.rows[id].data.status == Preempted
    ensures var s2 := Perform(s, c, [P.ReadToAssign(id), P.WriteAssign]);
      && s2.rows == s.rows[id := S.ReassignedRow(s.rows[id])] && s2.leases == s.leases && s2.Pc(c) == P.Idle
  {
    PerformTwo(s, c, P.ReadToAssign(id), P.WriteAssign);
  }

  lemma {:induction false} ReassignsAll(s: P.State, c: P.Client, ids: set<Id>) returns (actions: seq<P.Action>)
    requires s.Pc(c).Idle? && forall id :: id in ids ==> id in s.rows && s.rows[id].data.status == Preempted
    ensures var s' := Perform(s, c, actions);
      TasksReassigned(s, s', ids) && s'.Pc(c) == P.Idle
    decreases ids
  {
    if ids == {} {
      actions := [];
    } else {
      var id :| id in ids;
      var first := [P.ReadToAssign(id), P.WriteAssign];
      ReassignsOne(s, c, id);
      var s2 := Perform(s, c, first);
      var more := ReassignsAll(s2, c, ids - {id});
      actions := first + more;
      PartsInTurn(By(c), s, first, more);
    }
  }

  /** The task phase: every overdue claim preempted, its lease revoked, its task assigned
      again. */
  lemma TaskPhaseIsARun(s: P.State, c: P.Client, now: Reading) returns (actions: seq<P.Action>)
    requires P.Inv(s) && s.Pc(c).Idle?
    ensures var s' := Perform(s, c, actions);
      && P.Inv(s') && s'.Pc(c) == P.Idle
      && s'.rows == S.TickedTasks(s.rows, now)
      && s'.leases == S.RevokedLeases(s.leases, s.rows, S.OverdueTasks(s.rows, now))
  {
    var overdue := S.OverdueTasks(s.rows, now);
    var first := PreemptionIsARun(s, c, now);
    var middle := Perform(s, c, first);
    var more := ReassignsAll(middle, c, overdue);
    actions := first + more;
    PartsInTurn(By(c), s, first, more);
    PerformKeepsInv(s, c, actions);
    S.PreemptedAndReassigned(s.rows, middle.rows, Perform(middle, c, more).rows, now);
  }

  // ---- The queue ---------------------------------------------------------------------

  function QueueBy(c: Q.Client): (Q.State, Q.Action) -> Q.State {
    (s, a) => Q.Do(s, c, a)
  }

  /** The queue phase, whichever mission its listing puts first. */
  lemma QueuePhaseIsARun(s: Q.State, c: Q.Client, after: Q.Table) returns (actions: seq<Q.Action>)
    requires Q.Inv(s) && s.Pc(c).Idle? && S.HeadPromoted(s.rows, after)
    ensures var s' := InTurn(QueueBy(c), s, actions);
      Q.Inv(s') && s'.Pc(c) == Q.Idle && s'.rows == after
  {
    if Q.QueuedIn(s.rows) == map[] {
      actions := [];
    } else {
      var head :| Q.IsHead(Q.QueuedIn(s.rows), head) && after == Q.Promoted(s.rows, head);
      var list := Q.ListQueued(head);
      actions := [list, Q.Write];
      assert actions == [list] + [Q.Write];
      PartsInTurn(QueueBy(c), s, [list], [Q.Write]);
      OneInTurn(QueueBy(c), s, list);
      OneInTurn(QueueBy(c), Q.Do(s, c, list), Q.Write);
      Q.StepKeepsInv(s, c, list);
      Q.StepKeepsInv(Q.Do(s, c, list), c, Q.Write);
    }
  }
}
