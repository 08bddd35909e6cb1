/** internal/worker/worker.go: claim what is claimable, report it done, keep count. */
module Worker {
  import opened Common
  import opened Optimistic
  import opened Domain
  import opened AssignmentProtocol
  import opened AssignmentSafety
  import opened AssignmentTheorems
  import opened AssignmentService
  import Spec = AssignmentSpec

  datatype Stats = Stats(polls: nat, claimed: nat, reported: nat, failed: nat, errors: nat)

  function Claimable(db: State): set<Id> {
    set t | t in db.rows && db.rows[t].data.status == Assigned
  }

  function Least(a: nat, b: nat): nat {
    if a <= b then a else b
  }

  predicate NoDuplicates<T(==)>(s: seq<T>) {
    forall i, j :: 0 <= i < j < |s| ==> s[i] != s[j]
  }

  lemma {:induction false} ReportIsCounted(ops: seq<Spec.Op>, id: Id, i: nat)
    requires i < |ops| && ops[i].id == id && ops[i].Report?
    ensures Spec.Count(ops, id, Spec.IsReport) >= 1
  {
    if i < |ops| - 1 {
      ReportIsCounted(ops[..|ops| - 1], id, i);
    }
  }

  /** No task is reported twice in one history, by whomever. */
  lemma {:induction false} ReportedOnce(ops: seq<Spec.Op>, i: nat, j: nat)
    requires Spec.Legal(ops) && i < |ops| && j < |ops| && ops[i].Report? && ops[j].Report? && ops[i].id == ops[j].id
    ensures i == j
    decreases |ops|
  {
    var front := ops[..|ops| - 1];
    if i < |ops| - 1 && j < |ops| - 1 {
      ReportedOnce(front, i, j);
    } else if i != j {
      ReportIsCounted(front, ops[i].id, if i < j then i else j);
      Spec.CountsBalance(ops, ops[i].id);
    }
  }

  /** An identifier no claim has had: longer than all of them. */
  method NewUuid(used: set<Id>) returns (uuid: Id)
    ensures uuid != "" && uuid !in used
  {
    uuid := "-";
    var todo := used;
    while todo != {}
      invariant uuid != "" && todo <= used
      invariant forall u :: u in used && u !in todo ==> |u| < |uuid|
      decreases todo
    {
      var u :| u in todo;
      if |u| >= |uuid| {
        uuid := u + "-";
      }
      todo := todo - {u};
    }
  }

  /** The two columns the listing is ordered by; nothing ever updates them. */
  datatype Place = Place(priority: int, createdAt: int)

  predicate NotAfter(a: Place, b: Place) {
    a.priority < b.priority || (a.priority == b.priority && a.createdAt <= b.createdAt)
  }

  predicate IsFirst(place: Id -> Place, ids: set<Id>, id: Id) {
    id in ids && forall other :: other in ids ==> NotAfter(place(id), place(other))
  }

  lemma FirstExists(place: Id -> Place, ids: set<Id>)
    requires ids != {}
    ensures exists id :: IsFirst(place, ids, id)
    decreases ids
  {
    var x :| x in ids;
    if ids == {x} {
      assert IsFirst(place, ids, x);
    } else {
      FirstExists(place, ids - {x});
      var y :| IsFirst(place, ids - {x}, y);
      assert IsFirst(place, ids, if NotAfter(place(x), place(y)) then x else y);
    }
  }

  /** The first `|listed|` of `ids`, in order. */
  ghost predicate ListsInOrder(place: Id -> Place, ids: set<Id>, listed: seq<Id>) {
    && NoDuplicates(listed) && (forall id :: id in listed ==> id in ids)
    && (forall i, j :: 0 <= i < j < |listed| ==> NotAfter(place(listed[i]), place(listed[j])))
    && (forall i, id :: 0 <= i < |listed| && id in ids && id !in listed ==> NotAfter(place(listed[i]), place(id)))
  }

  /** A claim can be lost: while client 1 has listed the task as claimable and read it,
      client 2 claims it, and the claim client 1 then tries to write changes nothing. */
  lemma AClaimCanBeLost() returns (events: seq<Event>, listed: nat)
    ensures listed <= |events| && Claimable(Run(events[..listed])) == {"t"}
    ensures var s := Run(events);
      && s.Pc(1).Claiming? && s.Pc(1).id == "t" && WrittenSince(s.rows, "t", s.Pc(1).snapshot)
      && forall uuid, expires :: Do(s, 1, WriteClaim(uuid, expires)).log == s.log
  {
    events := TaskGetsAssigned();
    listed := |events|;
    ghost var before := events;
    RunMore(events, 1, ReadToClaim("t", "first"));
    events := events + [Event(1, ReadToClaim("t", "first"))];
    RunMore(events, 2, ReadToClaim("t", "second"));
    events := events + [Event(2, ReadToClaim("t", "second"))];
    RunMore(events, 2, WriteClaim("lease", 60));
    events := events + [Event(2, WriteClaim("lease", 60))];
    assert events[..listed] == before;
  }

  class Worker {
    const service: Service
    const me: Client
    const id: string
    const batchSize: nat
    const place: Id -> Place
    var stats: Stats
    /** Where the log grants this worker a claim, and the tasks it completed. */
    ghost var grants: seq<nat>
    ghost var done: seq<Id>

    constructor (service: Service, me: Client, id: string, batchSize: nat, place: Id -> Place)
      requires service.At(me, Idle)
      ensures Valid() && this.service == service && this.me == me && stats == Stats(0, 0, 0, 0, 0)
      ensures this.id == if id == "" then "worker-default" else id
      ensures this.batchSize == if batchSize < 1 then 5 else batchSize
    {
      this.service := service;
      this.me := me;
      this.id := if id == "" then "worker-default" else id;
      this.batchSize := if batchSize < 1 then 5 else batchSize;
      this.place := place;
      stats := Stats(0, 0, 0, 0, 0);
      grants, done := [], [];
    }

    /** The counters are true of the history: as many claims as the log grants to this
        worker, as many reports as distinct tasks completed under its name, and
        every claim but the `underway` ones either reported or failed. */
    ghost predicate Books(underway: nat)
      reads this, service, service.sm
    {
      && service.At(me, Idle) && id != ""
      && stats.claimed == stats.reported + stats.failed + underway
      && stats.claimed == |grants| && Grants(service.db.log, grants)
      && stats.reported == |done| && NoDuplicates(done)
      && (forall t :: t in done ==> Spec.Report(t, id) in service.db.log)
    }

    ghost predicate Valid()
      reads this, service, service.sm
    {
      Books(0)
    }

    /** The task was not there to claim, or somebody wrote to it meanwhile. */
    ghost predicate WasLost(before: State, after: State, task: Id) {
      task !in Claimable(before) || WrittenSince(after.rows, task, before.rows[task])
    }

    ghost predicate Grants(log: seq<Spec.Op>, places: seq<nat>) {
      && (forall k :: 0 <= k < |places| ==> places[k] < |log| && log[places[k]].Claim? && log[places[k]].executor == id)
      && (forall k, l :: 0 <= k < l < |places| ==> places[k] < places[l])
    }

    /** Time passes between two calls of this worker; its counters stay true. */
    method Wait()
      requires Valid()
      modifies service
      ensures Valid() && Onward(old(service.db), service.db)
    {
      service.Interfere(me, "");
    }

    /** At most `limit` assigned tasks, the lowest priority numbers and the oldest first. */
    method ListClaimable(limit: nat) returns (tasks: seq<Id>)
      ensures ListsInOrder(place, Claimable(service.db), tasks)
      ensures |tasks| == Least(if 1 <= limit <= 100 then limit else 10, |Claimable(service.db)|)
    {
      var limit' := if 1 <= limit <= 100 then limit else 10;
      var claimable := Claimable(service.db);
      var todo := claimable;
      tasks := [];
      while todo != {} && |tasks| < limit'
        invariant todo <= claimable && |tasks| <= limit'
        invariant forall t :: t in tasks <==> t in claimable - todo
        invariant |tasks| == |claimable| - |todo|
        invariant ListsInOrder(place, claimable, tasks)
        decreases todo
      {
        FirstExists(place, todo);
        var t :| IsFirst(place, todo, t);
        assert t !in tasks;
        tasks := tasks + [t];
        todo := todo - {t};
      }
    }

    /** Claim a task and report it. A claim that somebody else won is not an error. */
    method ClaimAndExecute(task: Id, now: int) returns (r: Result<()>)
      requires Valid()
      modifies this, service
      ensures Valid() && Onward(old(service.db), service.db)
      ensures stats.polls == old(stats).polls
      ensures old(grants) <= grants && old(done) <= done
      ensures stats.claimed == old(stats).claimed + |grants| - |old(grants)| <= old(stats).claimed + 1
      ensures done == old(done) || (done == old(done) + [task] && |grants| == |old(grants)| + 1)
      ensures r.Err? ==> done == old(done)
      ensures r.Err? <==> stats.failed + stats.errors == old(stats).failed + old(stats).errors + 1
      ensures r.Ok? <==> stats.failed == old(stats).failed && stats.errors == old(stats).errors
      ensures r.Ok? && done == old(done) ==> WasLost(old(service.db), service.db, task)
    {
      r := Take(task, now);
      if r.Err? {
        if r.error in {Conflict, NotFound, InvalidTransition} {
          return Ok(());
        }
        stats := stats.(errors := stats.errors + 1);
        return;
      }
      ghost var s := service.db;
      r := Finish(task);
      OnwardOn(old(service.db), s, service.db);
    }

    /** The claim. */
    method Take(task: Id, now: int) returns (r: Result<()>)
      requires Valid()
      modifies this, service
      ensures Books(if r.Ok? then 1 else 0) && Onward(old(service.db), service.db)
      ensures stats == if r.Ok? then old(stats).(claimed := old(stats).claimed + 1) else old(stats)
      ensures old(grants) <= grants && done == old(done)
      ensures r.Err? && r.error in {Conflict, NotFound, InvalidTransition} ==>
        WasLost(old(service.db), service.db, task)
    {
      var uuid := NewUuid(service.db.claims.Keys);
      ghost var before := service.db.log;
      var claim := service.Claim(me, task, id, now, uuid);
      if claim.Err? {
        return Err(claim.error);
      }
      stats := stats.(claimed := stats.claimed + 1);
      ghost var granted := Spec.Op.Claim(task, id, uuid, now + service.leaseTimeout);
      ghost var at :| |before| <= at < |service.db.log| && service.db.log[at] == granted;
      OneMoreGrant(before, service.db.log, grants, at);
      grants := grants + [at];
      return Ok(());
    }

    /** A claim granted since is the last of all. */
    lemma OneMoreGrant(before: seq<Spec.Op>, log: seq<Spec.Op>, places: seq<nat>, at: nat)
      requires Grants(before, places) && before <= log
      requires |before| <= at < |log| && log[at].Claim? && log[at].executor == id
      ensures Grants(log, places + [at])
    {
    }

    /** The report. */
    method Finish(task: Id) returns (r: Result<()>)
      requires Books(1)
      modifies this, service
      ensures Valid() && Onward(old(service.db), service.db)
      ensures grants == old(grants)
      ensures r.Ok? ==> stats == old(stats).(reported := old(stats).reported + 1) && done == old(done) + [task]
      ensures r.Err? ==> stats == old(stats).(failed := old(stats).failed + 1) && done == old(done)
    {
      service.Interfere(me, "");
      ghost var s := service.db;
      r := FinishNow(task);
      OnwardOn(old(service.db), s, service.db);
    }

    method FinishNow(task: Id) returns (r: Result<()>)
      requires Books(1)
      modifies this, service
      ensures Valid() && Onward(old(service.db), service.db)
      ensures grants == old(grants)
      ensures r.Ok? ==> stats == old(stats).(reported := old(stats).reported + 1) && done == old(done) + [task]
      ensures r.Err? ==> stats == old(stats).(failed := old(stats).failed + 1) && done == old(done)
    {
      ghost var before := service.db.log;
      r := service.Report(me, task, id);
      if r.Err? {
        stats := stats.(failed := stats.failed + 1);
        return;
      }
      NewlyDone(before, service.db.log, task);
      stats := stats.(reported := stats.reported + 1);
      done := done + [task];
    }

    /** What a report of this worker completes, it had not completed before. */
    lemma NewlyDone(before: seq<Spec.Op>, log: seq<Spec.Op>, task: Id)
      requires Spec.Legal(log) && before <= log && Committed(log, |before|, Spec.Report(task, id))
      requires forall t :: t in done ==> Spec.Report(t, id) in before
      ensures task !in done && Spec.Report(task, id) in log
    {
      var at :| |before| <= at < |log| && log[at] == Spec.Report(task, id);
      if task in done {
        var earlier :| 0 <= earlier < |before| && before[earlier] == Spec.Report(task, id);
        assert log[earlier] == before[earlier];
        ReportedOnce(log, earlier, at);
      }
    }

    /** A claim lost in the middle of a cycle was lost since the listing. */
    lemma LostSinceTheListing(listing: State, before: State, after: State, task: Id)
      requires Onward(listing, before) && Onward(before, after)
      requires task in Claimable(listing) && WasLost(before, after, task)
      ensures WrittenSince(after.rows, task, listing.rows[task])
    {
    }

    /** The tasks were claimable at the listing, and each has been written to since. */
    ghost predicate AllLost(listing: State, s: State, lost: seq<Id>) {
      NoDuplicates(lost) &&
      forall t :: t in lost ==> t in Claimable(listing) && WrittenSince(s.rows, t, listing.rows[t])
    }

    lemma LostStayLost(listing: State, s: State, s': State, lost: seq<Id>)
      requires AllLost(listing, s, lost) && Onward(s, s')
      ensures AllLost(listing, s', lost)
    {
    }

    lemma NotYetLost(listed: seq<Id>, n: nat, lost: seq<Id>)
      requires n < |listed| && NoDuplicates(listed) && forall t :: t in lost ==> t in listed[..n]
      ensures listed[n] !in lost
      ensures forall t :: t in lost + [listed[n]] ==> t in listed[..n + 1]
    {
      assert listed[..n + 1] == listed[..n] + [listed[n]];
    }

    /** One cycle. The result counts every task that ended without an error: the tasks
        completed and the claims lost to others, so it is the number of tasks completed if
        and only if nothing listed was lost. */
    method ExecuteOnce() returns (executed: nat, ghost lost: seq<Id>)
      requires Valid()
      modifies this, service
      ensures Valid() && stats.polls == old(stats).polls
      ensures old(grants) <= grants && old(done) <= done
      ensures executed == |done| - |old(done)| + |lost|
      ensures AllLost(old(service.db), service.db, lost)
      ensures executed + (stats.failed - old(stats).failed) + (stats.errors - old(stats).errors)
        == Least(if 1 <= batchSize <= 100 then batchSize else 10, |Claimable(old(service.db))|)
    {
      var claimable := ListClaimable(batchSize);
      executed, lost := 0, [];
      for i := 0 to |claimable|
        invariant Valid() && Onward(old(service.db), service.db) && stats.polls == old(stats).polls
        invariant old(grants) <= grants && old(done) <= done
        invariant executed == |done| - |old(done)| + |lost|
        invariant AllLost(old(service.db), service.db, lost) && forall t :: t in lost ==> t in claimable[..i]
        invariant executed + (stats.failed - old(stats).failed) + (stats.errors - old(stats).errors) == i
      {
        ghost var s := service.db;
        var r, missed := Cycle(claimable[i], old(service.db));
        if r.Ok? {
          executed := executed + 1;
        }
        LostStayLost(old(service.db), s, service.db, lost);
        NotYetLost(claimable, i, lost);
        if missed {
          lost := lost + [claimable[i]];
        }
      }
    }

    /** One task of a cycle. */
    method Cycle(task: Id, ghost listing: State) returns (r: Result<()>, ghost missed: bool)
      requires Valid() && Onward(listing, service.db) && task in Claimable(listing)
      modifies this, service
      ensures Valid() && Onward(old(service.db), service.db) && Onward(listing, service.db)
      ensures stats.polls == old(stats).polls && old(grants) <= grants && old(done) <= done
      ensures r.Err? <==> stats.failed + stats.errors == old(stats).failed + old(stats).errors + 1
      ensures r.Ok? <==> stats.failed == old(stats).failed && stats.errors == old(stats).errors
      ensures missed <==> r.Ok? && done == old(done)
      ensures r.Ok? ==> |done| == |old(done)| + (if missed then 0 else 1)
      ensures r.Err? ==> done == old(done)
      ensures missed ==> WrittenSince(service.db.rows, task, listing.rows[task])
    {
      var now: int := *;  // the clock goes on
      Wait();
      ghost var s := service.db;
      r := ClaimAndExecute(task, now);
      OnwardOn(old(service.db), s, service.db);
      OnwardOn(listing, old(service.db), s);
      OnwardOn(listing, s, service.db);
      missed := r.Ok? && done == old(done);
      if missed {
        LostSinceTheListing(listing, s, service.db, task);
      }
    }

    /** The polling form of the cycle; it stops early once it is cancelled. */
    method Poll()
      requires Valid()
      modifies this, service
      ensures Valid() && stats.polls == old(stats).polls + 1
      ensures old(grants) <= grants && old(done) <= done
    {
      stats := stats.(polls := stats.polls + 1);
      var claimable := ListClaimable(batchSize);
      for i := 0 to |claimable|
        invariant Valid() && Onward(old(service.db), service.db) && stats.polls == old(stats).polls + 1
        invariant old(grants) <= grants && old(done) <= done
      {
        var cancelled: bool := *;
        if cancelled {
          return;
        }
        var _, _ := Cycle(claimable[i], old(service.db));
      }
    }
  }
}
