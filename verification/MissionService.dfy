/** Submit as the program it is (internal/mission/service.go, internal/mission/submit.go),
    with other clients running between any two of its statements. */
module MissionService {
  import opened Common
  import opened Optimistic
  import opened Quotas
  import opened Submission
  import opened SubmissionTheorems

  /** The answer was given since the first `before` replies. */
  ghost predicate Answers(replies: seq<Reply>, before: nat, reply: Reply) {
    exists i :: before <= i < |replies| && replies[i] == reply
  }

  /** One more mission since the first `before`, made for this request. */
  ghost predicate MadeFor(missions: seq<Mission>, before: nat, req: Request, answer: Answer) {
    answer.Created? ==>
      exists i :: before <= i < |missions|
        && missions[i] == Mission(answer.mission, req.idemKey, req.key, req.energy, answer.queued)
  }

  /** What one client may count on while the others run. */
  ghost predicate Continues(s: State, s': State, me: nat) {
    && |s'.pcs| == |s.pcs| && (me < |s.pcs| ==> s'.pcs[me] == s.pcs[me])
    && s.missions <= s'.missions && s.replies <= s'.replies
    && QuotasForward(s, s')
  }

  ghost predicate QuotasForward(s: State, s': State) {
    forall key :: key in s.quotas ==> key in s'.quotas && SnapshotOf(s.quotas[key], s'.quotas[key])
  }

  /** The row `seen` during the call could not afford the request. */
  ghost predicate WasShort(s: State, s': State, req: Request, seen: Row<Quota>) {
    && Remaining(seen.data) < req.energy
    && (req.key in s.quotas ==> SnapshotOf(s.quotas[req.key], seen))
    && req.key in s'.quotas && SnapshotOf(seen, s'.quotas[req.key])
  }

  function VersionIn(s: State, key: Key): nat {
    if key in s.quotas then s.quotas[key].version else 1
  }

  /** Every attempt not spent on a lock was lost to another write on the row. */
  ghost predicate GaveUp(s: State, s': State, req: Request, locks: nat) {
    locks <= RETRIES && VersionIn(s, req.key) + RETRIES + 1 - locks <= VersionIn(s', req.key)
  }

  /** The call ended with the release that follows a failed insert. */
  ghost predicate EndedInRollback(before: State, s': State, me: nat, req: Request) {
    && Inv(before) && me < |before.pcs| && before.pcs[me].RollingBack? && before.pcs[me].req == req
    && s' == AfterRollback(before, me)
  }

  /** What a call can say for its outcome: the row it was turned down for, the lock errors
      it met, the state its rollback found. */
  datatype Account = Account(seen: Row<Quota>, locks: nat, before: State)

  lemma StepContinues(s: State, c: nat, a: Action, me: nat)
    requires c != me
    ensures Continues(s, Do(s, c, a), me)
  {
  }

  lemma MadeForStays(missions: seq<Mission>, missions': seq<Mission>, before: nat, req: Request, answer: Answer)
    requires missions <= missions' && MadeFor(missions, before, req, answer)
    ensures MadeFor(missions', before, req, answer)
  {
    if answer.Created? {
      var i :| before <= i < |missions|
        && missions[i] == Mission(answer.mission, req.idemKey, req.key, req.energy, answer.queued);
      assert missions'[i] == missions[i];
    }
  }

  class Service {
    /** The tables, with the history of the run beside them. */
    var db: State

    constructor (clients: nat)
      ensures db == Init(clients) && Inv(db)
    {
      db := Init(clients);
      new;
      RunKeepsInv(clients, []);
    }

    ghost predicate At(me: nat, pc: Pc)
      reads this
    {
      Inv(db) && me < |db.pcs| && db.pcs[me] == pc
    }

    // ---- The statements --------------------------------------------------------

    method GetIdempotency(idemKey: string) returns (r: Option<Record>)
      ensures r == if idemKey in db.records then Some(db.records[idemKey]) else None
    {
      r := if idemKey in db.records then Some(db.records[idemKey]) else None;
    }

    method GetQuota(key: Key) returns (q: Option<Row<Quota>>)
      ensures q == if key in db.quotas then Some(db.quotas[key]) else None
    {
      q := if key in db.quotas then Some(db.quotas[key]) else None;
    }

    method InsertQuota(key: Key, limit: int) returns (inserted: bool)
      modifies this
      ensures inserted == (key !in old(db).quotas)
      ensures db == if inserted then old(db).(quotas := old(db).quotas[key := Row(1, Quota(limit, 0, 0))]) else old(db)
    {
      inserted := key !in db.quotas;
      if inserted {
        db := db.(quotas := db.quotas[key := Row(1, Quota(limit, 0, 0))]);
      }
    }

    /** ReserveQuota, which may fail on a lock. */
    method ReserveQuota(key: Key, amount: int, version: nat) returns (affected: nat, locked: bool)
      modifies this
      ensures affected == if !locked && Hits(old(db).quotas, Reserve(key, amount, version)) then 1 else 0
      ensures affected == 0 ==> db == old(db)
      ensures affected == 1 ==>
        var q := old(db).quotas[key].data;
        db == old(db).(quotas := Put(old(db).quotas, key, q.(reserved := q.reserved + amount)))
    {
      locked := *;
      affected := 0;
      if !locked && Matches(db.quotas, key, version) {
        var q := db.quotas[key].data;
        if q.limit - q.used - q.reserved >= amount {
          db := db.(quotas := Put(db.quotas, key, q.(reserved := q.reserved + amount)));
          affected := 1;
        }
      }
    }

    method ReleaseQuota(key: Key, amount: int, version: nat)
      modifies this
      ensures db == old(db).(quotas := Exec(old(db).quotas, Release(key, amount, version)))
    {
      if Matches(db.quotas, key, version) {
        var q := db.quotas[key].data;
        if q.reserved >= amount {
          db := db.(quotas := Put(db.quotas, key, q.(reserved := q.reserved - amount)));
        }
      }
    }

    /** CreateMission: the unique index over keys, or anything else, may refuse it. */
    method CreateMission(mission: Mission) returns (ok: bool)
      modifies this
      ensures ok ==> !KeyTaken(old(db).missions, mission.idemKey)
      ensures db == if ok then old(db).(missions := old(db).missions + [mission]) else old(db)
    {
      var succeeds: bool := *;
      ok := succeeds && !KeyTaken(db.missions, mission.idemKey);
      if ok {
        db := db.(missions := db.missions + [mission]);
      }
    }

    method InsertIdempotency(idemKey: string, record: Record)
      modifies this
      ensures db == if idemKey in old(db).records then old(db)
        else old(db).(records := old(db).records[idemKey := record])
    {
      if idemKey !in db.records {
        db := db.(records := db.records[idemKey := record]);
      }
    }

    /** Any statements of any other clients. */
    method Interfere(me: nat)
      requires Inv(db)
      modifies this
      ensures Inv(db) && Continues(old(db), db, me)
    {
      var n: nat := *;
      while n > 0
        invariant Inv(db) && Continues(old(db), db, me)
      {
        var c: nat := *;
        var a: Action := *;
        if c != me {
          StepKeepsInv(db, c, a);
          StepContinues(db, c, a, me);
          db := Do(db, c, a);
        }
        n := n - 1;
      }
    }

    // ---- The service call ------------------------------------------------------------

    /** A fresh record answers and changes nothing else; otherwise an answer that names a
        mission names the one this call made, for this very request. An error is a lock at
        the last attempt, or 26 attempts lost to others, or a failed insert and its rollback. */
    method Submit(me: nat, req: Request, now: int, id: Id) returns (r: Result<Answer>, ghost account: Account)
      requires At(me, Idle)
      modifies this
      ensures At(me, Idle) && old(db).missions <= db.missions && old(db).replies <= db.replies
      ensures req.energy <= 0 <==> r == Err(Validation)
      ensures r.Ok? ==> Answers(db.replies, |old(db).replies|, Reply(req.idemKey, r.value))
      ensures req.energy > 0 && IsFresh(old(db), req.idemKey, now) ==>
        r == Ok(old(db).records[req.idemKey].answer) && db == old(db).(replies := db.replies)
      ensures r.Ok? && !IsFresh(old(db), req.idemKey, now) ==>
        if r.value.Created? then r.value.mission == id && MadeFor(db.missions, |old(db).missions|, req, r.value)
        else WasShort(old(db), db, req, account.seen)
      ensures r == Err(Conflict) ==> account.locks > 0
      ensures r == Err(Uncoded) ==> GaveUp(old(db), db, req, account.locks)
      ensures r == Err(Internal) ==> EndedInRollback(account.before, db, me, req)
      ensures r.Err? ==> r.error in {Validation, Conflict, Uncoded, Internal}
    {
      account := Account(Row(0, Quota(0, 0, 0)), 0, db);
      if req.energy <= 0 {
        return Err(Validation), account;
      }
      SubmitKeepsInv(db, me, req, now);
      if req.idemKey != "" {
        var cached := GetIdempotency(req.idemKey);
        if cached.Some? && now <= cached.value.expires {
          db := db.(replies := db.replies + [Reply(req.idemKey, cached.value.answer)]);
          assert db.replies[|old(db).replies|] == Reply(req.idemKey, cached.value.answer);
          return Ok(cached.value.answer), account;
        }
      }
      db := db.To(me, Selecting(req, 0));
      r, account := SubmitNew(me, req, now, id);
    }

    /** Submit without a fresh record. */
    method SubmitNew(me: nat, req: Request, now: int, id: Id) returns (r: Result<Answer>, ghost account: Account)
      requires At(me, Selecting(req, 0))
      modifies this
      ensures At(me, Idle) && old(db).missions <= db.missions && old(db).replies <= db.replies
      ensures r.Ok? ==> Answers(db.replies, |old(db).replies|, Reply(req.idemKey, r.value))
      ensures r.Ok? ==>
        if r.value.Created? then r.value.mission == id && MadeFor(db.missions, |old(db).missions|, req, r.value)
        else WasShort(old(db), db, req, account.seen)
      ensures r == Err(Conflict) ==> account.locks > 0
      ensures r == Err(Uncoded) ==> GaveUp(old(db), db, req, account.locks)
      ensures r == Err(Internal) ==> EndedInRollback(account.before, db, me, req)
      ensures r.Err? ==> r.error in {Conflict, Uncoded, Internal}
    {
      var reserved;
      ghost var seen, locks;
      reserved, seen, locks := ReserveQuotaWithRetry(me, req);
      account := Account(seen, locks, db);
      if reserved.Err? {
        return Err(reserved.error), account;
      }
      if !reserved.value {
        Interfere(me);
        CacheIdempotency(me, req, NoQuota, now);
        return Ok(NoQuota), account;
      }
      ghost var before;
      r, before := AdmitMission(me, req, now, id);
      account := account.(before := before);
    }

    /** reserveQuotaWithRetry: 26 attempts, the last of which does not excuse a lock. Giving
        up is the others' doing, attempt by attempt, but for the lock errors. */
    method ReserveQuotaWithRetry(me: nat, req: Request)
      returns (r: Result<bool>, ghost seen: Row<Quota>, ghost locks: nat)
      requires At(me, Selecting(req, 0))
      modifies this
      ensures At(me, if r.Err? then Idle else if r.value then Rereading(req) else Caching(req, NoQuota))
      ensures Continues(old(db), db, |db.pcs|)
      ensures r.Err? ==> r.error in {Conflict, Uncoded}
      ensures r == Ok(false) ==> WasShort(old(db), db, req, seen)
      ensures r == Err(Conflict) ==> locks > 0
      ensures r == Err(Uncoded) ==> GaveUp(old(db), db, req, locks)
    {
      seen, locks := Row(0, Quota(0, 0, 0)), 0;
      var attempt := 0;
      while attempt <= RETRIES
        invariant attempt <= RETRIES + 1 && locks <= attempt && (attempt > RETRIES ==> locks <= RETRIES)
        invariant At(me, if attempt <= RETRIES then Selecting(req, attempt) else Idle)
        invariant Continues(old(db), db, |db.pcs|)
        invariant VersionIn(old(db), req.key) + attempt - locks <= VersionIn(db, req.key)
      {
        ghost var s := db;
        var q := GetOrCreateQuota(me, req, attempt);
        if Available(q.data) < req.energy {
          return Ok(false), q, locks;
        }
        assert VersionIn(s, req.key) <= q.version;
        var affected, locked := ReserveLater(me, req, attempt, q);
        if locked {
          locks := locks + 1;
          if attempt == RETRIES {
            return Err(Conflict), seen, locks;
          }
        }
        if affected > 0 {
          return Ok(true), seen, locks;
        }
        attempt := attempt + 1;
      }
      return Err(Uncoded), seen, locks;
    }

    /** The guarded write of one attempt, with the others in between: no effect and no lock
        error means that the row was written to since it was read. */
    method ReserveLater(me: nat, req: Request, attempt: nat, q: Row<Quota>) returns (affected: nat, locked: bool)
      requires At(me, Reserving(req, attempt, q)) && Available(q.data) >= req.energy
      requires req.key in db.quotas && db.quotas[req.key] == q
      modifies this
      ensures At(me, if affected > 0 then Rereading(req)
        else if attempt < RETRIES then Selecting(req, attempt + 1) else Idle)
      ensures Continues(old(db), db, |db.pcs|) && (locked ==> affected == 0)
      ensures affected == 0 && !locked ==> WrittenSince(db.quotas, req.key, q)
      ensures req.key in db.quotas && q.version <= db.quotas[req.key].version
    {
      Interfere(me);
      affected, locked := ReserveStep(me, req, attempt, q);
    }

    /** The guarded write of one attempt. */
    method ReserveStep(me: nat, req: Request, attempt: nat, q: Row<Quota>) returns (affected: nat, locked: bool)
      requires At(me, Reserving(req, attempt, q))
      modifies this
      ensures At(me, if affected > 0 then Rereading(req)
        else if attempt < RETRIES then Selecting(req, attempt + 1) else Idle)
      ensures Continues(old(db), db, |db.pcs|) && (locked ==> affected == 0)
      ensures affected == 0 && !locked && Available(q.data) >= req.energy ==> WrittenSince(db.quotas, req.key, q)
    {
      ghost var s := db;
      assert PcOk(db, db.pcs[me]);
      affected, locked := ReserveQuota(req.key, req.energy, q.version);
      ReserveKeepsInv(s, me, locked);
      db := db.To(me, if affected > 0 then Rereading(req)
        else if attempt < RETRIES then Selecting(req, attempt + 1) else Idle);
      assert db == AfterReserve(s, me, locked);
    }

    /** GetOrCreateQuota, and where the check on its row leads. */
    method GetOrCreateQuota(me: nat, req: Request, attempt: nat) returns (q: Row<Quota>)
      requires At(me, Selecting(req, attempt))
      modifies this
      ensures At(me, Checked(req, attempt, q)) && Continues(old(db), db, |db.pcs|)
      ensures req.key in db.quotas && db.quotas[req.key] == q && q.version >= 1
    {
      Interfere(me);
      var found := GetQuota(req.key);
      if found.Some? {
        q := found.value;
        CheckQuota(me, req, attempt, q);
      } else {
        assert PcOk(db, db.pcs[me]);
        ReadKeepsInv(db, me, Inserting(req, attempt));
        db := db.To(me, Inserting(req, attempt));
        q := CreateQuota(me, req, attempt);
      }
    }

    /** The check that follows a read. */
    method CheckQuota(me: nat, req: Request, attempt: nat, q: Row<Quota>)
      requires At(me, Selecting(req, attempt)) && req.key in db.quotas && db.quotas[req.key] == q
      modifies this
      ensures At(me, Checked(req, attempt, q)) && db == old(db).To(me, Checked(req, attempt, q)) && q.version >= 1
    {
      assert Covered(db, req.key) && PcOk(db, db.pcs[me]);
      ReadKeepsInv(db, me, Checked(req, attempt, q));
      db := db.To(me, Checked(req, attempt, q));
    }

    /** The insert after a miss, and the second read if it lost the race. */
    method CreateQuota(me: nat, req: Request, attempt: nat) returns (q: Row<Quota>)
      requires At(me, Inserting(req, attempt))
      modifies this
      ensures At(me, Checked(req, attempt, q)) && Continues(old(db), db, |db.pcs|)
      ensures req.key in db.quotas && db.quotas[req.key] == q && q.version >= 1
    {
      Interfere(me);
      InsertKeepsInv(db, me);
      var inserted := InsertQuota(req.key, req.limit);
      if inserted {
        q := Row(1, Quota(req.limit, 0, 0));
        db := db.To(me, Checked(req, attempt, q));
        return;
      }
      db := db.To(me, Selecting(req, attempt));
      Interfere(me);
      var found := GetQuota(req.key);
      q := found.value;
      CheckQuota(me, req, attempt, q);
    }

    /** After the reservation: re-read, insert, and release again if the insert fails. */
    method AdmitMission(me: nat, req: Request, now: int, id: Id) returns (r: Result<Answer>, ghost before: State)
      requires At(me, Rereading(req))
      modifies this
      ensures At(me, Idle) && old(db).missions <= db.missions && old(db).replies <= db.replies
      ensures r.Ok? ==>
        r.value.Created? && r.value.mission == id && MadeFor(db.missions, |old(db).missions|, req, r.value)
      ensures r.Ok? ==> Answers(db.replies, |old(db).replies|, Reply(req.idemKey, r.value))
      ensures r.Err? ==> r.error == Internal && EndedInRollback(before, db, me, req)
    {
      var q := RereadQuota(me, req);
      Interfere(me);
      ghost var s := db;
      r := CreateStep(me, req, q, id);
      ghost var s' := db;
      Interfere(me);
      before := db;
      if r.Err? {
        Rollback(me, req, q);
        return;
      }
      MadeForStays(s'.missions, db.missions, |s.missions|, req, r.value);
      CacheIdempotency(me, req, r.value, now);
    }

    method RereadQuota(me: nat, req: Request) returns (q: Row<Quota>)
      requires At(me, Rereading(req))
      modifies this
      ensures At(me, Creating(req, q)) && Continues(old(db), db, |db.pcs|)
    {
      Interfere(me);
      assert PcOk(db, db.pcs[me]);
      var found := GetQuota(req.key);
      q := found.value;
      ReadKeepsInv(db, me, Creating(req, q));
      db := db.To(me, Creating(req, q));
    }

    /** The release after a failed insert. */
    method Rollback(me: nat, req: Request, q: Row<Quota>)
      requires At(me, RollingBack(req, q))
      modifies this
      ensures At(me, Idle) && db == AfterRollback(old(db), me)
    {
      RollbackKeepsInv(db, me);
      ReleaseQuota(req.key, req.energy, q.version + 1);
      db := db.To(me, Idle);
    }

    /** The insert. */
    method CreateStep(me: nat, req: Request, q: Row<Quota>, id: Id) returns (r: Result<Answer>)
      requires At(me, Creating(req, q))
      modifies this
      ensures At(me, if r.Ok? then Caching(req, r.value) else RollingBack(req, q))
      ensures Continues(old(db), db, |db.pcs|)
      ensures r == Err(Internal) || r == Ok(Created(id, NearlyFull(q.data)))
      ensures r.Ok? ==> MadeFor(db.missions, |old(db).missions|, req, r.value)
      ensures r.Ok? ==>
        db == old(db).(missions := db.missions).To(me, Caching(req, r.value)) && |db.missions| == |old(db).missions| + 1
    {
      ghost var s := db;
      var queued := NearlyFull(q.data);
      var mission := Mission(id, req.idemKey, req.key, req.energy, queued);
      var created := CreateMission(mission);
      CreateKeepsInv(s, me, id, created);
      if !created {
        db := db.To(me, RollingBack(req, q));
        return Err(Internal);
      }
      db := db.To(me, Caching(req, Created(id, queued)));
      assert db.missions[|s.missions|] == mission;
      return Ok(Created(id, queued));
    }

    /** cacheIdempotency, and the answer to the caller. */
    method CacheIdempotency(me: nat, req: Request, answer: Answer, now: int)
      requires At(me, Caching(req, answer))
      modifies this
      ensures At(me, Idle)
      ensures db == Answered(old(db), req, answer, now).To(me, Idle)
      ensures Answers(db.replies, |old(db).replies|, Reply(req.idemKey, answer))
    {
      CacheKeepsInv(db, me, now);
      if req.idemKey != "" {
        InsertIdempotency(req.idemKey, Record(answer, Stored(now + DAY)));
      }
      db := db.(replies := db.replies + [Reply(req.idemKey, answer)]).To(me, Idle);
      assert db.replies[|old(db).replies|] == Reply(req.idemKey, answer);
    }
  }
}
