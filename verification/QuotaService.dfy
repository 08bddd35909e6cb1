/** The retry loops over quota rows (internal/quota/service.go, internal/mission/submit.go),
    with statements of other clients between any two of their own. */
module QuotaService {
  import opened Common
  import opened Optimistic
  import opened Quotas

  /** One statement the database ran, and whether this caller issued it. */
  datatype Entry = Entry(mine: bool, statement: Statement)

  function Statements(log: seq<Entry>): seq<Statement> {
    seq(|log|, i requires 0 <= i < |log| => log[i].statement)
  }

  /** The table as it was after the first `n` entries. */
  function TableAt(log: seq<Entry>, n: nat): Table
    requires n <= |log|
  {
    After(Statements(log[..n]))
  }

  predicate HitsAt(log: seq<Entry>, i: nat)
    requires i < |log|
  {
    Hits(TableAt(log, i), log[i].statement)
  }

  /** Successful writes on a row by other clients, among the entries from..to. */
  function ForeignWrites(log: seq<Entry>, key: Key, from: nat, end: nat): nat
    requires from <= end <= |log|
    decreases end
  {
    if from == end then
      0
    else
      var counts := !log[end - 1].mine && log[end - 1].statement.key == key && HitsAt(log, end - 1);
      ForeignWrites(log, key, from, end - 1) + (if counts then 1 else 0)
  }

  lemma StatementsOfMore(log: seq<Entry>, e: Entry)
    ensures Statements(log + [e]) == Statements(log) + [e.statement]
    ensures After(Statements(log + [e])) == Exec(After(Statements(log)), e.statement)
  {
    var more := Statements(log + [e]);
    assert more == Statements(log) + [e.statement];
    assert more[..|more| - 1] == Statements(log);
  }

  lemma {:induction false} ForeignWritesOfMore(log: seq<Entry>, log': seq<Entry>, key: Key, from: nat, end: nat)
    requires log <= log' && from <= end <= |log|
    ensures ForeignWrites(log', key, from, end) == ForeignWrites(log, key, from, end)
    decreases end
  {
    if from < end {
      ForeignWritesOfMore(log, log', key, from, end - 1);
      assert log'[..end - 1] == log[..end - 1];
    }
  }

  lemma {:induction false} ForeignWritesAdd(log: seq<Entry>, key: Key, from: nat, mid: nat, end: nat)
    requires from <= mid <= end <= |log|
    ensures ForeignWrites(log, key, from, end) == ForeignWrites(log, key, from, mid) + ForeignWrites(log, key, mid, end)
    decreases end
  {
    if mid < end {
      ForeignWritesAdd(log, key, from, mid, end - 1);
    }
  }

  predicate AllForeign(log: seq<Entry>, from: nat)
    requires from <= |log|
  {
    forall i :: from <= i < |log| ==> !log[i].mine
  }

  /** While only the others write, a row that stays at its version stays as it is, and
      one that moves was moved by them. */
  lemma {:induction false} OthersMoveRows(log: seq<Entry>, key: Key, read: nat)
    requires read <= |log| && AllForeign(log, read) && key in TableAt(log, read)
    ensures key in TableAt(log, |log|)
    ensures SnapshotOf(TableAt(log, read)[key], TableAt(log, |log|)[key])
    ensures TableAt(log, |log|)[key].version == TableAt(log, read)[key].version + ForeignWrites(log, key, read, |log|)
  {
    assert log[..|log|] == log;
    if read < |log| {
      var front := log[..|log| - 1];
      assert log == front + [log[|log| - 1]];
      StatementsOfMore(front, log[|log| - 1]);
      assert front[..read] == log[..read] && front[..|front|] == front;
      OthersMoveRows(front, key, read);
      ForeignWritesOfMore(front, log, key, read, |front|);
    }
  }

  datatype Outcome =
    | Won
    | Rejected(seen: Row<Quota>)
    | Contended
    | Invalid
    | Failed

  /** At some moment of the call the row was `seen`. */
  ghost predicate SeenDuring(log: seq<Entry>, from: nat, key: Key, seen: Row<Quota>) {
    exists n: nat :: from <= n <= |log| && key in TableAt(log, n) && TableAt(log, n)[key] == seen
  }

  /** No entry from `from` on is a successful reservation, commit or release of this caller. */
  predicate NoUnitsMoved(log: seq<Entry>, from: nat) {
    forall i :: from <= i < |log| && log[i].mine && !log[i].statement.Insert? ==> !HitsAt(log, i)
  }

  lemma NoUnitsMovedOfMore(log: seq<Entry>, log': seq<Entry>, from: nat)
    requires log <= log' && from <= |log| && NoUnitsMoved(log, from)
    requires forall i :: |log| <= i < |log'| && log'[i].mine && !log'[i].statement.Insert? ==> !HitsAt(log', i)
    ensures NoUnitsMoved(log', from)
  {
    forall i | from <= i < |log'| && log'[i].mine && !log'[i].statement.Insert? ensures !HitsAt(log', i) {
      if i < |log| {
        assert log'[..i] == log[..i];
      }
    }
  }

  lemma SeenDuringMore(log: seq<Entry>, log': seq<Entry>, from: nat, key: Key)
    requires log <= log'
    ensures forall seen :: SeenDuring(log, from, key, seen) ==> SeenDuring(log', from, key, seen)
  {
    forall seen | SeenDuring(log, from, key, seen) ensures SeenDuring(log', from, key, seen) {
      var n: nat :| from <= n <= |log| && key in TableAt(log, n) && TableAt(log, n)[key] == seen;
      assert log'[..n] == log[..n];
      assert TableAt(log', n)[key] == seen;
    }
  }

  /** The last entry is a successful statement of this caller, and the only one of the call. */
  ghost predicate MovedOnce(log: seq<Entry>, from: nat, st: Statement) {
    && from < |log|
    && NoUnitsMoved(log[..|log| - 1], from)
    && log[|log| - 1] == Entry(true, st)
    && HitsAt(log, |log| - 1)
  }

  /** What each way to end a reservation means. */
  ghost predicate ReserveEnd(log: seq<Entry>, from: nat, key: Key, amount: int, r: Outcome) {
    match r
    case Won => |log| > 0 && MovedOnce(log, from, Reserve(key, amount, VersionOf(log[|log| - 1].statement)))
    case Rejected(seen) => NoUnitsMoved(log, from) && Remaining(seen.data) < amount && SeenDuring(log, from, key, seen)
    case Contended => NoUnitsMoved(log, from)
    case Failed => NoUnitsMoved(log, from)
    case Invalid => false
  }

  function VersionOf(st: Statement): nat {
    if st.Insert? then 1 else st.version
  }

  class Store {
    var rows: Table
    /** Every statement the database ran; the service keeps no such list. */
    var log: seq<Entry>

    constructor ()
      ensures Valid() && rows == map[]
    {
      rows := map[];
      log := [];
    }

    ghost predicate Valid()
      reads this
    {
      rows == After(Statements(log))
    }

    // ---- The statements --------------------------------------------------------

    /** Any one UPDATE or INSERT: the number of rows affected. */
    method Execute(st: Statement, mine: bool) returns (affected: nat)
      requires Valid()
      modifies this
      ensures Valid() && log == old(log) + [Entry(mine, st)]
      ensures affected == if Hits(old(rows), st) then 1 else 0
      ensures rows == Exec(old(rows), st)
    {
      affected := if Hits(rows, st) then 1 else 0;
      rows := Exec(rows, st);
      StatementsOfMore(log, Entry(mine, st));
      log := log + [Entry(mine, st)];
    }

    method Get(key: Key) returns (q: Option<Row<Quota>>)
      ensures q == if key in rows then Some(rows[key]) else None
    {
      q := if key in rows then Some(rows[key]) else None;
    }

    /** Any statements of any other clients. */
    method Interfere()
      requires Valid()
      modifies this
      ensures Valid() && old(log) <= log && AllForeign(log, |old(log)|)
    {
      var n: nat := *;
      while n > 0
        invariant Valid() && old(log) <= log && AllForeign(log, |old(log)|)
      {
        var st: Statement := *;
        var _ := Execute(st, false);
        n := n - 1;
      }
    }

    // ---- The service ---------------------------------------------------------------

    /** GetOrCreateQuota: select, insert on a miss, select again if the insert lost a race. */
    method GetOrCreate(key: Key, limit: int) returns (q: Row<Quota>)
      requires Valid()
      modifies this
      ensures Valid() && old(log) <= log && NoUnitsMoved(log, |old(log)|)
      ensures key in rows && rows[key] == q
    {
      Interfere();
      var found := Get(key);
      if found.Some? {
        return found.value;
      }
      Interfere();
      var inserted := Execute(Insert(key, limit), true);
      if inserted == 1 {
        return Row(1, Quota(limit, 0, 0));
      }
      ghost var before := log;
      Interfere();
      assert log[..|before|] == before && log[..|log|] == log;
      OthersMoveRows(log, key, |before|);
      found := Get(key);
      return found.value;
    }

    /** The write of an attempt: one row, or none and nothing moved. */
    method Write(st: Statement, ghost from: nat) returns (affected: nat)
      requires Valid() && !st.Insert? && from <= |log| && NoUnitsMoved(log, from)
      modifies this
      ensures Valid() && log == old(log) + [Entry(true, st)] && rows == Exec(old(rows), st)
      ensures affected == if Hits(old(rows), st) then 1 else 0
      ensures affected == 0 ==> NoUnitsMoved(log, from)
      ensures affected == 1 ==> MovedOnce(log, from, st)
      ensures ForeignWrites(log, st.key, from, |log|) == ForeignWrites(old(log), st.key, from, |old(log)|)
    {
      affected := Execute(st, true);
      assert log[..|log| - 1] == old(log) && old(log)[..|old(log)|] == old(log);
      assert HitsAt(log, |old(log)|) == Hits(old(rows), st);
      ForeignWritesOfMore(old(log), log, st.key, from, |old(log)|);
      if affected == 0 {
        NoUnitsMovedOfMore(old(log), log, from);
      }
    }

    /** The others run after a read of `key`: the row moves on or stays as it was read. */
    method InterfereAfterRead(key: Key, ghost from: nat) returns (ghost foreign: nat)
      requires Valid() && key in rows && from <= |log| && NoUnitsMoved(log, from)
      modifies this
      ensures Valid() && old(log) <= log && NoUnitsMoved(log, from)
      ensures key in rows && (foreign == 0 ==> rows[key] == old(rows)[key])
      ensures rows[key].version == old(rows)[key].version + foreign
      ensures ForeignWrites(log, key, from, |log|) == ForeignWrites(old(log), key, from, |old(log)|) + foreign
    {
      Interfere();
      ghost var read := |old(log)|;
      assert log[..read] == old(log) && log[..|log|] == log && old(log)[..read] == old(log);
      OthersMoveRows(log, key, read);
      ForeignWritesAdd(log, key, from, read, |log|);
      ForeignWritesOfMore(old(log), log, key, from, read);
      NoUnitsMovedOfMore(old(log), log, from);
      foreign := ForeignWrites(log, key, read, |log|);
    }

    /** The others run while this caller has no row in hand. */
    method Pause(key: Key, ghost from: nat)
      requires Valid() && from <= |log| && NoUnitsMoved(log, from)
      modifies this
      ensures Valid() && old(log) <= log && NoUnitsMoved(log, from)
      ensures ForeignWrites(log, key, from, |log|) >= ForeignWrites(old(log), key, from, |old(log)|)
    {
      Interfere();
      NoUnitsMovedOfMore(old(log), log, from);
      ForeignWritesAdd(log, key, from, |old(log)|, |log|);
      ForeignWritesOfMore(old(log), log, key, from, |old(log)|);
    }

    /** One attempt of the reserve loops; None asks for another. */
    method ReserveAttempt(key: Key, limit: int, amount: int, last: bool, ghost from: nat)
        returns (r: Option<Outcome>, lock: bool)
      requires Valid() && amount > 0 && from <= |log| && NoUnitsMoved(log, from)
      modifies this
      ensures Valid() && old(log) <= log
      ensures r.None? ==> NoUnitsMoved(log, from)
      ensures r.None? ==>
        ForeignWrites(log, key, from, |log|) >= ForeignWrites(old(log), key, from, |old(log)|) + (if lock then 0 else 1)
      ensures lock ==> r.None? && !last
      ensures r.Some? ==> ReserveEnd(log, from, key, amount, r.value) && !r.value.Contended?
    {
      var q := GetOrCreate(key, limit);
      NoUnitsMovedOfMore(old(log), log, from);
      ForeignWritesAdd(log, key, from, |old(log)|, |log|);
      ForeignWritesOfMore(old(log), log, key, from, |old(log)|);
      if Available(q.data) < amount {
        assert log[..|log|] == log;
        assert key in TableAt(log, |log|) && TableAt(log, |log|)[key] == q;
        return Some(Rejected(q)), false;
      }
      ghost var foreign := InterfereAfterRead(key, from);
      var error, busy: bool := *, *;
      if error {
        if busy && !last {
          return None, true;
        }
        return Some(Failed), false;
      }
      var affected := Write(Reserve(key, amount, q.version), from);
      if affected > 0 {
        return Some(Won), false;
      }
      return None, false;
    }

    /** reserveWithRetry and reserveQuotaWithRetry. Giving up is always the others' doing:
        every attempt was lost to a lock error or to a foreign write between its own read
        and its own write. */
    method ReserveWithRetry(key: Key, limit: int, amount: int, maxRetries: nat) returns (r: Outcome, locks: nat)
      requires Valid() && amount > 0
      modifies this
      ensures Valid() && old(log) <= log
      ensures r.Contended? ==>
        locks <= maxRetries && ForeignWrites(log, key, |old(log)|, |log|) + locks >= maxRetries + 1
      ensures ReserveEnd(log, |old(log)|, key, amount, r)
    {
      locks := 0;
      var attempt := 0;
      ghost var from := |log|;
      while attempt <= maxRetries
        invariant attempt <= maxRetries + 1 && locks <= attempt
        invariant attempt == maxRetries + 1 ==> locks <= maxRetries
        invariant Valid() && old(log) <= log && NoUnitsMoved(log, from)
        invariant ForeignWrites(log, key, from, |log|) + locks >= attempt
      {
        var done, lock := ReserveAttempt(key, limit, amount, attempt == maxRetries, from);
        if done.Some? {
          return done.value, locks;
        }
        if lock {
          locks := locks + 1;
        }
        attempt := attempt + 1;
      }
      return Contended, locks;
    }

    /** Reserve, up to the text of its answer. The loop ends at log place `ended`; then the
        row is read once more for the availability the answer reports, which moves no units
        and may fail although they are granted. */
    method ReserveUnits(key: Key, limit: int, amount: int)
      returns (r: Outcome, locks: nat, available: Option<int>, ghost ended: nat)
      requires Valid()
      modifies this
      ensures Valid() && old(log) <= log && |old(log)| <= ended <= |log|
      ensures r.Invalid? <==> amount <= 0
      ensures r.Invalid? ==> log == old(log)
      ensures !r.Invalid? ==> ReserveEnd(log[..ended], |old(log)|, key, amount, r) && NoUnitsMoved(log, ended)
      ensures r.Contended? ==> locks <= 25 && ForeignWrites(log, key, |old(log)|, ended) + locks >= 26
      ensures available.Some? ==> r.Won? || r.Rejected?
      ensures available.Some? ==>
        exists seen :: SeenDuring(log, ended, key, seen) && available == Some(Available(seen.data))
    {
      available, ended := None, |log|;
      if amount <= 0 {
        return Invalid, 0, None, ended;
      }
      r, locks := ReserveWithRetry(key, limit, amount, 25);
      ended := |log|;
      ghost var atEnd := log;
      if r.Won? || r.Rejected? {
        available := Reread(key, limit);
      }
      assert log[..ended] == atEnd;
      ForeignWritesOfMore(atEnd, log, key, |old(log)|, ended);
    }

    /** The read for the answer. */
    method Reread(key: Key, limit: int) returns (available: Option<int>)
      requires Valid()
      modifies this
      ensures Valid() && old(log) <= log && NoUnitsMoved(log, |old(log)|)
      ensures available.Some? ==>
        exists seen :: SeenDuring(log, |old(log)|, key, seen) && available == Some(Available(seen.data))
    {
      var error: bool := *;
      if error {
        return None;
      }
      var q := GetOrCreate(key, limit);
      assert log[..|log|] == log;
      assert TableAt(log, |log|)[key] == q;
      assert SeenDuring(log, |old(log)|, key, q);
      available := Some(Available(q.data));
    }

    /** Commit: five attempts, each with the check the SQL guard repeats. */
    method CommitUnits(key: Key, amount: int) returns (r: Outcome)
      requires Valid()
      modifies this
      ensures Valid() && old(log) <= log
      ensures r.Contended? ==> ForeignWrites(log, key, |old(log)|, |log|) >= 5
      ensures r.Won? <==>
        |log| > |old(log)| && MovedOnce(log, |old(log)|, Commit(key, amount, VersionOf(log[|log| - 1].statement)))
      ensures !r.Won? ==> NoUnitsMoved(log, |old(log)|)
      ensures r.Invalid? ==> key in rows && rows[key].data.reserved < amount
    {
      var attempt := 0;
      ghost var from := |log|;
      while attempt < 5
        invariant attempt <= 5
        invariant Valid() && old(log) <= log && NoUnitsMoved(log, from)
        invariant ForeignWrites(log, key, from, |log|) >= attempt
      {
        var done := CommitAttempt(key, amount, from);
        if done.Some? {
          return done.value;
        }
        attempt := attempt + 1;
      }
      return Contended;
    }

    /** One attempt of Commit; None asks for another. */
    method CommitAttempt(key: Key, amount: int, ghost from: nat) returns (r: Option<Outcome>)
      requires Valid() && from <= |log| && NoUnitsMoved(log, from)
      modifies this
      ensures Valid() && old(log) <= log
      ensures r != Some(Won) ==> NoUnitsMoved(log, from)
      ensures r.None? ==> ForeignWrites(log, key, from, |log|) > ForeignWrites(old(log), key, from, |old(log)|)
      ensures r == Some(Won) ==>
        |log| > 0 && MovedOnce(log, from, Commit(key, amount, VersionOf(log[|log| - 1].statement)))
      ensures r == Some(Invalid) ==> key in rows && rows[key].data.reserved < amount
      ensures r.Some? ==> r.value in {Won, Invalid, Failed}
    {
      Pause(key, from);
      var found := Get(key);
      if found.None? {
        return Some(Failed);
      }
      var q := found.value;
      if q.data.reserved < amount {
        return Some(Invalid);
      }
      ghost var foreign := InterfereAfterRead(key, from);
      var error: bool := *;
      if error {
        return Some(Failed);
      }
      var affected := Write(Commit(key, amount, q.version), from);
      return if affected > 0 then Some(Won) else None;
    }

    /** Release: five attempts and no check, so `short` of them may have failed because the
        row they read held less than the amount. */
    method ReleaseUnits(key: Key, amount: int) returns (r: Outcome, short: nat)
      requires Valid()
      modifies this
      ensures Valid() && old(log) <= log
      ensures r.Contended? ==> ForeignWrites(log, key, |old(log)|, |log|) + short >= 5
      ensures r.Won? <==>
        |log| > |old(log)| && MovedOnce(log, |old(log)|, Release(key, amount, VersionOf(log[|log| - 1].statement)))
      ensures !r.Won? ==> NoUnitsMoved(log, |old(log)|)
      ensures short > 0 ==> exists seen :: SeenDuring(log, |old(log)|, key, seen) && seen.data.reserved < amount
    {
      short := 0;
      var attempt := 0;
      ghost var from := |log|;
      while attempt < 5
        invariant attempt <= 5
        invariant Valid() && old(log) <= log && NoUnitsMoved(log, from)
        invariant ForeignWrites(log, key, from, |log|) + short >= attempt
        invariant short > 0 ==> exists seen :: SeenDuring(log, from, key, seen) && seen.data.reserved < amount
      {
        ghost var before := log;
        var done, q := ReleaseAttempt(key, amount, from);
        SeenDuringMore(before, log, from, key);
        if done.Some? {
          return done.value, short;
        }
        if q.data.reserved < amount {
          short := short + 1;
        }
        attempt := attempt + 1;
      }
      return Contended, short;
    }

    /** One attempt of Release; None, with the row it read, asks for another. */
    method ReleaseAttempt(key: Key, amount: int, ghost from: nat) returns (r: Option<Outcome>, q: Row<Quota>)
      requires Valid() && from <= |log| && NoUnitsMoved(log, from)
      modifies this
      ensures Valid() && old(log) <= log
      ensures r != Some(Won) ==> NoUnitsMoved(log, from)
      ensures r.None? ==> SeenDuring(log, from, key, q)
      ensures r.None? ==> ForeignWrites(log, key, from, |log|) >= ForeignWrites(old(log), key, from, |old(log)|)
      ensures r.None? && q.data.reserved >= amount ==>
        ForeignWrites(log, key, from, |log|) > ForeignWrites(old(log), key, from, |old(log)|)
      ensures r == Some(Won) ==>
        |log| > 0 && MovedOnce(log, from, Release(key, amount, VersionOf(log[|log| - 1].statement)))
      ensures r.Some? ==> r.value in {Won, Failed}
    {
      Pause(key, from);
      var found := Get(key);
      if found.None? {
        return Some(Failed), Row(0, Quota(0, 0, 0));
      }
      q := found.value;
      ghost var before := log;
      assert log[..|log|] == log;
      assert TableAt(log, |log|)[key] == q;
      ghost var foreign := InterfereAfterRead(key, from);
      var error: bool := *;
      if error {
        return Some(Failed), q;
      }
      var affected := Write(Release(key, amount, q.version), from);
      SeenDuringMore(before, log, from, key);
      r := if affected > 0 then Some(Won) else None;
    }
  }
}
