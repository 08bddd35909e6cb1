/** Daily charging quotas: the row, the statements on it, and its books
    (internal/store/quota_repo.go, internal/domain/entities.go). */
module Quotas {
  import opened Common
  import opened Optimistic

  datatype QuotaType = FastCharge | StandardCharge
  datatype Key = Key(quotaType: QuotaType, day: string)
  datatype Quota = Quota(limit: int, used: int, reserved: int)
  type Table = map<Key, Row<Quota>>

  function Remaining(q: Quota): int {
    q.limit - q.used - q.reserved
  }

  /** Quota.Available: the remainder, clamped at zero. */
  function Available(q: Quota): int {
    if Remaining(q) < 0 then 0 else Remaining(q)
  }

  /** Quota.Utilization above 0.8, in exact arithmetic. */
  predicate NearlyFull(q: Quota) {
    q.limit > 0 && 5 * (q.used + q.reserved) > 4 * q.limit
  }

  datatype Statement =
    | Insert(key: Key, limit: int)
    | Reserve(key: Key, amount: int, version: nat)
    | Commit(key: Key, amount: int, version: nat)
    | Release(key: Key, amount: int, version: nat)

  /** The statement changes a row: its WHERE clause, or no clash with the unique key. */
  predicate Hits(t: Table, st: Statement) {
    if st.Insert? then st.key !in t else
    Matches(t, st.key, st.version) &&
    var q := t[st.key].data;
    match st
    case Reserve(_, amount, _) => Remaining(q) >= amount
    case Commit(_, amount, _) => q.reserved >= amount
    case Release(_, amount, _) => q.reserved >= amount
  }

  function Changed(q: Quota, st: Statement): Quota {
    match st
    case Insert(_, _) => q
    case Reserve(_, amount, _) => q.(reserved := q.reserved + amount)
    case Commit(_, amount, _) => q.(used := q.used + amount, reserved := q.reserved - amount)
    case Release(_, amount, _) => q.(reserved := q.reserved - amount)
  }

  function Exec(t: Table, st: Statement): Table {
    if !Hits(t, st) then t
    else if st.Insert? then t[st.key := Row(1, Quota(st.limit, 0, 0))]
    else Put(t, st.key, Changed(t[st.key].data, st))
  }

  /** Any statements of any clients, in the order the database ran them. */
  function After(sts: seq<Statement>): Table {
    if sts == [] then map[] else Exec(After(sts[..|sts| - 1]), sts[|sts| - 1])
  }

  datatype Kind = Granted | Committed | Released

  function AmountOf(st: Statement, kind: Kind): int {
    match (st, kind)
    case (Reserve(_, amount, _), Granted) => amount
    case (Commit(_, amount, _), Committed) => amount
    case (Release(_, amount, _), Released) => amount
    case _ => 0
  }

  /** What the successful statements of one kind moved on one row. */
  function Total(sts: seq<Statement>, key: Key, kind: Kind): int {
    if sts == [] then
      0
    else
      var last := sts[|sts| - 1];
      var front := sts[..|sts| - 1];
      Total(front, key, kind) + (if last.key == key && Hits(After(front), last) then AmountOf(last, kind) else 0)
  }

  function Writes(sts: seq<Statement>, key: Key): nat {
    if sts == [] then
      0
    else
      var last := sts[|sts| - 1];
      var front := sts[..|sts| - 1];
      Writes(front, key) + (if last.key == key && Hits(After(front), last) then 1 else 0)
  }

  /** The version column counts the writes of its row. */
  lemma {:induction false} VersionCountsWrites(sts: seq<Statement>, key: Key)
    ensures if key in After(sts) then After(sts)[key].version == Writes(sts, key) else Writes(sts, key) == 0
  {
    if sts != [] {
      VersionCountsWrites(sts[..|sts| - 1], key);
    }
  }

  /** Whatever the amounts, granted units are used, reserved or released again. */
  lemma {:induction false} UnitsAreConserved(sts: seq<Statement>, key: Key)
    ensures key in After(sts) ==> var q := After(sts)[key].data;
      && Total(sts, key, Granted) == q.used + q.reserved + Total(sts, key, Released)
      && Total(sts, key, Committed) == q.used
    ensures key !in After(sts) ==> forall kind :: Total(sts, key, kind) == 0
  {
    if sts != [] {
      UnitsAreConserved(sts[..|sts| - 1], key);
    }
  }

  predicate NonNegative(st: Statement) {
    st.Insert? || st.amount >= 0
  }

  predicate InBounds(q: Quota) {
    0 <= q.used && 0 <= q.reserved && q.used + q.reserved <= if q.limit < 0 then 0 else q.limit
  }

  /** With non-negative amounts the row never exceeds its daily limit. */
  lemma {:induction false} RowsStayInBounds(sts: seq<Statement>, key: Key)
    requires forall i :: 0 <= i < |sts| ==> NonNegative(sts[i])
    ensures key in After(sts) ==> InBounds(After(sts)[key].data)
  {
    if sts != [] {
      RowsStayInBounds(sts[..|sts| - 1], key);
      assert NonNegative(sts[|sts| - 1]);
    }
  }

  /** Exactly when a statement that hits a row in bounds leaves it in bounds. */
  lemma BoundsSurviveIff(q: Quota, st: Statement)
    requires InBounds(q) && !st.Insert?
    requires if st.Reserve? then Remaining(q) >= st.amount else q.reserved >= st.amount
    ensures InBounds(Changed(q, st)) <==>
      match st
      case Reserve(_, amount, _) => q.reserved + amount >= 0
      case Commit(_, amount, _) => q.used + amount >= 0
      case Release(_, amount, _) => Remaining(q) + amount >= 0 || (q.limit < 0 && q.reserved - amount + q.used <= 0)
      case Insert(_, _) => true
  {
  }

  /** Commit and Release take amounts of either sign: releasing minus one unit on a full
      row passes the guard and takes the row over its limit. */
  lemma NegativeReleaseBreaksTheLimit(key: Key)
    ensures var sts := [Insert(key, 1), Reserve(key, 1, 1), Release(key, -1, 2)];
      key in After(sts) && After(sts)[key].data == Quota(1, 0, 2) && !InBounds(After(sts)[key].data)
  {
    var sts := [Insert(key, 1), Reserve(key, 1, 1), Release(key, -1, 2)];
    assert sts[..2] == [Insert(key, 1), Reserve(key, 1, 1)];
    assert sts[..2][..1] == [Insert(key, 1)];
    assert sts[..2][..1][..0] == [];
    assert After(sts[..2][..1]) == map[key := Row(1, Quota(1, 0, 0))];
    assert After(sts[..2]) == map[key := Row(2, Quota(1, 0, 1))];
  }

  /** The check in Go decides as the guard in SQL does, on every row, if and only if the
      amount is positive: the check clamps the remainder of an overdrawn row at zero. */
  lemma ClampedCheckAgreesWithGuardIff(amount: int)
    ensures amount > 0 <==> forall q: Quota :: Available(q) >= amount <==> Remaining(q) >= amount
  {
    if amount <= 0 {
      var overdrawn := Quota(0, 1 - amount, 0);
      assert Available(overdrawn) == 0 && Remaining(overdrawn) < amount;
    }
  }
}
