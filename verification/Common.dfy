/** Small value types shared by every module. */
module Common {
  datatype Option<+T> = None | Some(value: T)

  /** The error codes the services hand to their callers; `Uncoded` is an error that
      carries none. */
  datatype Error = Validation | NotFound | Forbidden | InvalidTransition | Conflict | Internal | Uncoded

  datatype Result<+T> = Ok(value: T) | Err(error: Error)
}

/** The versioned row, and the one shape every conditional UPDATE in the
    repositories has: `SET ..., version = version + 1 WHERE id = ? AND version = ?`. */
module Optimistic {
  datatype Row<+T> = Row(version: nat, data: T)

  /** The WHERE clause. */
  predicate Matches<K, T>(table: map<K, Row<T>>, key: K, version: nat) {
    key in table && table[key].version == version
  }

  /** The SET clause, on a row that is there. */
  function Put<K, T>(table: map<K, Row<T>>, key: K, data: T): map<K, Row<T>>
    requires key in table
  {
    table[key := Row(table[key].version + 1, data)]
  }

  /** What a client may rely on about a row it read some time ago. */
  predicate SnapshotOf<T(==)>(snapshot: Row<T>, current: Row<T>) {
    && snapshot.version <= current.version
    && (snapshot.version == current.version ==> snapshot == current)
  }

  /** Every row stays, as it is or at a later version. */
  ghost predicate RowsForward<K(!new), T>(table: map<K, Row<T>>, table': map<K, Row<T>>) {
    forall key :: key in table ==> key in table' && SnapshotOf(table[key], table'[key])
  }

  /** Somebody has written to the row since it was `read`. */
  predicate WrittenSince<K, T>(table: map<K, Row<T>>, key: K, read: Row<T>) {
    key in table && read.version < table[key].version
  }

  /** One statement leaves a row alone or takes its version up by one. */
  predicate Follows<T(==)>(before: Row<T>, after: Row<T>) {
    after == before || after.version == before.version + 1
  }

  /** The life of one row: each entry is the row after one more statement. */
  ghost predicate IsHistory<T>(history: seq<Row<T>>) {
    |history| <= 1 ||
    var n := |history| - 1;
    IsHistory(history[..n]) && Follows(history[n - 1], history[n])
  }

  /** A row read at any earlier moment is a snapshot of the row now: while its
      version is still current, nothing about the row has changed. */
  lemma {:induction false} EveryReadIsASnapshot<T>(history: seq<Row<T>>, read: nat)
    requires IsHistory(history) && read < |history|
    ensures SnapshotOf(history[read], history[|history| - 1])
    decreases |history|
  {
    if read < |history| - 1 {
      var earlier := history[..|history| - 1];
      EveryReadIsASnapshot(earlier, read);
    }
  }

  /** The version is still current if and only if the row was the same all that time:
      a row never comes back to a version it had. */
  lemma {:induction false} VersionHeldIffRowUntouched<T>(history: seq<Row<T>>, read: nat)
    requires IsHistory(history) && read < |history|
    ensures history[read].version == history[|history| - 1].version <==>
            forall m :: read <= m < |history| ==> history[m] == history[read]
    decreases |history|
  {
    EveryReadIsASnapshot(history, read);
    var n := |history| - 1;
    if read < n {
      var earlier := history[..n];
      EveryReadIsASnapshot(earlier, read);
      VersionHeldIffRowUntouched(earlier, read);
      assert forall m :: read <= m < n ==> earlier[m] == history[m];
    }
  }
}

/** Statements of one client, back to back. */
module Programs {
  function InTurn<S, A>(step: (S, A) -> S, s: S, actions: seq<A>): S
    decreases |actions|
  {
    if actions == [] then s else InTurn(step, step(s, actions[0]), actions[1..])
  }

  lemma OneInTurn<S, A>(step: (S, A) -> S, s: S, a: A)
    ensures InTurn(step, s, [a]) == step(s, a)
  {
    assert [a][1..] == [];
    assert InTurn(step, step(s, a), []) == step(s, a);
  }

  lemma {:induction false} PartsInTurn<S, A>(step: (S, A) -> S, s: S, a: seq<A>, b: seq<A>)
    ensures InTurn(step, s, a + b) == InTurn(step, InTurn(step, s, a), b)
    decreases |a|
  {
    if a == [] {
      assert a + b == b;
    } else {
      PartsInTurn(step, step(s, a[0]), a[1..], b);
      assert (a + b)[1..] == a[1..] + b;
    }
  }
}
