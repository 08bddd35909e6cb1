/** internal/store/db.go: Migrate, migrationFiles, applyMigration. Processes start,
    crash and restart at any statement; a script and its version row are one
    transaction. A file is its place in the sorted list of versions. */
module Migrations {
  type Process = nat

  datatype Pc = Stopped | At(next: nat) | Applying(next: nat)
  datatype State = State(versions: set<int>, log: seq<nat>, pcs: map<Process, Pc>)
  {
    function Pc(p: Process): (pc: Pc) {
      if p in pcs then pcs[p] else Stopped
    }

    function To(p: Process, pc: Pc): (s: State)
      ensures s.Pc(p) == pc && forall q :: q != p ==> s.Pc(q) == Pc(q)
    {
      this.(pcs := pcs[p := pc])
    }
  }
  const INIT := State({}, [], map[])

  datatype Action = Start | Check | Commit(runs: bool) | Crash

  /** One statement of process `p`; `log` collects the committed scripts. */
  function Do(files: seq<int>, s: State, p: Process, a: Action): (s': State) {
    match (a, s.Pc(p))
    case (Start, Stopped) => s.To(p, At(0))
    case (Check, At(n)) =>
      if n >= |files| then s
      else if files[n] in s.versions then s.To(p, At(n + 1))
      else s.To(p, Applying(n))
    case (Commit(runs), Applying(n)) =>
      if n >= |files| then s
      else if !runs || files[n] in s.versions then s.To(p, Stopped)  // rolled back
      else s.(versions := s.versions + {files[n]}, log := s.log + [n]).To(p, At(n + 1))
    case (Crash, _) => s.To(p, Stopped)
    case _ => s
  }

  datatype Step = Step(process: Process, action: Action)

  function Run(files: seq<int>, s: State, steps: seq<Step>): (s': State)
    decreases |steps|
  {
    if steps == [] then s
    else Run(files, Do(files, s, steps[0].process, steps[0].action), steps[1..])
  }

  predicate Sorted(files: seq<int>) {
    forall i, j :: 0 <= i < j < |files| ==> files[i] <= files[j]
  }

  predicate Distinct(files: seq<int>) {
    forall i, j :: 0 <= i < j < |files| ==> files[i] != files[j]
  }

  /** Among the first `n` files, those whose version no earlier file has. */
  function Firsts(files: seq<int>, n: nat): (f: seq<nat>)
    requires n <= |files|
    ensures |f| <= n
    ensures forall k :: 0 <= k < |f| ==> f[k] < n
    ensures forall k, l :: 0 <= k < l < |f| ==> f[k] < f[l]
  {
    if n == 0 then []
    else Firsts(files, n - 1) + (if n == 1 || files[n - 2] != files[n - 1] then [n - 1] else [])
  }

  /** The scripts of the first `m` files are in, and nothing else is. */
  ghost predicate Reached(files: seq<int>, s: State, m: nat) {
    m <= |files| && s.log == Firsts(files, m) && forall v :: v in s.versions <==> v in files[..m]
  }

  ghost predicate PcOk(files: seq<int>, s: State, p: Process) {
    match s.Pc(p)
    case Stopped => true
    case At(n) => n <= |files| && forall i :: 0 <= i < n ==> files[i] in s.versions
    case Applying(n) => n < |files| && forall i :: 0 <= i < n ==> files[i] in s.versions
  }

  ghost predicate Inv(files: seq<int>, s: State) {
    (exists m :: Reached(files, s, m)) && forall p :: PcOk(files, s, p)
  }

  /** Files that repeat the version before them add nothing. */
  lemma {:induction false} RepeatsAddNothing(files: seq<int>, m: nat, n: nat)
    requires Sorted(files) && m <= n <= |files|
    requires forall i :: m <= i < n ==> files[i] in files[..m]
    ensures Firsts(files, n) == Firsts(files, m)
    ensures forall v :: v in files[..n] <==> v in files[..m]
  {
    if m < n {
      RepeatsAddNothing(files, m, n - 1);
      assert files[..n] == files[..n - 1] + [files[n - 1]];
      var k :| 0 <= k < m && files[k] == files[n - 1];
      assert files[k] <= files[n - 2] <= files[n - 1];
    }
  }

  /** A script that commits is the next one in order. */
  lemma CommitIsNext(files: seq<int>, s: State, m: nat, n: nat)
    requires Sorted(files) && Reached(files, s, m) && n < |files| && files[n] !in s.versions
    requires forall i :: 0 <= i < n ==> files[i] in s.versions
    ensures Reached(files, s.(versions := s.versions + {files[n]}, log := s.log + [n]), n + 1)
  {
    assert forall i :: 0 <= i < m ==> files[..m][i] in s.versions;
    RepeatsAddNothing(files, m, n);
    assert files[..n + 1] == files[..n] + [files[n]];
    assert n > 0 ==> files[n - 1] in s.versions;
  }

  lemma StepKeepsPcs(files: seq<int>, s: State, p: Process, a: Action, q: Process)
    requires PcOk(files, s, p) && PcOk(files, s, q)
    ensures PcOk(files, Do(files, s, p, a), q)
  {
  }

  lemma StepKeepsReached(files: seq<int>, s: State, p: Process, a: Action, m: nat) returns (m': nat)
    requires Sorted(files) && Reached(files, s, m) && PcOk(files, s, p)
    ensures Reached(files, Do(files, s, p, a), m') && s.log <= Do(files, s, p, a).log
  {
    m' := m;
    if a.Commit? && a.runs && s.Pc(p).Applying? && files[s.Pc(p).next] !in s.versions {
      CommitIsNext(files, s, m, s.Pc(p).next);
      m' := s.Pc(p).next + 1;
    }
  }

  lemma StepKeepsInv(files: seq<int>, s: State, p: Process, a: Action)
    requires Sorted(files) && Inv(files, s)
    ensures Inv(files, Do(files, s, p, a))
    ensures s.log <= Do(files, s, p, a).log
  {
    var m :| Reached(files, s, m);
    assert PcOk(files, s, p);
    var m' := StepKeepsReached(files, s, p, a, m);
    forall q ensures PcOk(files, Do(files, s, p, a), q) {
      assert PcOk(files, s, q);
      StepKeepsPcs(files, s, p, a, q);
    }
  }

  lemma {:induction false} RunKeepsInv(files: seq<int>, s: State, steps: seq<Step>)
    requires Sorted(files) && Inv(files, s)
    ensures Inv(files, Run(files, s, steps))
    ensures s.log <= Run(files, s, steps).log
    decreases |steps|
  {
    if steps != [] {
      StepKeepsInv(files, s, steps[0].process, steps[0].action);
      RunKeepsInv(files, Do(files, s, steps[0].process, steps[0].action), steps[1..]);
    }
  }

  lemma InitIsInv(files: seq<int>)
    ensures Inv(files, INIT)
  {
    assert Reached(files, INIT, 0);
  }

  lemma {:induction false} DistinctFirsts(files: seq<int>, n: nat)
    requires Distinct(files) && n <= |files|
    ensures Firsts(files, n) == seq(n, i => i)
  {
    if n > 0 {
      DistinctFirsts(files, n - 1);
      assert seq(n, i => i) == seq(n - 1, i => i) + [n - 1];
    }
  }

  // ---- Whole runs ---------------------------------------------------------------

  predicate HasRun(files: seq<int>, log: seq<nat>, version: int) {
    exists k :: 0 <= k < |log| && log[k] < |files| && files[log[k]] == version
  }

  /** Each entry a later file than the one before, with a greater version. */
  predicate Ascending(files: seq<int>, log: seq<nat>) {
    && (forall k :: 0 <= k < |log| ==> log[k] < |files|)
    && (forall k, l :: 0 <= k < l < |log| ==> log[k] < log[l] && files[log[k]] < files[log[l]])
  }

  /** Scripts commit in ascending order of version, each at most once, and a version
      is recorded exactly when its script is in. */
  lemma CommitsFollowTheOrder(files: seq<int>, steps: seq<Step>)
    requires Sorted(files)
    ensures var s := Run(files, INIT, steps);
      && Ascending(files, s.log)
      && (forall v :: v in s.versions <==> HasRun(files, s.log, v))
  {
    InitIsInv(files);
    RunKeepsInv(files, INIT, steps);
    var s := Run(files, INIT, steps);
    var m: nat :| Reached(files, s, m);
    FirstsAreStrict(files, m);
    FirstsCover(files, m);
  }

  lemma {:induction false} FirstsAreStrict(files: seq<int>, n: nat)
    requires Sorted(files) && n <= |files|
    ensures Ascending(files, Firsts(files, n))
  {
    if n > 0 {
      FirstsAreStrict(files, n - 1);
      var f := Firsts(files, n - 1);
      assert Ascending(files, f);
      assert forall k :: 0 <= k < |f| ==> f[k] <= n - 2;
    }
  }

  lemma {:induction false} FirstsCover(files: seq<int>, n: nat)
    requires n <= |files|
    ensures forall v :: v in files[..n] <==> HasRun(files, Firsts(files, n), v)
  {
    var f := Firsts(files, n);
    forall v | HasRun(files, f, v) ensures v in files[..n] {
      var k :| 0 <= k < |f| && f[k] < |files| && files[f[k]] == v;
      assert files[..n][f[k]] == v;
    }
    forall i | 0 <= i < n ensures HasRun(files, f, files[i]) {
      FirstsHave(files, n, i);
    }
  }

  lemma {:induction false} FirstsHave(files: seq<int>, n: nat, i: nat)
    requires i < n <= |files|
    ensures HasRun(files, Firsts(files, n), files[i])
  {
    var f, f' := Firsts(files, n - 1), Firsts(files, n);
    if |f'| > |f| && i == n - 1 {
      assert f'[|f|] == i;
    } else {
      var i' := if i < n - 1 then i else n - 2;
      FirstsHave(files, n - 1, i');
      var k :| 0 <= k < |f| && f[k] < |files| && files[f[k]] == files[i'];
      assert f'[k] == f[k];
    }
  }

  /** With distinct versions the committed scripts are always a prefix of the list. */
  lemma CommitsArePrefixes(files: seq<int>, steps: seq<Step>)
    requires Sorted(files) && Distinct(files)
    ensures var s := Run(files, INIT, steps);
      && |s.log| <= |files| && s.log == seq(|s.log|, i => i)
      && forall v :: v in s.versions <==> v in files[..|s.log|]
  {
    InitIsInv(files);
    RunKeepsInv(files, INIT, steps);
    var m :| Reached(files, Run(files, INIT, steps), m);
    DistinctFirsts(files, m);
  }

  /** Once any process has got through its list, every version is in, and whatever
      else starts, crashes or restarts, no script commits again. */
  lemma MigratedOnceIsForGood(files: seq<int>, before: seq<Step>, p: Process, after: seq<Step>)
    requires Sorted(files) && Run(files, INIT, before).Pc(p) == At(|files|)
    ensures var s := Run(files, INIT, before); var s' := Run(files, s, after);
      && s.log == Firsts(files, |files|) && (forall v :: v in s.versions <==> v in files)
      && s'.log == s.log && s'.versions == s.versions
  {
    InitIsInv(files);
    RunKeepsInv(files, INIT, before);
    var s := Run(files, INIT, before);
    ThroughMeansAll(files, s, p);
    RunKeepsInv(files, s, after);
    var m :| Reached(files, Run(files, s, after), m);
    AllIsTheMost(files, s, Run(files, s, after));
  }

  lemma ThroughMeansAll(files: seq<int>, s: State, p: Process)
    requires Sorted(files) && Inv(files, s) && s.Pc(p) == At(|files|)
    ensures Reached(files, s, |files|)
  {
    var m :| Reached(files, s, m);
    assert PcOk(files, s, p);
    RepeatsAddNothing(files, m, |files|);
    assert files[..|files|] == files;
  }

  lemma {:induction false} FirstsGrow(files: seq<int>, m: nat, n: nat)
    requires m <= n <= |files|
    ensures Firsts(files, m) <= Firsts(files, n)
  {
    if m < n {
      FirstsGrow(files, m, n - 1);
    }
  }

  lemma AllIsTheMost(files: seq<int>, s: State, s': State)
    requires Reached(files, s, |files|) && Inv(files, s') && s.log <= s'.log
    ensures s'.log == s.log && s'.versions == s.versions
  {
    var m :| Reached(files, s', m);
    FirstsGrow(files, m, |files|);
    FirstsCover(files, m);
    FirstsCover(files, |files|);
    assert files[..|files|] == files;
    assert forall v :: v in s'.versions <==> v in s.versions;
  }

  /** A finished migration has run every script if and only if no two files share a
      version: of files that do, only the first one in the list ever runs. */
  lemma EveryScriptRunsIffDistinct(files: seq<int>, steps: seq<Step>, p: Process)
    requires Sorted(files) && Run(files, INIT, steps).Pc(p) == At(|files|)
    ensures Distinct(files) <==> forall i :: 0 <= i < |files| ==> i in Run(files, INIT, steps).log
  {
    MigratedOnceIsForGood(files, steps, p, []);
    var f := Firsts(files, |files|);
    if Distinct(files) {
      DistinctFirsts(files, |files|);
      assert |f| == |files|;
      forall i | 0 <= i < |files| ensures i in f {
        assert f[i] == i;
      }
    } else {
      var i, j :| 0 <= i < j < |files| && files[i] == files[j];
      if i in f && j in f {
        var k, l :| 0 <= k < |f| && 0 <= l < |f| && f[k] == i && f[l] == j;
        assert k < l;
        FirstsAreStrict(files, |files|);
      }
    }
  }

  // ---- The service ----------------------------------------------------------------

  class Database {
    var db: State

    ghost predicate Valid(files: seq<int>)
      reads this
    {
      Sorted(files) && Inv(files, db)
    }

    constructor ()
      ensures db == INIT && forall files :: Sorted(files) ==> Valid(files)
    {
      db := INIT;
      new;
      forall files ensures Inv(files, INIT) {
        InitIsInv(files);
      }
    }

    /** Any statements, starts and crashes of other processes. */
    method Interfere(files: seq<int>, me: Process)
      requires Valid(files)
      modifies this
      ensures Valid(files) && db.Pc(me) == old(db).Pc(me) && old(db).log <= db.log
    {
      var n: nat := *;
      while n > 0
        invariant Valid(files) && db.Pc(me) == old(db).Pc(me) && old(db).log <= db.log
      {
        var p: Process := *;
        var a: Action := *;
        if p != me {
          StepKeepsInv(files, db, p, a);
          db := Do(files, db, p, a);
        }
        n := n - 1;
      }
    }

    /** Whatever the outcome only missing scripts commit; success means all are in, and
        with nothing missing the call succeeds and commits nothing. */
    method Migrate(files: seq<int>, me: Process) returns (ok: bool)
      requires Valid(files) && db.Pc(me) == Stopped
      modifies this
      ensures Valid(files) && db.Pc(me) == Stopped && old(db).log <= db.log
      ensures ok ==> db.log == Firsts(files, |files|) && forall v :: v in db.versions <==> v in files
      ensures old(db).log == Firsts(files, |files|) ==> ok && db.log == old(db).log && db.versions == old(db).versions
    {
      StepKeepsInv(files, db, me, Start);
      db := db.To(me, At(0));
      var i := 0;
      ok := true;
      while ok && i < |files|
        invariant 0 <= i <= |files| && Valid(files) && old(db).log <= db.log
        invariant db.Pc(me) == if ok then At(i) else Stopped
        invariant old(db).log == Firsts(files, |files|) ==>
          ok && db.log == old(db).log && db.versions == old(db).versions
      {
        ok := ApplyMigration(files, me, i);
        if old(db).log == Firsts(files, |files|) {
          Complete(files, old(db));
          AllIsTheMost(files, old(db), db);
        }
        i := i + 1;
      }
      if ok {
        ThroughMeansAll(files, db, me);
        assert files[..|files|] == files;
      }
      StepKeepsInv(files, db, me, Crash);
      db := db.To(me, Stopped);
    }

    /** applyMigration: look the version up, then run the script and record it. */
    method ApplyMigration(files: seq<int>, me: Process, n: nat) returns (ok: bool)
      requires Valid(files) && n < |files| && db.Pc(me) == At(n)
      modifies this
      ensures Valid(files) && old(db).log <= db.log
      ensures db.Pc(me) == if ok then At(n + 1) else Stopped
      ensures ok ==> files[n] in db.versions
      ensures old(db).log == Firsts(files, |files|) ==> ok
    {
      Interfere(files, me);
      if db.log == Firsts(files, |files|) {
        Complete(files, db);
      }
      StepKeepsInv(files, db, me, Check);
      if files[n] in db.versions {
        db := db.To(me, At(n + 1));
        return true;
      }
      ghost var found := db;
      db := db.To(me, Applying(n));

      Interfere(files, me);
      if old(db).log == Firsts(files, |files|) {
        Complete(files, old(db));
        AllIsTheMost(files, old(db), found);
      }
      ok := CommitMigration(files, me, n);
    }

    /** The transaction: both the script and the version row, or neither. */
    method CommitMigration(files: seq<int>, me: Process, n: nat) returns (ok: bool)
      requires Valid(files) && n < |files| && db.Pc(me) == Applying(n)
      modifies this
      ensures Valid(files)
      ensures ok ==>
        db == old(db).(versions := old(db).versions + {files[n]}, log := old(db).log + [n]).To(me, At(n + 1))
      ensures !ok ==> db == old(db).To(me, Stopped)
      ensures files[n] in old(db).versions ==> !ok
    {
      var runs: bool := *;
      StepKeepsInv(files, db, me, Commit(runs));
      ok := runs && files[n] !in db.versions;
      if ok {
        db := db.(versions := db.versions + {files[n]}, log := db.log + [n]).To(me, At(n + 1));
      } else {
        db := db.To(me, Stopped);
      }
    }
  }

  /** A full log leaves no version out. */
  lemma Complete(files: seq<int>, s: State)
    requires Sorted(files) && Inv(files, s) && s.log == Firsts(files, |files|)
    ensures Reached(files, s, |files|)
  {
    var m :| Reached(files, s, m);
    FirstsCover(files, m);
    FirstsCover(files, |files|);
  }
}
