/**
 Migrations and their ledger: what one uninterrupted run does, step by step on the database, and what
 every interleaving of runs keeps when runs crash at any point, resume, compete for the lock, or go on
 without it. Each transaction is one step. A schema is the list of bodies that were executed.
 */
module Migrations {
  import opened Wrappers

  datatype Migration = Migration(version: int, filename: string, sha256: string, body: string)

  datatype Row = Row(version: int, filename: string, sha256: string)

  /** Objects with the managed names may exist that no migration made. */
  datatype Database = Database(bodies: seq<string>, ledger: Option<seq<Row>>, foreignSchema: bool, foreignOperations: bool)
  {
    predicate SchemaExists() { foreignSchema || bodies != [] }

    predicate OperationsExist() { foreignOperations || bodies != [] }
  }

  datatype MigrationError = Unmanaged | Inconsistent | HistoryInvalid | LockTimeout | DatabaseFailure

  datatype MigrationResult = MigrationResult(applied: seq<string>, current: string)

  /** `load_migrations`: versions 1, 2, 3, ... and at least one. */
  predicate Packaged(ms: seq<Migration>) {
    ms != [] && forall i :: 0 <= i < |ms| ==> ms[i].version == i + 1
  }

  function RowOf(m: Migration): Row {
    Row(m.version, m.filename, m.sha256)
  }

  function Rows(ms: seq<Migration>): seq<Row> {
    seq(|ms|, i requires 0 <= i < |ms| => RowOf(ms[i]))
  }

  function Bodies(ms: seq<Migration>): seq<string> {
    seq(|ms|, i requires 0 <= i < |ms| => ms[i].body)
  }

  function Filenames(ms: seq<Migration>): seq<string> {
    seq(|ms|, i requires 0 <= i < |ms| => ms[i].filename)
  }

  /** The ledger is hash for hash a nonempty prefix of the packaged sequence. */
  predicate ExactPrefix(rows: seq<Row>, ms: seq<Migration>) {
    1 <= |rows| <= |ms| && rows == Rows(ms[..|rows|])
  }

  /* ------------------------------------------------------------ transactions */

  function Bootstrapped(db: Database, first: Migration): Result<Database, MigrationError> {
    if db.SchemaExists() || db.ledger.Some? then Err(DatabaseFailure)
    else Ok(db.(bodies := db.bodies + [first.body], ledger := Some([RowOf(first)])))
  }

  /** The primary key and the unique file name of the ledger. */
  predicate Duplicate(rows: seq<Row>, m: Migration) {
    exists i :: 0 <= i < |rows| && (rows[i].version == m.version || rows[i].filename == m.filename)
  }

  /** A body and its ledger row are committed together, or rolled back together when the row is a duplicate. */
  function Applied(db: Database, m: Migration): Result<Database, MigrationError> {
    if db.ledger.None? || Duplicate(db.ledger.value, m) then Err(DatabaseFailure)
    else Ok(db.(bodies := db.bodies + [m.body], ledger := Some(db.ledger.value + [RowOf(m)])))
  }

  /** What a run finds: how many migrations are already applied, none meaning that the first must bootstrap. */
  function Inspect(db: Database, ms: seq<Migration>): Result<nat, MigrationError> {
    if db.SchemaExists() != db.ledger.Some? then Err(Unmanaged)
    else if !db.SchemaExists() then (if db.OperationsExist() then Err(Unmanaged) else Ok(0))
    else if !db.OperationsExist() then Err(Inconsistent)
    else if ExactPrefix(db.ledger.value, ms) then Ok(|db.ledger.value|)
    else Err(HistoryInvalid)
  }

  /**
   Every combination of foreign objects and a ledger: an empty database is bootstrapped, a managed one is
   resumed from an exact ledger, and anything else is refused.
   */
  lemma RefusalMeans(db: Database, ms: seq<Migration>)
    ensures var untouched := db.bodies == [];
            && (untouched && !db.foreignSchema && db.ledger.None? && !db.foreignOperations ==> Inspect(db, ms) == Ok(0))
            && (untouched && !db.foreignSchema && db.ledger.None? && db.foreignOperations ==> Inspect(db, ms) == Err(Unmanaged))
            && (untouched && !db.foreignSchema && db.ledger.Some? ==> Inspect(db, ms) == Err(Unmanaged))
            && (untouched && db.foreignSchema && db.ledger.None? ==> Inspect(db, ms) == Err(Unmanaged))
            && (untouched && db.foreignSchema && db.ledger.Some? && !db.foreignOperations ==> Inspect(db, ms) == Err(Inconsistent))
            && (!untouched && db.ledger.None? ==> Inspect(db, ms) == Err(Unmanaged))
            && ((!untouched || (db.foreignSchema && db.foreignOperations)) && db.ledger.Some? ==>
                  var rows := db.ledger.value;
                  Inspect(db, ms) == if 1 <= |rows| <= |ms| && (forall i :: 0 <= i < |rows| ==>
                                          && rows[i].version == ms[i].version && rows[i].filename == ms[i].filename
                                          && rows[i].sha256 == ms[i].sha256)
                                     then Ok(|rows|) else Err(HistoryInvalid))
  {
    if db.ledger.Some? {
      var rows := db.ledger.value;
      if 1 <= |rows| <= |ms| {
        assert rows == Rows(ms[..|rows|]) <==> forall i :: 0 <= i < |rows| ==> rows[i] == RowOf(ms[i]);
      }
    }
  }

  method ReadAppliedMigrations(rows: seq<Row>, expected: seq<Migration>) returns (applied: Result<nat, MigrationError>)
    ensures applied == if ExactPrefix(rows, expected) then Ok(|rows|) else Err(HistoryInvalid)
  {
    if rows == [] || |rows| > |expected| {
      return Err(HistoryInvalid);
    }
    for i := 0 to |rows|
      invariant forall j :: 0 <= j < i ==> rows[j] == RowOf(expected[j])
    {
      if rows[i].version != expected[i].version || rows[i].filename != expected[i].filename || rows[i].sha256 != expected[i].sha256 {
        assert rows[i] != Rows(expected[..|rows|])[i];
        return Err(HistoryInvalid);
      }
    }
    return Ok(|rows|);
  }

  /* ------------------------------------------------------------ one uninterrupted run */

  class MigrationTarget {
    var db: Database

    /** `apply_migrations` while the lock is held. The file names are those of distinct files. */
    method ApplyMigrations(ms: seq<Migration>) returns (result: Result<MigrationResult, MigrationError>)
      requires Packaged(ms) && forall i, j :: 0 <= i < j < |ms| ==> ms[i].filename != ms[j].filename
      modifies this
      ensures result.Ok? <==> Inspect(old(db), ms).Ok?
      ensures result.Err? ==> db == old(db) && result.error == Inspect(old(db), ms).error
      ensures result.Ok? ==>
        var k := Inspect(old(db), ms).value;
        && k <= |ms|
        && db.ledger == Some(Rows(ms)) && db.bodies == old(db).bodies + Bodies(ms[k..])
        && result.value == MigrationResult(Filenames(ms[k..]), ms[|ms| - 1].filename)
    {
      if db.SchemaExists() != db.ledger.Some? {
        return Err(Unmanaged);
      }
      if !db.SchemaExists() && db.OperationsExist() {
        return Err(Unmanaged);
      }
      var appliedNow: seq<string> := [];
      var next: nat;
      if !db.SchemaExists() {
        var first := ms[0];
        db := db.(bodies := db.bodies + [first.body], ledger := Some([RowOf(first)]));
        appliedNow := [first.filename];
        next := 1;
      } else {
        if !db.OperationsExist() {
          return Err(Inconsistent);
        }
        var already := ReadAppliedMigrations(db.ledger.value, ms);
        if already.Err? {
          return Err(already.error);
        }
        next := already.value;
      }
      ghost var k := Inspect(old(db), ms).value;
      assert db.ledger.value == Rows(ms[..next]);
      while next < |ms|
        invariant k <= next <= |ms| && Inspect(old(db), ms) == Ok(k)
        invariant db.ledger == Some(Rows(ms[..next]))
        invariant db.bodies == old(db).bodies + Bodies(ms[k..next]) && appliedNow == Filenames(ms[k..next])
        decreases |ms| - next
      {
        NotYetRecorded(ms, next);
        Stepwise(ms, k, next);
        db := db.(bodies := db.bodies + [ms[next].body], ledger := Some(db.ledger.value + [RowOf(ms[next])]));
        appliedNow := appliedNow + [ms[next].filename];
        next := next + 1;
      }
      assert ms[..|ms|] == ms;
      assert ms[k..|ms|] == ms[k..];
      return Ok(MigrationResult(appliedNow, ms[|ms| - 1].filename));
    }
  }

  lemma NotYetRecorded(ms: seq<Migration>, next: nat)
    requires Packaged(ms) && next < |ms| && forall i, j :: 0 <= i < j < |ms| ==> ms[i].filename != ms[j].filename
    ensures !Duplicate(Rows(ms[..next]), ms[next])
  {
  }

  lemma Stepwise(ms: seq<Migration>, k: nat, next: nat)
    requires k <= next < |ms|
    ensures Rows(ms[..next + 1]) == Rows(ms[..next]) + [RowOf(ms[next])]
    ensures Bodies(ms[k..next + 1]) == Bodies(ms[k..next]) + [ms[next].body]
    ensures Filenames(ms[k..next + 1]) == Filenames(ms[k..next]) + [ms[next].filename]
  {
  }

  /* ------------------------------------------------------------ many runs */

  datatype Phase =
    | Waiting
    | Reading
    | Bootstrapping
    | Applying(next: nat, applied: seq<string>)
    | Done(result: MigrationResult)
    | Failed(error: MigrationError)

  type Runner = nat

  datatype System = System(db: Database, lock: Option<Runner>, phases: map<Runner, Phase>)

  datatype Event =
    | AcquireLock
    | GiveUp
    | LoseLock
    | Inspection
    | Transaction
    | Completion
    | Crash

  predicate HoldsLock(s: System, r: Runner) {
    s.lock == Some(r)
  }

  function Release(s: System, r: Runner): Option<Runner> {
    if HoldsLock(s, r) then None else s.lock
  }

  function To(s: System, r: Runner, p: Phase): System {
    s.(phases := s.phases[r := p])
  }

  function Stop(s: System, r: Runner, p: Phase): System {
    s.(phases := s.phases[r := p], lock := Release(s, r))
  }

  /** One step of runner `r`. A crashed runner is started again from the beginning. */
  predicate Step(ms: seq<Migration>, s: System, t: System, r: Runner, event: Event)
    requires Packaged(ms)
  {
    && r in s.phases
    && match event
       case AcquireLock => s.phases[r].Waiting? && s.lock.None? && t == To(s, r, Reading).(lock := Some(r))
       case GiveUp => s.phases[r].Waiting? && s.lock.Some? && t == To(s, r, Failed(LockTimeout))
       case LoseLock => HoldsLock(s, r) && t == s.(lock := None)
       case Inspection =>
         && s.phases[r].Reading?
         && var found := Inspect(s.db, ms);
            t == (if found.Err? then Stop(s, r, Failed(found.error))
                  else if found.value == 0 then To(s, r, Bootstrapping)
                  else To(s, r, Applying(found.value, [])))
       case Transaction =>
         || (s.phases[r].Bootstrapping?
             && var db := Bootstrapped(s.db, ms[0]);
                t == (if db.Err? then Stop(s, r, Failed(db.error)) else To(s, r, Applying(1, [ms[0].filename])).(db := db.value)))
         || (s.phases[r].Applying? && s.phases[r].next < |ms|
             && var m := ms[s.phases[r].next];
                var db := Applied(s.db, m);
                t == (if db.Err? then Stop(s, r, Failed(db.error))
                      else To(s, r, Applying(s.phases[r].next + 1, s.phases[r].applied + [m.filename])).(db := db.value)))
       case Completion =>
         && s.phases[r].Applying? && s.phases[r].next == |ms|
         && t == Stop(s, r, Done(MigrationResult(s.phases[r].applied, ms[|ms| - 1].filename)))
       case Crash => t == Stop(s, r, Waiting)
  }

  ghost predicate IsRun(ms: seq<Migration>, states: seq<System>, runners: seq<Runner>, events: seq<Event>)
    requires Packaged(ms)
  {
    && |states| == |events| + 1 && |runners| == |events|
    && (forall i :: 0 <= i < |events| ==> Step(ms, states[i], states[i + 1], runners[i], events[i]))
  }

  /** Ledger and schema are the same prefix of the packaged sequence. */
  predicate Managed(db: Database, ms: seq<Migration>) {
    && !db.foreignSchema && !db.foreignOperations
    && |db.bodies| <= |ms| && db.bodies == Bodies(ms[..|db.bodies|])
    && db.ledger == if db.bodies == [] then None else Some(Rows(ms[..|db.bodies|]))
  }

  /** A runner is not ahead of the ledger, and what it reports is a stretch of the sequence that ends where it is. */
  predicate RunnerSound(p: Phase, committed: nat, ms: seq<Migration>) {
    match p
    case Applying(next, applied) =>
      && 1 <= next <= committed && next <= |ms| && |applied| <= next
      && applied == Filenames(ms[next - |applied|..next])
    case Done(result) => committed == |ms| && ms != [] && result.current == ms[|ms| - 1].filename
    case _ => true
  }

  ghost predicate RunnersSound(s: System, ms: seq<Migration>) {
    forall r :: r in s.phases ==> RunnerSound(s.phases[r], |s.db.bodies|, ms)
  }

  ghost predicate Inv(s: System, ms: seq<Migration>)
    requires Packaged(ms)
  {
    Managed(s.db, ms) && |s.db.bodies| <= |ms| && RunnersSound(s, ms)
  }

  lemma ManagedInspection(db: Database, ms: seq<Migration>)
    requires Packaged(ms) && Managed(db, ms)
    ensures Inspect(db, ms) == Ok(|db.bodies|)
  {
  }

  lemma OneMore(ms: seq<Migration>, n: nat)
    requires n < |ms|
    ensures Rows(ms[..n + 1]) == Rows(ms[..n]) + [RowOf(ms[n])]
    ensures Bodies(ms[..n + 1]) == Bodies(ms[..n]) + [ms[n].body]
  {
  }

  /** A transaction on a managed database that commits appends exactly the next body. */
  lemma TransactionIsNext(db: Database, ms: seq<Migration>, next: nat)
    requires Packaged(ms) && Managed(db, ms) && 1 <= next <= |db.bodies| && next < |ms|
    ensures Applied(db, ms[next]).Ok? ==>
      && next == |db.bodies| && |Applied(db, ms[next]).value.bodies| == next + 1
      && db.bodies <= Applied(db, ms[next]).value.bodies && Managed(Applied(db, ms[next]).value, ms)
  {
    if next < |db.bodies| {
      assert db.ledger.value[next].version == ms[next].version;
    } else {
      OneMore(ms, next);
    }
  }

  lemma BootstrapIsFirst(db: Database, ms: seq<Migration>)
    requires Packaged(ms) && Managed(db, ms)
    ensures Bootstrapped(db, ms[0]).Ok? ==>
      && db.bodies == [] && |Bootstrapped(db, ms[0]).value.bodies| == 1
      && Managed(Bootstrapped(db, ms[0]).value, ms)
  {
    if Bootstrapped(db, ms[0]).Ok? {
      var after := Bootstrapped(db, ms[0]).value;
      assert after.bodies == [ms[0].body] == Bodies(ms[..1]);
      assert [RowOf(ms[0])] == Rows(ms[..1]);
    }
  }

  /** The next transaction of a runner that is up to date commits: nothing but a competing run stops a run. */
  lemma UpToDateCommits(db: Database, ms: seq<Migration>)
    requires Packaged(ms) && Managed(db, ms) && forall i, j :: 0 <= i < j < |ms| ==> ms[i].filename != ms[j].filename
    ensures db.bodies == [] ==>
      Bootstrapped(db, ms[0]) == Ok(Database([ms[0].body], Some([Row(1, ms[0].filename, ms[0].sha256)]), false, false))
    ensures 1 <= |db.bodies| < |ms| ==>
      var n := |db.bodies|;
      Applied(db, ms[n]) == Ok(Database(db.bodies + [ms[n].body],
                                        Some(db.ledger.value + [Row(n + 1, ms[n].filename, ms[n].sha256)]), false, false))
  {
    assert [] + [ms[0].body] == [ms[0].body] && RowOf(ms[0]) == Row(1, ms[0].filename, ms[0].sha256);
    if 1 <= |db.bodies| < |ms| {
      NotYetRecorded(ms, |db.bodies|);
      assert RowOf(ms[|db.bodies|]) == Row(|db.bodies| + 1, ms[|db.bodies|].filename, ms[|db.bodies|].sha256);
    }
  }

  /** A transaction for a migration that is already recorded is rolled back. */
  lemma RecordedRollsBack(db: Database, ms: seq<Migration>, next: nat)
    requires Packaged(ms) && Managed(db, ms) && next < |db.bodies|
    ensures Applied(db, ms[next]) == Err(DatabaseFailure) && Bootstrapped(db, ms[0]) == Err(DatabaseFailure)
  {
    assert db.ledger.value[next].version == ms[next].version;
  }

  /** A runner stays sound while the database grows, and when it has applied one more migration. */
  lemma StaysSound(p: Phase, n: nat, m: nat, ms: seq<Migration>)
    requires RunnerSound(p, n, ms) && n <= m <= |ms|
    ensures RunnerSound(p, m, ms)
    ensures p.Applying? && p.next < m ==> RunnerSound(Applying(p.next + 1, p.applied + [ms[p.next].filename]), m, ms)
  {
    if p.Applying? && p.next < m {
      Stepwise(ms, p.next - |p.applied|, p.next);
    }
  }

  lemma FirstSound(ms: seq<Migration>, n: nat)
    requires 1 <= n <= |ms|
    ensures RunnerSound(Applying(1, [ms[0].filename]), n, ms) && RunnerSound(Applying(n, []), n, ms)
  {
    assert Filenames(ms[0..1]) == [ms[0].filename] && Filenames(ms[n..n]) == [];
  }

  lemma RunnersStaySound(s: System, t: System, r: Runner, ms: seq<Migration>)
    requires RunnersSound(s, ms) && |s.db.bodies| <= |t.db.bodies| <= |ms| && r in t.phases
    requires t.phases.Keys == s.phases.Keys && forall q :: q in t.phases && q != r ==> t.phases[q] == s.phases[q]
    requires RunnerSound(t.phases[r], |t.db.bodies|, ms)
    ensures RunnersSound(t, ms)
  {
    forall q | q in t.phases && q != r ensures RunnerSound(t.phases[q], |t.db.bodies|, ms) {
      StaysSound(s.phases[q], |s.db.bodies|, |t.db.bodies|, ms);
    }
  }

  lemma StepKeepsInv(ms: seq<Migration>, s: System, t: System, r: Runner, event: Event)
    requires Packaged(ms) && Inv(s, ms) && Step(ms, s, t, r, event)
    ensures Inv(t, ms) && s.db.bodies <= t.db.bodies
  {
    ManagedInspection(s.db, ms);
    BootstrapIsFirst(s.db, ms);
    var n, p := |s.db.bodies|, s.phases[r];
    assert RunnerSound(p, n, ms);
    if p.Applying? && p.next < |ms| {
      TransactionIsNext(s.db, ms, p.next);
      StaysSound(p, n, if p.next == n then n + 1 else n, ms);
    }
    if n >= 1 {
      FirstSound(ms, n);
    } else {
      FirstSound(ms, 1);
    }
    RunnersUnmoved(s, t, r, ms, event);
    hide Managed, Inspect, Applied, Bootstrapped, RunnersSound, Filenames;
    if event.LoseLock? {
      assert t.phases == s.phases;
    }
    RunnersStaySound(s, t, r, ms);
  }

  lemma RunnersUnmoved(s: System, t: System, r: Runner, ms: seq<Migration>, event: Event)
    requires Packaged(ms) && Step(ms, s, t, r, event)
    ensures r in t.phases && t.phases.Keys == s.phases.Keys && forall q :: q in t.phases && q != r ==> t.phases[q] == s.phases[q]
  {
    hide Inspect, Applied, Bootstrapped;
  }

  /** A database without any managed object, and runners that have not started. */
  predicate Fresh(s: System) {
    && s.db == Database([], None, false, false) && s.lock.None?
    && forall r :: r in s.phases ==> s.phases[r].Waiting?
  }

  /** In every state of every run the ledger and the schema are the same exact prefix, and they only grow. */
  lemma {:induction false} LedgerIsAlwaysExact(ms: seq<Migration>, states: seq<System>, runners: seq<Runner>, events: seq<Event>, i: nat)
    requires Packaged(ms) && IsRun(ms, states, runners, events) && Fresh(states[0]) && i < |states|
    ensures Inv(states[i], ms)
    ensures var db := states[i].db;
            var n := |db.bodies|;
            && n <= |ms| && (forall k :: 0 <= k < n ==> db.bodies[k] == ms[k].body)
            && (n == 0 <==> db.ledger.None?)
            && (n > 0 ==> |db.ledger.value| == n && forall k :: 0 <= k < n ==>
                  db.ledger.value[k] == Row(k + 1, ms[k].filename, ms[k].sha256))
    ensures i > 0 ==> states[i - 1].db.bodies <= states[i].db.bodies
  {
    if i > 0 {
      LedgerIsAlwaysExact(ms, states, runners, events, i - 1);
      StepKeepsInv(ms, states[i - 1], states[i], runners[i - 1], events[i - 1]);
    }
  }

  /** A run that reports success leaves the database with every migration, each executed once and in order. */
  lemma CompletedRunIsFull(ms: seq<Migration>, states: seq<System>, runners: seq<Runner>, events: seq<Event>, i: nat, r: Runner)
    requires Packaged(ms) && IsRun(ms, states, runners, events) && Fresh(states[0]) && i < |states|
    requires r in states[i].phases && states[i].phases[r].Done?
    ensures states[i].db.bodies == Bodies(ms) && states[i].db.ledger == Some(Rows(ms))
    ensures states[i].phases[r].result.current == ms[|ms| - 1].filename
  {
    LedgerIsAlwaysExact(ms, states, runners, events, i);
    assert ms[..|ms|] == ms;
  }

  /** On a full database no step commits anything, and a further run reports that it applied nothing. */
  lemma FurtherRunAppliesNothing(ms: seq<Migration>, s: System, t: System, r: Runner, event: Event)
    requires Packaged(ms) && Inv(s, ms) && |s.db.bodies| == |ms| && Step(ms, s, t, r, event)
    ensures t.db == s.db
    ensures event.Inspection? ==> t.phases[r] == Applying(|ms|, [])
    ensures event.Completion? && s.phases[r].applied == [] ==> t.phases[r] == Done(MigrationResult([], ms[|ms| - 1].filename))
  {
    ManagedInspection(s.db, ms);
    BootstrapIsFirst(s.db, ms);
    if s.phases[r].Applying? && s.phases[r].next < |ms| {
      TransactionIsNext(s.db, ms, s.phases[r].next);
    }
    hide Managed, Inspect;
  }

  /** A runner that has found nothing to do, or has not looked yet. */
  predicate Idles(p: Phase, ms: seq<Migration>)
    requires ms != []
  {
    match p
    case Applying(next, applied) => next == |ms| && applied == []
    case Done(result) => result == MigrationResult([], ms[|ms| - 1].filename)
    case Bootstrapping => false
    case _ => true
  }

  /** Once the database is full it stays as it is, and a runner that starts after that reports nothing applied. */
  lemma {:induction false} LaterRunsReportNothing(
      ms: seq<Migration>, states: seq<System>, runners: seq<Runner>, events: seq<Event>, i: nat, j: nat, r: Runner)
    requires Packaged(ms) && IsRun(ms, states, runners, events) && Fresh(states[0]) && i <= j < |states|
    requires |states[i].db.bodies| == |ms| && r in states[i].phases && states[i].phases[r].Waiting?
    ensures states[j].db == states[i].db && r in states[j].phases && Idles(states[j].phases[r], ms)
    decreases j - i
  {
    if i < j {
      LaterRunsReportNothing(ms, states, runners, events, i, j - 1, r);
      LedgerIsAlwaysExact(ms, states, runners, events, j - 1);
      var s, t := states[j - 1], states[j];
      FurtherRunAppliesNothing(ms, s, t, runners[j - 1], events[j - 1]);
      RunnersUnmoved(s, t, runners[j - 1], ms, events[j - 1]);
      IdlesOn(ms, s, t, r, runners[j - 1], events[j - 1]);
    }
  }

  lemma IdlesOn(ms: seq<Migration>, s: System, t: System, r: Runner, q: Runner, event: Event)
    requires Packaged(ms) && Inv(s, ms) && |s.db.bodies| == |ms| && Step(ms, s, t, q, event)
    requires r in s.phases && Idles(s.phases[r], ms)
    ensures r in t.phases && Idles(t.phases[r], ms)
  {
    ManagedInspection(s.db, ms);
    hide Inspect, Managed, Applied, Bootstrapped, RunnersSound;
  }

  /** Between the lock and the end of a run. */
  predicate Critical(p: Phase) {
    p.Reading? || p.Bootstrapping? || p.Applying?
  }

  /** While nobody loses the lock, the runners in the critical section are the one that holds it. */
  lemma {:induction false} LockExcludes(ms: seq<Migration>, states: seq<System>, runners: seq<Runner>, events: seq<Event>, i: nat, r: Runner)
    requires Packaged(ms) && IsRun(ms, states, runners, events) && Fresh(states[0]) && i < |states| && r in states[i].phases
    requires forall j :: 0 <= j < i ==> !events[j].LoseLock?
    ensures Critical(states[i].phases[r]) ==> states[i].lock == Some(r)
    ensures states[i].phases[r].Reading? || states[i].phases[r].Bootstrapping? || states[i].phases[r].Applying? ==> states[i].lock == Some(r)
  {
    if i > 0 {
      assert Step(ms, states[i - 1], states[i], runners[i - 1], events[i - 1]);
      assert r in states[i - 1].phases;
      LockExcludes(ms, states, runners, events, i - 1, r);
      LockExcludes(ms, states, runners, events, i - 1, runners[i - 1]);
      hide Inspect, Bootstrapped, Applied;
    }
  }
}
