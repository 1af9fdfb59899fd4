/** What one call that reports a worker's success commits, and what a repeated report changes. */
module GatewayCommit {
  import opened Wrappers
  import opened GatewayModels
  import opened GatewaySteps
  import opened GatewayRuns

  /** The call finds its operation running in time and accepts the rows. */
  predicate Commits(
      s: Repo, id: Id, tenant: Id, workstation: Id, now: int,
      result: TaskResult, ps: seq<ProjectRecord>, ds: seq<DrawingRecord>)
  {
    id in s.operations && BelongsTo(s.operations[id], tenant, workstation) && !Due(s.operations[id], now) && Accepts(s, id, result, ps, ds)
  }

  lemma {:induction false} DistinctProjects(ps: seq<ProjectRecord>, i: nat, j: nat)
    requires AllDistinct(ProjectIds(ps, false)) && i < |ps| && j < |ps| && ps[i].id == ps[j].id
    ensures i == j
  {
    ProjectIdsAt(ps, i);
    ProjectIdsAt(ps, j);
  }

  lemma {:induction false} ProjectIdsAt(ps: seq<ProjectRecord>, i: nat)
    requires i < |ps|
    ensures |ProjectIds(ps, false)| == |ps| && ProjectIds(ps, false)[i] == ps[i].id
  {
    if |ps| > 1 {
      ProjectIdsAt(ps[1..], if i > 0 then i - 1 else 0);
    }
  }

  lemma {:induction false} DrawingIdsAt(ds: seq<DrawingRecord>, i: nat)
    requires i < |ds|
    ensures |DrawingIds(ds)| == |ds| && DrawingIds(ds)[i] == ds[i].id
  {
    if |ds| > 1 {
      DrawingIdsAt(ds[1..], if i > 0 then i - 1 else 0);
    }
  }

  /** The rows of an accepted payload have distinct ids. */
  lemma AcceptedRowsDistinct(r: OperationRecord, result: TaskResult, ps: seq<ProjectRecord>, ds: seq<DrawingRecord>)
    requires PayloadMatches(r, result, ps, ds)
    ensures forall p, q :: p in ps && q in ps && p.id == q.id ==> p == q
    ensures forall d, e :: d in ds && e in ds && d.id == e.id ==> d == e
  {
    forall p, q | p in ps && q in ps && p.id == q.id ensures p == q {
      var i :| 0 <= i < |ps| && ps[i] == p;
      var j :| 0 <= j < |ps| && ps[j] == q;
      DistinctProjects(ps, i, j);
    }
    forall d, e | d in ds && e in ds && d.id == e.id ensures d == e {
      var i :| 0 <= i < |ds| && ds[i] == d;
      var j :| 0 <= j < |ds| && ds[j] == e;
      DrawingIdsAt(ds, i);
      DrawingIdsAt(ds, j);
    }
  }

  /** Every row is stored as reported and every other row stays. */
  ghost predicate RowsStored(s: Repo, t: Repo, ps: seq<ProjectRecord>, ds: seq<DrawingRecord>) {
    && t.workstations == s.workstations
    && (forall p :: p in ps ==> p.id in t.projects && t.projects[p.id] == p)
    && (forall id :: (forall p :: p in ps ==> p.id != id) ==> (id in t.projects <==> id in s.projects) && (id in s.projects ==> t.projects[id] == s.projects[id]))
    && (forall d :: d in ds ==> d.id in t.drawings && t.drawings[d.id] == d)
    && (forall id :: (forall d :: d in ds ==> d.id != id) ==> (id in t.drawings <==> id in s.drawings) && (id in s.drawings ==> t.drawings[id] == s.drawings[id]))
  }

  lemma RowsAreStored(s: Repo, t: Repo, r: OperationRecord, result: TaskResult, ps: seq<ProjectRecord>, ds: seq<DrawingRecord>)
    requires PayloadMatches(r, result, ps, ds) && t == WithRows(s, ps, ds).(operations := t.operations)
    ensures RowsStored(s, t, ps, ds)
  {
    AcceptedRowsDistinct(r, result, ps, ds);
    hide PayloadMatches;
    StoredProjects(s, ps);
    StoredDrawings(s, ds);
  }

  lemma StoredProjects(s: Repo, ps: seq<ProjectRecord>)
    requires forall p, q :: p in ps && q in ps && p.id == q.id ==> p == q
    ensures forall p :: p in ps ==> p.id in WithProjects(s.projects, ps) && WithProjects(s.projects, ps)[p.id] == p
    ensures forall id :: (forall p :: p in ps ==> p.id != id) ==>
      (id in WithProjects(s.projects, ps) <==> id in s.projects) && (id in s.projects ==> WithProjects(s.projects, ps)[id] == s.projects[id])
  {
    ProjectRows(s.projects, ps);
    LastProjectWins(s.projects, ps);
  }

  lemma {:induction false} LastProjectWins(base: map<Id, ProjectRecord>, ps: seq<ProjectRecord>)
    requires forall p, q :: p in ps && q in ps && p.id == q.id ==> p == q
    ensures forall p :: p in ps ==> p.id in WithProjects(base, ps) && WithProjects(base, ps)[p.id] == p
  {
    if ps != [] {
      LastProjectWins(base, ps[..|ps| - 1]);
      assert ps == ps[..|ps| - 1] + [ps[|ps| - 1]];
    }
  }

  lemma StoredDrawings(s: Repo, ds: seq<DrawingRecord>)
    requires forall d, e :: d in ds && e in ds && d.id == e.id ==> d == e
    ensures forall d :: d in ds ==> d.id in WithDrawings(s.drawings, ds) && WithDrawings(s.drawings, ds)[d.id] == d
    ensures forall id :: (forall d :: d in ds ==> d.id != id) ==>
      (id in WithDrawings(s.drawings, ds) <==> id in s.drawings) && (id in s.drawings ==> WithDrawings(s.drawings, ds)[id] == s.drawings[id])
  {
    DrawingRows(s.drawings, ds);
    LastDrawingWins(s.drawings, ds);
  }

  lemma {:induction false} LastDrawingWins(base: map<Id, DrawingRecord>, ds: seq<DrawingRecord>)
    requires forall d, e :: d in ds && e in ds && d.id == e.id ==> d == e
    ensures forall d :: d in ds ==> d.id in WithDrawings(base, ds) && WithDrawings(base, ds)[d.id] == d
  {
    if ds != [] {
      LastDrawingWins(base, ds[..|ds| - 1]);
      assert ds == ds[..|ds| - 1] + [ds[|ds| - 1]];
    }
  }

  /** A call that does not commit leaves the whole catalog alone; one that raises leaves everything alone. */
  lemma OtherwiseNothing(
      s: Repo, id: Id, tenant: Id, workstation: Id, now: int,
      result: TaskResult, ps: seq<ProjectRecord>, ds: seq<DrawingRecord>)
    requires !Commits(s, id, tenant, workstation, now, result, ps, ds) && (id in s.operations ==> s.operations[id].id == id)
    ensures var (t, out) := ApplySuccess(s, id, tenant, workstation, now, result, ps, ds);
            && t == s.(operations := t.operations)
            && (out.Raised? ==> t == s)
            && (id in s.operations && id in t.operations && t.operations[id].state == SUCCEEDED ==> s.operations[id].state == SUCCEEDED)
  {
    hide CatalogError, WithProjects, WithDrawings, OperationRecord.ValidShape;
  }

  /**
   Catalog rows and the completed operation are committed together or not at all: exactly the calls
   of `Commits` store all rows and the success, every other call leaves the catalog alone, and a
   call that raises changes nothing.
   */
  lemma CommitIsAtomic(
      s: Repo, clock: int, now: int, id: Id, tenant: Id, workstation: Id,
      result: TaskResult, ps: seq<ProjectRecord>, ds: seq<DrawingRecord>)
    requires RepoInv(s, clock) && clock <= now
    ensures var (t, out) := ApplySuccess(s, id, tenant, workstation, now, result, ps, ds);
            && (out.Raised? ==> t == s)
            && (Commits(s, id, tenant, workstation, now, result, ps, ds) ==>
                  && RowsStored(s, t, ps, ds) && out.Transition? && out.status == Updated
                  && t.operations == s.operations[id := Completion(s.operations[id], now, result)])
            && (!Commits(s, id, tenant, workstation, now, result, ps, ds) ==> t == s.(operations := t.operations))
  {
    hide CatalogError, RowsStored, IndexBijective, CatalogSound, OneActive, WithProjects, WithDrawings, ApplySuccess, RefreshDue, Due, PayloadMatches;
    if Commits(s, id, tenant, workstation, now, result, ps, ds) {
      CommitNeedsForwardClock(s, now, id, tenant, workstation, result, ps, ds);
      CommandAccepted(s, s.operations[id], result, ps, ds);
      RowsAreStored(s, Put(WithRows(s, ps, ds), Completion(s.operations[id], now, result)), s.operations[id], result, ps, ds);
    } else {
      OtherwiseNothing(s, id, tenant, workstation, now, result, ps, ds);
    }
  }

  /** Without the clock assumption: an accepted success is fully committed exactly when the clock has not gone back behind its start. */
  lemma CommitNeedsForwardClock(
      s: Repo, now: int, id: Id, tenant: Id, workstation: Id,
      result: TaskResult, ps: seq<ProjectRecord>, ds: seq<DrawingRecord>)
    requires Commits(s, id, tenant, workstation, now, result, ps, ds) && s.operations[id].ValidShape() && s.operations[id].id == id
    ensures s.operations[id].startedAt.Some?
    ensures var (t, out) := ApplySuccess(s, id, tenant, workstation, now, result, ps, ds);
            var done := Completion(s.operations[id], now, result);
            var inTime := s.operations[id].startedAt.value <= now;
            && (inTime ==> t == Put(WithRows(s, ps, ds), done) && out == Transition(Updated, Some(done)))
            && (!inTime ==> t == WithRows(s, ps, ds) && out == Raised(ShapeError))
  {
    hide CatalogError, WithProjects, WithDrawings;
    assert Accepts(s, id, result, ps, ds);
    CommandAccepted(s, s.operations[id], result, ps, ds);
    assert Completion(s.operations[id], now, result).ValidShape() <==> s.operations[id].startedAt.value <= now;
  }

  lemma CommandAccepted(s: Repo, r: OperationRecord, result: TaskResult, ps: seq<ProjectRecord>, ds: seq<DrawingRecord>)
    requires CatalogError(s, r, result, ps, ds).None?
    ensures result.Command() == r.task.Command() && PayloadMatches(r, result, ps, ds)
  {
  }

  /** Once a success was accepted, reporting it again at any later time is accepted and changes nothing. */
  lemma RedeliveryChangesNothing(
      s: Repo, now: int, id: Id, tenant: Id, workstation: Id, result: TaskResult,
      ps: seq<ProjectRecord>, ds: seq<DrawingRecord>,
      later: Repo, moment: int, ps': seq<ProjectRecord>, ds': seq<DrawingRecord>)
    requires SoundOperations(s.operations, now)
    requires ApplySuccess(s, id, tenant, workstation, now, result, ps, ds).1.Transition?
    requires ApplySuccess(s, id, tenant, workstation, now, result, ps, ds).1.status == Updated
    requires OperationsAdvance(ApplySuccess(s, id, tenant, workstation, now, result, ps, ds).0.operations, later.operations)
    ensures id in later.operations && later.operations[id].state == SUCCEEDED && later.operations[id].result == Some(result)
    ensures ApplySuccess(later, id, tenant, workstation, moment, result, ps', ds') == (later, Transition(Updated, Some(later.operations[id])))
  {
    hide CatalogError, WithProjects, WithDrawings, OperationRecord.ValidShape;
    var t := ApplySuccess(s, id, tenant, workstation, now, result, ps, ds).0;
    assert id in t.operations && t.operations[id].state == SUCCEEDED && t.operations[id].result == Some(result)
           && BelongsTo(t.operations[id], tenant, workstation);
    assert Advances(t.operations[id], later.operations[id]);
  }

  /** In particular in every later state of a run. */
  lemma RunRedeliveryChangesNothing(
      states: seq<Repo>, times: seq<int>, actions: seq<Action>, i: nat, j: nat,
      moment: int, ps': seq<ProjectRecord>, ds': seq<DrawingRecord>)
    requires IsRun(states, times, actions) && states[0] == EmptyRepo && i < j < |states| && actions[i].ApplyOne?
    requires var a := actions[i];
             var out := ApplySuccess(states[i], a.id, a.tenant, a.workstation, times[i], a.result, a.projects, a.drawings).1;
             out.Transition? && out.status == Updated
    ensures var a := actions[i];
            ApplySuccess(states[j], a.id, a.tenant, a.workstation, moment, a.result, ps', ds').0 == states[j]
  {
    hide RepoInv, ApplySuccess, OperationsAdvance, OwnersKept;
    var a := actions[i];
    RunKeepsInv(states, times, actions, i);
    RunAdvances(states, times, actions, i + 1, j);
    InvSound(states[i], times[i]);
    assert states[i + 1] == Step(states[i], times[i], a);
    RedeliveryChangesNothing(states[i], times[i], a.id, a.tenant, a.workstation, a.result, a.projects, a.drawings, states[j], moment, ps', ds');
  }

  lemma InvSound(s: Repo, clock: int)
    requires RepoInv(s, clock)
    ensures SoundOperations(s.operations, clock)
  {
  }

  /* ------------------------------------------------------------ a clock that goes back */

  const STATION: WorkstationRecord := WorkstationRecord(1, 7, 8, "desk", true, true)

  const LISTING: OperationRecord := OperationRecord(
    2, 7, 8, 9, 1, 5, "list", ListProjects(1), CREATED, 0, 100, None, None, None, None, None)

  const FOUND: ProjectRecord := ProjectRecord(3, 7, 8, 1, "tower", true)

  /** The workstation has one operation, as created, leased, started or finished. */
  function Holding(r: OperationRecord): Repo {
    Repo(map[1 := STATION], map[], map[], map[2 := r], map[IdempotencyIndex(7, 8, 9, 5) := 2])
  }

  function Leased(): OperationRecord {
    LISTING.(state := LEASED, leaseExpiresAt := Some(50))
  }

  function Running(): OperationRecord {
    LISTING.(state := RUNNING, startedAt := Some(20))
  }

  /** A project listing is created, leased at 10 and started at 20. */
  function StartingRun(): (seq<Repo>, seq<int>, seq<Action>) {
    ([EmptyRepo, Repo(map[1 := STATION], map[], map[], map[], map[]), Holding(LISTING), Holding(Leased()), Holding(Running())],
     [0, 0, 10, 20],
     [PutWorkstation(STATION), Create(LISTING), Lease(7, 1, 8, 50), StartOne(2, 7, 1)])
  }

  lemma LeasesListing()
    ensures LeaseNext(Holding(LISTING), 7, 1, 8, 10, 50) == (Holding(Leased()), Ok(Some(Leased())))
  {
    var ops := Holding(LISTING).operations;
    assert RefreshedFor(ops, 7, 1, 10) == ops;
    assert IsNext(ops, 7, 1, 8, 2);
    assert NextId(ops, 7, 1, 8) == 2;
    assert Holding(LISTING).(operations := ops) == Holding(LISTING);
    assert ops[2 := Leased()] == Holding(Leased()).operations;
  }

  lemma StartingRunIs()
    ensures var (states, times, actions) := StartingRun(); IsRun(states, times, actions)
  {
    LeasesListing();
    hide LeaseNext;
    assert EmptyRepo.workstations[1 := STATION] == map[1 := STATION];
    assert map[][2 := LISTING] == Holding(LISTING).operations;
    assert Holding(Leased()).operations[2 := Running()] == Holding(Running()).operations;
  }

  /**
   In the state that this run reaches, a success reported when the clock has gone back to 15 stores the
   project row and raises, and the operation goes on running.
   */
  lemma ClockBackExample()
    ensures var (states, times, actions) := StartingRun();
            && IsRun(states, times, actions) && states[4] == Holding(Running())
            && Commits(states[4], 2, 7, 1, 15, ProjectsResult([3]), [FOUND], [])
            && var (t, out) := ApplySuccess(states[4], 2, 7, 1, 15, ProjectsResult([3]), [FOUND], []);
               out == Raised(ShapeError) && t.projects == map[3 := FOUND] && t.operations == map[2 := Running()]
  {
    StartingRunIs();
    var s := Holding(Running());
    RowCommittable(s);
    CommitNeedsForwardClock(s, 15, 2, 7, 1, ProjectsResult([3]), [FOUND], []);
  }

  lemma RowCommittable(s: Repo)
    requires s == Holding(Running())
    ensures CatalogError(s, Running(), ProjectsResult([3]), [FOUND], []) == None
    ensures WithProjects(s.projects, [FOUND]) == map[3 := FOUND]
  {
    assert [FOUND][..0] == [] && [FOUND][1..] == [];
    assert ProjectIds([FOUND], false) == [3] && ProjectIds([FOUND], true) == [3];
  }
}
