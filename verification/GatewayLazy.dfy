/**
 Deadlines are materialised lazily: only some methods look at the clock, and only for some records.
 Seen through a refresh, this repository cannot be told from one whose deadlines fire on time.
 */
module GatewayLazy {
  import opened Wrappers
  import opened GatewayModels
  import opened GatewaySteps
  import opened GatewayRuns
  import opened GatewayRepository

  /* ------------------------------------------------------------ the eager repository */

  function DeadlineOf(r: OperationRecord): int {
    if r.state == LEASED && r.leaseExpiresAt.Some? then r.leaseExpiresAt.value else r.expiresAt
  }

  /** A deadline that has passed fired at its own time. */
  function Fired(r: OperationRecord, now: int): OperationRecord {
    if Due(r, now) then RefreshDue(r, DeadlineOf(r)) else r
  }

  function FireAll(s: Repo, now: int): Repo {
    s.(operations := map id | id in s.operations :: Fired(s.operations[id], now))
  }

  /** Every deadline up to `now` fires before the step. */
  ghost function EagerStep(s: Repo, now: int, a: Action): Repo {
    Step(FireAll(s, now), now, a)
  }

  ghost predicate IsEagerRun(states: seq<Repo>, times: seq<int>, actions: seq<Action>) {
    && |states| == |actions| + 1 && |times| == |actions|
    && (forall i :: 0 <= i < |actions| ==> states[i + 1] == EagerStep(states[i], times[i], actions[i]))
  }

  /* ------------------------------------------------------------ what a reader sees */

  /** Equal but for the completion time. */
  predicate Same(a: OperationRecord, b: OperationRecord) {
    a.(completedAt := None) == b.(completedAt := None)
  }

  ghost predicate SameOnRefresh(a: Operations, b: Operations, now: int) {
    a.Keys == b.Keys && forall id :: id in a ==> Same(RefreshDue(a[id], now), RefreshDue(b[id], now))
  }

  /** A reader that refreshes at time `now` sees the same operations, catalog and index. */
  ghost predicate LookAlike(s: Repo, t: Repo, now: int) {
    && s == t.(operations := s.operations)
    && SameOnRefresh(s.operations, t.operations, now)
  }

  /* ------------------------------------------------------------ facts about one record */

  lemma RefreshTwice(r: OperationRecord, now: int, later: int)
    requires now <= later
    ensures Same(RefreshDue(RefreshDue(r, now), later), RefreshDue(r, later))
  {
  }

  lemma SameRefresh(a: OperationRecord, b: OperationRecord, now: int)
    requires Same(a, b)
    ensures Same(RefreshDue(a, now), RefreshDue(b, now)) && (Due(a, now) <==> Due(b, now))
  {
  }

  lemma FiredSound(r: OperationRecord, clock: int, now: int)
    requires SoundRecord(r, clock) && clock <= now
    ensures SoundRecord(Fired(r, now), now) && Advances(r, Fired(r, now)) && !Due(Fired(r, now), now)
    ensures Same(Fired(r, now), RefreshDue(r, now))
    ensures Fired(r, now).state.Active() ==> Fired(r, now) == r
  {
  }

  /** Before completion there is no completion time, so looking alike is being equal. */
  lemma SameOpen(a: OperationRecord, b: OperationRecord)
    requires Same(a, b) && a.ValidShape() && b.ValidShape() && !a.state.Terminal()
    ensures a == b
  {
  }

  /** A record that a lazy reader would not refresh looks like the eager one already. */
  lemma LazyNotDue(x: OperationRecord, f: OperationRecord, now: int)
    requires Same(RefreshDue(x, now), RefreshDue(f, now)) && !Due(f, now)
    ensures !Due(x, now) ==> Same(x, f)
    ensures Due(x, now) ==> f.state.Terminal()
  {
  }

  /* ------------------------------------------------------------ time passes */

  lemma LookAlikeLater(s: Repo, t: Repo, now: int, later: int)
    requires LookAlike(s, t, now) && now <= later
    ensures LookAlike(s, t, later)
  {
    forall id | id in s.operations
      ensures Same(RefreshDue(s.operations[id], later), RefreshDue(t.operations[id], later))
    {
      var a, b := s.operations[id], t.operations[id];
      SameRefresh(RefreshDue(a, now), RefreshDue(b, now), later);
      RefreshTwice(a, now, later);
      RefreshTwice(b, now, later);
    }
  }

  lemma FireAllKeepsInv(s: Repo, clock: int, now: int)
    requires RepoInv(s, clock) && clock <= now
    ensures RepoInv(FireAll(s, now), now)
    ensures forall id :: id in s.operations ==> !Due(FireAll(s, now).operations[id], now)
  {
    var ops := FireAll(s, now).operations;
    hide RefreshDue, Due, SoundRecord, OperationRecord.ValidShape, IndexBijective, CatalogSound;
    forall id | id in s.operations
      ensures Advances(s.operations[id], ops[id]) && SoundRecord(ops[id], now) && ops[id].id == id && !Due(ops[id], now)
      ensures ops[id].state.Active() ==> s.operations[id].state.Active()
    {
      FiredSound(s.operations[id], clock, now);
    }
    NoNewActive(s.operations, ops);
    AdvanceKeepsIndex(s, ops);
    CatalogApart(s, FireAll(s, now));
  }

  lemma FiredUnseen(r: OperationRecord, clock: int, now: int)
    requires SoundRecord(r, clock) && clock <= now
    ensures Same(RefreshDue(r, now), RefreshDue(Fired(r, now), now))
  {
    FiredSound(r, clock, now);
    SameRefresh(Fired(r, now), RefreshDue(r, now), now);
    RefreshTwice(r, now, now);
    hide SoundRecord, RefreshDue, Fired;
  }

  lemma FiringUnseen(s: Repo, t: Repo, clock: int, now: int)
    requires LookAlike(s, t, now) && RepoInv(t, clock) && clock <= now
    ensures LookAlike(s, FireAll(t, now), now)
  {
    hide RefreshDue, Fired, RepoInv, SoundRecord;
    forall id | id in t.operations
      ensures Same(RefreshDue(s.operations[id], now), RefreshDue(Fired(t.operations[id], now), now))
    {
      SoundAt(t, clock, id);
      FiredUnseen(t.operations[id], clock, now);
    }
  }

  lemma SoundAt(t: Repo, clock: int, id: Id)
    requires RepoInv(t, clock) && id in t.operations
    ensures SoundRecord(t.operations[id], clock)
  {
  }

  /* ------------------------------------------------------------ each action */

  /** The lazy state `s` and the eager state `t` before a step: nothing is due in `t`. */
  ghost predicate Paired(s: Repo, t: Repo, now: int) {
    && RepoInv(s, now) && RepoInv(t, now) && LookAlike(s, t, now)
    && forall id :: id in t.operations ==> !Due(t.operations[id], now)
  }

  lemma PairedAt(s: Repo, t: Repo, now: int, id: Id)
    requires Paired(s, t, now) && id in s.operations
    ensures id in t.operations && !Due(t.operations[id], now)
    ensures Same(RefreshDue(s.operations[id], now), RefreshDue(t.operations[id], now))
    ensures SoundRecord(s.operations[id], now) && SoundRecord(t.operations[id], now)
    ensures s.operations[id].id == id == t.operations[id].id
    ensures !Due(s.operations[id], now) ==> Same(s.operations[id], t.operations[id])
    ensures !Due(s.operations[id], now) && !s.operations[id].state.Terminal() ==> s.operations[id] == t.operations[id]
    ensures Due(s.operations[id], now) ==> t.operations[id].state.Terminal()
    ensures BelongsTo(s.operations[id], t.operations[id].tenant, t.operations[id].workstation) && s.operations[id].owner == t.operations[id].owner
  {
    LazyNotDue(s.operations[id], t.operations[id], now);
    if !Due(s.operations[id], now) && !s.operations[id].state.Terminal() {
      SameOpen(s.operations[id], t.operations[id]);
    }
  }

  /** Putting look-alike records under one id keeps the repositories look-alike. */
  lemma PutBoth(s: Repo, t: Repo, now: int, r: OperationRecord, q: OperationRecord)
    requires LookAlike(s, t, now) && r.id == q.id && Same(RefreshDue(r, now), RefreshDue(q, now))
    ensures LookAlike(Put(s, r), Put(t, q), now)
  {
    hide RefreshDue;
  }

  /** A record that the lazy side brings up to date was up to date on the eager side. */
  lemma PutRefreshed(s: Repo, t: Repo, now: int, id: Id)
    requires Paired(s, t, now) && id in s.operations
    ensures LookAlike(Put(s, RefreshDue(s.operations[id], now)), t, now)
  {
    PairedAt(s, t, now, id);
    var r := s.operations[id];
    RefreshTwice(r, now, now);
    assert Same(RefreshDue(RefreshDue(r, now), now), RefreshDue(t.operations[id], now));
    assert Put(t, t.operations[id]) == t;
    assert RefreshDue(r, now).id == id;
    PutBoth(s, t, now, RefreshDue(r, now), t.operations[id]);
  }

  lemma RefreshAlike(s: Repo, t: Repo, now: int, id: Id)
    requires Paired(s, t, now)
    ensures LookAlike(Refresh(s, id, now), Refresh(t, id, now), now)
  {
    hide Paired, LookAlike, OperationRecord.ValidShape, Due, RefreshDue;
    PairedLookAlike(s, t, now);
    PairedKeys(s, t, now);
    if id in s.operations {
      PairedAt(s, t, now, id);
      PutRefreshed(s, t, now, id);
      NotDueStays(t.operations[id], now);
      assert Refresh(t, id, now).operations == t.operations;
      assert RefreshDue(s.operations[id], now).id == id by { RefreshKeepsId(s.operations[id], now); }
    }
  }

  lemma RefreshKeepsId(r: OperationRecord, now: int)
    ensures RefreshDue(r, now).id == r.id
  {
  }

  lemma NotDueStays(r: OperationRecord, now: int)
    requires !Due(r, now)
    ensures RefreshDue(r, now) == r
  {
  }

  lemma PairedLookAlike(s: Repo, t: Repo, now: int)
    requires Paired(s, t, now)
    ensures LookAlike(s, t, now)
  {
  }

  function Started(r: OperationRecord, now: int): OperationRecord {
    r.(state := RUNNING, leaseExpiresAt := None, startedAt := Some(now))
  }

  /** Starting in terms of one record. */
  lemma StartIs(s: Repo, id: Id, tenant: Id, workstation: Id, now: int)
    requires id in s.operations && s.operations[id].id == id && s.operations[id].ValidShape()
    ensures var r := s.operations[id];
            Start(s, id, tenant, workstation, now).0 ==
              if !BelongsTo(r, tenant, workstation) || r.state != LEASED then s
              else if Due(r, now) then Put(s, RefreshDue(r, now))
              else if Started(r, now).ValidShape() then Put(s, Started(r, now)) else s
  {
  }

  lemma StartAlike(s: Repo, t: Repo, now: int, id: Id, tenant: Id, workstation: Id)
    requires Paired(s, t, now)
    ensures LookAlike(Start(s, id, tenant, workstation, now).0, Start(t, id, tenant, workstation, now).0, now)
  {
    hide Paired, LookAlike, RefreshDue, Due, OperationRecord.ValidShape, Put;
    PairedLookAlike(s, t, now);
    PairedKeys(s, t, now);
    if id in s.operations {
      PairedAt(s, t, now, id);
      StartIs(s, id, tenant, workstation, now);
      StartIs(t, id, tenant, workstation, now);
      hide Start;
      PutRefreshed(s, t, now, id);
      PutBoth(s, t, now, Started(s.operations[id], now), Started(s.operations[id], now));
    }
  }

  lemma PairedKeys(s: Repo, t: Repo, now: int)
    requires Paired(s, t, now)
    ensures s.operations.Keys == t.operations.Keys
  {
  }

  /** Finishing in terms of one record. */
  lemma FinishIs(s: Repo, id: Id, tenant: Id, workstation: Id, now: int, f: Finish)
    requires id in s.operations && s.operations[id].id == id
    ensures var r := s.operations[id];
            FinishOperation(s, id, tenant, workstation, now, f).0 ==
              if !(f.state == SUCCEEDED || f.state == FAILED || f.state == ATTENTION_REQUIRED) || !BelongsTo(r, tenant, workstation) then s
              else if Due(r, now) then Put(s, RefreshDue(r, now))
              else if r.state == RUNNING && Finished(r, now, f).ValidShape() then Put(s, Finished(r, now, f)) else s
  {
    hide OperationRecord.ValidShape;
  }

  lemma FinishAlike(s: Repo, t: Repo, now: int, id: Id, tenant: Id, workstation: Id, f: Finish)
    requires Paired(s, t, now)
    ensures LookAlike(
        FinishOperation(s, id, tenant, workstation, now, f).0, FinishOperation(t, id, tenant, workstation, now, f).0, now)
  {
    hide Paired, LookAlike, RefreshDue, Due, OperationRecord.ValidShape, Put;
    PairedLookAlike(s, t, now);
    PairedKeys(s, t, now);
    if id in s.operations {
      PairedAt(s, t, now, id);
      FinishIs(s, id, tenant, workstation, now, f);
      FinishIs(t, id, tenant, workstation, now, f);
      hide FinishOperation;
      PutRefreshed(s, t, now, id);
      PutBoth(s, t, now, Finished(s.operations[id], now, f), Finished(s.operations[id], now, f));
    }
  }

  function CommittedOf(s: Repo, r: OperationRecord, now: int, result: TaskResult, ps: seq<ProjectRecord>, ds: seq<DrawingRecord>): Repo {
    if Completion(r, now, result).ValidShape() then Put(WithRows(s, ps, ds), Completion(r, now, result)) else WithRows(s, ps, ds)
  }

  /** Applying a success in terms of one record. */
  lemma ApplyIs(s: Repo, id: Id, tenant: Id, workstation: Id, now: int, result: TaskResult, ps: seq<ProjectRecord>, ds: seq<DrawingRecord>)
    requires id in s.operations && s.operations[id].id == id
    ensures var r := s.operations[id];
            ApplySuccess(s, id, tenant, workstation, now, result, ps, ds).0 ==
              if !BelongsTo(r, tenant, workstation) then s
              else if Due(r, now) then Put(s, RefreshDue(r, now))
              else if r.state == RUNNING && CatalogError(s, r, result, ps, ds).None? then CommittedOf(s, r, now, result, ps, ds) else s
  {
    hide OperationRecord.ValidShape, CatalogError, WithProjects, WithDrawings;
  }

  lemma ApplyAlike(s: Repo, t: Repo, now: int, id: Id, tenant: Id, workstation: Id, result: TaskResult, ps: seq<ProjectRecord>, ds: seq<DrawingRecord>)
    requires Paired(s, t, now)
    ensures LookAlike(
        ApplySuccess(s, id, tenant, workstation, now, result, ps, ds).0,
        ApplySuccess(t, id, tenant, workstation, now, result, ps, ds).0, now)
  {
    hide Paired, LookAlike, RefreshDue, Due, OperationRecord.ValidShape, Put, CatalogError, WithRows;
    PairedLookAlike(s, t, now);
    PairedKeys(s, t, now);
    if id in s.operations {
      PairedAt(s, t, now, id);
      ApplyIs(s, id, tenant, workstation, now, result, ps, ds);
      ApplyIs(t, id, tenant, workstation, now, result, ps, ds);
      hide ApplySuccess;
      PutRefreshed(s, t, now, id);
      ErrorIgnoresOperations(s, t, now, s.operations[id], result, ps, ds);
      RowsAlike(s, t, now, ps, ds);
      var done := Completion(s.operations[id], now, result);
      PutBoth(WithRows(s, ps, ds), WithRows(t, ps, ds), now, done, done);
    }
  }

  lemma RowsAlike(s: Repo, t: Repo, now: int, ps: seq<ProjectRecord>, ds: seq<DrawingRecord>)
    requires LookAlike(s, t, now)
    ensures LookAlike(WithRows(s, ps, ds), WithRows(t, ps, ds), now)
  {
  }

  lemma ErrorIgnoresOperations(s: Repo, t: Repo, now: int, r: OperationRecord, result: TaskResult, ps: seq<ProjectRecord>, ds: seq<DrawingRecord>)
    requires LookAlike(s, t, now)
    ensures CatalogError(s, r, result, ps, ds) == CatalogError(t, r, result, ps, ds)
  {
    assert forall p :: ProjectCommittable(s, r, p) == ProjectCommittable(t, r, p);
    var sv, tv := s.(projects := WithProjects(s.projects, ps)), t.(projects := WithProjects(t.projects, ps));
    assert forall d :: DrawingCommittable(sv, r, d) == DrawingCommittable(tv, r, d);
  }

  lemma CreateAlike(s: Repo, t: Repo, now: int, r: OperationRecord)
    requires LookAlike(s, t, now) && r.id !in s.operations
    ensures LookAlike(CreateOrGet(s, r), CreateOrGet(t, r), now)
  {
    hide RefreshDue;
  }

  /* ------------------------------------------------------------ leasing */

  /** What a pair of passes over one workstation leaves. */
  ghost predicate PassesAgree(s: Repo, t: Repo, so: Operations, to: Operations, now: int, tenant: Id, workstation: Id) {
    && to == t.operations && so.Keys == to.Keys
    && LookAlike(s.(operations := so), t, now)
    && (forall id :: id in so ==> so[id].id == id && to[id].id == id)
    && (forall id :: id in so && BelongsTo(so[id], tenant, workstation) && !so[id].state.Terminal() ==> so[id] == to[id])
    && (forall id :: id in to && BelongsTo(to[id], tenant, workstation) && !to[id].state.Terminal() ==> so[id] == to[id])
  }

  lemma RefreshedForAlike(s: Repo, t: Repo, now: int, tenant: Id, workstation: Id)
    requires Paired(s, t, now)
    ensures PassesAgree(
        s, t, RefreshedFor(s.operations, tenant, workstation, now), RefreshedFor(t.operations, tenant, workstation, now), now, tenant, workstation)
  {
    hide Paired, RefreshDue, RefreshedFor;
    PairedLookAlike(s, t, now);
    RefreshKeepsParty(s.operations, tenant, workstation, now);
    RefreshKeepsParty(t.operations, tenant, workstation, now);
    var so, to := RefreshedFor(s.operations, tenant, workstation, now), RefreshedFor(t.operations, tenant, workstation, now);
    forall id | id in so
      ensures to[id] == t.operations[id] && Same(RefreshDue(so[id], now), RefreshDue(to[id], now)) && so[id].id == id == to[id].id
      ensures BelongsTo(so[id], tenant, workstation) && !so[id].state.Terminal() ==> so[id] == to[id]
      ensures BelongsTo(to[id], tenant, workstation) && !to[id].state.Terminal() ==> so[id] == to[id]
    {
      RefreshedForAlikeAt(s, t, now, tenant, workstation, id);
    }
  }

  lemma RefreshedForAlikeAt(s: Repo, t: Repo, now: int, tenant: Id, workstation: Id, id: Id)
    requires Paired(s, t, now) && id in s.operations
    ensures id in t.operations
    ensures var so, to := RefreshedFor(s.operations, tenant, workstation, now)[id], RefreshedFor(t.operations, tenant, workstation, now)[id];
            && to == t.operations[id] && Same(RefreshDue(so, now), RefreshDue(to, now)) && so.id == id == to.id
            && (BelongsTo(so, tenant, workstation) <==> BelongsTo(to, tenant, workstation))
            && (BelongsTo(so, tenant, workstation) && !so.state.Terminal() ==> so == to)
            && (BelongsTo(to, tenant, workstation) && !to.state.Terminal() ==> so == to)
  {
    hide Paired, OperationRecord.ValidShape, SoundRecord;
    PairedAt(s, t, now, id);
    PairedKeys(s, t, now);
    RefreshTwice(s.operations[id], now, now);
  }

  lemma LeaseAlike(s: Repo, t: Repo, now: int, tenant: Id, workstation: Id, owner: Id, until: int)
    requires Paired(s, t, now)
    ensures LookAlike(
        LeaseNext(s, tenant, workstation, owner, now, until).0, LeaseNext(t, tenant, workstation, owner, now, until).0, now)
  {
    hide Paired, RefreshedFor, RefreshDue, LookAlike, Busy, SomeNext, Put, OperationRecord.ValidShape;
    var so, to := RefreshedFor(s.operations, tenant, workstation, now), RefreshedFor(t.operations, tenant, workstation, now);
    RefreshedForAlike(s, t, now, tenant, workstation);
    SameChoice(so, to, tenant, workstation, owner);
    assert t.(operations := to) == t;
    if !Busy(so, tenant, workstation) && SomeNext(so, tenant, workstation, owner) {
      var id := NextId(so, tenant, workstation, owner);
      var r := so[id];
      PutBoth(s.(operations := so), t, now, Expire(r, now), Expire(r, now));
      PutBoth(s.(operations := so), t, now, LeaseTo(r, until), LeaseTo(r, until));
    }
  }

  /** Workstations are free together and get the same operation next. */
  lemma SameChoice(so: Operations, to: Operations, tenant: Id, workstation: Id, owner: Id)
    requires so.Keys == to.Keys && forall id :: id in so ==> so[id].id == id && to[id].id == id
    requires forall id :: id in so && BelongsTo(so[id], tenant, workstation) && !so[id].state.Terminal() ==> so[id] == to[id]
    requires forall id :: id in to && BelongsTo(to[id], tenant, workstation) && !to[id].state.Terminal() ==> so[id] == to[id]
    ensures Busy(so, tenant, workstation) <==> Busy(to, tenant, workstation)
    ensures SomeNext(so, tenant, workstation, owner) <==> SomeNext(to, tenant, workstation, owner)
    ensures SomeNext(so, tenant, workstation, owner) ==>
      && NextId(so, tenant, workstation, owner) == NextId(to, tenant, workstation, owner)
      && so[NextId(so, tenant, workstation, owner)] == to[NextId(so, tenant, workstation, owner)]
  {
    assert forall id :: IsNext(so, tenant, workstation, owner, id) <==> IsNext(to, tenant, workstation, owner, id);
    if SomeNext(so, tenant, workstation, owner) {
      NextIsUnique(so, tenant, workstation, owner, NextId(so, tenant, workstation, owner), NextId(to, tenant, workstation, owner));
    }
  }

  /* ------------------------------------------------------------ the refinement */

  lemma CatalogActionAlike(s: Repo, t: Repo, now: int, a: Action)
    requires LookAlike(s, t, now)
    requires a.PutWorkstation? || a.PutProject? || a.PutDrawing? || a.SwitchOnline?
    ensures LookAlike(Step(s, now, a), Step(t, now, a), now)
  {
    hide SameOnRefresh;
  }

  lemma StepAlike(s: Repo, t: Repo, now: int, a: Action)
    requires Paired(s, t, now) && Permitted(s, now, a)
    ensures LookAlike(Step(s, now, a), Step(t, now, a), now)
  {
    hide Paired, LookAlike, CreateOrGet, Refresh, LeaseNext, Start, FinishOperation, ApplySuccess, OperationRecord.ValidShape;
    PairedLookAlike(s, t, now);
    PairedKeys(s, t, now);
    match a
    case Create(r) => CreateAlike(s, t, now, r);
    case RefreshOne(id) => RefreshAlike(s, t, now, id);
    case Lease(tenant, workstation, owner, until) => LeaseAlike(s, t, now, tenant, workstation, owner, until);
    case StartOne(id, tenant, workstation) => StartAlike(s, t, now, id, tenant, workstation);
    case FinishOne(id, tenant, workstation, f) => FinishAlike(s, t, now, id, tenant, workstation, f);
    case ApplyOne(id, tenant, workstation, result, ps, ds) => ApplyAlike(s, t, now, id, tenant, workstation, result, ps, ds);
    case _ => CatalogActionAlike(s, t, now, a);
  }

  /**
   The refinement: after the same actions at the same times, a reader that refreshes at any later
   time sees the same in the lazy repository and in the eager one.
   */
  lemma {:induction false} LazyRefinesEager(lazy: seq<Repo>, eager: seq<Repo>, times: seq<int>, actions: seq<Action>, i: nat)
    requires IsRun(lazy, times, actions) && IsEagerRun(eager, times, actions)
    requires lazy[0] == EmptyRepo && eager[0] == EmptyRepo && i < |lazy|
    ensures forall now :: (i > 0 ==> times[i - 1] <= now) ==> LookAlike(lazy[i], eager[i], now) && RepoInv(eager[i], now)
  {
    hide LookAlike, RepoInv, Step;
    if i == 0 {
      forall now: int ensures LookAlike(lazy[0], eager[0], now) && RepoInv(eager[0], now) {
        EmptyIsSound(now);
        EmptyAlike();
      }
    } else {
      var now := times[i - 1];
      LazyRefinesEager(lazy, eager, times, actions, i - 1);
      RunKeepsInv(lazy, times, actions, i - 1);
      assert i - 1 > 0 ==> times[i - 2] <= now;
      var s, t, a := lazy[i - 1], eager[i - 1], actions[i - 1];
      assert LookAlike(s, t, now) && RepoInv(t, now) && RepoInv(s, now);
      EagerTurn(s, t, now, a);
      forall later | now <= later ensures LookAlike(lazy[i], eager[i], later) && RepoInv(eager[i], later) {
        LookAlikeLater(lazy[i], eager[i], now, later);
        ClockMayPass(eager[i], now, later);
      }
    }
  }

  lemma EmptyAlike()
    ensures forall now: int :: LookAlike(EmptyRepo, EmptyRepo, now)
  {
  }

  lemma EagerTurn(s: Repo, t: Repo, now: int, a: Action)
    requires RepoInv(s, now) && RepoInv(t, now) && LookAlike(s, t, now) && Permitted(s, now, a)
    ensures LookAlike(Step(s, now, a), EagerStep(t, now, a), now) && RepoInv(EagerStep(t, now, a), now)
  {
    hide RepoInv, LookAlike, Step, Permitted;
    var fired := FireAll(t, now);
    FireAllKeepsInv(t, now, now);
    FiringUnseen(s, t, now, now);
    SamePermission(s, fired, now, a);
    StepAlike(s, fired, now, a);
    StepKeepsInv(fired, now, now, a);
  }

  lemma SamePermission(s: Repo, t: Repo, now: int, a: Action)
    requires LookAlike(s, t, now) && Permitted(s, now, a)
    ensures Permitted(t, now, a)
  {
  }
}
