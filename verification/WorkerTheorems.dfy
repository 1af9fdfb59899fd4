/** What every run of worker and gateway keeps, whatever crashes and whoever else calls. */
module WorkerTheorems {
  import opened Wrappers
  import opened Timestamps
  import opened LocalTables
  import opened GatewayModels
  import opened GatewaySteps
  import opened GatewayRuns
  import opened WorkerProtocol

  /* ------------------------------------------------------------ deliveries */

  lemma FailGood(s: Repo, now: int, id: Id, tenant: Id, workstation: Id, code: string, attention: bool)
    requires RepoInv(s, now)
    ensures var (t, done) := Fail(s, id, tenant, workstation, now, code, attention);
            RepoInv(t, now) && OperationsAdvance(s.operations, t.operations)
            && (done ==> id in t.operations && BelongsTo(t.operations[id], tenant, workstation) && RecordsFailure(t.operations[id], code, attention))
  {
    hide RepoInv, OperationsAdvance, FinishOperation, SafeError, OperationRecord.ValidShape;
    ClockMayPass(s, now, now);
    if id in s.operations {
      var f := Finish(FailureState(attention), None, Some(SafeError(s.operations[id].task, code, attention)));
      FinishKeepsInv(s, now, now, id, tenant, workstation, f);
      FinishAnswer(s, now, id, tenant, workstation, f);
    }
  }

  lemma FinishAnswer(s: Repo, now: int, id: Id, tenant: Id, workstation: Id, f: Finish)
    requires RepoInv(s, now) && id in s.operations
    ensures var (t, out) := FinishOperation(s, id, tenant, workstation, now, f);
            Answered(out) ==>
              && id in t.operations && t.operations[id] == Finished(s.operations[id], now, f)
              && BelongsTo(t.operations[id], tenant, workstation)
  {
    assert s.operations[id].id == id;
    FinishAnswerFor(s, now, id, tenant, workstation, f);
  }

  lemma FinishAnswerFor(s: Repo, now: int, id: Id, tenant: Id, workstation: Id, f: Finish)
    requires id in s.operations && s.operations[id].id == id
    ensures var (t, out) := FinishOperation(s, id, tenant, workstation, now, f);
            Answered(out) ==>
              && id in t.operations && t.operations[id] == Finished(s.operations[id], now, f)
              && BelongsTo(t.operations[id], tenant, workstation)
  {
    hide OperationRecord.ValidShape;
  }

  lemma FailTwiceGood(s: Repo, now: int, id: Id, tenant: Id, workstation: Id, code: string, attention: bool)
    requires RepoInv(s, now)
    ensures var (t, done) := FailTwice(s, id, tenant, workstation, now, code, attention);
            RepoInv(t, now) && OperationsAdvance(s.operations, t.operations)
            && (done ==> id in t.operations && BelongsTo(t.operations[id], tenant, workstation) && RecordsFailure(t.operations[id], code, attention))
  {
    hide RepoInv, OperationsAdvance, Fail, RecordsFailure;
    var t := Fail(s, id, tenant, workstation, now, code, attention).0;
    FailGood(s, now, id, tenant, workstation, code, attention);
    FailGood(t, now, id, tenant, workstation, code, attention);
    AdvanceTwice(s.operations, t.operations, Fail(t, id, tenant, workstation, now, code, attention).0.operations);
  }

  lemma ApplyAnswer(s: Repo, now: int, id: Id, tenant: Id, workstation: Id, result: TaskResult, ps: seq<ProjectRecord>, ds: seq<DrawingRecord>)
    requires RepoInv(s, now) && id in s.operations
    ensures var (t, out) := ApplySuccess(s, id, tenant, workstation, now, result, ps, ds);
            Answered(out) ==>
              && id in t.operations && BelongsTo(t.operations[id], tenant, workstation)
              && t.operations[id].state == SUCCEEDED && t.operations[id].result == Some(result)
  {
    assert s.operations[id].id == id;
    ApplyAnswerFor(s, now, id, tenant, workstation, result, ps, ds);
  }

  lemma ApplyAnswerFor(s: Repo, now: int, id: Id, tenant: Id, workstation: Id, result: TaskResult, ps: seq<ProjectRecord>, ds: seq<DrawingRecord>)
    requires id in s.operations && s.operations[id].id == id
    ensures var (t, out) := ApplySuccess(s, id, tenant, workstation, now, result, ps, ds);
            Answered(out) ==>
              && id in t.operations && BelongsTo(t.operations[id], tenant, workstation)
              && t.operations[id].state == SUCCEEDED && t.operations[id].result == Some(result)
  {
    hide OperationRecord.ValidShape, CatalogError, WithProjects, WithDrawings;
  }

  /** A delivery is a good gateway step, and one that is accepted leaves exactly its payload on record. */
  lemma DeliverGood(s: Repo, now: int, e: SignedResult)
    requires RepoInv(s, now)
    ensures var (t, done) := Deliver(s, now, e);
            RepoInv(t, now) && OperationsAdvance(s.operations, t.operations) && (done ==> Holds(t, e))
  {
    hide RepoInv, OperationsAdvance, ApplySuccess, FailTwice, GoodStep;
    ClockMayPass(s, now, now);
    if e.operation in s.operations {
      match e.payload
      case Finding(result, ps, ds) =>
        ApplyKeepsInv(s, now, now, e.operation, e.tenant, e.device, result, ps, ds);
        GoodStepMeans(s, ApplySuccess(s, e.operation, e.tenant, e.device, now, result, ps, ds).0, now);
        ApplyAnswer(s, now, e.operation, e.tenant, e.device, result, ps, ds);
      case Trouble(code, attention) =>
        FailTwiceGood(s, now, e.operation, e.tenant, e.device, code, attention);
    }
  }

  lemma GoodStepMeans(s: Repo, t: Repo, now: int)
    requires GoodStep(s, t, now)
    ensures RepoInv(t, now) && OperationsAdvance(s.operations, t.operations)
  {
  }

  /** Delivering again what the gateway already holds is accepted and changes nothing. */
  lemma RedeliveryIsIdle(s: Repo, now: int, e: SignedResult)
    requires Holds(s, e)
    ensures Deliver(s, now, e) == (s, true)
  {
  }

  /** What the gateway holds it holds for good. */
  lemma HoldsForGood(s: Repo, t: Repo, e: SignedResult)
    requires Holds(s, e) && OperationsAdvance(s.operations, t.operations)
    ensures Holds(t, e)
  {
    assert Advances(s.operations[e.operation], t.operations[e.operation]);
  }

  /* ------------------------------------------------------------ the invariant */

  predicate HasStarted(s: Repo, id: Id) {
    id in s.operations && Rank(s.operations[id].state) >= 2
  }

  predicate InHand(p: Phase) {
    p.Started? || p.Running?
  }

  /** The outbox as the phase implies it. */
  ghost predicate OutboxFits(site: Site, w: World) {
    match w.phase
    case Idle => w.outbox == map[] || exists e :: Mine(e, site.tenant, site.device) && w.outbox == map[e.Key() := e]
    case Delivering(e) => Mine(e, site.tenant, site.device) && w.outbox == map[e.Key() := e]
    case Delivered(e) => Mine(e, site.tenant, site.device) && w.outbox == map[e.Key() := e]
    case Reporting(e) => Mine(e, site.tenant, site.device) && w.outbox == map[]
    case _ => w.outbox == map[]
  }

  /** Executed operations have started on the gateway, each was executed once, and the next one is new. */
  ghost predicate ExecutionSound(w: World) {
    && (forall i :: 0 <= i < |w.executed| ==> HasStarted(w.repo, w.executed[i].operation))
    && (forall i, j :: 0 <= i < j < |w.executed| ==> w.executed[i].operation != w.executed[j].operation)
    && (w.phase.Started? ==>
          && HasStarted(w.repo, w.phase.d.operation)
          && forall i :: 0 <= i < |w.executed| ==> w.executed[i].operation != w.phase.d.operation)
    && (w.phase.Delivered? ==> Holds(w.repo, w.phase.e))
  }

  /** The nonce row of an authorized dispatch is there until its deadline has passed. */
  ghost predicate NoncesSound(site: Site, w: World) {
    && (forall i :: 0 <= i < |w.authorized| ==>
          && w.authorized[i].expires.Valid()
          && (w.lastPoll < Instant(w.authorized[i].expires) ==>
                var key := NonceKey(site.tenant, site.device, w.authorized[i].nonce);
                key in w.nonces && w.nonces[key] == Iso(w.authorized[i].expires)))
    && (forall i, j :: 0 <= i < j < |w.authorized| ==>
          !(w.authorized[i].nonce == w.authorized[j].nonce && w.authorized[i].expires == w.authorized[j].expires))
    && (w.phase.Polled? ==> w.phase.at.Valid() && w.phase.d.expires.Valid() && w.lastPoll == Instant(w.phase.at))
    && (forall d :: d in w.executed ==> d in w.authorized)
    && (w.phase.Authorized? || w.phase.Started? ==> w.phase.d in w.authorized)
  }

  ghost predicate WorldInv(site: Site, w: World, now: int) {
    RepoInv(w.repo, now) && OutboxFits(site, w) && ExecutionSound(w) && NoncesSound(site, w)
  }

  /* ------------------------------------------------------------ each step */

  /** The gateway moved on; the worker's phase is as before. */
  lemma RepoMoves(w: World, repo: Repo)
    requires ExecutionSound(w) && OperationsAdvance(w.repo.operations, repo.operations)
    ensures ExecutionSound(w.(repo := repo))
  {
    forall id | HasStarted(w.repo, id) ensures HasStarted(repo, id) {
      assert Advances(w.repo.operations[id], repo.operations[id]);
    }
    if w.phase.Delivered? {
      HoldsForGood(w.repo, repo, w.phase.e);
    }
    hide OperationsAdvance, Holds, HasStarted;
  }

  /** A row whose deadline lies ahead survives every call, and a call that is accepted did not find its own row. */
  lemma ConsumeKeeps(rows: Nonces, key: NonceKey, now: Moment, expires: Moment, k: NonceKey, deadline: Moment)
    requires now.Valid() && expires.Valid() && deadline.Valid()
    requires k in rows && rows[k] == Iso(deadline) && Instant(now) < Instant(deadline)
    ensures var (after, answer) := Consume(rows, key, now, expires);
            k in after && after[k] == Iso(deadline) && (answer == Ok(true) ==> k != key)
  {
    TextOrderIsTimeOrder(now, deadline);
    hide Iso, Less, Instant;
  }

  lemma ConsumeAccepts(rows: Nonces, key: NonceKey, now: Moment, expires: Moment)
    requires now.Valid() && expires.Valid() && Consume(rows, key, now, expires).1 == Ok(true)
    ensures key in Consume(rows, key, now, expires).0 && Consume(rows, key, now, expires).0[key] == Iso(expires)
    ensures Instant(now) < Instant(expires)
  {
    hide Iso, Less, Instant;
  }

  lemma NonceStep(site: Site, w: World, v: World, now: int)
    requires NoncesSound(site, w) && Next(site, w, v, now, ConsumeNonce)
    ensures NoncesSound(site, v)
  {
    hide Consume, Iso, Instant, Moment.Valid;
    var d, at := w.phase.d, w.phase.at;
    var key := NonceKey(site.tenant, site.device, d.nonce);
    var (after, answer) := Consume(w.nonces, key, at, d.expires);
    forall i | 0 <= i < |w.authorized| && Instant(at) < Instant(w.authorized[i].expires)
      ensures var k := NonceKey(site.tenant, site.device, w.authorized[i].nonce);
              k in after && after[k] == Iso(w.authorized[i].expires) && (answer == Ok(true) ==> k != key)
    {
      ConsumeKeeps(w.nonces, key, at, d.expires, NonceKey(site.tenant, site.device, w.authorized[i].nonce), w.authorized[i].expires);
    }
    if answer == Ok(true) {
      ConsumeAccepts(w.nonces, key, at, d.expires);
    }
  }

  lemma StartStep(site: Site, w: World, v: World, now: int)
    requires WorldInv(site, w, now) && Next(site, w, v, now, StartOnGateway)
    ensures RepoInv(v.repo, now) && OperationsAdvance(w.repo.operations, v.repo.operations) && ExecutionSound(v)
  {
    hide RepoInv, OperationsAdvance, Start, NoncesSound, OutboxFits, ExecutionSound, HasStarted;
    var d := w.phase.d;
    StartKeepsInv(w.repo, now, now, d.operation, site.tenant, site.device);
    StartAnswer(w.repo, now, d.operation, site.tenant, site.device);
    RepoMoves(w, v.repo);
    StartedSound(w, v);
  }

  lemma StartedSound(w: World, v: World)
    requires ExecutionSound(w) && ExecutionSound(w.(repo := v.repo)) && w.phase.Authorized? && v == w.(repo := v.repo, phase := v.phase)
    requires v.phase == Idle
             || (v.phase == Started(w.phase.d) && !HasStarted(w.repo, w.phase.d.operation) && HasStarted(v.repo, w.phase.d.operation))
    ensures ExecutionSound(v)
  {
    hide HasStarted, Holds;
  }

  lemma StartAnswer(s: Repo, now: int, id: Id, tenant: Id, workstation: Id)
    requires RepoInv(s, now)
    ensures var (t, out) := Start(s, id, tenant, workstation, now);
            Answered(out) ==> !HasStarted(s, id) && HasStarted(t, id)
  {
    hide OperationRecord.ValidShape;
  }

  lemma OutboxStep(site: Site, w: World, v: World, now: int, event: Event)
    requires OutboxFits(site, w) && Next(site, w, v, now, event)
    ensures OutboxFits(site, v)
  {
    hide Step, Permitted, Start, Consume, Deliver, Instant, Moment.Valid, Iso, NotLater;
    match event
    case ReadOutbox(e) =>
      assert e.Key() in w.outbox && w.outbox[e.Key()] == e;
    case Poll(d, at) =>
      assert forall e: SignedResult :: w.outbox == map[e.Key() := e] ==> e.Key() in w.outbox;
    case AcknowledgeResult =>
      assert v.outbox == map[];
    case SaveResult =>
      assert !Collides(w.outbox, w.phase.e);
    case Crash =>
      if w.phase.Delivering? || w.phase.Delivered? {
        assert w.outbox == map[w.phase.e.Key() := w.phase.e];
      }
    case CompleteOnGateway =>
      assert w.outbox == map[w.phase.e.Key() := w.phase.e];
    case _ =>
  }

  /** Steps of the worker alone, which do not touch the gateway. */
  lemma LocalStep(site: Site, w: World, v: World, now: int, event: Event)
    requires NoncesSound(site, w) && ExecutionSound(w) && Next(site, w, v, now, event)
    requires !event.Gateway? && !event.StartOnGateway? && !event.CompleteOnGateway? && !event.ConsumeNonce?
    ensures v.repo == w.repo && ExecutionSound(v) && NoncesSound(site, v)
  {
    hide Holds, HasStarted, Instant, Iso;
  }

  lemma SameNonces(site: Site, w: World, v: World)
    requires NoncesSound(site, w)
    requires v.nonces == w.nonces && v.authorized == w.authorized && v.executed == w.executed && v.lastPoll == w.lastPoll
    requires v.phase == w.phase || (v.phase.Started? && w.phase.Authorized? && v.phase.d == w.phase.d)
             || v.phase.Idle? || v.phase.Delivered?
    ensures NoncesSound(site, v)
  {
  }

  lemma StepKeepsWorld(site: Site, w: World, v: World, now: int, event: Event)
    requires WorldInv(site, w, now) && Next(site, w, v, now, event)
    ensures WorldInv(site, v, now) && OperationsAdvance(w.repo.operations, v.repo.operations)
  {
    hide RepoInv, OperationsAdvance, ExecutionSound, NoncesSound, OutboxFits, Permitted, Step, Start, Deliver, Consume, Saved, Acknowledged;
    OutboxStep(site, w, v, now, event);
    ClockMayPass(w.repo, now, now);
    match event
    case Gateway(a) =>
      StepKeepsInv(w.repo, now, now, a);
      RepoMoves(w, v.repo);
      SameNonces(site, w, v);
    case StartOnGateway =>
      StartStep(site, w, v, now);
      SameNonces(site, w, v);
    case CompleteOnGateway =>
      DeliverGood(w.repo, now, w.phase.e);
      RepoMoves(w, v.repo);
      CompletedSound(w, v);
      SameNonces(site, w, v);
    case ConsumeNonce =>
      NonceStep(site, w, v, now);
      ConsumedSound(site, w, v, now);
    case _ => LocalStep(site, w, v, now, event);
  }

  lemma CompletedSound(w: World, v: World)
    requires ExecutionSound(w.(repo := v.repo)) && w.phase.Delivering? && v == w.(repo := v.repo, phase := v.phase)
    requires v.phase == Idle || (v.phase == Delivered(w.phase.e) && Holds(v.repo, w.phase.e))
    ensures ExecutionSound(v)
  {
  }

  lemma ConsumedSound(site: Site, w: World, v: World, now: int)
    requires ExecutionSound(w) && Next(site, w, v, now, ConsumeNonce)
    ensures ExecutionSound(v) && v.repo == w.repo
  {
    hide Consume, Holds, HasStarted;
  }

  lemma ClockMayPassWorld(site: Site, w: World, clock: int, now: int)
    requires WorldInv(site, w, clock) && clock <= now
    ensures WorldInv(site, w, now)
  {
    ClockMayPass(w.repo, clock, now);
    hide RepoInv, OutboxFits, ExecutionSound, NoncesSound;
  }

  lemma {:induction false} WorkerRunKeepsInv(site: Site, worlds: seq<World>, times: seq<int>, events: seq<Event>, i: nat)
    requires IsWorkerRun(site, worlds, times, events) && i < |worlds|
    ensures forall now :: (i > 0 ==> times[i - 1] <= now) ==> WorldInv(site, worlds[i], now)
  {
    if i == 0 {
      forall now: int ensures WorldInv(site, InitialWorld, now) {
        EmptyIsSound(now);
        hide RepoInv;
      }
    } else {
      hide WorldInv, Next;
      var now := times[i - 1];
      WorkerRunKeepsInv(site, worlds, times, events, i - 1);
      assert i - 1 > 0 ==> times[i - 2] <= now;
      StepKeepsWorld(site, worlds[i - 1], worlds[i], now, events[i - 1]);
      forall later | now <= later ensures WorldInv(site, worlds[i], later) {
        ClockMayPassWorld(site, worlds[i], now, later);
      }
    }
  }

  /** Some clock makes the invariant hold, so everything in it that is not about time holds. */
  lemma InvSomewhere(site: Site, worlds: seq<World>, times: seq<int>, events: seq<Event>, i: nat)
    requires IsWorkerRun(site, worlds, times, events) && i < |worlds|
    ensures exists now :: WorldInv(site, worlds[i], now)
  {
    WorkerRunKeepsInv(site, worlds, times, events, i);
    assert WorldInv(site, worlds[i], if i > 0 then times[i - 1] else 0);
  }

  lemma {:induction false} WorkerRunAdvances(site: Site, worlds: seq<World>, times: seq<int>, events: seq<Event>, i: nat, j: nat)
    requires IsWorkerRun(site, worlds, times, events) && i <= j < |worlds|
    ensures OperationsAdvance(worlds[i].repo.operations, worlds[j].repo.operations)
    decreases j - i
  {
    if i < j {
      hide WorldInv, Next, OperationsAdvance;
      WorkerRunAdvances(site, worlds, times, events, i, j - 1);
      WorkerRunKeepsInv(site, worlds, times, events, j - 1);
      assert j - 1 > 0 ==> times[j - 2] <= times[j - 1];
      StepKeepsWorld(site, worlds[j - 1], worlds[j], times[j - 1], events[j - 1]);
      AdvanceTwice(worlds[i].repo.operations, worlds[j - 1].repo.operations, worlds[j].repo.operations);
    } else {
      WorkerRunKeepsInv(site, worlds, times, events, i);
      SelfAdvance(worlds[i].repo.operations);
    }
  }

  lemma SelfAdvance(ops: Operations)
    ensures OperationsAdvance(ops, ops)
  {
  }

  /* ------------------------------------------------------------ the theorems */

  /** Whatever crashes and however often a dispatch is offered again, no operation is executed twice. */
  lemma ExecutedAtMostOnce(site: Site, worlds: seq<World>, times: seq<int>, events: seq<Event>, n: nat, i: nat, j: nat)
    requires IsWorkerRun(site, worlds, times, events) && n < |worlds|
    requires i < |worlds[n].executed| && j < |worlds[n].executed|
    requires worlds[n].executed[i].operation == worlds[n].executed[j].operation
    ensures i == j
  {
    InvSomewhere(site, worlds, times, events, n);
    hide Next, RepoInv;
  }

  /** Even without the gateway's help: no dispatch gets past authorization twice, and only authorized ones are executed. */
  lemma AuthorizedAtMostOnce(site: Site, worlds: seq<World>, times: seq<int>, events: seq<Event>, n: nat, i: nat, j: nat)
    requires IsWorkerRun(site, worlds, times, events) && n < |worlds|
    requires i < |worlds[n].authorized| && j < |worlds[n].authorized|
    requires worlds[n].authorized[i].nonce == worlds[n].authorized[j].nonce && worlds[n].authorized[i].expires == worlds[n].authorized[j].expires
    ensures i == j
    ensures forall d :: d in worlds[n].executed ==> d in worlds[n].authorized
  {
    InvSomewhere(site, worlds, times, events, n);
    hide Next, RepoInv, OutboxFits, ExecutionSound;
  }

  /** The outbox never holds more than one result. */
  lemma OutboxHoldsAtMostOne(site: Site, worlds: seq<World>, times: seq<int>, events: seq<Event>, n: nat)
    requires IsWorkerRun(site, worlds, times, events) && n < |worlds|
    ensures |worlds[n].outbox| <= 1
  {
    InvSomewhere(site, worlds, times, events, n);
    hide Next, RepoInv, NoncesSound, ExecutionSound;
    if worlds[n].phase.Idle? && worlds[n].outbox != map[] {
      var e :| Mine(e, site.tenant, site.device) && worlds[n].outbox == map[e.Key() := e];
    }
  }

  /**
   A saved result stays in the outbox until the gateway holds exactly that payload. From then on the
   gateway holds it for good, and delivering it again changes nothing.
   */
  lemma ResultsAreNotLost(site: Site, worlds: seq<World>, times: seq<int>, events: seq<Event>, i: nat, j: nat, k: OutboxKey)
    requires IsWorkerRun(site, worlds, times, events) && i <= j < |worlds|
    requires k in worlds[i].outbox
    ensures (k in worlds[j].outbox && worlds[j].outbox[k] == worlds[i].outbox[k]) || Holds(worlds[j].repo, worlds[i].outbox[k])
    ensures k !in worlds[j].outbox ==> forall now :: Deliver(worlds[j].repo, now, worlds[i].outbox[k]) == (worlds[j].repo, true)
    decreases j - i
  {
    if i < j {
      hide Next, Holds, Deliver, OperationsAdvance, RepoInv, NoncesSound, OutboxFits, ExecutionSound;
      var e := worlds[i].outbox[k];
      ResultsAreNotLost(site, worlds, times, events, i, j - 1, k);
      InvSomewhere(site, worlds, times, events, j - 1);
      WorkerRunAdvances(site, worlds, times, events, j - 1, j);
      if Holds(worlds[j - 1].repo, e) {
        HoldsForGood(worlds[j - 1].repo, worlds[j].repo, e);
      } else {
        OutboxKeeps(site, worlds[j - 1], worlds[j], times[j - 1], events[j - 1], k);
      }
      if Holds(worlds[j].repo, e) {
        forall now ensures Deliver(worlds[j].repo, now, e) == (worlds[j].repo, true) {
          RedeliveryIsIdle(worlds[j].repo, now, e);
        }
      }
    }
  }

  lemma OutboxKeeps(site: Site, w: World, v: World, now: int, event: Event, k: OutboxKey)
    requires OutboxFits(site, w) && ExecutionSound(w) && Next(site, w, v, now, event) && k in w.outbox && !Holds(w.repo, w.outbox[k])
    ensures k in v.outbox && v.outbox[k] == w.outbox[k]
  {
    hide Step, Permitted, Start, Consume, Deliver, Instant, Holds;
  }
}
