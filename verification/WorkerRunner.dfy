/**
 One iteration of the worker, in the order of its side effects, over the store and a client of the
 gateway. Every call is a run of the protocol's steps, so the protocol's theorems hold of it.
 */
module WorkerRunner {
  import opened Wrappers
  import opened Timestamps
  import opened LocalTables
  import opened LocalReferenceStores
  import opened GatewayModels
  import opened GatewaySteps
  import opened GatewayRuns
  import opened WorkerProtocol
  import opened WorkerTheorems

  /** How far a request and its answer get. */
  datatype Reach = RequestLost | AnswerLost | AnswerArrives

  /** The gateway as the worker reaches it. */
  class GatewayClient {
    var repo: Repo

    constructor (repo: Repo)
      ensures this.repo == repo
    {
      this.repo := repo;
    }

    /** Acknowledged only when the gateway answers that the operation was updated. */
    method StartTask(site: Site, d: Dispatch, now: int, reach: Reach) returns (acknowledged: bool)
      modifies this
      ensures var (t, out) := Start(old(repo), d.operation, site.tenant, site.device, now);
              && repo == (if reach.RequestLost? then old(repo) else t)
              && acknowledged == (reach.AnswerArrives? && Answered(out))
    {
      if reach.RequestLost? {
        return false;
      }
      var (t, out) := Start(repo, d.operation, site.tenant, site.device, now);
      repo := t;
      return reach.AnswerArrives? && Answered(out);
    }

    method Complete(e: SignedResult, now: int, reach: Reach) returns (acknowledged: bool)
      modifies this
      ensures var (t, done) := Deliver(old(repo), now, e);
              && repo == (if reach.RequestLost? then old(repo) else t)
              && acknowledged == (reach.AnswerArrives? && done)
    {
      if reach.RequestLost? {
        return false;
      }
      var (t, done) := Deliver(repo, now, e);
      repo := t;
      return reach.AnswerArrives? && done;
    }
  }

  datatype RunOutcome = IdleRun | DeliveredPending | Completed

  datatype RunError = NotAuthorized | NotStarted | NotSaved | NotDelivered | NotAcknowledged

  /** What the outside does during one iteration: the poll, the execution, and the fate of the requests. */
  datatype Surroundings = Surroundings(
    polled: Option<Dispatch>, at: Moment, report: SignedResult, start: Reach, complete: Reach)

  /** A stretch of a run at one reading of the gateway's clock. */
  ghost predicate IsTrace(site: Site, trace: seq<World>, events: seq<Event>, now: int) {
    && |trace| == |events| + 1
    && forall i :: 0 <= i < |events| ==> Next(site, trace[i], trace[i + 1], now, events[i])
  }

  ghost function Last(trace: seq<World>): World
    requires trace != []
  {
    trace[|trace| - 1]
  }

  lemma Extend(site: Site, trace: seq<World>, events: seq<Event>, now: int, v: World, event: Event)
    requires IsTrace(site, trace, events, now) && Next(site, Last(trace), v, now, event)
    ensures IsTrace(site, trace + [v], events + [event], now) && Last(trace + [v]) == v && (trace + [v])[0] == trace[0]
  {
    hide Next;
  }

  /** The durable part of a world. */
  ghost predicate Shows(w: World, nonces: Nonces, outbox: Outbox<Report>, repo: Repo) {
    w.nonces == nonces && w.outbox == outbox && w.repo == repo
  }

  /** Offers a result to the gateway and removes it from the outbox when the gateway has taken it. */
  method DeliverResult(
      site: Site, store: LocalReferenceStore<Report>, client: GatewayClient, e: SignedResult, reach: Reach, now: int,
      ghost before: seq<World>, ghost past: seq<Event>)
    returns (error: Option<RunError>, ghost trace: seq<World>, ghost events: seq<Event>)
    requires store.Valid() && before != [] && IsTrace(site, before, past, now) && RepoInv(client.repo, now)
    requires Last(before).phase == Delivering(e) && Shows(Last(before), store.nonces, store.outbox, client.repo)
    modifies store`outbox, client
    ensures store.Valid() && trace != [] && IsTrace(site, trace, events, now) && trace[0] == before[0]
    ensures Last(trace).phase == Idle && Shows(Last(trace), store.nonces, store.outbox, client.repo)
    ensures Last(trace).executed == Last(before).executed
    ensures error.None? ==> Holds(client.repo, e) && e.Key() in old(store.outbox) && old(store.outbox)[e.Key()] == e
                            && store.outbox == old(store.outbox) - {e.Key()}
    ensures error.Some? ==> error.value in {NotDelivered, NotAcknowledged} && store.outbox == old(store.outbox)
  {
    hide IsTrace, RepoInv, Deliver, Holds;
    ghost var w := Last(before);
    trace, events := before, past;
    DeliverGood(client.repo, now, e);
    var acknowledged := client.Complete(e, now, reach);
    if !reach.RequestLost? {
      ghost var v := w.(repo := client.repo, phase := if Deliver(w.repo, now, e).1 then Delivered(e) else Idle);
      Extend(site, trace, events, now, v, CompleteOnGateway);
      trace, events := trace + [v], events + [CompleteOnGateway];
    }
    if !acknowledged {
      ghost var v := Last(trace).(phase := Idle);
      Extend(site, trace, events, now, v, Crash);
      return Some(NotDelivered), trace + [v], events + [Crash];
    }
    var problem := store.AcknowledgePendingResult(e);
    ghost var v := Last(trace).(outbox := store.outbox, phase := Idle);
    Extend(site, trace, events, now, v, AcknowledgeResult);
    error := if problem.Some? then Some(NotAcknowledged) else None;
    trace, events := trace + [v], events + [AcknowledgeResult];
  }

  /** Asks the gateway to start the operation; without its acknowledgement the iteration is over. */
  method StartDispatch(
      site: Site, store: LocalReferenceStore<Report>, client: GatewayClient, d: Dispatch, reach: Reach, now: int,
      ghost before: seq<World>, ghost past: seq<Event>)
    returns (acknowledged: bool, ghost trace: seq<World>, ghost events: seq<Event>)
    requires before != [] && IsTrace(site, before, past, now) && RepoInv(client.repo, now)
    requires Last(before).phase == Authorized(d) && Shows(Last(before), store.nonces, store.outbox, client.repo)
    modifies client
    ensures trace != [] && IsTrace(site, trace, events, now) && trace[0] == before[0] && RepoInv(client.repo, now)
    ensures Last(trace) == Last(before).(repo := client.repo, phase := if acknowledged then Started(d) else Idle)
  {
    hide IsTrace, RepoInv, Start, OperationsAdvance;
    ghost var w := Last(before);
    trace, events := before, past;
    StartKeepsInv(client.repo, now, now, d.operation, site.tenant, site.device);
    ghost var reply := Start(client.repo, d.operation, site.tenant, site.device, now);
    acknowledged := client.StartTask(site, d, now, reach);
    if !reach.RequestLost? {
      ghost var started := w.(repo := client.repo, phase := if Answered(reply.1) then Started(d) else Idle);
      Extend(site, trace, events, now, started, StartOnGateway);
      trace, events := trace + [started], events + [StartOnGateway];
    }
    if !acknowledged {
      ghost var v := Last(trace).(phase := Idle);
      Extend(site, trace, events, now, v, Crash);
      trace, events := trace + [v], events + [Crash];
    }
  }

  /** The authorized part of a dispatch: start, execute, save, deliver. */
  method ExecuteTask(
      site: Site, store: LocalReferenceStore<Report>, client: GatewayClient, s: Surroundings, d: Dispatch, now: int,
      ghost before: seq<World>, ghost past: seq<Event>)
    returns (error: Option<RunError>, ghost trace: seq<World>, ghost events: seq<Event>)
    requires store.Valid() && before != [] && IsTrace(site, before, past, now) && RepoInv(client.repo, now)
    requires Last(before).phase == Authorized(d) && Shows(Last(before), store.nonces, store.outbox, client.repo)
    requires Reports(site, d, s.report)
    modifies store`outbox, client
    ensures store.Valid() && trace != [] && IsTrace(site, trace, events, now) && trace[0] == before[0]
    ensures Last(trace).phase == Idle && Shows(Last(trace), store.nonces, store.outbox, client.repo)
    ensures error.None? ==>
      && Holds(client.repo, s.report) && store.outbox == old(store.outbox) - {s.report.Key()}
      && Last(trace).executed == Last(before).executed + [d]
    ensures error == Some(NotStarted) ==> Last(trace).executed == Last(before).executed && store.outbox == old(store.outbox)
    ensures error != Some(NotStarted) ==> Last(trace).executed == Last(before).executed + [d]
    ensures error.Some? ==> error.value != NotAuthorized
  {
    hide IsTrace, RepoInv, Deliver, Holds, Start;
    var acknowledged;
    acknowledged, trace, events := StartDispatch(site, store, client, d, s.start, now, before, past);
    if !acknowledged {
      return Some(NotStarted), trace, events;
    }
    trace, events := Executed(site, Last(trace), d, s.report, now, trace, events);
    var problem := store.SavePendingResult(s.report);
    ghost var saved := Last(trace).(outbox := store.outbox, phase := if problem.None? then Delivering(s.report) else Idle);
    Extend(site, trace, events, now, saved, SaveResult);
    trace, events := trace + [saved], events + [SaveResult];
    if problem.Some? {
      return Some(NotSaved), trace, events;
    }
    error, trace, events := DeliverResult(site, store, client, s.report, s.complete, now, trace, events);
  }

  lemma Executed(site: Site, w: World, d: Dispatch, e: SignedResult, now: int, before: seq<World>, past: seq<Event>)
    returns (trace: seq<World>, events: seq<Event>)
    requires before != [] && IsTrace(site, before, past, now) && Last(before) == w && w.phase == Started(d) && Reports(site, d, e)
    ensures trace != [] && IsTrace(site, trace, events, now) && trace[0] == before[0]
    ensures Last(trace) == w.(phase := Reporting(e), executed := w.executed + [d])
  {
    hide IsTrace;
    var running := w.(phase := Running(d), executed := w.executed + [d]);
    Extend(site, before, past, now, running, BeginExecution);
    trace, events := before + [running], past + [BeginExecution];
    var reporting := running.(phase := Reporting(e));
    Extend(site, trace, events, now, reporting, EndExecution(e));
    trace, events := trace + [reporting], events + [EndExecution(e)];
  }

  /** `run_once`: a pending result goes first; otherwise authorize, start, execute, save, deliver. */
  method RunOnce(
      site: Site, store: LocalReferenceStore<Report>, client: GatewayClient, s: Surroundings, now: int, ghost w: World)
    returns (outcome: Result<RunOutcome, RunError>, ghost trace: seq<World>, ghost events: seq<Event>)
    requires store.Valid() && RepoInv(client.repo, now)
    requires w.phase == Idle && Shows(w, store.nonces, store.outbox, client.repo)
    requires s.at.Valid() && w.lastPoll <= Instant(s.at)
    requires s.polled.Some? ==> s.polled.value.expires.Valid() && Reports(site, s.polled.value, s.report)
    modifies store, client
    ensures store.Valid() && trace != [] && IsTrace(site, trace, events, now) && trace[0] == w
    ensures Last(trace).phase == Idle && Shows(Last(trace), store.nonces, store.outbox, client.repo)
    ensures outcome == Ok(IdleRun) ==> Shows(w, store.nonces, store.outbox, client.repo)
    ensures outcome == Ok(DeliveredPending) ==>
      exists e :: IsFirst(w.outbox, site.tenant, site.device, e) && Delivery(w, store.nonces, store.outbox, client.repo, e, Last(trace))
    ensures outcome == Ok(Completed) ==>
      && s.polled.Some? && Holds(client.repo, s.report) && store.outbox == w.outbox - {s.report.Key()}
      && Last(trace).executed == w.executed + [s.polled.value]
    ensures outcome.Err? && outcome.error in {NotAuthorized, NotStarted} ==> Last(trace).executed == w.executed && store.outbox == w.outbox
  {
    hide IsTrace, RepoInv, Holds, Consume, Instant, IsFirst, Moment.Valid;
    SingleWorld(site, w, now);
    trace, events := [w], [];
    var pending := store.NextPendingResult(site.tenant, site.device);
    if pending.Some? {
      var e := pending.value;
      ghost var v := w.(phase := Delivering(e));
      Extend(site, trace, events, now, v, ReadOutbox(e));
      var error;
      error, trace, events := DeliverResult(site, store, client, e, s.complete, now, trace + [v], events + [ReadOutbox(e)]);
      assert error.None? ==> Delivery(w, store.nonces, store.outbox, client.repo, e, Last(trace));
      outcome := if error.Some? then Err(error.value) else Ok(DeliveredPending);
      return;
    }
    if s.polled.None? {
      return Ok(IdleRun), trace, events;
    }
    var d := s.polled.value;
    ghost var polled := w.(phase := Polled(d, s.at), lastPoll := Instant(s.at));
    Extend(site, trace, events, now, polled, Poll(d, s.at));
    trace, events := trace + [polled], events + [Poll(d, s.at)];
    var accepted := store.ConsumeDispatchNonce(site.tenant, site.device, d.nonce, s.at, d.expires);
    ghost var consumed := if accepted == Ok(true)
      then polled.(nonces := store.nonces, phase := Authorized(d), authorized := polled.authorized + [d])
      else polled.(nonces := store.nonces, phase := Idle);
    Extend(site, trace, events, now, consumed, ConsumeNonce);
    trace, events := trace + [consumed], events + [ConsumeNonce];
    if accepted != Ok(true) {
      return Err(NotAuthorized), trace, events;
    }
    var error;
    error, trace, events := ExecuteTask(site, store, client, s, d, now, trace, events);
    outcome := if error.Some? then Err(error.value) else Ok(Completed);
  }

  /** The pending result has gone to the gateway for good, and nothing else has happened. */
  ghost predicate Delivery(w: World, nonces: Nonces, outbox: Outbox<Report>, repo: Repo, e: SignedResult, last: World) {
    outbox == w.outbox - {e.Key()} && Holds(repo, e) && nonces == w.nonces && last.executed == w.executed
  }

  lemma SingleWorld(site: Site, w: World, now: int)
    ensures IsTrace(site, [w], [], now)
  {
  }
}
