/**
 Runs of the apply branch of src/cadplot_mcp/remote_translation.py: any number of executions
 interleave, and each may crash between any two durable steps. The journal row is committed
 before the drawing editor is called and the receipt is committed after it.
 */
module WriteOnce {
  import opened Wrappers
  import opened TranslationPlan
  import opened TranslationStore

  type Key = (Scope, PlanId)

  /** An execution between its durable steps. */
  datatype InFlight = Applying(key: Key) | Applied(key: Key, receipt: Receipt)

  datatype Event = Called(key: Key) | Returned(key: Key, receipt: Receipt) | Failed(key: Key, error: StoreError)

  datatype State = State(plans: Plans, writes: Writes, running: map<nat, InFlight>, log: seq<Event>)

  datatype Action =
    | StorePlan(scope: Scope, plan: Plan, review: ReviewId)
    | Begin(pid: nat, scope: Scope, request: ApplyRequest)
    | Call(pid: nat, answer: Option<Receipt>)
    | Record(pid: nat, committed: bool)
    | Crash(pid: nat)

  const Initial: State := State(map[], map[], map[], [])

  predicate Enabled(s: State, a: Action) {
    match a
    case StorePlan(_, _, _) => true
    case Begin(pid, _, _) => pid !in s.running
    case Call(pid, _) => pid in s.running && s.running[pid].Applying?
    case Record(pid, _) => pid in s.running && s.running[pid].Applied?
    case Crash(pid) => pid in s.running
  }

  function Drop(running: map<nat, InFlight>, pid: nat): map<nat, InFlight> {
    running - {pid}
  }

  function Step(s: State, a: Action): State
    requires Enabled(s, a)
  {
    match a
    case StorePlan(scope, plan, review) =>
      if (scope, plan.id) in s.plans then s
      else s.(plans := s.plans[(scope, plan.id) := StoredPlan(plan, review)])
    case Begin(pid, scope, request) =>
      var key := (scope, request.plan);
      (match BeginWrite(s.plans, s.writes, scope, request)
       case Refused(e) => s.(log := s.log + [Failed(key, e)])
       case Cached(receipt) => s.(log := s.log + [Returned(key, receipt)])
       case Granted => s.(writes := s.writes[key := None], running := s.running[pid := Applying(key)]))
    case Call(pid, answer) =>
      var key := s.running[pid].key;
      (match answer
       case Some(receipt) => s.(running := s.running[pid := Applied(key, receipt)], log := s.log + [Called(key)])
       case None => s.(running := Drop(s.running, pid), log := s.log + [Called(key), Failed(key, AttentionRequired)]))
    case Record(pid, committed) =>
      var key, receipt := s.running[pid].key, s.running[pid].receipt;
      if committed then
        s.(writes := s.writes[key := Some(receipt)], running := Drop(s.running, pid), log := s.log + [Returned(key, receipt)])
      else s.(running := Drop(s.running, pid), log := s.log + [Failed(key, AttentionRequired)])
    case Crash(pid) => s.(running := Drop(s.running, pid))
  }

  ghost predicate IsRun(states: seq<State>, actions: seq<Action>) {
    && |states| == |actions| + 1
    && forall i :: 0 <= i < |actions| ==> Enabled(states[i], actions[i]) && states[i + 1] == Step(states[i], actions[i])
  }

  function Calls(log: seq<Event>, key: Key): nat {
    if log == [] then 0
    else Calls(log[..|log| - 1], key) + (if log[|log| - 1] == Called(key) then 1 else 0)
  }

  /* ------------------------------------------------------------ the invariant */

  ghost predicate Owns(s: State, pid: nat, key: Key) {
    pid in s.running && s.running[pid].key == key
  }

  /** Only a ready plan that changes something gets a journal row. */
  ghost predicate Planned(s: State) {
    forall key :: key in s.writes ==> key in s.plans && s.plans[key].plan.ready && s.plans[key].plan.changes != []
  }

  ghost predicate Inv(s: State) {
    && Planned(s)
    // At most one execution is between the journal row and the receipt of a key.
    && (forall p, q, key :: Owns(s, p, key) && Owns(s, q, key) ==> p == q)
    && (forall p, key :: Owns(s, p, key) ==> key in s.writes && s.writes[key].None?)
    // The drawing editor was called only under a journal row, and not yet for an execution that is about to.
    && (forall key :: Calls(s.log, key) <= (if key in s.writes then 1 else 0))
    && (forall p :: p in s.running && s.running[p].Applying? ==> Calls(s.log, s.running[p].key) == 0)
    // A receipt that anyone saw is the one in the journal.
    && (forall key, r :: Returned(key, r) in s.log ==> key in s.writes && s.writes[key] == Some(r))
  }

  lemma CallsAppend(log: seq<Event>, e: Event)
    ensures forall key :: Calls(log + [e], key) == Calls(log, key) + (if e == Called(key) then 1 else 0)
  {
    assert (log + [e])[..|log|] == log;
  }

  lemma StepKeepsInv(s: State, a: Action)
    requires Inv(s) && Enabled(s, a)
    ensures Inv(Step(s, a))
  {
    match a
    case StorePlan(_, _, _) =>
      assert forall p, k :: Owns(Step(s, a), p, k) ==> Owns(s, p, k);
    case Begin(_, _, _) => BeginKeepsInv(s, a);
    case Call(_, _) => CallKeepsInv(s, a);
    case Record(_, _) => RecordKeepsInv(s, a);
    case Crash(_) =>
      assert forall p, k :: Owns(Step(s, a), p, k) ==> Owns(s, p, k);
  }

  lemma BeginKeepsInv(s: State, a: Action)
    requires Inv(s) && Enabled(s, a) && a.Begin?
    ensures Inv(Step(s, a))
  {
    var key := (a.scope, a.request.plan);
    match BeginWrite(s.plans, s.writes, a.scope, a.request) {
      case Refused(e) => AnswerKeepsInv(s, Failed(key, e));
      case Cached(receipt) => AnswerKeepsInv(s, Returned(key, receipt));
      case Granted => GrantKeepsInv(s, a.pid, key);
    }
  }

  lemma AnswerKeepsInv(s: State, e: Event)
    requires Inv(s) && !e.Called?
    requires e.Returned? ==> e.key in s.writes && s.writes[e.key] == Some(e.receipt)
    ensures Inv(s.(log := s.log + [e]))
  {
    CallsAppend(s.log, e);
    hide Calls;
    assert forall p, k :: Owns(s.(log := s.log + [e]), p, k) ==> Owns(s, p, k);
  }

  lemma GrantKeepsInv(s: State, pid: nat, key: Key)
    requires Inv(s) && pid !in s.running && key !in s.writes
    requires key in s.plans && s.plans[key].plan.ready && s.plans[key].plan.changes != []
    ensures Inv(s.(writes := s.writes[key := None], running := s.running[pid := Applying(key)]))
  {
    var t := s.(writes := s.writes[key := None], running := s.running[pid := Applying(key)]);
    assert forall p, k :: Owns(t, p, k) ==> Owns(s, p, k) || (p == pid && k == key);
    assert forall p :: !Owns(s, p, key);
  }

  lemma CallKeepsInv(s: State, a: Action)
    requires Inv(s) && Enabled(s, a) && a.Call?
    ensures Inv(Step(s, a))
  {
    var key := s.running[a.pid].key;
    match a.answer {
      case Some(receipt) => EditorCalled(s, a.pid, key, Some(Applied(key, receipt)));
      case None =>
        EditorCalled(s, a.pid, key, None);
        var t := s.(running := Drop(s.running, a.pid), log := s.log + [Called(key)]);
        AnswerKeepsInv(t, Failed(key, AttentionRequired));
        assert s.log + [Called(key), Failed(key, AttentionRequired)] == t.log + [Failed(key, AttentionRequired)];
    }
  }

  /** The editor was called; the execution goes on with a receipt or ends. */
  lemma EditorCalled(s: State, pid: nat, key: Key, next: Option<InFlight>)
    requires Inv(s) && pid in s.running && s.running[pid] == Applying(key)
    requires next.Some? ==> next.value.Applied? && next.value.key == key
    ensures Inv(s.(running := if next.Some? then s.running[pid := next.value] else Drop(s.running, pid), log := s.log + [Called(key)]))
  {
    var t := s.(running := if next.Some? then s.running[pid := next.value] else Drop(s.running, pid), log := s.log + [Called(key)]);
    assert Owns(s, pid, key);
    CallsAppend(s.log, Called(key));
    hide Calls;
    assert forall p, k :: Owns(t, p, k) ==> Owns(s, p, k);
    assert forall p :: p in s.running ==> Owns(s, p, s.running[p].key);
  }

  lemma RecordKeepsInv(s: State, a: Action)
    requires Inv(s) && Enabled(s, a) && a.Record?
    ensures Inv(Step(s, a))
  {
    var key, receipt := s.running[a.pid].key, s.running[a.pid].receipt;
    if a.committed {
      ReceiptCommitted(s, a.pid, key, receipt);
      var t := s.(writes := s.writes[key := Some(receipt)], running := Drop(s.running, a.pid));
      AnswerKeepsInv(t, Returned(key, receipt));
    } else {
      var t := s.(running := Drop(s.running, a.pid));
      assert forall p, k :: Owns(t, p, k) ==> Owns(s, p, k);
      AnswerKeepsInv(t, Failed(key, AttentionRequired));
    }
  }

  lemma ReceiptCommitted(s: State, pid: nat, key: Key, receipt: Receipt)
    requires Inv(s) && pid in s.running && s.running[pid] == Applied(key, receipt)
    ensures Inv(s.(writes := s.writes[key := Some(receipt)], running := Drop(s.running, pid)))
  {
    var t := s.(writes := s.writes[key := Some(receipt)], running := Drop(s.running, pid));
    hide Calls;
    assert Owns(s, pid, key);
    assert forall p, k :: Owns(t, p, k) ==> Owns(s, p, k) && p != pid;
  }

  lemma {:induction false} RunKeepsInv(states: seq<State>, actions: seq<Action>, i: nat)
    requires IsRun(states, actions) && states[0] == Initial && i < |states|
    ensures Inv(states[i])
  {
    if i > 0 {
      RunKeepsInv(states, actions, i - 1);
      StepKeepsInv(states[i - 1], actions[i - 1]);
    }
  }

  /* ------------------------------------------------------------ what a run guarantees */

  /** The drawing editor is called at most once for a key, and every receipt for it is the same. */
  lemma AppliedAtMostOnce(states: seq<State>, actions: seq<Action>, i: nat, key: Key)
    requires IsRun(states, actions) && states[0] == Initial && i < |states|
    ensures Calls(states[i].log, key) <= 1
    ensures forall r, q :: Returned(key, r) in states[i].log && Returned(key, q) in states[i].log ==> r == q
  {
    RunKeepsInv(states, actions, i);
  }

  /** A journal row without a receipt and without an execution that could still add one. */
  ghost predicate Stranded(s: State, key: Key) {
    && key in s.writes && s.writes[key].None?
    && forall p :: !Owns(s, p, key)
  }

  lemma StrandedStep(s: State, a: Action, key: Key)
    requires Stranded(s, key) && Enabled(s, a)
    ensures Stranded(Step(s, a), key)
    ensures s.log <= Step(s, a).log
    ensures forall e :: e in Step(s, a).log[|s.log|..] && e.key == key ==> e.Failed?
  {
    var t := Step(s, a);
    assert forall p :: p in s.running ==> s.running[p].key != key by {
      forall p | p in s.running ensures s.running[p].key != key {
        assert !Owns(s, p, key);
      }
    }
  }

  /**
   A row left without a receipt is never written again: from then on the editor is not called
   for that key, no receipt for it is returned, and every request for it fails.
   */
  lemma {:induction false} StrandedForever(states: seq<State>, actions: seq<Action>, i: nat, j: nat, key: Key)
    requires IsRun(states, actions) && i <= j < |states| && Stranded(states[i], key)
    ensures Stranded(states[j], key) && states[i].log <= states[j].log
    ensures forall e :: e in states[j].log[|states[i].log|..] && e.key == key ==> e.Failed?
    decreases j - i
  {
    if i < j {
      StrandedForever(states, actions, i, j - 1, key);
      var s, m, t := states[i], states[j - 1], states[j];
      StrandedStep(m, actions[j - 1], key);
      assert t.log[|s.log|..] == m.log[|s.log|..] + t.log[|m.log|..];
    }
  }

  /** A stored plan is never overwritten. */
  lemma {:induction false} PlansStay(states: seq<State>, actions: seq<Action>, i: nat, j: nat, key: Key)
    requires IsRun(states, actions) && i <= j < |states| && key in states[i].plans
    ensures key in states[j].plans && states[j].plans[key] == states[i].plans[key]
    decreases j - i
  {
    if i < j {
      PlansStay(states, actions, i, j - 1, key);
      hide BeginWrite;
    }
  }

  /**
   From the moment a row is stranded, whatever is stored and whoever asks: a request for its key is
   answered "attention required" if it names the stored review and inventory, "mismatch" otherwise,
   and changes nothing. It is never granted, served from the journal, missing or blocked.
   */
  lemma StrandedAnswer(
      states: seq<State>, actions: seq<Action>, i: nat, j: nat, pid: nat, scope: Scope, request: ApplyRequest)
    requires IsRun(states, actions) && states[0] == Initial && i <= j < |states|
    requires Stranded(states[i], (scope, request.plan))
    ensures var key := (scope, request.plan);
            && key in states[i].plans
            && var stored := states[i].plans[key];
               var error := if request.review == stored.review && request.inventory == stored.plan.inventory
                            then AttentionRequired else PlanMismatch;
               && BeginWrite(states[j].plans, states[j].writes, scope, request) == Refused(error)
               && (Enabled(states[j], Begin(pid, scope, request)) ==>
                     Step(states[j], Begin(pid, scope, request)) == states[j].(log := states[j].log + [Failed(key, error)]))
  {
    var key := (scope, request.plan);
    RunKeepsInv(states, actions, i);
    StrandedForever(states, actions, i, j, key);
    PlansStay(states, actions, i, j, key);
    hide Calls;
  }

  /** An execution that crashes, whose editor raises, or whose receipt is not committed strands its key. */
  lemma LostExecutionStrands(s: State, a: Action)
    requires Inv(s) && Enabled(s, a)
    requires a.Crash? || (a.Call? && a.answer.None?) || (a.Record? && !a.committed)
    ensures Stranded(Step(s, a), s.running[a.pid].key)
  {
    var pid, key := a.pid, s.running[a.pid].key;
    assert Owns(s, pid, key);
    hide Calls;
    assert forall p :: Owns(Step(s, a), p, key) ==> Owns(s, p, key) && p != pid;
  }

  /* ------------------------------------------------------------ the complete answer */

  lemma ReceiptStaysStep(s: State, a: Action, key: Key)
    requires Inv(s) && Enabled(s, a) && key in s.writes && s.writes[key].Some?
    ensures key in Step(s, a).writes && Step(s, a).writes[key] == s.writes[key]
  {
    hide Calls;
    if a.Record? {
      assert Owns(s, a.pid, s.running[a.pid].key);
    }
  }

  /** A receipt in the journal is never replaced. */
  lemma {:induction false} ReceiptStays(states: seq<State>, actions: seq<Action>, i: nat, j: nat, key: Key)
    requires IsRun(states, actions) && states[0] == Initial && i <= j < |states|
    requires key in states[i].writes && states[i].writes[key].Some?
    ensures key in states[j].writes && states[j].writes[key] == states[i].writes[key]
    decreases j - i
  {
    if i < j {
      ReceiptStays(states, actions, i, j - 1, key);
      RunKeepsInv(states, actions, j - 1);
      ReceiptStaysStep(states[j - 1], actions[j - 1], key);
    }
  }

  /** The request names the review and the inventory that were stored with its plan. */
  predicate Names(request: ApplyRequest, stored: StoredPlan) {
    request.review == stored.review && request.inventory == stored.plan.inventory
  }

  /** The request is answered by this one event, and nothing else happens. */
  ghost predicate AnsweredBy(s: State, pid: nat, scope: Scope, request: ApplyRequest, e: Event) {
    Enabled(s, Begin(pid, scope, request)) ==> Step(s, Begin(pid, scope, request)) == s.(log := s.log + [e])
  }

  /**
   Once a receipt is in the journal, a request at any later time that names the stored review and
   inventory is answered with that receipt; any other is a mismatch.
   */
  lemma RetryIsServed(
      states: seq<State>, actions: seq<Action>, i: nat, j: nat, pid: nat, scope: Scope, request: ApplyRequest)
    requires IsRun(states, actions) && states[0] == Initial && i <= j < |states|
    requires var key := (scope, request.plan); key in states[i].writes && states[i].writes[key].Some?
    ensures var key := (scope, request.plan);
            && key in states[i].plans
            && AnsweredBy(states[j], pid, scope, request,
                 if Names(request, states[i].plans[key]) then Returned(key, states[i].writes[key].value)
                 else Failed(key, PlanMismatch))
  {
    var key := (scope, request.plan);
    RunKeepsInv(states, actions, i);
    ReceiptStays(states, actions, i, j, key);
    PlansStay(states, actions, i, j, key);
    hide Calls;
  }

  /**
   The answer to every request in every reachable state. A plan that was stored earlier decides it:
   a write is granted once, for the stored review of a ready plan with changes; from then on the
   journal answers, with its receipt or with "attention required".
   */
  lemma CompleteAnswer(
      states: seq<State>, actions: seq<Action>, i: nat, j: nat, pid: nat, scope: Scope, request: ApplyRequest)
    requires IsRun(states, actions) && states[0] == Initial && i <= j < |states|
    requires pid !in states[j].running
    ensures var key := (scope, request.plan);
            var s := states[j];
            && (key !in s.plans ==> key !in s.writes && AnsweredBy(s, pid, scope, request, Failed(key, PlanMissing)))
            && (key in states[i].plans ==>
                  var stored := states[i].plans[key];
                  && key in s.plans
                  && if !Names(request, stored) then AnsweredBy(s, pid, scope, request, Failed(key, PlanMismatch))
                     else if !stored.plan.ready || stored.plan.changes == [] then
                       key !in s.writes && AnsweredBy(s, pid, scope, request, Failed(key, PlanBlocked))
                     else if key !in s.writes then
                       Step(s, Begin(pid, scope, request))
                         == s.(writes := s.writes[key := None], running := s.running[pid := Applying(key)])
                     else if s.writes[key].Some? then AnsweredBy(s, pid, scope, request, Returned(key, s.writes[key].value))
                     else AnsweredBy(s, pid, scope, request, Failed(key, AttentionRequired)))
  {
    var key := (scope, request.plan);
    RunKeepsInv(states, actions, j);
    if key in states[i].plans {
      PlansStay(states, actions, i, j, key);
    }
    hide Calls;
  }
}
