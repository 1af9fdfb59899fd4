/**
 Batches of approvals offered to a bounded queue, the retry loop that empties them, and the pages of
 batch planning. A queue builder is the sequence of its answers: what it says to the i-th call.
 */
module BatchQueue {
  import opened Wrappers

  datatype Approval = Approval(path: string, planId: string, digest: string)

  /** A builder raises, answers with something that is no mapping, or answers with these fields. */
  datatype Answer =
    | Raised(message: string)
    | NoMapping
    | Response(queued: bool, deferred: bool, error: Option<string>, pluginError: Option<string>)

  type Builder = (nat, Approval) -> Answer

  datatype Item = Item(approval: Approval, queued: bool, deferred: bool, error: Option<string>)

  datatype Summary = Summary(requested: int, queued: int, deferred: int, failed: int)

  const QUEUE_FULL: string := "queue_full"

  datatype BatchError = InvalidApprovals

  predicate DistinctApprovals(approvals: seq<Approval>) {
    forall i, j :: 0 <= i < j < |approvals| ==>
      && approvals[i].path != approvals[j].path && approvals[i].planId != approvals[j].planId
      && approvals[i].digest != approvals[j].digest
  }

  predicate ValidBatch(approvals: seq<Approval>) {
    1 <= |approvals| <= 20 && DistinctApprovals(approvals)
  }

  function ErrorOf(answer: Answer): Option<string> {
    match answer
    case Raised(message) => Some(message)
    case NoMapping => Some("invalid_queue_response")
    case Response(_, _, error, pluginError) => if error.Some? then error else pluginError
  }

  predicate Full(answer: Answer) {
    ErrorOf(answer) == Some(QUEUE_FULL)
  }

  function Deferral(a: Approval): Item {
    Item(a, false, true, Some(QUEUE_FULL))
  }

  /** The item for an approval that was offered. */
  function Offered(a: Approval, answer: Answer): Item {
    if Full(answer) then Deferral(a)
    else match answer
      case Raised(message) => Item(a, false, false, Some(message))
      case NoMapping => Item(a, false, false, Some("invalid_queue_response"))
      case Response(queued, deferred, error, _) => Item(a, queued, deferred, error)
  }

  /** Some call before the i-th approval was answered with a full queue. */
  predicate Saturated(approvals: seq<Approval>, answer: Builder, i: nat)
    requires i <= |approvals|
  {
    exists j: nat :: j < i && Full(answer(j, approvals[j]))
  }

  predicate ItemsOf(approvals: seq<Approval>, answer: Builder, items: seq<Item>) {
    && |items| <= |approvals|
    && forall i :: 0 <= i < |items| ==>
         items[i] == if Saturated(approvals, answer, i) then Deferral(approvals[i]) else Offered(approvals[i], answer(i, approvals[i]))
  }

  function CountIf(items: seq<Item>, test: Item -> bool): nat {
    if items == [] then 0
    else CountIf(items[..|items| - 1], test) + if test(items[|items| - 1]) then 1 else 0
  }

  predicate IsQueued(item: Item) { item.queued }

  predicate IsDeferred(item: Item) { item.deferred }

  predicate IsBoth(item: Item) { item.queued && item.deferred }

  predicate IsNeither(item: Item) { !item.queued && !item.deferred }

  function Summarize(items: seq<Item>): Summary {
    var queued, deferred := CountIf(items, IsQueued), CountIf(items, IsDeferred);
    Summary(|items|, queued, deferred, |items| - queued - deferred)
  }

  datatype Batch = Batch(items: seq<Item>, summary: Summary, calls: nat)

  /** The calls stop with the first answer that the queue is full. */
  predicate CallsStopAtFull(approvals: seq<Approval>, answer: Builder, calls: nat) {
    && calls <= |approvals|
    && (forall j :: 0 <= j < calls - 1 ==> !Full(answer(j, approvals[j])))
    && (calls < |approvals| ==> calls > 0 && Full(answer(calls - 1, approvals[calls - 1])))
  }

  method QueueApprovedBatch(approvals: seq<Approval>, answer: Builder) returns (batch: Result<Batch, BatchError>)
    ensures batch.Err? <==> !ValidBatch(approvals)
    ensures batch.Ok? <==>
      && 1 <= |approvals| <= 20
      && forall i, j :: 0 <= i < j < |approvals| ==>
           && approvals[i].path != approvals[j].path && approvals[i].planId != approvals[j].planId
           && approvals[i].digest != approvals[j].digest
    ensures batch.Ok? ==>
      && |batch.value.items| == |approvals| && ItemsOf(approvals, answer, batch.value.items)
      && CallsStopAtFull(approvals, answer, batch.value.calls)
      && batch.value.summary == Summarize(batch.value.items)
  {
    if !ValidBatch(approvals) {
      return Err(InvalidApprovals);
    }
    hide ItemsOf, Saturated, Offered, Full;
    var items: seq<Item> := [];
    var queueSaturated, calls: nat := false, 0;
    NothingOffered(approvals, answer);
    for i := 0 to |approvals|
      invariant OfferedTo(approvals, answer, i, items, queueSaturated, calls)
    {
      OfferTurn(approvals, answer, i, items, queueSaturated, calls);
      if queueSaturated {
        items := items + [Deferral(approvals[i])];
      } else {
        var result := answer(i, approvals[i]);
        calls := calls + 1;
        if Full(result) {
          queueSaturated := true;
        }
        items := items + [Offered(approvals[i], result)];
      }
    }
    return Ok(Batch(items, Summarize(items), calls));
  }

  /** The loop has dealt with the first `i` approvals. */
  ghost predicate OfferedTo(approvals: seq<Approval>, answer: Builder, i: nat, items: seq<Item>, saturated: bool, calls: nat) {
    && |items| == i <= |approvals| && ItemsOf(approvals, answer, items)
    && (saturated <==> Saturated(approvals, answer, i))
    && calls <= i && (!saturated ==> calls == i)
    && (forall j :: 0 <= j < calls - 1 ==> !Full(answer(j, approvals[j])))
    && (saturated ==> calls > 0 && Full(answer(calls - 1, approvals[calls - 1])))
  }

  lemma NothingOffered(approvals: seq<Approval>, answer: Builder)
    ensures OfferedTo(approvals, answer, 0, [], false, 0)
  {
  }

  lemma SaturatedNext(approvals: seq<Approval>, answer: Builder, i: nat)
    requires i < |approvals|
    ensures Saturated(approvals, answer, i + 1) <==> Saturated(approvals, answer, i) || Full(answer(i, approvals[i]))
  {
    hide Full;
    if Saturated(approvals, answer, i) {
      var j: nat :| j < i && Full(answer(j, approvals[j]));
      assert j < i + 1 && Full(answer(j, approvals[j]));
    }
    if Full(answer(i, approvals[i])) {
      assert i < i + 1 && Full(answer(i, approvals[i]));
    }
  }

  lemma OfferTurn(approvals: seq<Approval>, answer: Builder, i: nat, items: seq<Item>, saturated: bool, calls: nat)
    requires OfferedTo(approvals, answer, i, items, saturated, calls) && i < |approvals|
    ensures saturated ==> OfferedTo(approvals, answer, i + 1, items + [Deferral(approvals[i])], true, calls)
    ensures !saturated ==>
      OfferedTo(approvals, answer, i + 1, items + [Offered(approvals[i], answer(i, approvals[i]))], Full(answer(i, approvals[i])), calls + 1)
  {
    SaturatedNext(approvals, answer, i);
    hide Saturated, Full, Offered;
    if !saturated && calls > 0 {
      NotFullBefore(approvals, answer, i, calls - 1);
    }
  }

  lemma NotFullBefore(approvals: seq<Approval>, answer: Builder, i: nat, j: nat)
    requires j < i <= |approvals| && !Saturated(approvals, answer, i)
    ensures !Full(answer(j, approvals[j]))
  {
  }

  /** The builder said that the queue is full: as its error, as its plug-in's error, or by raising it. */
  predicate SaysFull(answer: Answer) {
    || answer == Raised("queue_full")
    || (answer.Response? && answer.error == Some("queue_full"))
    || (answer.Response? && answer.error.None? && answer.pluginError == Some("queue_full"))
  }

  /** The builder was asked about the i-th approval: no earlier answer said that the queue is full. */
  predicate Asked(approvals: seq<Approval>, answer: Builder, i: nat)
    requires i < |approvals|
  {
    forall j: nat :: j < i ==> !SaysFull(answer(j, approvals[j]))
  }

  /**
   An approval is queued exactly when the builder was asked and answered queued without a full queue. It
   is deferred exactly when it was not asked about, or the queue was full, or the builder said deferred.
   */
  lemma ItemsMean(approvals: seq<Approval>, answer: Builder, items: seq<Item>, i: nat)
    requires ItemsOf(approvals, answer, items) && i < |items|
    ensures items[i].approval == approvals[i]
    ensures var said := answer(i, approvals[i]);
            && (items[i].queued <==> Asked(approvals, answer, i) && said.Response? && said.queued && !SaysFull(said))
            && (items[i].deferred <==>
                  !Asked(approvals, answer, i) || SaysFull(said) || (said.Response? && said.deferred))
            && (items[i].error == Some("queue_full") || Asked(approvals, answer, i))
            && (Asked(approvals, answer, i) && said.Raised? ==> items[i].error == Some(said.message))
            && (Asked(approvals, answer, i) && said.NoMapping? ==> items[i].error == Some("invalid_queue_response"))
  {
    assert forall a: Answer :: Full(a) <==> SaysFull(a);
    hide Full, SaysFull;
  }

  /* ------------------------------------------------------------ the summary */

  lemma {:induction false} CountParts(items: seq<Item>)
    ensures CountIf(items, IsQueued) + CountIf(items, IsDeferred)
            + CountIf(items, IsNeither)
         == |items| + CountIf(items, IsBoth)
  {
    if items != [] {
      CountParts(items[..|items| - 1]);
    }
  }

  lemma {:induction false} CountZero(items: seq<Item>, test: Item -> bool)
    ensures CountIf(items, test) == 0 <==> forall i :: 0 <= i < |items| ==> !test(items[i])
  {
    if items != [] {
      var init := items[..|items| - 1];
      CountZero(init, test);
      assert forall i :: 0 <= i < |init| ==> init[i] == items[i];
    }
  }

  /** `failed` counts the items that are neither queued nor deferred exactly when no item is both. */
  lemma SummaryPartitions(items: seq<Item>)
    ensures Summarize(items).queued + Summarize(items).deferred + Summarize(items).failed == Summarize(items).requested == |items|
    ensures Summarize(items).failed == CountIf(items, IsNeither)
            <==> forall i :: 0 <= i < |items| ==> !(items[i].queued && items[i].deferred)
  {
    CountParts(items);
    CountZero(items, IsBoth);
  }

  /** The builder was asked about the i-th approval and says that it is queued and deferred, and not that the queue is full. */
  predicate AnsweredBoth(approvals: seq<Approval>, answer: Builder, i: nat)
    requires i < |approvals|
  {
    && !Saturated(approvals, answer, i)
    && var said := answer(i, approvals[i]);
       said.Response? && said.queued && said.deferred && !Full(said)
  }

  /** `failed` counts the failed items of a batch exactly when no answer of the builder was both queued and deferred. */
  lemma FailedCountsFailures(approvals: seq<Approval>, answer: Builder, items: seq<Item>)
    requires |items| == |approvals| && ItemsOf(approvals, answer, items)
    ensures Summarize(items).failed == CountIf(items, IsNeither)
            <==> forall i :: 0 <= i < |approvals| ==> !AnsweredBoth(approvals, answer, i)
  {
    SummaryPartitions(items);
    forall i | 0 <= i < |approvals|
      ensures AnsweredBoth(approvals, answer, i) <==> items[i].queued && items[i].deferred
    {
    }
    hide ItemsOf, AnsweredBoth, Summarize, CountIf;
  }

  /** A builder that says both makes the count negative, although nothing failed. */
  function SaysBoth(): Builder {
    (i, a) => Response(true, true, None, None)
  }

  lemma NegativeFailedExample(approval: Approval, items: seq<Item>)
    requires ItemsOf([approval], SaysBoth(), items) && |items| == 1
    ensures ValidBatch([approval]) && items == [Item(approval, true, true, None)]
    ensures Summarize(items) == Summary(1, 1, 1, -1) && CountIf(items, IsNeither) == 0
  {
    var item := Item(approval, true, true, None);
    assert items == [item];
    CountOne(item, IsQueued);
    CountOne(item, IsDeferred);
    CountOne(item, IsNeither);
    hide CountIf;
  }

  lemma CountOne(item: Item, test: Item -> bool)
    ensures CountIf([item], test) == if test(item) then 1 else 0
  {
    assert [item][..0] == [];
  }

  /* ------------------------------------------------------------ backpressure and retry */

  /** A queue with room for `capacity` jobs in every wave. */
  function WindowAnswer(capacity: nat): Builder {
    (i, a) => if i < capacity then Response(true, false, None, None) else Response(false, false, None, Some(QUEUE_FULL))
  }

  function DeferredOnes(items: seq<Item>): seq<Approval> {
    if items == [] then []
    else DeferredOnes(items[..|items| - 1]) + if items[|items| - 1].deferred then [items[|items| - 1].approval] else []
  }

  function QueuedOnes(items: seq<Item>): seq<Approval> {
    if items == [] then []
    else QueuedOnes(items[..|items| - 1]) + if items[|items| - 1].queued then [items[|items| - 1].approval] else []
  }

  lemma WindowSaturates(approvals: seq<Approval>, capacity: nat, i: nat)
    requires i <= |approvals|
    ensures Saturated(approvals, WindowAnswer(capacity), i) <==> i > capacity
  {
    if i > capacity {
      assert Full(WindowAnswer(capacity)(capacity, approvals[capacity]));
    }
  }

  /** What the items of a wave are: the first `capacity` queued, the others deferred. */
  predicate WaveShape(approvals: seq<Approval>, capacity: nat, items: seq<Item>) {
    && |items| <= |approvals|
    && forall i :: 0 <= i < |items| ==>
         items[i].approval == approvals[i] && items[i].queued == (i < capacity) && items[i].deferred == (i >= capacity)
  }

  lemma ItemsHaveShape(approvals: seq<Approval>, capacity: nat, items: seq<Item>)
    requires ItemsOf(approvals, WindowAnswer(capacity), items)
    ensures WaveShape(approvals, capacity, items)
  {
    forall i | 0 <= i < |items|
      ensures items[i].approval == approvals[i] && items[i].queued == (i < capacity) && items[i].deferred == (i >= capacity)
    {
      WindowSaturates(approvals, capacity, i);
    }
  }

  lemma {:induction false} QueuedArePrefix(approvals: seq<Approval>, capacity: nat, items: seq<Item>)
    requires WaveShape(approvals, capacity, items)
    ensures QueuedOnes(items) == if |items| <= capacity then approvals[..|items|] else approvals[..capacity]
    ensures CountIf(items, IsQueued) == if |items| <= capacity then |items| else capacity
  {
    if items != [] {
      QueuedArePrefix(approvals, capacity, items[..|items| - 1]);
      assert approvals[..|items|] == approvals[..|items| - 1] + [approvals[|items| - 1]];
    }
  }

  lemma {:induction false} DeferredAreSuffix(approvals: seq<Approval>, capacity: nat, items: seq<Item>)
    requires WaveShape(approvals, capacity, items)
    ensures DeferredOnes(items) == if |items| <= capacity then [] else approvals[capacity..|items|]
    ensures CountIf(items, IsDeferred) == if |items| <= capacity then 0 else |items| - capacity
  {
    if items != [] {
      DeferredAreSuffix(approvals, capacity, items[..|items| - 1]);
      if |items| > capacity {
        assert approvals[capacity..|items|] == approvals[capacity..|items| - 1] + [approvals[|items| - 1]];
      }
    }
  }

  /** One wave queues as many as fit, in order, and defers the rest, in order. */
  lemma WaveSplits(approvals: seq<Approval>, capacity: nat, items: seq<Item>)
    requires |items| == |approvals| && WaveShape(approvals, capacity, items)
    ensures QueuedOnes(items) + DeferredOnes(items) == approvals
    ensures |DeferredOnes(items)| == if |approvals| <= capacity then 0 else |approvals| - capacity
  {
    QueuedArePrefix(approvals, capacity, items);
    DeferredAreSuffix(approvals, capacity, items);
    hide WaveShape, CountIf, QueuedOnes, DeferredOnes;
    if |approvals| <= capacity {
      assert approvals[..|approvals|] == approvals;
    } else {
      assert approvals[..capacity] + approvals[capacity..|approvals|] == approvals;
    }
  }

  lemma WaveCounts(approvals: seq<Approval>, capacity: nat, batch: Batch)
    requires |batch.items| == |approvals| && WaveShape(approvals, capacity, batch.items)
    requires CallsStopAtFull(approvals, WindowAnswer(capacity), batch.calls) && batch.summary == Summarize(batch.items)
    ensures GoodWave(batch, capacity)
  {
    QueuedArePrefix(approvals, capacity, batch.items);
    DeferredAreSuffix(approvals, capacity, batch.items);
    CallsInWindow(approvals, capacity, batch.calls);
    hide WaveShape, CountIf, QueuedOnes, DeferredOnes, WindowAnswer, CallsStopAtFull;
  }

  lemma CallsInWindow(approvals: seq<Approval>, capacity: nat, calls: nat)
    requires CallsStopAtFull(approvals, WindowAnswer(capacity), calls)
    ensures calls == if |approvals| <= capacity then |approvals| else capacity + 1
  {
    var answer := WindowAnswer(capacity);
    assert forall j: nat :: j < |approvals| ==> (Full(answer(j, approvals[j])) <==> j >= capacity);
    if |approvals| > capacity {
      assert Full(answer(capacity, approvals[capacity]));
    }
    if 0 < calls < |approvals| {
      assert Full(answer(calls - 1, approvals[calls - 1]));
    }
  }

  /** Rounded up. */
  function WavesFor(n: nat, capacity: nat): nat
    requires capacity > 0
  {
    if n <= capacity then (if n == 0 then 0 else 1) else 1 + WavesFor(n - capacity, capacity)
  }

  lemma {:induction false} WavesAreCeiling(n: nat, capacity: nat)
    requires capacity > 0
    ensures (WavesFor(n, capacity) - 1) * capacity < n || n == 0
    ensures n <= WavesFor(n, capacity) * capacity
  {
    if n > capacity {
      WavesAreCeiling(n - capacity, capacity);
      var w := WavesFor(n - capacity, capacity);
      assert (1 + w) * capacity == capacity + w * capacity;
      assert w * capacity == (w - 1) * capacity + capacity;
    }
  }

  function ChunkWaves(n: nat, size: nat, capacity: nat): nat
    requires size > 0 && capacity > 0
  {
    if n <= size then WavesFor(n, capacity) else WavesFor(size, capacity) + ChunkWaves(n - size, size, capacity)
  }

  /** Every full chunk takes the same number of waves, and the remainder its own. */
  lemma {:induction false} ChunkWavesMean(full: nat, rest: nat, size: nat, capacity: nat)
    requires rest < size && capacity > 0
    ensures ChunkWaves(full * size + rest, size, capacity) == full * WavesFor(size, capacity) + WavesFor(rest, capacity)
  {
    NoWaves(capacity);
    hide WavesFor;
    if full > 0 {
      var n, w := (full - 1) * size + rest, WavesFor(size, capacity);
      ChunkWavesMean(full - 1, rest, size, capacity);
      assert full * size + rest == n + size;
      assert full * w == (full - 1) * w + w;
      if n == 0 {
        OnlyOneFull(full, size);
      }
    }
  }

  lemma OnlyOneFull(full: nat, size: nat)
    requires full > 0 && size > 0 && (full - 1) * size == 0
    ensures full == 1
  {
  }

  lemma NoWaves(capacity: nat)
    requires capacity > 0
    ensures WavesFor(0, capacity) == 0
  {
  }

  /** One wave of the retry loop. */
  ghost predicate GoodWave(batch: Batch, capacity: nat) {
    var s := batch.summary;
    && s.queued + s.deferred + s.failed == s.requested == |batch.items| && s.failed == 0
    && batch.calls == (if |batch.items| <= capacity then |batch.items| else capacity + 1)
  }

  method EmptyChunk(chunk: seq<Approval>, capacity: nat) returns (accepted: seq<Approval>, waves: seq<Batch>)
    requires ValidBatch(chunk) && capacity > 0
    ensures accepted == chunk && |waves| == WavesFor(|chunk|, capacity)
    ensures forall w :: w in waves ==> GoodWave(w, capacity)
  {
    accepted, waves := [], [];
    hide ValidBatch, ItemsOf, CallsStopAtFull, GoodWave, WaveShape, QueuedOnes, DeferredOnes, WindowAnswer, Summarize;
    var pending := chunk;
    while pending != []
      invariant accepted + pending == chunk
      invariant |waves| + WavesFor(|pending|, capacity) == WavesFor(|chunk|, capacity)
      invariant forall w :: w in waves ==> GoodWave(w, capacity)
      decreases |pending|
    {
      SuffixIsValid(chunk, accepted, pending);
      var batch := QueueApprovedBatch(pending, WindowAnswer(capacity));
      ItemsHaveShape(pending, capacity, batch.value.items);
      WaveSplits(pending, capacity, batch.value.items);
      WaveCounts(pending, capacity, batch.value);
      waves := waves + [batch.value];
      accepted := accepted + QueuedOnes(batch.value.items);
      pending := DeferredOnes(batch.value.items);
    }
  }

  lemma SuffixIsValid(chunk: seq<Approval>, accepted: seq<Approval>, pending: seq<Approval>)
    requires ValidBatch(chunk) && accepted + pending == chunk && pending != []
    ensures ValidBatch(pending)
  {
    assert forall i :: 0 <= i < |pending| ==> pending[i] == chunk[|accepted| + i];
  }

  lemma ChunkIsValid(approvals: seq<Approval>, start: nat, end: nat)
    requires DistinctApprovals(approvals) && start < end <= |approvals| && end - start <= 20
    ensures ValidBatch(approvals[start..end])
    ensures approvals[..end] == approvals[..start] + approvals[start..end]
  {
    assert forall i :: 0 <= i < end - start ==> approvals[start..end][i] == approvals[start + i];
  }

  /** The whole retry loop: every approval is accepted exactly once and in order, in as few waves as possible per chunk. */
  method QueueEverything(approvals: seq<Approval>, batchSize: nat, capacity: nat) returns (accepted: seq<Approval>, waves: seq<Batch>)
    requires DistinctApprovals(approvals) && 1 <= batchSize <= 20 && capacity > 0
    ensures accepted == approvals
    ensures |waves| == ChunkWaves(|approvals|, batchSize, capacity)
    ensures forall w :: w in waves ==> GoodWave(w, capacity)
  {
    accepted, waves := [], [];
    hide DistinctApprovals, GoodWave;
    var offset := 0;
    while offset < |approvals|
      invariant 0 <= offset <= |approvals| && accepted == approvals[..offset]
      invariant |waves| + ChunkWaves(|approvals| - offset, batchSize, capacity) == ChunkWaves(|approvals|, batchSize, capacity)
      invariant forall w :: w in waves ==> GoodWave(w, capacity)
    {
      var end := if offset + batchSize <= |approvals| then offset + batchSize else |approvals|;
      ChunkIsValid(approvals, offset, end);
      var taken, more := EmptyChunk(approvals[offset..end], capacity);
      accepted, waves := accepted + taken, waves + more;
      offset := end;
    }
  }

  /* ------------------------------------------------------------ pages of batch planning */

  datatype Plan = Ready | Blocked | PlanError

  datatype PlanSummary = PlanSummary(ready: int, blocked: int, errors: int)

  datatype Page = Page(
    inventory: string, offset: nat, limit: int, total: nat, summary: PlanSummary, items: seq<(string, Plan)>, nextOffset: Option<nat>)

  datatype PageError = BadOffset | BadLimit | BadInventoryId | ExpectedInventoryMissing | InventoryChanged | NotReady

  /** `sha256:` and 64 hexadecimal digits. */
  predicate IsInventoryId(s: string) {
    |s| == 71 && s[..7] == "sha256:" && forall i :: 7 <= i < 71 ==> '0' <= s[i] <= '9' || 'a' <= s[i] <= 'f'
  }

  lemma InventoryIdMeans(s: string)
    ensures IsInventoryId(s) <==> "sha256:" <= s && |s[7..]| == 64 && forall c :: c in s[7..] ==> c in "0123456789abcdef"
  {
    forall c: char ensures c in "0123456789abcdef" <==> '0' <= c <= '9' || 'a' <= c <= 'f' {
      HexadecimalDigits(c);
    }
    if |s| == 71 {
      var digits := s[7..];
      assert forall i :: 7 <= i < 71 ==> digits[i - 7] == s[i] && s[i] in digits;
      assert forall i :: 0 <= i < 64 ==> digits[i] == s[i + 7];
    }
  }

  lemma HexadecimalDigits(c: char)
    ensures c in "0123456789abcdef" <==> '0' <= c <= '9' || 'a' <= c <= 'f'
  {
    var digits := "0123456789abcdef";
    if '0' <= c <= '9' {
      assert digits[c as int - '0' as int] == c;
    } else if 'a' <= c <= 'f' {
      assert digits[c as int - 'a' as int + 10] == c;
    }
  }

  /** How many drawings have this status. */
  function StatusCount(items: seq<(string, Plan)>, status: Plan): nat {
    if items == [] then 0
    else StatusCount(items[..|items| - 1], status) + if items[|items| - 1].1 == status then 1 else 0
  }

  function Planned(paths: seq<string>, plan: string -> Plan): seq<(string, Plan)> {
    seq(|paths|, i requires 0 <= i < |paths| => (paths[i], plan(paths[i])))
  }

  function Min(a: nat, b: nat): nat {
    if a < b then a else b
  }

  /** The first check that refuses a page. */
  function PageRefusal(offset: int, limit: int, current: string, expected: Option<string>): Option<PageError> {
    if offset < 0 then Some(BadOffset)
    else if !(1 <= limit <= 50) then Some(BadLimit)
    else if !IsInventoryId(current) then Some(BadInventoryId)
    else if offset > 0 && expected.None? then Some(ExpectedInventoryMissing)
    else if expected.Some? && expected.value != current then Some(InventoryChanged)
    else None
  }

  lemma {:induction false} StatusCounts(items: seq<(string, Plan)>)
    ensures StatusCount(items, Ready) + StatusCount(items, Blocked) + StatusCount(items, PlanError) == |items|
  {
    if items != [] {
      StatusCounts(items[..|items| - 1]);
    }
  }

  /**
   An offset past the end selects nothing. `computed` is the id of the listed drawings, which stands
   in when no id or an empty one is given.
   */
  method BuildBatchPage(
      paths: seq<string>, plan: string -> Plan, offset: int, limit: int, inventory: string, computed: string, expected: Option<string>)
    returns (page: Result<Page, PageError>)
    ensures var current := if inventory != "" then inventory else computed;
            page.Ok? <==>
              && 0 <= offset && 1 <= limit <= 50 && IsInventoryId(current)
              && (expected == Some(current) || (expected == None && offset == 0))
    ensures page == Err(BadOffset) <==> offset < 0
    ensures page == Err(BadLimit) <==> offset >= 0 && !(1 <= limit <= 50)
    ensures page == Err(BadInventoryId) <==> offset >= 0 && 1 <= limit <= 50 && !IsInventoryId(if inventory != "" then inventory else computed)
    ensures var current := if inventory != "" then inventory else computed;
            match PageRefusal(offset, limit, current, expected)
            case Some(e) => page == Err(e)
            case None =>
              && page.Ok? && page.value.inventory == current
              && page.value.offset == offset && page.value.limit == limit && page.value.total == |paths|
              && var start, end := Min(offset, |paths|), Min(offset + limit, |paths|);
                 && start <= end
                 && page.value.items == Planned(paths[start..end], plan)
                 && page.value.nextOffset == (if offset + (end - start) < |paths| then Some(offset + (end - start)) else None)
                 && page.value.summary.ready == StatusCount(page.value.items, Ready)
                 && page.value.summary.blocked == StatusCount(page.value.items, Blocked)
                 && page.value.summary.errors == StatusCount(page.value.items, PlanError)
  {
    if offset < 0 {
      return Err(BadOffset);
    }
    if !(1 <= limit <= 50) {
      return Err(BadLimit);
    }
    var current := if inventory != "" then inventory else computed;
    if !IsInventoryId(current) {
      return Err(BadInventoryId);
    }
    if offset > 0 && expected.None? {
      return Err(ExpectedInventoryMissing);
    }
    if expected.Some? && expected.value != current {
      return Err(InventoryChanged);
    }
    hide IsInventoryId, StatusCount;
    var selected := paths[Min(offset, |paths|)..Min(offset + limit, |paths|)];
    var items: seq<(string, Plan)> := [];
    for i := 0 to |selected|
      invariant items == Planned(selected[..i], plan)
    {
      items := items + [(selected[i], plan(selected[i]))];
      assert selected[..i + 1] == selected[..i] + [selected[i]];
    }
    assert selected[..|selected|] == selected;
    StatusCounts(items);
    var ready, blocked := StatusCount(items, Ready), StatusCount(items, Blocked);
    var next := offset + |selected|;
    return Ok(Page(current, offset, limit, |paths|, PlanSummary(ready, blocked, |items| - ready - blocked), items,
                   if next < |paths| then Some(next) else None));
  }

  lemma NothingPlanned(paths: seq<string>, plan: string -> Plan)
    ensures Planned(paths[..0], plan) == []
  {
  }

  lemma PlannedAppend(paths: seq<string>, plan: string -> Plan, i: nat, j: nat)
    requires i <= j <= |paths|
    ensures Planned(paths[..j], plan) == Planned(paths[..i], plan) + Planned(paths[i..j], plan)
  {
  }

  lemma PlannedEach(paths: seq<string>, plan: string -> Plan)
    ensures |Planned(paths, plan)| == |paths| && forall i :: 0 <= i < |paths| ==> Planned(paths, plan)[i].1 == plan(paths[i])
  {
  }

  /** Page by page, every drawing is planned exactly once and in order, on pages that all differ. */
  method PlanAll(paths: seq<string>, inventory: string, computed: string, batchSize: nat, plan: string -> Plan)
    returns (result: Result<(seq<Page>, seq<(string, Plan)>), PageError>)
    requires 1 <= batchSize <= 50
    ensures result.Ok? <==> IsInventoryId(inventory) && forall i :: 0 <= i < |paths| ==> plan(paths[i]) == Ready
    ensures result.Ok? ==> result.value.1 == Planned(paths, plan)
    ensures result.Ok? ==> forall i, j :: 0 <= i < j < |result.value.0| ==> result.value.0[i] != result.value.0[j]
  {
    var pages: seq<Page> := [];
    var items: seq<(string, Plan)> := [];
    var offset := 0;
    var expected: Option<string> := None;
    var more := true;
    assert IsInventoryId(inventory) ==> inventory != "";
    hide IsInventoryId, StatusCount, Planned;
    NothingPlanned(paths, plan);
    while more
      invariant 0 <= offset <= |paths| && items == Planned(paths[..offset], plan)
      invariant offset > 0 ==> expected == Some(inventory) && IsInventoryId(inventory)
      invariant expected.Some? ==> expected.value == inventory
      invariant more ==> offset < |paths| || offset == 0
      invariant !more ==> offset == |paths| && IsInventoryId(inventory)
      invariant forall i :: 0 <= i < |pages| ==> pages[i].offset < offset || !more
      invariant forall i, j :: 0 <= i < j < |pages| ==> pages[i].offset < pages[j].offset
      decreases more, |paths| - offset
    {
      var page := BuildBatchPage(paths, plan, offset, batchSize, inventory, computed, expected);
      if page.Err? {
        return Err(page.error);
      }
      if page.value.inventory != inventory {
        return Err(InventoryChanged);
      }
      var end := Min(offset + batchSize, |paths|);
      pages := pages + [page.value];
      items := items + page.value.items;
      PlannedAppend(paths, plan, offset, end);
      expected := Some(inventory);
      offset := end;
      more := page.value.nextOffset.Some?;
    }
    assert paths[..|paths|] == paths;
    PlannedEach(paths, plan);
    if exists i :: 0 <= i < |items| && items[i].1 != Ready {
      return Err(NotReady);
    }
    return Ok((pages, items));
  }
}
