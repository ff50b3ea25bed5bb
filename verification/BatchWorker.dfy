/**
 * The background worker of the buffered transport (crates/ethrpc/src/buffered.rs) as a state machine.
 *
 * Callers enqueue and cancel calls at any time, the worker collects a chunk, cuts it into a batch, and
 * every batch is a future that first filters out cancelled calls and later gets the node's answer.
 */
module BatchWorker {
  import opened Prelude
  import opened BatchResponse

  /** `max_concurrent_requests` is a `NonZeroUsize`; `None` means no limit. */
  datatype Configuration = Configuration(maxConcurrentRequests: Option<nat>, maxBatchLen: nat)

  ghost predicate ValidConfiguration(c: Configuration) {
    c.maxConcurrentRequests.Some? ==> c.maxConcurrentRequests.value > 0
  }

  /** One queued call. `sender` identifies the one-shot channel its reply goes to. */
  datatype CallContext = CallContext(id: RequestId, sender: nat)

  datatype Reply = Reply(sender: nat, result: RpcResult)

  /** What the node sends back: to a lone call, or to a batch. */
  datatype Answer =
    | One(result: RpcResult)
    | Many(outputs: Result<seq<OutputOrString>, RpcError>)

  datatype Future = Ready(batch: seq<CallContext>) | Awaiting(live: seq<CallContext>)

  datatype Worker = Worker(
    queue: seq<CallContext>,
    chunk: seq<CallContext>,
    futures: map<nat, Future>,
    cancelled: set<nat>,
    // History.
    enqueued: seq<CallContext>,
    cut: seq<seq<CallContext>>,
    dispatched: map<nat, seq<CallContext>>,
    answers: map<nat, Answer>,
    replies: seq<Reply>
  )

  datatype Step =
    | Enqueue(id: RequestId)
    | Cancel(sender: nat)
    | Begin
    | Grow
    | Cut
    | Dispatch(n: nat)
    | Complete(n: nat, answer: Answer)

  const Initial := Worker([], [], map[], {}, [], [], map[], map[], [])

  // ---- The work done for one batch -----------------------------------------------------------

  function Live(batch: seq<CallContext>, cancelled: set<nat>): (r: seq<CallContext>) {
    Filter(batch, (c: CallContext) => c.sender !in cancelled)
  }

  function RequestIds(live: seq<CallContext>): (r: seq<RequestId>)
    ensures |r| == |live|
  {
    seq(|live|, i requires 0 <= i < |live| => live[i].id)
  }

  /** The per-call results: a failed batch hands the same error to every call. */
  function Results(live: seq<CallContext>, answer: Answer): seq<RpcResult> {
    match answer
    case One(result) => [result]
    case Many(Err(e)) => seq(|live|, _ => Err(e))
    case Many(Ok(outputs)) =>
      match BatchResult(RequestIds(live), outputs)
      case Err(e) => seq(|live|, _ => Err(e))
      case Ok(results) => results
  }

  function Zip(live: seq<CallContext>, results: seq<RpcResult>): (r: seq<Reply>)
    ensures |r| == Min(|live|, |results|)
    ensures forall i :: 0 <= i < |r| ==> r[i] == Reply(live[i].sender, results[i])
  {
    seq(Min(|live|, |results|), i requires 0 <= i < Min(|live|, |results|) => Reply(live[i].sender, results[i]))
  }

  predicate Fits(live: seq<CallContext>, answer: Answer) {
    answer.One? <==> |live| == 1
  }

  /** The replying half of the worker's closure, with the loop that consumes the senders. */
  method SendReplies(live: seq<CallContext>, answer: Answer) returns (replies: seq<Reply>)
    requires Fits(live, answer) && live != []
    ensures replies == Zip(live, Results(live, answer))
    ensures |replies| == |live|
    ensures forall i :: 0 <= i < |live| ==> replies[i].sender == live[i].sender && OwnResult(live, answer, i, replies[i].result)
  {
    var results: seq<RpcResult>;
    match answer {
      case One(result) => results := [result];
      case Many(Err(e)) => results := seq(|live|, _ => Err(e));
      case Many(Ok(outputs)) =>
        var decoded := HandleBatchResponse(RequestIds(live), outputs);
        results := match decoded case Err(e) => seq(|live|, _ => Err(e)) case Ok(r) => r;
    }
    replies := [];
    var i := 0;
    while i < |live| && i < |results|
      invariant i <= |live| && i <= |results|
      invariant replies == Zip(live, results)[..i]
    {
      replies := replies + [Reply(live[i].sender, results[i])];
      i := i + 1;
    }
    forall k | 0 <= k < |live| ensures |Results(live, answer)| == |live| && OwnResult(live, answer, k, Results(live, answer)[k]) {
      ResultIsOwn(live, answer, k);
    }
  }

  /**
   * The i-th live call's result: what the node answered to it alone, the batch's own error, or the result of
   * the output that carries this call's id.
   */
  ghost predicate OwnResult(live: seq<CallContext>, answer: Answer, i: nat, r: RpcResult)
    requires i < |live|
  {
    match answer
    case One(result) => r == result
    case Many(Err(e)) => r == Err(e)
    case Many(Ok(outputs)) =>
      if Accepts(RequestIds(live), outputs)
      then exists j :: 0 <= j < |outputs| && Entry(outputs[j]) == Ok((live[i].id, r))
      else BatchResult(RequestIds(live), outputs).Err? && r == Err(BatchResult(RequestIds(live), outputs).error)
  }

  lemma ResultIsOwn(live: seq<CallContext>, answer: Answer, i: nat)
    requires Fits(live, answer) && i < |live|
    ensures |Results(live, answer)| == |live| && OwnResult(live, answer, i, Results(live, answer)[i])
  {
    if answer.Many? && answer.outputs.Ok? {
      var ids, outputs := RequestIds(live), answer.outputs.value;
      BatchAcceptance(ids, outputs);
      if Accepts(ids, outputs) {
        BatchPairing(ids, outputs, i);
      }
    }
  }

  // ---- Transitions ---------------------------------------------------------------------------

  /** `for_each_concurrent` polls the batch stream only while there is room for another future. */
  predicate HasRoom(c: Configuration, s: Worker) {
    c.maxConcurrentRequests.Some? ==> |s.futures| < c.maxConcurrentRequests.value
  }

  predicate Enabled(c: Configuration, s: Worker, step: Step) {
    match step
    case Enqueue(_) => true
    case Cancel(_) => true
    case Begin => HasRoom(c, s) && s.chunk == [] && s.queue != []
    case Grow => HasRoom(c, s) && s.chunk != [] && |s.chunk| < c.maxBatchLen && s.queue != []
    // Items are polled before the delay, so a chunk that still has room is cut only when the queue is empty.
    case Cut => HasRoom(c, s) && s.chunk != [] && (|s.chunk| >= c.maxBatchLen || s.queue == [])
    case Dispatch(n) => n in s.futures && s.futures[n].Ready?
    case Complete(n, answer) => n in s.futures && s.futures[n].Awaiting? && Fits(s.futures[n].live, answer)
  }

  function Apply(c: Configuration, s: Worker, step: Step): Worker
    requires Enabled(c, s, step)
  {
    match step
    case Enqueue(id) =>
      var call := CallContext(id, |s.enqueued|);
      s.(queue := s.queue + [call], enqueued := s.enqueued + [call])
    case Cancel(sender) => s.(cancelled := s.cancelled + {sender})
    case Begin => s.(chunk := [s.queue[0]], queue := s.queue[1..])
    case Grow => s.(chunk := s.chunk + [s.queue[0]], queue := s.queue[1..])
    case Cut => s.(cut := s.cut + [s.chunk], futures := s.futures[|s.cut| := Ready(s.chunk)], chunk := [])
    case Dispatch(n) =>
      var live := Live(s.futures[n].batch, s.cancelled);
      s.(dispatched := s.dispatched[n := live],
         futures := if live == [] then s.futures - {n} else s.futures[n := Awaiting(live)])
    case Complete(n, answer) =>
      var live := s.futures[n].live;
      s.(answers := s.answers[n := answer],
         replies := s.replies + Zip(live, Results(live, answer)),
         futures := s.futures - {n})
  }

  ghost predicate IsStep(c: Configuration, run: seq<Worker>, steps: seq<Step>, i: nat)
    requires i < |steps| && i + 1 < |run|
  {
    Enabled(c, run[i], steps[i]) && run[i + 1] == Apply(c, run[i], steps[i])
  }

  ghost predicate IsRun(c: Configuration, run: seq<Worker>, steps: seq<Step>) {
    && |run| == |steps| + 1
    && run[0] == Initial
    && forall i :: 0 <= i < |steps| ==> IsStep(c, run, steps, i)
  }

  // ---- What every reachable state satisfies --------------------------------------------------

  /** Nothing is lost, duplicated or reordered on the way from the queue into the batches. */
  ghost predicate OrderKept(s: Worker) {
    && Flatten(s.cut) + s.chunk + s.queue == s.enqueued
    && forall i :: 0 <= i < |s.enqueued| ==> s.enqueued[i].sender == i
  }

  ghost predicate SizesBounded(c: Configuration, s: Worker) {
    && |s.chunk| <= Max(1, c.maxBatchLen)
    && forall n :: 0 <= n < |s.cut| ==> 1 <= |s.cut[n]| <= Max(1, c.maxBatchLen)
  }

  ghost predicate ConcurrencyBounded(c: Configuration, s: Worker) {
    c.maxConcurrentRequests.Some? ==> |s.futures| <= c.maxConcurrentRequests.value
  }

  /** The calls sent to the node for batch n are its calls minus some of the cancelled ones. */
  ghost predicate DispatchedLive(s: Worker, n: nat)
    requires n in s.dispatched
  {
    n < |s.cut| && exists gone: set<nat> :: gone <= s.cancelled && s.dispatched[n] == Live(s.cut[n], gone)
  }

  /** Each batch is waiting, awaiting its answer, or finished. */
  ghost predicate StatesTracked(s: Worker) {
    && (forall n :: n in s.futures || n in s.dispatched ==> n < |s.cut|)
    && (forall n :: 0 <= n < |s.cut| ==> n in s.futures || n in s.dispatched)
    && (forall n :: n in s.futures ==>
          if n in s.dispatched then s.futures[n] == Awaiting(s.dispatched[n]) && s.dispatched[n] != []
          else s.futures[n] == Ready(s.cut[n]))
    && (forall n :: n in s.answers <==> n in s.dispatched && n !in s.futures && s.dispatched[n] != [])
    && (forall n :: n in s.answers ==> Fits(s.dispatched[n], s.answers[n]))
  }

  ghost predicate AllDispatchedLive(s: Worker) {
    forall n :: n in s.dispatched ==> DispatchedLive(s, n)
  }

  /** Each batch is in one state, and `dispatched` is what was live at dispatch. */
  ghost predicate FuturesTracked(s: Worker) {
    StatesTracked(s) && AllDispatchedLive(s)
  }

  ghost predicate IsReplyOf(s: Worker, n: nat, i: nat, r: Reply) {
    && n in s.answers && n in s.dispatched && i < |s.dispatched[n]|
    && r.sender == s.dispatched[n][i].sender
    && OwnResult(s.dispatched[n], s.answers[n], i, r.result)
  }

  ghost predicate NoneTwice(s: Worker) {
    forall a, b :: 0 <= a < b < |s.replies| ==> s.replies[a].sender != s.replies[b].sender
  }

  ghost predicate Backed(s: Worker, r: Reply) {
    exists n: nat, i: nat :: IsReplyOf(s, n, i, r)
  }

  ghost predicate Replied(s: Worker, sender: nat) {
    exists a :: 0 <= a < |s.replies| && s.replies[a].sender == sender
  }

  /** No call is answered twice, every reply is its call's own, and every call of an answered batch has one. */
  ghost predicate RepliesExact(s: Worker) {
    && NoneTwice(s)
    && (forall a :: 0 <= a < |s.replies| ==> Backed(s, s.replies[a]))
    && (forall n, i :: n in s.answers && n in s.dispatched && 0 <= i < |s.dispatched[n]| ==>
          Replied(s, s.dispatched[n][i].sender))
  }

  ghost predicate Safe(c: Configuration, s: Worker) {
    OrderKept(s) && SizesBounded(c, s) && ConcurrencyBounded(c, s) && FuturesTracked(s) && RepliesExact(s)
  }

  // ---- Proofs --------------------------------------------------------------------------------

  lemma {:induction false} FlattenAt(ss: seq<seq<CallContext>>, n: nat, k: nat)
    requires n < |ss| && k < |ss[n]|
    ensures |Flatten(ss[..n])| + k < |Flatten(ss)|
    ensures Flatten(ss)[|Flatten(ss[..n])| + k] == ss[n][k]
  {
    if n == 0 {
    } else {
      FlattenAt(ss[1..], n - 1, k);
      assert ss[..n][1..] == ss[1..][..n - 1];
    }
  }

  lemma {:induction false} FlattenMonotone(ss: seq<seq<CallContext>>, m: nat, n: nat)
    requires m <= n <= |ss|
    ensures |Flatten(ss[..m])| <= |Flatten(ss[..n])|
    ensures m < n ==> |Flatten(ss[..m])| + |ss[m]| <= |Flatten(ss[..n])|
  {
    if m == n {
    } else {
      assert ss[..n] == ss[..n - 1] + [ss[n - 1]];
      FlattenSnoc(ss[..n - 1], ss[n - 1]);
      FlattenMonotone(ss, m, n - 1);
    }
  }

  /** Calls at different places of the cut batches have different senders. */
  lemma SendersUnique(s: Worker, m: nat, i: nat, n: nat, k: nat)
    requires OrderKept(s) && m < |s.cut| && n < |s.cut| && i < |s.cut[m]| && k < |s.cut[n]|
    requires m != n || i != k
    ensures s.cut[m][i].sender != s.cut[n][k].sender
  {
    FlattenAt(s.cut, m, i);
    FlattenAt(s.cut, n, k);
    var a, b := |Flatten(s.cut[..m])| + i, |Flatten(s.cut[..n])| + k;
    assert s.enqueued[a] == s.cut[m][i] && s.enqueued[b] == s.cut[n][k];
    FlattenMonotone(s.cut, if m < n then m else n, if m < n then n else m);
  }

  /** Filtering keeps elements at increasing positions. */
  lemma {:induction false} LivePosition(batch: seq<CallContext>, cancelled: set<nat>, i: nat, j: nat)
    requires i < j < |Live(batch, cancelled)|
    ensures exists a, b :: 0 <= a < b < |batch| && batch[a] == Live(batch, cancelled)[i] && batch[b] == Live(batch, cancelled)[j]
  {
    var p := (c: CallContext) => c.sender !in cancelled;
    var rest := batch[1..];
    if p(batch[0]) {
      if i > 0 {
        LivePosition(rest, cancelled, i - 1, j - 1);
        var a, b :| 0 <= a < b < |rest| && rest[a] == Live(rest, cancelled)[i - 1] && rest[b] == Live(rest, cancelled)[j - 1];
        assert batch[a + 1] == Live(batch, cancelled)[i] && batch[b + 1] == Live(batch, cancelled)[j];
      } else {
        assert Live(batch, cancelled)[j] in rest;
        var b :| 0 <= b < |rest| && rest[b] == Live(batch, cancelled)[j];
        assert batch[0] == Live(batch, cancelled)[0] && batch[b + 1] == Live(batch, cancelled)[j];
      }
    } else {
      LivePosition(rest, cancelled, i, j);
      var a, b :| 0 <= a < b < |rest| && rest[a] == Live(rest, cancelled)[i] && rest[b] == Live(rest, cancelled)[j];
      assert batch[a + 1] == Live(batch, cancelled)[i] && batch[b + 1] == Live(batch, cancelled)[j];
    }
  }

  /** A dispatched call sits in its batch, so calls of different batches or positions have different senders. */
  lemma DispatchedSendersUnique(s: Worker, m: nat, i: nat, n: nat, k: nat)
    requires OrderKept(s) && FuturesTracked(s) && m in s.dispatched && n in s.dispatched
    requires i < |s.dispatched[m]| && k < |s.dispatched[n]| && (m != n || i < k)
    ensures s.dispatched[m][i].sender != s.dispatched[n][k].sender
  {
    assert DispatchedLive(s, m) && DispatchedLive(s, n);
    if m == n {
      var gone :| gone <= s.cancelled && s.dispatched[n] == Live(s.cut[n], gone);
      LivePosition(s.cut[n], gone, i, k);
      var a, b :| 0 <= a < b < |s.cut[n]| && s.cut[n][a] == s.dispatched[n][i] && s.cut[n][b] == s.dispatched[n][k];
      SendersUnique(s, n, a, n, b);
    } else {
      assert s.dispatched[m][i] in s.cut[m] && s.dispatched[n][k] in s.cut[n];
      var a :| 0 <= a < |s.cut[m]| && s.cut[m][a] == s.dispatched[m][i];
      var b :| 0 <= b < |s.cut[n]| && s.cut[n][b] == s.dispatched[n][k];
      SendersUnique(s, m, a, n, b);
    }
  }

  lemma HeadMoves<T>(a: seq<T>, b: seq<T>, c: seq<T>, x: T)
    ensures a + b + (c + [x]) == (a + b + c) + [x]
    ensures c != [] ==> a + (b + [c[0]]) + c[1..] == a + b + c
  {
  }

  lemma OrderStep(c: Configuration, s: Worker, step: Step)
    requires OrderKept(s) && Enabled(c, s, step)
    ensures OrderKept(Apply(c, s, step))
  {
    var t := Apply(c, s, step);
    match step {
      case Enqueue(id) => HeadMoves(Flatten(s.cut), s.chunk, s.queue, CallContext(id, |s.enqueued|));
      case Begin => HeadMoves(Flatten(s.cut), s.chunk, s.queue, s.queue[0]);
        assert [] + [s.queue[0]] == t.chunk;
      case Grow => HeadMoves(Flatten(s.cut), s.chunk, s.queue, s.queue[0]);
      case Cut => FlattenSnoc(s.cut, s.chunk);
        assert (Flatten(s.cut) + s.chunk) + [] == Flatten(s.cut) + s.chunk;
      case _ =>
    }
  }

  lemma SizesStep(c: Configuration, s: Worker, step: Step)
    requires SizesBounded(c, s) && Enabled(c, s, step)
    ensures SizesBounded(c, Apply(c, s, step))
  {
  }

  lemma ConcurrencyStep(c: Configuration, s: Worker, step: Step)
    requires ConcurrencyBounded(c, s) && Enabled(c, s, step)
    ensures ConcurrencyBounded(c, Apply(c, s, step))
  {
    var t := Apply(c, s, step);
    match step {
      case Cut => OneMoreKey(s.futures, |s.cut|, Ready(s.chunk));
      case Dispatch(n) =>
        SameKeys(s.futures, n, t.futures);
      case Complete(n, _) => SameKeys(s.futures, n, t.futures);
      case _ =>
    }
  }

  lemma OneMoreKey(m: map<nat, Future>, n: nat, f: Future)
    ensures |m[n := f]| <= |m| + 1
  {
    assert m[n := f].Keys == m.Keys + {n};
    assert |m| == |m.Keys| && |m[n := f]| == |m[n := f].Keys|;
  }

  lemma SameKeys(m: map<nat, Future>, n: nat, r: map<nat, Future>)
    requires n in m && (r.Keys == m.Keys || r.Keys == m.Keys - {n})
    ensures |r| <= |m|
  {
    assert |m| == |m.Keys| && |r| == |r.Keys|;
    assert |m.Keys - {n}| == |m.Keys| - 1;
  }

  /** What was dispatched stays the live part of its batch when callers give up or batches are added. */
  lemma LiveKept(s: Worker, t: Worker, n: nat)
    requires n in s.dispatched && DispatchedLive(s, n) && s.cancelled <= t.cancelled && s.cut <= t.cut
    requires n in t.dispatched && t.dispatched[n] == s.dispatched[n]
    ensures DispatchedLive(t, n)
  {
    var gone :| gone <= s.cancelled && s.dispatched[n] == Live(s.cut[n], gone);
    assert gone <= t.cancelled && t.dispatched[n] == Live(t.cut[n], gone);
  }

  lemma CutStates(c: Configuration, s: Worker)
    requires StatesTracked(s) && Enabled(c, s, Cut)
    ensures StatesTracked(Apply(c, s, Cut))
  {
  }

  lemma CutFutures(c: Configuration, s: Worker)
    requires FuturesTracked(s) && Enabled(c, s, Cut)
    ensures FuturesTracked(Apply(c, s, Cut))
  {
    var t := Apply(c, s, Cut);
    CutStates(c, s);
    forall n | n in t.dispatched ensures DispatchedLive(t, n) { LiveKept(s, t, n); }
  }

  lemma DispatchStates(c: Configuration, s: Worker, k: nat)
    requires StatesTracked(s) && Enabled(c, s, Dispatch(k))
    ensures StatesTracked(Apply(c, s, Dispatch(k)))
  {
  }

  lemma DispatchFutures(c: Configuration, s: Worker, k: nat)
    requires FuturesTracked(s) && Enabled(c, s, Dispatch(k))
    ensures FuturesTracked(Apply(c, s, Dispatch(k)))
  {
    var t := Apply(c, s, Dispatch(k));
    DispatchStates(c, s, k);
    forall n | n in t.dispatched ensures DispatchedLive(t, n) {
      if n == k {
        assert s.cancelled <= t.cancelled && t.dispatched[k] == Live(t.cut[k], s.cancelled);
      } else {
        LiveKept(s, t, n);
      }
    }
  }

  lemma CompleteFutures(c: Configuration, s: Worker, k: nat, answer: Answer)
    requires FuturesTracked(s) && Enabled(c, s, Complete(k, answer))
    ensures FuturesTracked(Apply(c, s, Complete(k, answer)))
  {
    var t := Apply(c, s, Complete(k, answer));
    forall n | n in t.dispatched ensures DispatchedLive(t, n) { LiveKept(s, t, n); }
  }

  lemma OtherFutures(s: Worker, t: Worker)
    requires FuturesTracked(s) && s.cancelled <= t.cancelled
    requires t.futures == s.futures && t.dispatched == s.dispatched && t.cut == s.cut && t.answers == s.answers
    ensures FuturesTracked(t)
  {
    forall n | n in t.dispatched ensures DispatchedLive(t, n) { LiveKept(s, t, n); }
  }

  lemma RepliesKept(s: Worker, t: Worker)
    requires RepliesExact(s) && t.replies == s.replies && t.answers == s.answers
    requires forall n :: n in s.answers ==> n in s.dispatched && n in t.dispatched && t.dispatched[n] == s.dispatched[n]
    ensures RepliesExact(t)
  {
    assert NoneTwice(t);
    forall a | 0 <= a < |t.replies| ensures Backed(t, t.replies[a]) {
      assert Backed(s, s.replies[a]);
      var n: nat, i: nat :| IsReplyOf(s, n, i, s.replies[a]);
      assert IsReplyOf(t, n, i, t.replies[a]);
    }
    forall n, i | n in t.answers && n in t.dispatched && 0 <= i < |t.dispatched[n]|
      ensures Replied(t, t.dispatched[n][i].sender)
    {
      assert Replied(s, s.dispatched[n][i].sender);
    }
  }

  lemma BackedKept(s: Worker, t: Worker, r: Reply)
    requires Backed(s, r) && t.dispatched == s.dispatched
    requires forall n :: n in s.answers ==> n in t.answers && t.answers[n] == s.answers[n]
    ensures Backed(t, r)
  {
    var n: nat, i: nat :| IsReplyOf(s, n, i, r);
    assert IsReplyOf(t, n, i, r);
  }

  /** `t` is `s` after batch n got its answer. */
  ghost predicate Answered(s: Worker, t: Worker, n: nat, answer: Answer) {
    && n in s.dispatched && s.dispatched[n] != [] && n !in s.answers && Fits(s.dispatched[n], answer)
    && t.dispatched == s.dispatched && t.answers == s.answers[n := answer] && t.cut == s.cut
    && |t.replies| == |s.replies| + |s.dispatched[n]|
    && (forall a :: 0 <= a < |s.replies| ==> t.replies[a] == s.replies[a])
    && (forall a :: |s.replies| <= a < |t.replies| ==> IsReplyOf(t, n, a - |s.replies|, t.replies[a]))
  }

  lemma NewReplyIs(live: seq<CallContext>, answer: Answer, a: nat)
    requires live != [] && Fits(live, answer) && a < |live|
    ensures |Zip(live, Results(live, answer))| == |live|
    ensures Zip(live, Results(live, answer))[a].sender == live[a].sender
    ensures OwnResult(live, answer, a, Zip(live, Results(live, answer))[a].result)
  {
    ResultIsOwn(live, answer, a);
  }

  lemma CompleteAnswers(c: Configuration, s: Worker, n: nat, answer: Answer)
    requires FuturesTracked(s) && Enabled(c, s, Complete(n, answer))
    ensures Answered(s, Apply(c, s, Complete(n, answer)), n, answer)
  {
    var t := Apply(c, s, Complete(n, answer));
    var live := s.dispatched[n];
    var zipped := Zip(live, Results(live, answer));
    NewReplyIs(live, answer, 0);
    assert t.replies == s.replies + zipped;
    forall a | |s.replies| <= a < |t.replies| ensures IsReplyOf(t, n, a - |s.replies|, t.replies[a]) {
      NewReplyIs(live, answer, a - |s.replies|);
      assert t.replies[a] == zipped[a - |s.replies|];
    }
  }

  lemma AnsweredBacked(s: Worker, t: Worker, n: nat, answer: Answer)
    requires RepliesExact(s) && Answered(s, t, n, answer)
    ensures forall a :: 0 <= a < |t.replies| ==> Backed(t, t.replies[a])
  {
    forall a | 0 <= a < |t.replies| ensures Backed(t, t.replies[a]) {
      if a < |s.replies| {
        BackedKept(s, t, s.replies[a]);
      } else {
        assert IsReplyOf(t, n, a - |s.replies|, t.replies[a]);
      }
    }
  }

  lemma NewReply(s: Worker, t: Worker, n: nat, answer: Answer, a: nat)
    requires Answered(s, t, n, answer) && |s.replies| <= a < |t.replies|
    ensures a - |s.replies| < |s.dispatched[n]| && t.replies[a].sender == s.dispatched[n][a - |s.replies|].sender
  {
    assert IsReplyOf(t, n, a - |s.replies|, t.replies[a]);
  }

  lemma OldReply(s: Worker, t: Worker, n: nat, answer: Answer, a: nat)
    requires RepliesExact(s) && Answered(s, t, n, answer) && a < |s.replies|
    ensures n !in s.answers && n in s.dispatched && t.replies[a] == s.replies[a] && Backed(s, s.replies[a])
  {
  }

  lemma SourceOf(s: Worker, r: Reply) returns (m: nat, i: nat)
    requires Backed(s, r)
    ensures m in s.answers && m in s.dispatched && i < |s.dispatched[m]| && r.sender == s.dispatched[m][i].sender
  {
    m, i :| IsReplyOf(s, m, i, r);
  }

  lemma OldSource(s: Worker, t: Worker, n: nat, answer: Answer, a: nat) returns (m: nat, i: nat)
    requires Answered(s, t, n, answer) && a < |s.replies| && Backed(s, s.replies[a])
    ensures m != n && m in s.dispatched && i < |s.dispatched[m]| && t.replies[a].sender == s.dispatched[m][i].sender
  {
    m, i := SourceOf(s, s.replies[a]);
  }

  lemma OldAndNewDiffer(s: Worker, t: Worker, n: nat, answer: Answer, a: nat, b: nat)
    requires OrderKept(s) && FuturesTracked(s) && Answered(s, t, n, answer)
    requires a < |s.replies| <= b < |t.replies| && Backed(s, s.replies[a])
    ensures t.replies[a].sender != t.replies[b].sender
  {
    NewReply(s, t, n, answer, b);
    var m, i := OldSource(s, t, n, answer, a);
    DispatchedSendersUnique(s, m, i, n, b - |s.replies|);
  }

  lemma TwoNewDiffer(s: Worker, t: Worker, n: nat, answer: Answer, a: nat, b: nat)
    requires OrderKept(s) && FuturesTracked(s) && Answered(s, t, n, answer)
    requires |s.replies| <= a < b < |t.replies|
    ensures t.replies[a].sender != t.replies[b].sender
  {
    NewReply(s, t, n, answer, a);
    NewReply(s, t, n, answer, b);
    DispatchedSendersUnique(s, n, a - |s.replies|, n, b - |s.replies|);
  }

  lemma TwoOldDiffer(s: Worker, t: Worker, n: nat, answer: Answer, a: nat, b: nat)
    requires NoneTwice(s) && Answered(s, t, n, answer) && a < b < |s.replies|
    ensures t.replies[a].sender != t.replies[b].sender
  {
    assert s.replies[a].sender != s.replies[b].sender;
  }

  lemma AnsweredNoneTwice(s: Worker, t: Worker, n: nat, answer: Answer, a: nat, b: nat)
    requires OrderKept(s) && FuturesTracked(s) && RepliesExact(s) && Answered(s, t, n, answer)
    requires a < b < |t.replies|
    ensures t.replies[a].sender != t.replies[b].sender
  {
    if b >= |s.replies| {
      if a < |s.replies| {
        OldReply(s, t, n, answer, a);
        OldAndNewDiffer(s, t, n, answer, a, b);
      } else {
        TwoNewDiffer(s, t, n, answer, a, b);
      }
    } else {
      TwoOldDiffer(s, t, n, answer, a, b);
    }
  }

  lemma AnsweredReplied(s: Worker, t: Worker, n: nat, answer: Answer, m: nat, i: nat)
    requires RepliesExact(s) && Answered(s, t, n, answer)
    requires m in t.answers && m in t.dispatched && i < |t.dispatched[m]|
    ensures Replied(t, t.dispatched[m][i].sender)
  {
    if m == n {
      var a := |s.replies| + i;
      assert IsReplyOf(t, n, a - |s.replies|, t.replies[a]);
    } else {
      assert Replied(s, s.dispatched[m][i].sender);
      var a :| 0 <= a < |s.replies| && s.replies[a].sender == s.dispatched[m][i].sender;
      assert t.replies[a] == s.replies[a];
    }
  }

  lemma CompleteStep(c: Configuration, s: Worker, n: nat, answer: Answer)
    requires OrderKept(s) && FuturesTracked(s) && RepliesExact(s) && Enabled(c, s, Complete(n, answer))
    ensures RepliesExact(Apply(c, s, Complete(n, answer)))
  {
    var t := Apply(c, s, Complete(n, answer));
    CompleteAnswers(c, s, n, answer);
    AnsweredBacked(s, t, n, answer);
    forall a, b | 0 <= a < b < |t.replies| ensures t.replies[a].sender != t.replies[b].sender {
      AnsweredNoneTwice(s, t, n, answer, a, b);
    }
    forall m, i | m in t.answers && m in t.dispatched && 0 <= i < |t.dispatched[m]|
      ensures Replied(t, t.dispatched[m][i].sender)
    {
      AnsweredReplied(s, t, n, answer, m, i);
    }
  }

  lemma FuturesStep(c: Configuration, s: Worker, step: Step)
    requires FuturesTracked(s) && Enabled(c, s, step)
    ensures FuturesTracked(Apply(c, s, step))
  {
    match step {
      case Complete(n, answer) => CompleteFutures(c, s, n, answer);
      case Cut => CutFutures(c, s);
      case Dispatch(n) => DispatchFutures(c, s, n);
      case _ => OtherFutures(s, Apply(c, s, step));
    }
  }

  lemma RepliesStep(c: Configuration, s: Worker, step: Step)
    requires OrderKept(s) && FuturesTracked(s) && RepliesExact(s) && Enabled(c, s, step)
    ensures RepliesExact(Apply(c, s, step))
  {
    match step {
      case Complete(n, answer) => CompleteStep(c, s, n, answer);
      case _ => RepliesKept(s, Apply(c, s, step));
    }
  }

  lemma SafeStep(c: Configuration, s: Worker, step: Step)
    requires Safe(c, s) && Enabled(c, s, step)
    ensures Safe(c, Apply(c, s, step))
  {
    OrderStep(c, s, step);
    SizesStep(c, s, step);
    ConcurrencyStep(c, s, step);
    FuturesStep(c, s, step);
    RepliesStep(c, s, step);
  }

  /** Every state of every run of the worker is safe. */
  lemma {:induction false} EveryRunSafe(c: Configuration, run: seq<Worker>, steps: seq<Step>, k: nat)
    requires ValidConfiguration(c) && IsRun(c, run, steps) && k < |run|
    ensures Safe(c, run[k])
  {
    if k == 0 {
    } else {
      EveryRunSafe(c, run, steps, k - 1);
      assert IsStep(c, run, steps, k - 1);
      SafeStep(c, run[k - 1], steps[k - 1]);
    }
  }

  ghost predicate Quiescent(s: Worker) {
    s.queue == [] && s.chunk == [] && s.futures == map[]
  }

  lemma {:induction false} Locate(ss: seq<seq<CallContext>>, p: nat) returns (n: nat, k: nat)
    requires p < |Flatten(ss)|
    ensures n < |ss| && k < |ss[n]| && ss[n][k] == Flatten(ss)[p]
  {
    if p < |ss[0]| {
      n, k := 0, p;
    } else {
      n, k := Locate(ss[1..], p - |ss[0]|);
      n := n + 1;
    }
  }

  // ---- Which calls are answered ----------------------------------------------------------------

  /** Batch n was dispatched without the calls of `gone`. */
  ghost predicate OnRecord(s: Worker, n: nat, batch: seq<CallContext>, gone: set<nat>) {
    n < |s.cut| && s.cut[n] == batch && n in s.dispatched && s.dispatched[n] == Live(batch, gone)
  }

  lemma DispatchKept(c: Configuration, s: Worker, step: Step, n: nat, batch: seq<CallContext>, gone: set<nat>)
    requires Safe(c, s) && Enabled(c, s, step) && OnRecord(s, n, batch, gone)
    ensures OnRecord(Apply(c, s, step), n, batch, gone)
  {
    assert step.Dispatch? ==> step.n != n;
  }

  lemma DispatchNow(c: Configuration, s: Worker, n: nat)
    requires Safe(c, s) && Enabled(c, s, Dispatch(n))
    ensures n < |s.cut| && OnRecord(Apply(c, s, Dispatch(n)), n, s.cut[n], s.cancelled)
  {
    assert n in s.futures && n !in s.dispatched;
  }

  lemma RecordMade(c: Configuration, run: seq<Worker>, steps: seq<Step>, i: nat, n: nat)
    requires ValidConfiguration(c) && IsRun(c, run, steps) && i < |steps| && steps[i] == Dispatch(n)
    ensures n < |run[i].cut| && OnRecord(run[i + 1], n, run[i].cut[n], run[i].cancelled)
  {
    EveryRunSafe(c, run, steps, i);
    assert IsStep(c, run, steps, i);
    DispatchNow(c, run[i], n);
  }

  lemma RecordKept(c: Configuration, run: seq<Worker>, steps: seq<Step>, j: nat, n: nat, batch: seq<CallContext>, gone: set<nat>)
    requires ValidConfiguration(c) && IsRun(c, run, steps) && j < |steps| && OnRecord(run[j], n, batch, gone)
    ensures OnRecord(run[j + 1], n, batch, gone)
  {
    EveryRunSafe(c, run, steps, j);
    assert IsStep(c, run, steps, j);
    DispatchKept(c, run[j], steps[j], n, batch, gone);
  }

  /** What was live when batch n was dispatched stays on record. */
  lemma {:induction false} DispatchedStays(c: Configuration, run: seq<Worker>, steps: seq<Step>, i: nat, j: nat, n: nat)
    requires ValidConfiguration(c) && IsRun(c, run, steps) && i < j < |run| && steps[i] == Dispatch(n)
    ensures n < |run[i].cut| && OnRecord(run[j], n, run[i].cut[n], run[i].cancelled)
    decreases j
  {
    if j == i + 1 {
      RecordMade(c, run, steps, i, n);
    } else {
      DispatchedStays(c, run, steps, i, j - 1, n);
      RecordKept(c, run, steps, j - 1, n, run[i].cut[n], run[i].cancelled);
    }
  }

  /** What is on record as dispatched was dispatched by some step. */
  lemma {:induction false} DispatchHappened(c: Configuration, run: seq<Worker>, steps: seq<Step>, j: nat, n: nat) returns (i: nat)
    requires IsRun(c, run, steps) && j < |run| && n in run[j].dispatched
    ensures i < j && steps[i] == Dispatch(n)
  {
    if j == 0 {
      assert false;
    } else {
      assert IsStep(c, run, steps, j - 1);
      if n in run[j - 1].dispatched {
        i := DispatchHappened(c, run, steps, j - 1, n);
      } else {
        i := j - 1;
      }
    }
  }

  lemma LiveIsReplied(s: Worker, n: nat, k: nat, gone: set<nat>)
    requires StatesTracked(s) && RepliesExact(s) && n in s.dispatched && n !in s.futures
    requires n < |s.cut| && k < |s.cut[n]| && s.dispatched[n] == Live(s.cut[n], gone)
    requires s.cut[n][k].sender !in gone
    ensures Replied(s, s.cut[n][k].sender)
  {
    assert s.cut[n][k] in s.dispatched[n];
    var i :| 0 <= i < |s.dispatched[n]| && s.dispatched[n][i] == s.cut[n][k];
    assert n in s.answers;
  }

  lemma RepliedWasLive(s: Worker, n: nat, k: nat, gone: set<nat>)
    requires OrderKept(s) && FuturesTracked(s) && RepliesExact(s) && n in s.dispatched
    requires n < |s.cut| && k < |s.cut[n]| && s.dispatched[n] == Live(s.cut[n], gone)
    requires Replied(s, s.cut[n][k].sender)
    ensures s.cut[n][k].sender !in gone
  {
    var a :| 0 <= a < |s.replies| && s.replies[a].sender == s.cut[n][k].sender;
    var m, x := SourceOf(s, s.replies[a]);
    assert DispatchedLive(s, m) && s.dispatched[m][x] in s.cut[m];
    var y :| 0 <= y < |s.cut[m]| && s.cut[m][y] == s.dispatched[m][x];
    if m != n || y != k { SendersUnique(s, m, y, n, k); }
  }

  /**
   * The moment that decides is the dispatch: as soon as a dispatched batch has left the futures, each of its calls has
   * its reply exactly if its caller had not given up when the batch was dispatched, whatever was cancelled later.
   */
  lemma DispatchDecides(c: Configuration, run: seq<Worker>, steps: seq<Step>, i: nat, j: nat, n: nat, k: nat)
    requires ValidConfiguration(c) && IsRun(c, run, steps) && i < j < |run| && steps[i] == Dispatch(n)
    requires n < |run[i].cut| && k < |run[i].cut[n]| && n !in run[j].futures
    ensures Replied(run[j], run[i].cut[n][k].sender) <==> run[i].cut[n][k].sender !in run[i].cancelled
    ensures NoneTwice(run[j])
  {
    DispatchedStays(c, run, steps, i, j, n);
    EveryRunSafe(c, run, steps, j);
    if run[i].cut[n][k].sender !in run[i].cancelled { LiveIsReplied(run[j], n, k, run[i].cancelled); }
    if Replied(run[j], run[i].cut[n][k].sender) { RepliedWasLive(run[j], n, k, run[i].cancelled); }
  }

  /** Step i dispatches the batch with this call, and the caller has already given up. */
  ghost predicate DispatchedTooLate(run: seq<Worker>, steps: seq<Step>, i: nat, n: nat, k: nat, sender: nat) {
    && i < |steps| && i < |run| && steps[i] == Dispatch(n)
    && n < |run[i].cut| && k < |run[i].cut[n]| && run[i].cut[n][k].sender == sender && sender in run[i].cancelled
  }

  ghost predicate CancelledAtDispatch(run: seq<Worker>, steps: seq<Step>, sender: nat) {
    exists i: nat, n: nat, k: nat :: DispatchedTooLate(run, steps, i, n, k, sender)
  }

  /** In a quiescent state the batch of every call has been dispatched. */
  lemma DispatchOf(c: Configuration, run: seq<Worker>, steps: seq<Step>, sender: nat) returns (i: nat, n: nat, k: nat)
    requires ValidConfiguration(c) && IsRun(c, run, steps)
    requires Quiescent(run[|steps|]) && sender < |run[|steps|].enqueued|
    ensures i < |steps| && steps[i] == Dispatch(n)
    ensures n < |run[i].cut| && k < |run[i].cut[n]| && run[i].cut[n][k].sender == sender
  {
    var s := run[|steps|];
    EveryRunSafe(c, run, steps, |steps|);
    assert Flatten(s.cut) == s.enqueued;
    n, k := Locate(s.cut, sender);
    i := DispatchHappened(c, run, steps, |steps|, n);
    DispatchedStays(c, run, steps, i, |steps|, n);
  }

  /** Once the worker has nothing left to do, a call has its one reply exactly if it was not cancelled at its dispatch. */
  lemma NothingForgotten(c: Configuration, run: seq<Worker>, steps: seq<Step>, sender: nat)
    requires ValidConfiguration(c) && IsRun(c, run, steps)
    requires Quiescent(run[|steps|]) && sender < |run[|steps|].enqueued|
    ensures Replied(run[|steps|], sender) <==> !CancelledAtDispatch(run, steps, sender)
    ensures NoneTwice(run[|steps|])
  {
    var i, n, k := DispatchOf(c, run, steps, sender);
    DispatchDecides(c, run, steps, i, |steps|, n, k);
    if CancelledAtDispatch(run, steps, sender) {
      var i', n', k' :| DispatchedTooLate(run, steps, i', n', k', sender);
      DispatchDecides(c, run, steps, i', |steps|, n', k');
    } else {
      assert !DispatchedTooLate(run, steps, i, n, k, sender);
    }
  }

  // ---- Which calls share a batch ---------------------------------------------------------------

  /** The largest batch: the first call of a chunk is taken before its length is looked at. */
  function FullLength(c: Configuration): nat {
    Max(1, c.maxBatchLen)
  }

  /** The calls in order, m at a time. */
  function Chunks(calls: seq<CallContext>, m: nat): seq<seq<CallContext>>
    requires m > 0
  {
    if calls == [] then []
    else if |calls| <= m then [calls]
    else [calls[..m]] + Chunks(calls[m..], m)
  }

  /** So there are as many as it takes, all but the last are full, and together they are the calls. */
  lemma {:induction false} ChunksSpec(calls: seq<CallContext>, m: nat)
    requires m > 0
    ensures m * (|Chunks(calls, m)| - 1) < |calls| <= m * |Chunks(calls, m)| || (calls == [] && Chunks(calls, m) == [])
    ensures forall n :: 0 <= n < |Chunks(calls, m)| - 1 ==> |Chunks(calls, m)[n]| == m
    ensures forall n :: 0 <= n < |Chunks(calls, m)| ==> 0 < |Chunks(calls, m)[n]| <= m
    ensures Flatten(Chunks(calls, m)) == calls
  {
    if |calls| <= m {
      if calls != [] { assert [calls][1..] == [] && calls + [] == calls; }
    } else {
      var rest := Chunks(calls[m..], m);
      ChunksSpec(calls[m..], m);
      assert ([calls[..m]] + rest)[1..] == rest && calls[..m] + calls[m..] == calls;
    }
  }

  lemma HeadChunk(chunk: seq<CallContext>, queue: seq<CallContext>, m: nat)
    requires m > 0 && 0 < |chunk| <= m && (|chunk| == m || queue == [])
    ensures Chunks(chunk + queue, m) == [chunk] + Chunks(queue, m)
  {
    if queue == [] {
      assert chunk + queue == chunk;
    } else {
      assert (chunk + queue)[..m] == chunk && (chunk + queue)[m..] == queue;
    }
  }

  /** Only a full chunk is cut while calls are waiting. */
  lemma CutWhen(c: Configuration, s: Worker)
    requires SizesBounded(c, s) && Enabled(c, s, Cut)
    ensures 0 < |s.chunk| <= FullLength(c) && (|s.chunk| == FullLength(c) || s.queue == [])
  {
  }

  /** Every batch that is not full was cut when no call was waiting. */
  lemma {:induction false} ShortBatchEmptiedQueue(c: Configuration, run: seq<Worker>, steps: seq<Step>, j: nat,
                                                  n: nat) returns (i: nat)
    requires ValidConfiguration(c) && IsRun(c, run, steps) && j < |run| && n < |run[j].cut|
    ensures i < j && steps[i] == Cut && run[i].chunk == run[j].cut[n]
    ensures |run[j].cut[n]| == FullLength(c) || run[i].queue == []
  {
    if j == 0 {
      assert false;
    } else {
      assert IsStep(c, run, steps, j - 1);
      if n < |run[j - 1].cut| {
        i := ShortBatchEmptiedQueue(c, run, steps, j - 1, n);
      } else {
        i := j - 1;
        EveryRunSafe(c, run, steps, i);
        CutWhen(c, run[i]);
      }
    }
  }

  /** What is still to be cut, in chunks, and what was cut since `cut` are the chunks of `calls`. */
  ghost predicate Chunked(c: Configuration, calls: seq<CallContext>, cut: seq<seq<CallContext>>, s: Worker) {
    cut + Chunks(calls, FullLength(c)) == s.cut + Chunks(s.chunk + s.queue, FullLength(c))
  }

  lemma ChunkedStep(c: Configuration, calls: seq<CallContext>, cut: seq<seq<CallContext>>, s: Worker, step: Step)
    requires SizesBounded(c, s) && Enabled(c, s, step) && !step.Enqueue? && Chunked(c, calls, cut, s)
    ensures Chunked(c, calls, cut, Apply(c, s, step))
  {
    var t := Apply(c, s, step);
    match step {
      case Begin => assert t.chunk + t.queue == s.chunk + s.queue;
      case Grow => assert t.chunk + t.queue == s.chunk + s.queue;
      case Cut =>
        CutWhen(c, s);
        HeadChunk(s.chunk, s.queue, FullLength(c));
        assert t.chunk + t.queue == s.queue;
        Regroup(s.cut, [s.chunk], Chunks(s.queue, FullLength(c)));
      case _ =>
    }
  }

  lemma {:induction false} ChunkedRun(c: Configuration, run: seq<Worker>, steps: seq<Step>, b: nat, j: nat)
    requires ValidConfiguration(c) && IsRun(c, run, steps) && b <= j < |run|
    requires forall k :: b <= k < j ==> !steps[k].Enqueue?
    ensures Chunked(c, run[b].chunk + run[b].queue, run[b].cut, run[j])
    decreases j
  {
    if b == j {
    } else {
      ChunkedRun(c, run, steps, b, j - 1);
      EveryRunSafe(c, run, steps, j - 1);
      assert IsStep(c, run, steps, j - 1);
      ChunkedStep(c, run[b].chunk + run[b].queue, run[b].cut, run[j - 1], steps[j - 1]);
    }
  }

  /** Nothing is in the queue or in the chunk. */
  ghost predicate Idle(s: Worker) {
    s.queue == [] && s.chunk == []
  }

  /** Until a chunk is begun, the calls gather in the queue. */
  lemma {:induction false} CallsGather(c: Configuration, run: seq<Worker>, steps: seq<Step>, i: nat, b: nat)
    requires IsRun(c, run, steps) && i <= b < |run| && Idle(run[i])
    requires forall k :: i <= k < b ==> !steps[k].Begin?
    ensures run[b].cut == run[i].cut && run[b].chunk == [] && run[b].enqueued == run[i].enqueued + run[b].queue
    decreases b
  {
    if i == b {
      assert run[i].enqueued + [] == run[i].enqueued;
    } else {
      CallsGather(c, run, steps, i, b - 1);
      assert IsStep(c, run, steps, b - 1);
      if steps[b - 1].Enqueue? {
        Regroup(run[i].enqueued, run[b - 1].queue, [CallContext(steps[b - 1].id, |run[b - 1].enqueued|)]);
      }
    }
  }

  /**
   * Calls that are all there before an idle worker begins its next chunk are cut into full batches, in order, with one
   * shorter batch at most, at the end.
   */
  lemma WaitingCallsAreChunked(c: Configuration, run: seq<Worker>, steps: seq<Step>, i: nat, b: nat, j: nat)
    requires ValidConfiguration(c) && IsRun(c, run, steps) && i <= b <= j < |run| && Idle(run[i]) && Idle(run[j])
    requires forall k :: i <= k < b ==> !steps[k].Begin?
    requires forall k :: b <= k < j ==> !steps[k].Enqueue?
    ensures run[i].enqueued <= run[j].enqueued
    ensures run[j].cut == run[i].cut + Chunks(run[j].enqueued[|run[i].enqueued|..], FullLength(c))
  {
    CallsGather(c, run, steps, i, b);
    ChunkedRun(c, run, steps, b, j);
    NothingEnqueued(c, run, steps, b, j);
    assert [] + run[b].queue == run[b].queue && run[j].chunk + run[j].queue == [];
    assert run[j].cut + [] == run[j].cut;
    assert run[j].enqueued[|run[i].enqueued|..] == run[b].queue;
  }

  lemma {:induction false} NothingEnqueued(c: Configuration, run: seq<Worker>, steps: seq<Step>, b: nat, j: nat)
    requires IsRun(c, run, steps) && b <= j < |run|
    requires forall k :: b <= k < j ==> !steps[k].Enqueue?
    ensures run[j].enqueued == run[b].enqueued
    decreases j
  {
    if b == j {
    } else {
      NothingEnqueued(c, run, steps, b, j - 1);
      assert IsStep(c, run, steps, j - 1);
    }
  }

  // ---- Progress ------------------------------------------------------------------------------

  /** Steps of the worker and of the node, as opposed to those of callers. */
  predicate IsWork(step: Step) {
    !step.Enqueue? && !step.Cancel?
  }

  ghost predicate Stuck(c: Configuration, s: Worker) {
    forall step :: IsWork(step) ==> !Enabled(c, s, step)
  }

  function WaitingSet(futures: map<nat, Future>): set<nat> {
    set n | n in futures && futures[n].Ready?
  }

  function AwaitingSet(futures: map<nat, Future>): set<nat> {
    set n | n in futures && futures[n].Awaiting?
  }

  /** An upper bound on the work steps left: four for a queued call, three in the chunk, two and one for a batch. */
  function WorkLeft(s: Worker): nat {
    4 * |s.queue| + 3 * |s.chunk| + 2 * |WaitingSet(s.futures)| + |AwaitingSet(s.futures)|
  }

  /** While anything is left to do, some step of the worker or an answer of the node is possible. */
  lemma Progress(c: Configuration, s: Worker)
    requires ValidConfiguration(c) && !Quiescent(s)
    ensures !Stuck(c, s)
  {
    if s.futures != map[] {
      var n :| n in s.futures;
      match s.futures[n] {
        case Ready(_) => assert IsWork(Dispatch(n)) && Enabled(c, s, Dispatch(n));
        case Awaiting(live) =>
          var answer := if |live| == 1 then One(Err(Decoder)) else Many(Err(Decoder));
          assert IsWork(Complete(n, answer)) && Enabled(c, s, Complete(n, answer));
      }
    } else {
      assert |s.futures| == 0;
      var step := if s.chunk == [] then Begin else if |s.chunk| >= c.maxBatchLen || s.queue == [] then Cut else Grow;
      assert IsWork(step) && Enabled(c, s, step);
    }
  }

  lemma CutWork(c: Configuration, s: Worker)
    requires StatesTracked(s) && Enabled(c, s, Cut)
    ensures WorkLeft(Apply(c, s, Cut)) < WorkLeft(s)
  {
    assert |s.cut| !in s.futures;
    OneMoreWaiting(s.futures, |s.cut|, s.chunk);
  }

  lemma OneMoreWaiting(futures: map<nat, Future>, n: nat, batch: seq<CallContext>)
    requires n !in futures
    ensures |WaitingSet(futures[n := Ready(batch)])| == |WaitingSet(futures)| + 1
    ensures AwaitingSet(futures[n := Ready(batch)]) == AwaitingSet(futures)
  {
    assert WaitingSet(futures[n := Ready(batch)]) == WaitingSet(futures) + {n};
  }

  lemma DispatchWork(c: Configuration, s: Worker, n: nat)
    requires Enabled(c, s, Dispatch(n))
    ensures WorkLeft(Apply(c, s, Dispatch(n))) < WorkLeft(s)
  {
    var t := Apply(c, s, Dispatch(n));
    assert WaitingSet(t.futures) == WaitingSet(s.futures) - {n};
    if n in t.futures {
      assert AwaitingSet(t.futures) == AwaitingSet(s.futures) + {n};
    } else {
      assert AwaitingSet(t.futures) == AwaitingSet(s.futures);
    }
  }

  lemma CompleteWork(c: Configuration, s: Worker, n: nat, answer: Answer)
    requires Enabled(c, s, Complete(n, answer))
    ensures WorkLeft(Apply(c, s, Complete(n, answer))) < WorkLeft(s)
  {
    var t := Apply(c, s, Complete(n, answer));
    assert WaitingSet(t.futures) == WaitingSet(s.futures);
    assert AwaitingSet(t.futures) == AwaitingSet(s.futures) - {n};
  }

  /** Every work step uses up some of the work left, and cancelling adds none. */
  lemma WorkDecreases(c: Configuration, s: Worker, step: Step)
    requires StatesTracked(s) && Enabled(c, s, step) && !step.Enqueue?
    ensures WorkLeft(Apply(c, s, step)) + (if IsWork(step) then 1 else 0) <= WorkLeft(s)
  {
    match step {
      case Cut => CutWork(c, s);
      case Dispatch(n) => DispatchWork(c, s, n);
      case Complete(n, answer) => CompleteWork(c, s, n, answer);
      case _ =>
    }
  }

  lemma RunStepWork(c: Configuration, run: seq<Worker>, steps: seq<Step>, i: nat)
    requires ValidConfiguration(c) && IsRun(c, run, steps) && i < |steps| && !steps[i].Enqueue?
    ensures WorkLeft(run[i + 1]) + (if IsWork(steps[i]) then 1 else 0) <= WorkLeft(run[i])
  {
    EveryRunSafe(c, run, steps, i);
    assert IsStep(c, run, steps, i);
    WorkDecreases(c, run[i], steps[i]);
  }

  /** Number of work steps from position i up to position j. */
  function WorkSteps(steps: seq<Step>, i: nat, j: nat): nat
    requires i <= j <= |steps|
    decreases j
  {
    if i == j then 0 else WorkSteps(steps, i, j - 1) + (if IsWork(steps[j - 1]) then 1 else 0)
  }

  /** Without new calls the number of further work steps is bounded, so every run comes to a state with none left. */
  lemma {:induction false} WorkIsBounded(c: Configuration, run: seq<Worker>, steps: seq<Step>, i: nat, j: nat)
    requires ValidConfiguration(c) && IsRun(c, run, steps) && i <= j <= |steps|
    requires forall k :: i <= k < j ==> !steps[k].Enqueue?
    ensures WorkSteps(steps, i, j) + WorkLeft(run[j]) <= WorkLeft(run[i])
    decreases j
  {
    if i == j {
    } else {
      WorkIsBounded(c, run, steps, i, j - 1);
      RunStepWork(c, run, steps, j - 1);
    }
  }

  /** A run in whose last state no work step is possible has answered every call that was not cancelled at its dispatch. */
  lemma MaximalRunAnswersAll(c: Configuration, run: seq<Worker>, steps: seq<Step>, sender: nat)
    requires ValidConfiguration(c) && IsRun(c, run, steps)
    requires Stuck(c, run[|steps|]) && sender < |run[|steps|].enqueued|
    ensures Quiescent(run[|steps|])
    ensures Replied(run[|steps|], sender) <==> !CancelledAtDispatch(run, steps, sender)
  {
    if !Quiescent(run[|steps|]) { Progress(c, run[|steps|]); }
    NothingForgotten(c, run, steps, sender);
  }

  // ---- Runs go on ------------------------------------------------------------------------------

  lemma Extended(c: Configuration, run: seq<Worker>, steps: seq<Step>, step: Step) returns (run': seq<Worker>, steps': seq<Step>)
    requires IsRun(c, run, steps) && Enabled(c, run[|steps|], step)
    ensures IsRun(c, run', steps') && run' == run + [Apply(c, run[|steps|], step)] && steps' == steps + [step]
  {
    run', steps' := run + [Apply(c, run[|steps|], step)], steps + [step];
    forall i: nat | i < |steps'| ensures IsStep(c, run', steps', i) {
      if i < |steps| { assert IsStep(c, run, steps, i); }
    }
  }

  /** In every state a caller may enqueue any call, which joins the end of the queue with a channel of its own. */
  lemma CallersAreFree(c: Configuration, run: seq<Worker>, steps: seq<Step>, id: RequestId) returns (run': seq<Worker>,
                       steps': seq<Step>)
    requires ValidConfiguration(c) && IsRun(c, run, steps)
    ensures IsRun(c, run', steps') && steps' == steps + [Enqueue(id)] && |run'| == |run| + 1
    ensures var s, t := run'[|steps|], run'[|steps| + 1];
            && s == run[|steps|] && |t.queue| == |s.queue| + 1 && t.queue[|s.queue|].id == id
            && forall k :: 0 <= k < |s.enqueued| ==> s.enqueued[k].sender != t.queue[|s.queue|].sender
  {
    run', steps' := Extended(c, run, steps, Enqueue(id));
    EveryRunSafe(c, run, steps, |steps|);
  }

  /** And a caller may give up at any time. */
  lemma CallersMayGiveUp(c: Configuration, run: seq<Worker>, steps: seq<Step>, sender: nat) returns (run': seq<Worker>,
                         steps': seq<Step>)
    requires IsRun(c, run, steps)
    ensures IsRun(c, run', steps') && steps' == steps + [Cancel(sender)] && |run'| == |run| + 1
    ensures sender in run'[|steps| + 1].cancelled
  {
    run', steps' := Extended(c, run, steps, Cancel(sender));
  }

  /** While anything is left to do, a run goes on with a step of the worker or the node, and less is left. */
  lemma SomeWorkFollows(c: Configuration, run: seq<Worker>, steps: seq<Step>) returns (run': seq<Worker>,
                        steps': seq<Step>, step: Step)
    requires ValidConfiguration(c) && IsRun(c, run, steps) && !Quiescent(run[|steps|])
    ensures IsRun(c, run', steps') && steps' == steps + [step] && IsWork(step)
    ensures WorkLeft(run'[|steps'|]) < WorkLeft(run[|steps|])
  {
    var s := run[|steps|];
    EveryRunSafe(c, run, steps, |steps|);
    Progress(c, s);
    step :| IsWork(step) && Enabled(c, s, step);
    WorkDecreases(c, s, step);
    run', steps' := Extended(c, run, steps, step);
  }

  /** Every run can be continued, without further calls, until the worker has nothing left to do. */
  lemma {:induction false} EveryRunCanFinish(c: Configuration, run: seq<Worker>,
                                             steps: seq<Step>) returns (run': seq<Worker>, steps': seq<Step>)
    requires ValidConfiguration(c) && IsRun(c, run, steps)
    ensures IsRun(c, run', steps') && steps <= steps' && Quiescent(run'[|steps'|])
    ensures forall i :: |steps| <= i < |steps'| ==> IsWork(steps'[i])
    decreases WorkLeft(run[|steps|])
  {
    if Quiescent(run[|steps|]) {
      run', steps' := run, steps;
    } else {
      var longer, more, step := SomeWorkFollows(c, run, steps);
      run', steps' := EveryRunCanFinish(c, longer, more);
    }
  }
}
