/** The bounded parallel executor over agent homes: workers draw tickets from a shared counter
    and send results over a channel to one receiver (crates/jig-agents/src/codex.rs). Its steps
    interleave in any order; every complete execution refines one sequential pass. */
module ParallelExecutor {
  import opened Wrappers
  import Orders

  datatype Attempt<T> = Returned(result: T) | Panicked

  /** The arguments of `execute_homes_parallel`. `onComplete` is the completion callback: from
      its own state, the index and the result, its next state, the result it leaves, and
      whether it wants to hear about further completions. */
  datatype Job<!H, !T, !S> = Job(homes: seq<H>, maxParallel: nat, preflight: H -> Option<T>, work: H -> Attempt<T>,
                                panicked: T, stopped: T, onComplete: (S, nat, T) -> (S, T, bool), start: S)
  {
    function WorkerCount(): nat {
      var bound := if maxParallel == 0 then 1 else maxParallel;
      if |homes| < bound then |homes| else bound
    }

    /** What a worker computes for one home. */
    function ResultOf(i: nat): T
      requires i < |homes|
    {
      var early := preflight(homes[i]);
      if early.Some? then early.value
      else match work(homes[i]) case Returned(result) => result case Panicked => panicked
    }
  }

  datatype Worker = Fetching | Working(index: nat) | Sending(index: nat) | Stopped

  /** The receiving side: callback state, whether it still wants calls, and the result slots;
      `calls` records the indices it was called with. */
  datatype Receiver<T, S> = Receiver(state: S, reporting: bool, results: seq<Option<T>>, calls: seq<nat>)

  /** `received` is history: the indices taken from the channel, in order. */
  datatype State<T, S> = State(next: nat, workers: seq<Worker>, channel: seq<(nat, T)>, receiver: Receiver<T, S>,
                               received: seq<nat>)

  function InitialReceiver<H, T, S>(job: Job<H, T, S>): Receiver<T, S> {
    Receiver(job.start, true, seq(|job.homes|, i => None), [])
  }

  function Initial<H, T, S>(job: Job<H, T, S>): State<T, S> {
    State(0, seq(job.WorkerCount(), i => Fetching), [], InitialReceiver(job), [])
  }

  /** One turn of the receive loop. */
  function Receive<H, T, S>(job: Job<H, T, S>, r: Receiver<T, S>, i: nat, result: T): Receiver<T, S>
    requires i < |r.results|
  {
    if r.reporting then
      var (state, kept, more) := job.onComplete(r.state, i, result);
      Receiver(state, more, r.results[i := Some(kept)], r.calls + [i])
    else r.(results := r.results[i := Some(result)])
  }

  // ---- steps ----

  /** `fetch_add` on the ticket counter: a home to work on, or none left. */
  ghost predicate Fetch<H, T, S>(job: Job<H, T, S>, s: State<T, S>, w: nat, s': State<T, S>) {
    && w < |s.workers| && s.workers[w] == Fetching
    && s' == s.(next := s.next + 1,
                workers := s.workers[w := if s.next < |job.homes| then Working(s.next) else Stopped])
  }

  ghost predicate Work<H, T, S>(job: Job<H, T, S>, s: State<T, S>, w: nat, s': State<T, S>) {
    && w < |s.workers| && s.workers[w].Working?
    && s' == s.(workers := s.workers[w := Sending(s.workers[w].index)])
  }

  ghost predicate Send<H, T, S>(job: Job<H, T, S>, s: State<T, S>, w: nat, s': State<T, S>) {
    && w < |s.workers| && s.workers[w].Sending? && s.workers[w].index < |job.homes|
    && var i := s.workers[w].index;
    s' == s.(workers := s.workers[w := Fetching], channel := s.channel + [(i, job.ResultOf(i))])
  }

  ghost predicate Take<H, T, S>(job: Job<H, T, S>, s: State<T, S>, s': State<T, S>) {
    && s.channel != [] && s.channel[0].0 < |s.receiver.results|
    && var (i, result) := s.channel[0];
    s' == s.(channel := s.channel[1..], receiver := Receive(job, s.receiver, i, result), received := s.received + [i])
  }

  ghost predicate WorkerStep<H, T, S>(job: Job<H, T, S>, s: State<T, S>, w: nat, s': State<T, S>) {
    Fetch(job, s, w, s') || Work(job, s, w, s') || Send(job, s, w, s')
  }

  ghost predicate Step<H, T, S>(job: Job<H, T, S>, s: State<T, S>, s': State<T, S>) {
    Take(job, s, s') || exists w :: WorkerStep(job, s, w, s')
  }

  /** All senders are gone and the channel is drained: the receive loop ends. */
  ghost predicate Finished<T, S>(s: State<T, S>) {
    s.channel == [] && forall w | 0 <= w < |s.workers| :: s.workers[w] == Stopped
  }

  ghost predicate Execution<H, T, S>(job: Job<H, T, S>, trace: seq<State<T, S>>) {
    && |trace| > 0 && trace[0] == Initial(job)
    && forall k | 0 <= k < |trace| - 1 :: Step(job, trace[k], trace[k + 1])
  }

  /** What the call returns: the slots, the fallback where one is empty. */
  function Output<H, T, S>(job: Job<H, T, S>, s: State<T, S>): seq<T> {
    seq(|s.receiver.results|, i requires 0 <= i < |s.receiver.results| =>
      if s.receiver.results[i].Some? then s.receiver.results[i].value else job.stopped)
  }

  // ---- the invariant ----

  predicate At(worker: Worker, i: nat) {
    (worker.Working? || worker.Sending?) && worker.index == i
  }

  ghost predicate AtWorker(workers: seq<Worker>, i: nat) {
    exists w | 0 <= w < |workers| :: At(workers[w], i)
  }

  ghost predicate InChannel<T>(channel: seq<(nat, T)>, i: nat) {
    exists k | 0 <= k < |channel| :: channel[k].0 == i
  }

  /** Every ticket drawn is in exactly one place, and no other index is anywhere. */
  ghost predicate Placed<H, T, S>(job: Job<H, T, S>, s: State<T, S>) {
    && (forall i: nat | i < |job.homes| ::
          AtWorker(s.workers, i) || InChannel(s.channel, i) || i in s.received <==> i < s.next)
    && (forall w | 0 <= w < |s.workers| :: (s.workers[w].Working? || s.workers[w].Sending?) ==>
          s.workers[w].index < |job.homes| && s.workers[w].index !in s.received
              && !InChannel(s.channel, s.workers[w].index))
    && (forall k | 0 <= k < |s.channel| :: s.channel[k].0 < |job.homes| && s.channel[k].0 !in s.received)
    && (forall k | 0 <= k < |s.received| :: s.received[k] < |job.homes|)
  }

  ghost predicate Distinct<H, T, S>(job: Job<H, T, S>, s: State<T, S>) {
    && (forall v, w, i | 0 <= v < w < |s.workers| :: !(At(s.workers[v], i) && At(s.workers[w], i)))
    && (forall j, k | 0 <= j < k < |s.channel| :: s.channel[j].0 != s.channel[k].0)
    && (forall j, k | 0 <= j < k < |s.received| :: s.received[j] != s.received[k])
  }

  /** The sequential reference: one pass over completions in the given order. */
  function Replay<H, T, S>(job: Job<H, T, S>, order: seq<nat>): (r: Receiver<T, S>)
    requires forall k | 0 <= k < |order| :: order[k] < |job.homes|
    ensures |r.results| == |job.homes|
  {
    if order == [] then InitialReceiver(job)
    else
      var i := order[|order| - 1];
      Receive(job, Replay(job, order[..|order| - 1]), i, job.ResultOf(i))
  }

  ghost predicate Inv<H, T, S>(job: Job<H, T, S>, s: State<T, S>) {
    && |s.workers| == job.WorkerCount()
    && Placed(job, s) && Distinct(job, s)
    && (forall k | 0 <= k < |s.channel| :: s.channel[k].1 == job.ResultOf(s.channel[k].0))
    && (forall w | 0 <= w < |s.workers| :: s.workers[w] == Stopped ==> |job.homes| <= s.next)
    && s.receiver == Replay(job, s.received)
  }

  lemma InitialInv<H, T, S>(job: Job<H, T, S>)
    ensures Inv(job, Initial(job))
  {
  }

  lemma FetchKeeps<H, T, S>(job: Job<H, T, S>, s: State<T, S>, w: nat, s': State<T, S>)
    requires Inv(job, s) && Fetch(job, s, w, s')
    ensures Inv(job, s')
  {
    forall i: nat | i < |job.homes|
      ensures AtWorker(s'.workers, i) <==> AtWorker(s.workers, i) || (i == s.next)
    {
      if i == s.next { assert At(s'.workers[w], i); }
      forall v | 0 <= v < |s.workers| && At(s.workers[v], i) ensures AtWorker(s'.workers, i) {
        assert At(s'.workers[v], i);
      }
    }
    forall v, i | 0 <= v < |s.workers| && At(s.workers[v], i) ensures i != s.next {
      assert AtWorker(s.workers, i);
    }
  }

  lemma WorkKeeps<H, T, S>(job: Job<H, T, S>, s: State<T, S>, w: nat, s': State<T, S>)
    requires Inv(job, s) && Work(job, s, w, s')
    ensures Inv(job, s')
  {
    forall v, i | 0 <= v < |s.workers| ensures At(s'.workers[v], i) <==> At(s.workers[v], i) {
    }
    forall i: nat ensures AtWorker(s'.workers, i) <==> AtWorker(s.workers, i) {
      forall v | 0 <= v < |s.workers| ensures At(s'.workers[v], i) <==> At(s.workers[v], i) {
      }
    }
  }

  lemma SendKeeps<H, T, S>(job: Job<H, T, S>, s: State<T, S>, w: nat, s': State<T, S>)
    requires Inv(job, s) && Send(job, s, w, s')
    ensures Inv(job, s')
  {
    var sent := s.workers[w].index;
    assert At(s.workers[w], sent);
    forall i: nat ensures InChannel(s'.channel, i) <==> InChannel(s.channel, i) || i == sent {
      assert s'.channel[|s.channel|].0 == sent;
      forall k | 0 <= k < |s.channel| ensures s'.channel[k] == s.channel[k] {
      }
    }
    forall i: nat ensures AtWorker(s'.workers, i) <==> AtWorker(s.workers, i) && i != sent {
      forall v | 0 <= v < |s.workers| && At(s.workers[v], i) && i != sent ensures AtWorker(s'.workers, i) {
        assert At(s'.workers[v], i);
      }
    }
  }

  lemma TakeKeeps<H, T, S>(job: Job<H, T, S>, s: State<T, S>, s': State<T, S>)
    requires Inv(job, s) && Take(job, s, s')
    ensures Inv(job, s')
  {
    var taken := s.channel[0].0;
    forall i: nat ensures InChannel(s.channel, i) <==> InChannel(s'.channel, i) || i == taken {
      forall k | 0 <= k < |s'.channel| ensures s'.channel[k] == s.channel[k + 1] {
      }
      if k :| 0 < k < |s.channel| && s.channel[k].0 == i { assert s'.channel[k - 1].0 == i; }
    }
    assert s'.received == s.received + [taken];
    assert s'.received[..|s.received|] == s.received;
    ReceivedStayDistinct(s.received, taken);
  }

  lemma ReceivedStayDistinct(received: seq<nat>, taken: nat)
    requires taken !in received && forall j, k | 0 <= j < k < |received| :: received[j] != received[k]
    ensures var more := received + [taken]; forall j, k | 0 <= j < k < |more| :: more[j] != more[k]
  {
  }

  lemma StepKeeps<H, T, S>(job: Job<H, T, S>, s: State<T, S>, s': State<T, S>)
    requires Inv(job, s) && Step(job, s, s')
    ensures Inv(job, s')
  {
    if Take(job, s, s') { TakeKeeps(job, s, s'); }
    else {
      var w :| WorkerStep(job, s, w, s');
      if Fetch(job, s, w, s') { FetchKeeps(job, s, w, s'); }
      else if Work(job, s, w, s') { WorkKeeps(job, s, w, s'); }
      else { SendKeeps(job, s, w, s'); }
    }
  }

  lemma {:induction false} ExecutionKeeps<H, T, S>(job: Job<H, T, S>, trace: seq<State<T, S>>, k: nat)
    requires Execution(job, trace) && k < |trace|
    ensures Inv(job, trace[k])
  {
    if k == 0 {
      InitialInv(job);
    } else {
      ExecutionKeeps(job, trace, k - 1);
      StepKeeps(job, trace[k - 1], trace[k]);
    }
  }

  // ---- the sequential reference ----

  /** The answers of a callback that is asked about every completion in `order`. */
  function Answers<H, T, S>(job: Job<H, T, S>, order: seq<nat>): (r: seq<bool>)
    requires forall k | 0 <= k < |order| :: order[k] < |job.homes|
    ensures |r| == |order|
  {
    if order == [] then []
    else
      var front, i := order[..|order| - 1], order[|order| - 1];
      Answers(job, front) + [job.onComplete(Replay(job, front).state, i, job.ResultOf(i)).2]
  }

  /** The calls made over `order`: all of it while the answers are true, otherwise through the
      first false one. */
  ghost predicate HeardThroughFirstFalse(order: seq<nat>, answers: seq<bool>, calls: seq<nat>, reporting: bool)
    requires |answers| == |order|
  {
    && calls <= order
    && (reporting ==> calls == order)
    && (forall j | 0 <= j < |calls| - 1 :: answers[j])
    && (calls != [] ==> answers[|calls| - 1] == reporting)
    && (calls == [] ==> reporting)
  }

  /** Callbacks cover the completion order from its start through the first `false`. */
  lemma {:induction false} CallsAreAPrefix<H, T, S>(job: Job<H, T, S>, order: seq<nat>)
    requires forall k | 0 <= k < |order| :: order[k] < |job.homes|
    ensures var r := Replay(job, order); HeardThroughFirstFalse(order, Answers(job, order), r.calls, r.reporting)
  {
    if order != [] {
      var n := |order| - 1;
      var before := Replay(job, order[..n]);
      CallsAreAPrefix(job, order[..n]);
      var answer := job.onComplete(before.state, order[n], job.ResultOf(order[n])).2;
      assert order == order[..n] + [order[n]];
      HeardOneMore(order[..n], Answers(job, order[..n]), before.calls, before.reporting, order[n], answer);
    }
  }

  lemma HeardOneMore(order: seq<nat>, answers: seq<bool>, calls: seq<nat>, reporting: bool, i: nat, answer: bool)
    requires |answers| == |order| && HeardThroughFirstFalse(order, answers, calls, reporting)
    ensures HeardThroughFirstFalse(order + [i], answers + [answer],
                                   if reporting then calls + [i] else calls, if reporting then answer else false)
  {
  }

  /** What the pass leaves in the slot of the `k`th completion: the worker's result as the callback,
      in the state it has at that point, leaves it, if it is still called. */
  function Left<H, T, S>(job: Job<H, T, S>, order: seq<nat>, k: nat): T
    requires k < |order| && forall j | 0 <= j < |order| :: order[j] < |job.homes|
  {
    var before, result := Replay(job, order[..k]), job.ResultOf(order[k]);
    if before.reporting then job.onComplete(before.state, order[k], result).1 else result
  }

  /** The pass fills exactly the completed slots, each with what is left at its completion. */
  lemma {:induction false} ReplayFills<H, T, S>(job: Job<H, T, S>, order: seq<nat>, k: nat)
    requires forall j | 0 <= j < |order| :: order[j] < |job.homes|
    requires forall i, j | 0 <= i < j < |order| :: order[i] != order[j]
    ensures k < |order| ==> Replay(job, order).results[order[k]] == Some(Left(job, order, k))
    ensures k < |job.homes| && k !in order ==> Replay(job, order).results[k] == None
  {
    if order != [] {
      var n := |order| - 1;
      ReplayFills(job, order[..n], k);
      ReceiveFills(job, Replay(job, order[..n]), order[n], job.ResultOf(order[n]));
      assert order == order[..n] + [order[n]];
      if k < n {
        assert order[..n][..k] == order[..k] && order[..n][k] == order[k];
        assert order[k] != order[n];
      }
    }
  }

  /** Receiving fills one slot. */
  lemma ReceiveFills<H, T, S>(job: Job<H, T, S>, before: Receiver<T, S>, index: nat, result: T)
    requires index < |before.results|
    ensures Receive(job, before, index, result).results ==
            before.results[index := Some(if before.reporting then job.onComplete(before.state, index, result).1
                                         else result)]
  {
  }

  /** The callback is called exactly for the completions up to its first `false`. */
  lemma {:induction false} CalledWhileReporting<H, T, S>(job: Job<H, T, S>, order: seq<nat>, k: nat)
    requires k < |order| && forall j | 0 <= j < |order| :: order[j] < |job.homes|
    ensures Replay(job, order[..k]).reporting <==> k < |Replay(job, order).calls|
  {
    var n := |order| - 1;
    CallsSoFar(job, order[..n]);
    if k < n {
      CalledWhileReporting(job, order[..n], k);
      assert order[..n][..k] == order[..k];
    }
  }

  lemma CallsSoFar<H, T, S>(job: Job<H, T, S>, order: seq<nat>)
    requires forall j | 0 <= j < |order| :: order[j] < |job.homes|
    ensures var r := Replay(job, order);
            |r.calls| <= |order| && (r.reporting ==> |r.calls| == |order|)
  {
    CallsAreAPrefix(job, order);
  }

  /** Both for all completions of a pass over all homes. */
  lemma PassFills<H, T, S>(job: Job<H, T, S>, order: seq<nat>)
    requires forall j | 0 <= j < |order| :: order[j] < |job.homes|
    requires forall i, j | 0 <= i < j < |order| :: order[i] != order[j]
    requires forall i: nat | i < |job.homes| :: i in order
    ensures var r := Replay(job, order);
            && (forall i: nat | i < |job.homes| :: r.results[i].Some?)
            && forall k: nat | k < |order| ::
                 && r.results[order[k]] == Some(Left(job, order, k))
                 && (Replay(job, order[..k]).reporting <==> k < |r.calls|)
  {
    var r := Replay(job, order);
    forall k: nat | k < |order|
      ensures r.results[order[k]] == Some(Left(job, order, k))
      ensures Replay(job, order[..k]).reporting <==> k < |r.calls|
    {
      ReplayFills(job, order, k);
      CalledWhileReporting(job, order, k);
    }
    forall i: nat | i < |job.homes| ensures r.results[i].Some? {
      assert i in order;
      var k: nat :| k < |order| && order[k] == i;
      assert r.results[order[k]].Some?;
    }
  }

  // ---- each home is worked once ----

  /** The step from `s` to `s'` does the work of home `i`. */
  ghost predicate Works<H, T, S>(job: Job<H, T, S>, s: State<T, S>, i: nat, s': State<T, S>) {
    exists w: nat :: Work(job, s, w, s') && s.workers[w].index == i
  }

  /** How often home `i` is worked in the first `n` steps. */
  ghost function TimesWorked<H, T, S>(job: Job<H, T, S>, trace: seq<State<T, S>>, i: nat, n: nat): nat
    requires n < |trace|
  {
    if n == 0 then 0
    else TimesWorked(job, trace, i, n - 1) + if Works(job, trace[n - 1], i, trace[n]) then 1 else 0
  }

  ghost predicate WorkedOnce<H, T, S>(job: Job<H, T, S>, trace: seq<State<T, S>>, i: nat)
    requires |trace| > 0
  {
    TimesWorked(job, trace, i, |trace| - 1) == 1
  }

  /** The result of home `i` is on its way or has arrived. */
  ghost predicate Past<T, S>(s: State<T, S>, i: nat) {
    IsSending(s.workers, i) || InChannel(s.channel, i) || i in s.received
  }

  ghost predicate IsSending(workers: seq<Worker>, i: nat) {
    exists w | 0 <= w < |workers| :: workers[w] == Sending(i)
  }

  lemma WorkMovesPast<H, T, S>(job: Job<H, T, S>, s: State<T, S>, w: nat, s': State<T, S>, i: nat)
    requires Inv(job, s) && Work(job, s, w, s')
    ensures Works(job, s, i, s') <==> i == s.workers[w].index
    ensures Works(job, s, i, s') ==> !Past(s, i) && Past(s', i)
    ensures !Works(job, s, i, s') ==> (Past(s', i) <==> Past(s, i))
  {
    var j := s.workers[w].index;
    assert At(s.workers[w], j);
    if v: nat :| Work(job, s, v, s') && s.workers[v].index == i { assert s'.workers[v] == Sending(i); }
    if i == j {
      assert s'.workers[w] == Sending(i);
      forall v | 0 <= v < |s.workers| ensures s.workers[v] != Sending(i) {
        if v != w { assert !(At(s.workers[w], i) && At(s.workers[v], i)); }
      }
    } else {
      SendingElsewhere(s.workers, w, Sending(j), i);
    }
  }

  lemma SendingElsewhere(workers: seq<Worker>, w: nat, worker: Worker, i: nat)
    requires w < |workers| && workers[w] != Sending(i) && worker != Sending(i)
    ensures IsSending(workers[w := worker], i) <==> IsSending(workers, i)
  {
    var workers' := workers[w := worker];
    if v :| 0 <= v < |workers| && workers[v] == Sending(i) { assert workers'[v] == Sending(i); }
    if v :| 0 <= v < |workers| && workers'[v] == Sending(i) { assert workers[v] == Sending(i); }
  }

  lemma FetchStaysPast<H, T, S>(job: Job<H, T, S>, s: State<T, S>, w: nat, s': State<T, S>, i: nat)
    requires Fetch(job, s, w, s')
    ensures !Works(job, s, i, s') && (Past(s', i) <==> Past(s, i))
  {
    SendingElsewhere(s.workers, w, s'.workers[w], i);
  }

  lemma SendStaysPast<H, T, S>(job: Job<H, T, S>, s: State<T, S>, w: nat, s': State<T, S>, i: nat)
    requires Inv(job, s) && Send(job, s, w, s')
    ensures !Works(job, s, i, s') && (Past(s', i) <==> Past(s, i))
  {
    var sent := s.workers[w].index;
    assert s'.channel[|s.channel|].0 == sent;
    assert forall k | 0 <= k < |s.channel| :: s'.channel[k] == s.channel[k];
    if i != sent { SendingElsewhere(s.workers, w, Fetching, i); }
  }

  lemma TakeStaysPast<H, T, S>(job: Job<H, T, S>, s: State<T, S>, s': State<T, S>, i: nat)
    requires Take(job, s, s')
    ensures !Works(job, s, i, s') && (Past(s', i) <==> Past(s, i))
  {
    assert forall k | 0 <= k < |s'.channel| :: s'.channel[k] == s.channel[k + 1];
    if k :| 0 < k < |s.channel| && s.channel[k].0 == i { assert s'.channel[k - 1].0 == i; }
  }

  lemma {:induction false} WorkedWhenPast<H, T, S>(job: Job<H, T, S>, trace: seq<State<T, S>>, i: nat, n: nat)
    requires Execution(job, trace) && n < |trace|
    ensures TimesWorked(job, trace, i, n) == if Past(trace[n], i) then 1 else 0
  {
    if n > 0 {
      WorkedWhenPast(job, trace, i, n - 1);
      ExecutionKeeps(job, trace, n - 1);
      var s, s' := trace[n - 1], trace[n - 1 + 1];
      assert Step(job, s, s');
      if Take(job, s, s') {
        TakeStaysPast(job, s, s', i);
      } else {
        var w :| WorkerStep(job, s, w, s');
        if Fetch(job, s, w, s') { FetchStaysPast(job, s, w, s', i); }
        else if Work(job, s, w, s') { WorkMovesPast(job, s, w, s', i); }
        else { SendStaysPast(job, s, w, s', i); }
      }
    }
  }

  // ---- what a complete execution returns ----

  lemma FinishedReceivedAll<H, T, S>(job: Job<H, T, S>, s: State<T, S>)
    requires Inv(job, s) && Finished(s)
    ensures forall i: nat | i < |job.homes| :: i in s.received
  {
    if job.homes != [] {
      assert s.workers[0] == Stopped;
    }
  }

  /** For every interleaving: each home was worked and received exactly once, no slot fell back
      to `stopped`, the callback heard the completions in order through its first `false`, and
      the results come back in input order, each as the callback, in the state it had at that
      completion, left it if it was called for it. */
  lemma CompleteExecution<H, T, S>(job: Job<H, T, S>, trace: seq<State<T, S>>)
    requires Execution(job, trace) && Finished(trace[|trace| - 1])
    ensures var s := trace[|trace| - 1];
            var order := s.received;
            && (forall i: nat | i < |job.homes| :: WorkedOnce(job, trace, i))
            && (forall i: nat | i < |job.homes| :: i in order) && |order| == |job.homes|
            && (forall k | 0 <= k < |order| :: order[k] < |job.homes|)
            && HeardThroughFirstFalse(order, Answers(job, order), s.receiver.calls, s.receiver.reporting)
            && |s.receiver.results| == |job.homes|
            && (forall i | 0 <= i < |job.homes| :: s.receiver.results[i].Some?)
            && |Output(job, s)| == |job.homes|
            && forall k: nat | k < |order| ::
                 && Output(job, s)[order[k]] == Left(job, order, k)
                 && (Replay(job, order[..k]).reporting <==> k < |s.receiver.calls|)
  {
    ExecutionKeeps(job, trace, |trace| - 1);
    var s := trace[|trace| - 1];
    FinishedReceivedAll(job, s);
    PassFills(job, s.received);
    forall i: nat | i < |job.homes| ensures WorkedOnce(job, trace, i) {
      WorkedWhenPast(job, trace, i, |trace| - 1);
    }
    CallsAreAPrefix(job, s.received);
    AllOnce(s.received, |job.homes|);
  }

  /** A list without repetition that holds exactly the indices below `n` has length `n`. */
  lemma AllOnce(order: seq<nat>, n: nat)
    requires forall j, k | 0 <= j < k < |order| :: order[j] != order[k]
    requires forall i: nat | i < n :: i in order
    requires forall k | 0 <= k < |order| :: order[k] < n
    ensures |order| == n
  {
    assert Below(n) == Orders.Elements(order);
    Orders.DistinctCount(order);
  }

  function Below(n: nat): (r: set<nat>)
    ensures |r| == n && forall i: nat :: i in r <==> i < n
  {
    if n == 0 then {} else Below(n - 1) + {n - 1}
  }

  /** What one home comes to: the preflight's answer if it has one, and else what the work returns,
      or the stand-in for work that panicked. */
  ghost predicate IsResult<H, T, S>(job: Job<H, T, S>, home: H, result: T) {
    || job.preflight(home) == Some(result)
    || (job.preflight(home) == None && job.work(home) == Returned(result))
    || (job.preflight(home) == None && job.work(home) == Panicked && result == job.panicked)
  }

  /** With a callback that leaves results alone the call is the sequential map, however the
      workers interleave and wherever the callback stops listening. */
  lemma RefinesSequentialMap<H, T(!new), S(!new)>(job: Job<H, T, S>, trace: seq<State<T, S>>)
    requires Execution(job, trace) && Finished(trace[|trace| - 1])
    requires forall state, i, result :: job.onComplete(state, i, result).1 == result
    ensures Output(job, trace[|trace| - 1]) ==
            seq(|job.homes|, i requires 0 <= i < |job.homes| => job.ResultOf(i))
    ensures forall i: nat | i < |job.homes| :: IsResult(job, job.homes[i], job.ResultOf(i))
  {
    CompleteExecution(job, trace);
    var s := trace[|trace| - 1];
    forall i: nat | i < |job.homes| ensures Output(job, s)[i] == job.ResultOf(i) {
      assert i in s.received;
      var k: nat :| k < |s.received| && s.received[k] == i;
      assert Output(job, s)[s.received[k]] == Left(job, s.received, k);
    }
  }

  // ---- bounds and termination ----

  /** The workers started: as many as the limit says, one at least, but no more than there are
      homes. */
  ghost predicate IsWorkerCount<H, T, S>(job: Job<H, T, S>, n: nat) {
    && n <= |job.homes| && (job.maxParallel > 0 ==> n <= job.maxParallel) && (job.maxParallel == 0 ==> n <= 1)
    && (n == |job.homes| || n == job.maxParallel || (n == 1 && job.maxParallel == 0))
    && (job.homes != [] ==> n > 0)
  }

  /** So many are started, and at no time are more homes in flight. */
  lemma InFlightIsBounded<H, T, S>(job: Job<H, T, S>, trace: seq<State<T, S>>, k: nat)
    requires Execution(job, trace) && k < |trace|
    ensures var inFlight := |set i: nat | i < |job.homes| && AtWorker(trace[k].workers, i)|;
            && inFlight <= |job.homes| && (job.maxParallel > 0 ==> inFlight <= job.maxParallel)
            && (job.maxParallel == 0 ==> inFlight <= 1)
    ensures IsWorkerCount(job, |trace[0].workers|) && |trace[k].workers| == |trace[0].workers|
  {
    ExecutionKeeps(job, trace, k);
    AtMostOneEach(trace[k].workers, |job.homes|);
  }

  /** And as many can be: every worker draws a ticket before any of them is done. */
  lemma {:induction false} FullyParallel<H, T, S>(job: Job<H, T, S>, k: nat) returns (trace: seq<State<T, S>>)
    requires k <= job.WorkerCount()
    ensures Execution(job, trace) && |trace| == k + 1 && trace[k].next == k
    ensures |trace[k].workers| == job.WorkerCount()
    ensures forall w: nat | w < |trace[k].workers| :: trace[k].workers[w] == if w < k then Working(w) else Fetching
  {
    if k == 0 {
      trace := [Initial(job)];
    } else {
      var before := FullyParallel(job, k - 1);
      var s := before[k - 1];
      var s' := s.(next := k, workers := s.workers[k - 1 := Working(k - 1)]);
      assert Fetch(job, s, k - 1, s');
      assert WorkerStep(job, s, k - 1, s');
      trace := before + [s'];
      forall j | 0 <= j < |trace| - 1 ensures Step(job, trace[j], trace[j + 1]) {
        if j < k - 1 { assert Step(job, before[j], before[j + 1]); }
      }
    }
  }

  lemma AtMostOneEach(workers: seq<Worker>, n: nat)
    ensures |set i: nat | i < n && AtWorker(workers, i)| <= |workers|
  {
    var all := set i: nat | i < n && AtWorker(workers, i);
    if workers == [] {
      assert all == {};
    } else {
      var last := |workers| - 1;
      var front := workers[..last];
      AtMostOneEach(front, n);
      var rest := set i: nat | i < n && AtWorker(front, i);
      var own := set i: nat | i < n && At(workers[last], i);
      forall i | i in all ensures i in rest + own {
        var w :| 0 <= w < |workers| && At(workers[w], i);
        if w < last { assert At(front[w], i); }
      }
      assert all <= rest + own;
      assert |own| <= 1 by {
        if x :| x in own {
          assert own == {x};
        }
      }
      Subset(all, rest + own);
    }
  }

  lemma Subset(small: set<nat>, large: set<nat>)
    requires small <= large
    ensures |small| <= |large|
  {
    var rest := large - small;
    assert large == small + rest;
  }

  function Effort(worker: Worker): nat {
    match worker case Fetching => 1 case Working(_) => 4 case Sending(_) => 3 case Stopped => 0
  }

  function Efforts(workers: seq<Worker>): nat {
    if workers == [] then 0 else Effort(workers[0]) + Efforts(workers[1..])
  }

  function Remaining<H, T, S>(job: Job<H, T, S>, s: State<T, S>): nat {
    (if s.next < |job.homes| then 4 * (|job.homes| - s.next) else 0) + Efforts(s.workers) + |s.channel|
  }

  lemma EffortsUpdate(workers: seq<Worker>, w: nat, worker: Worker)
    requires w < |workers|
    ensures Efforts(workers[w := worker]) == Efforts(workers) - Effort(workers[w]) + Effort(worker)
  {
    if w == 0 {
      assert workers[0 := worker][1..] == workers[1..];
    } else {
      EffortsUpdate(workers[1..], w - 1, worker);
      assert workers[w := worker][1..] == workers[1..][w - 1 := worker];
    }
  }

  /** Every step uses up some of a finite amount of work, so every execution is finite. */
  lemma StepsRunOut<H, T, S>(job: Job<H, T, S>, s: State<T, S>, s': State<T, S>)
    requires Step(job, s, s')
    ensures Remaining(job, s') < Remaining(job, s)
  {
    if w: nat :| WorkerStep(job, s, w, s') {
      EffortsUpdate(s.workers, w, s'.workers[w]);
    }
  }

  /** And an execution that is not finished can always go on: nothing deadlocks. */
  lemma NoDeadlock<H, T, S>(job: Job<H, T, S>, s: State<T, S>) returns (s': State<T, S>)
    requires Inv(job, s) && !Finished(s)
    ensures Step(job, s, s')
  {
    if s.channel != [] {
      var (i, result) := s.channel[0];
      s' := s.(channel := s.channel[1..], receiver := Receive(job, s.receiver, i, result),
               received := s.received + [i]);
      assert Take(job, s, s');
    } else {
      var w: nat :| w < |s.workers| && s.workers[w] != Stopped;
      match s.workers[w] {
      case Fetching =>
        s' := s.(next := s.next + 1,
                 workers := s.workers[w := if s.next < |job.homes| then Working(s.next) else Stopped]);
      case Working(i) =>
        s' := s.(workers := s.workers[w := Sending(i)]);
      case Sending(i) =>
        s' := s.(workers := s.workers[w := Fetching], channel := s.channel + [(i, job.ResultOf(i))]);
      }
      assert WorkerStep(job, s, w, s');
    }
  }
}
