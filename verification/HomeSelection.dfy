/** Headless choice of an agent home: collecting one sample per home until the deadline, then
    the best-choice loop (crates/jig-agents/src/selection.rs). Percentages are reals; the
    provider's assessment of a sample is a parameter. */
module HomeSelection {
  import opened Wrappers
  import opened ParallelExecutor

  datatype Reason = Eligible | InspectionUnavailable | InspectionError | SignedOut | UsageUnavailable
                  | InvalidUsage | StaleUsage | Exhausted

  datatype Assessment = Assessment(reason: Reason, remaining: Option<real>)

  /** How samples are judged: the assessment at selection time and the banked resets. */
  datatype Judge<!D> = Judge(assess: D -> Assessment, bankedResets: D -> Option<nat>)

  datatype Score = Score(remaining: real, resets: nat)

  predicate Better(a: Score, b: Score) {
    a.remaining > b.remaining || (a.remaining == b.remaining && a.resets > b.resets)
  }

  function AssessmentOf<D>(judge: Judge<D>, sample: Option<D>): Assessment {
    if sample.None? then Assessment(InspectionUnavailable, None) else judge.assess(sample.value)
  }

  /** The score of an eligible candidate; unknown reserves count as none. */
  function ScoreOf<D>(judge: Judge<D>, sample: Option<D>): Option<Score> {
    var assessment := AssessmentOf(judge, sample);
    if assessment.reason == Eligible && assessment.remaining.Some? then
      var resets := if sample.Some? then judge.bankedResets(sample.value) else None;
      Some(Score(assessment.remaining.value, if resets.Some? then resets.value else 0))
    else None
  }

  predicate Inconclusive(reason: Reason) {
    reason != Eligible && reason != Exhausted && reason != SignedOut
  }

  /** The home was inspected, is eligible with so much remaining, and has so many resets banked. */
  ghost predicate IsScore<D>(judge: Judge<D>, sample: Option<D>, score: Score) {
    && sample.Some? && judge.assess(sample.value) == Assessment(Eligible, Some(score.remaining))
    && (judge.bankedResets(sample.value) == Some(score.resets)
        || (judge.bankedResets(sample.value) == None && score.resets == 0))
  }

  lemma ScoreExactly<D>(judge: Judge<D>, sample: Option<D>)
    ensures forall score :: ScoreOf(judge, sample) == Some(score) <==> IsScore(judge, sample, score)
  {
  }

  /** Nothing is known for sure: the home was not inspected, or its usage is unknown, invalid or old. */
  ghost predicate Unjudged<D>(judge: Judge<D>, sample: Option<D>) {
    sample.None? || judge.assess(sample.value).reason in
                    {InspectionUnavailable, InspectionError, UsageUnavailable, InvalidUsage, StaleUsage}
  }

  /** `choice` is the lexicographic maximum, the first of equals. */
  ghost predicate IsBest<D>(judge: Judge<D>, samples: seq<Option<D>>, choice: Option<nat>) {
    match choice
    case None => forall i, score | 0 <= i < |samples| :: !IsScore(judge, samples[i], score)
    case Some(best) =>
      best < |samples| && exists top :: IsScore(judge, samples[best], top) && IsTop(judge, samples, best, top)
  }

  /** More is remaining than at any other home, or as much with no fewer resets; and more of either
      than at any home before. */
  ghost predicate IsTop<D>(judge: Judge<D>, samples: seq<Option<D>>, best: nat, top: Score) {
    forall i, score | 0 <= i < |samples| && i != best && IsScore(judge, samples[i], score) ::
      && score.remaining <= top.remaining && (score.remaining == top.remaining ==> score.resets <= top.resets)
      && (i < best ==> score != top)
  }

  /** The selection loop. `partial` tells that some home could not be judged conclusively. */
  method SelectHome<D>(judge: Judge<D>, samples: seq<Option<D>>, timedOut: bool, warned: bool)
    returns (choice: Option<nat>, partial: bool)
    ensures IsBest(judge, samples, choice)
    ensures partial <==> timedOut || warned || exists i | 0 <= i < |samples| :: Unjudged(judge, samples[i])
  {
    var best: Option<(nat, Score)> := None;
    partial := timedOut || warned;
    for index := 0 to |samples|
      invariant best.None? ==> IsBest(judge, samples[..index], None)
      invariant best.Some? ==> best.value.0 < index && IsScore(judge, samples[best.value.0], best.value.1)
      invariant best.Some? ==> IsTop(judge, samples[..index], best.value.0, best.value.1)
      invariant partial <==> timedOut || warned || exists i | 0 <= i < index :: Unjudged(judge, samples[i])
    {
      var assessment := AssessmentOf(judge, samples[index]);
      partial := partial || Inconclusive(assessment.reason);
      var score := ScoreOf(judge, samples[index]);
      if score.Some? && (best.None? || Better(score.value, best.value.1)) {
        best := Some((index, score.value));
      }
      ScoreExactly(judge, samples[index]);
      assert samples[..index + 1] == samples[..index] + [samples[index]];
    }
    assert samples[..|samples|] == samples;
    choice := if best.None? then None else Some(best.value.0);
  }

  /** There is only one best choice. */
  lemma BestIsUnique<D>(judge: Judge<D>, samples: seq<Option<D>>, a: Option<nat>, b: Option<nat>)
    requires IsBest(judge, samples, a) && IsBest(judge, samples, b)
    ensures a == b
  {
  }

  // ---- samples from the executor ----

  /** The sampling callback's state: completions heard so far, and the sample slots. */
  datatype Samples<D> = Samples(heard: nat, slots: seq<Option<D>>)

  /** Stores the sample unless the deadline has passed; it never asks to stop. */
  function Collect<D>(deadline: nat, samples: Samples<D>, i: nat, details: D): (Samples<D>, D, bool) {
    (Samples(samples.heard + 1,
             if samples.heard < deadline && i < |samples.slots| then samples.slots[i := Some(details)]
                 else samples.slots),
     details, true)
  }

  /** An inspection of the homes whose first `deadline` completions arrive in time. */
  function SamplingJob<H, D>(homes: seq<H>, maxParallel: nat, preflight: H -> Option<D>, work: H -> Attempt<D>,
                             panicked: D, stopped: D, deadline: nat): Job<H, D, Samples<D>>
  {
    Job(homes, maxParallel, preflight, work, panicked, stopped,
        (samples, i, details) => Collect(deadline, samples, i, details),
        Samples(0, seq(|homes|, i => None)))
  }

  /** Home `i` is among the first `deadline` completions. */
  ghost predicate InTime(order: seq<nat>, deadline: nat, i: nat) {
    exists k | 0 <= k < |order| && k < deadline :: order[k] == i
  }

  lemma InTimeStep(order: seq<nat>, deadline: nat, i: nat)
    requires order != []
    ensures var n := |order| - 1;
            InTime(order, deadline, i) <==> InTime(order[..n], deadline, i) || (n < deadline && order[n] == i)
  {
    var n := |order| - 1;
    if InTime(order[..n], deadline, i) {
      var k :| 0 <= k < n && k < deadline && order[..n][k] == i;
      assert order[k] == i;
    }
    if InTime(order, deadline, i) {
      var k :| 0 <= k < |order| && k < deadline && order[k] == i;
      if k < n { assert order[..n][k] == i; }
    }
  }

  lemma {:induction false} ReplayCollects<H, D(!new)>(job: Job<H, D, Samples<D>>, order: seq<nat>, deadline: nat)
    requires job == SamplingJob(job.homes, job.maxParallel, job.preflight, job.work, job.panicked, job.stopped,
                                deadline)
    requires forall k | 0 <= k < |order| :: order[k] < |job.homes|
    ensures var r := Replay(job, order);
            && r.reporting && r.state.heard == |order| && |r.state.slots| == |job.homes|
            && forall i | 0 <= i < |job.homes| ::
                 r.state.slots[i] == if InTime(order, deadline, i) then Some(job.ResultOf(i)) else None
  {
    if order != [] {
      var n := |order| - 1;
      ReplayCollects(job, order[..n], deadline);
      assert order == order[..n] + [order[n]];
      var before, r := Replay(job, order[..n]), Replay(job, order);
      assert r.state == Collect(deadline, before.state, order[n], job.ResultOf(order[n])).0;
      forall i | 0 <= i < |job.homes|
        ensures r.state.slots[i] == if InTime(order, deadline, i) then Some(job.ResultOf(i)) else None
      {
        InTimeStep(order, deadline, i);
      }
    }
  }

  /** The samples an execution ends with are those of the completions that made the deadline;
      when all did, they and so the choice are those of a sequential pass, and worker timing
      has no influence on which home is selected. */
  lemma ChoiceIgnoresInterleaving<H, D(!new)>(job: Job<H, D, Samples<D>>, deadline: nat,
                                              trace: seq<State<D, Samples<D>>>, judge: Judge<D>, choice: Option<nat>,
                                              inSequence: Option<nat>)
    requires job == SamplingJob(job.homes, job.maxParallel, job.preflight, job.work, job.panicked, job.stopped,
                                deadline)
    requires Execution(job, trace) && Finished(trace[|trace| - 1])
    ensures var slots := trace[|trace| - 1].receiver.state.slots;
            var sequential := seq(|job.homes|, i requires 0 <= i < |job.homes| => Some(job.ResultOf(i)));
            && |slots| == |job.homes|
            && (forall i | 0 <= i < |slots| :: slots[i].Some? ==> slots[i] == sequential[i])
            && (|job.homes| <= deadline ==> slots == sequential)
            && (|job.homes| <= deadline && IsBest(judge, slots, choice) && IsBest(judge, sequential, inSequence) ==>
                  choice == inSequence)
  {
    ExecutionKeeps(job, trace, |trace| - 1);
    var s := trace[|trace| - 1];
    FinishedReceivedAll(job, s);
    AllOnce(s.received, |job.homes|);
    ReplayCollects(job, s.received, deadline);
    if |job.homes| <= deadline {
      forall i: nat | i < |job.homes| ensures InTime(s.received, deadline, i) {
        assert i in s.received;
      }
      var slots := s.receiver.state.slots;
      if IsBest(judge, slots, choice) && IsBest(judge, slots, inSequence) {
        BestIsUnique(judge, slots, choice, inSequence);
      }
    }
  }
}
