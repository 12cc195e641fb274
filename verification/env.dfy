/** The episodic environment: it remembers the query an episode started from,
    counts steps, and scores each rewrite by retrieving before and after it. */
module Env {
  import opened Wrappers
  import opened Text
  import opened Retrieval
  import opened Reward

  const DefaultMaxSteps: int := 3
  const DefaultTopK: int := 3

  /** What the agent observes: the current query and the feature vector
      `[top score, mean score, word count, step counter]`. */
  datatype EpisodeState = EpisodeState(query: string, vector: seq<real>)

  /** The diagnostics a step returns beside its result. */
  datatype Info = Info(before: seq<Hit>, after: seq<Hit>, query: string)

  /** `(next_state, reward, done, info)` */
  datatype Transition = Transition(next: EpisodeState, reward: real, done: bool, info: Info)

  /** A step taken before any `reset` has no original query to compare with;
      scoring a rewrite against it fails. */
  datatype EnvError = NoOriginalQuery

  /** Mean of the scores, 0.0 for no results. */
  function MeanScore(results: seq<Hit>): (m: real)
    ensures results == [] ==> m == 0.0
    ensures results != [] ==> m * |results| as real == SumScores(results)
  {
    var d := (if |results| > 1 then |results| else 1) as real;
    assert results != [] ==> d == |results| as real;
    SumScores(results) / d
  }

  /** `_build_state(query, results)` with the current counter `stepT`. */
  function BuildState(query: string, results: seq<Hit>, stepT: int): (s: EpisodeState)
    ensures s.query == query
    ensures |s.vector| == 4
    ensures results == [] ==> s.vector[0] == 0.0 && s.vector[1] == 0.0
    ensures results != [] ==> s.vector[0] == results[0].score && s.vector[1] == MeanScore(results)
    ensures s.vector[2] == WordCount(query) as real
    ensures s.vector[3] == stepT as real
  {
    var topScore := if results != [] then results[0].score else 0.0;
    var avgScore := MeanScore(results);
    EpisodeState(query, [topScore, avgScore, WordCount(query) as real, stepT as real])
  }

  /** For results sorted best first, the mean score never exceeds the top
      score, so the second feature is at most the first. */
  lemma MeanAtMostTop(query: string, results: seq<Hit>, stepT: int)
    requires Descending(results)
    ensures BuildState(query, results, stepT).vector[1] <= BuildState(query, results, stepT).vector[0]
  {
    if results != [] {
      SumScoresBounded(results, results[0].score);
      var n := |results| as real;
      assert SumScores(results) / n <= (n * results[0].score) / n;
    }
  }

  /** The reward of one step, measured against the stored original query;
      with no stored query only an empty result list avoids touching it. */
  function StepReward(before: seq<Hit>, after: seq<Hit>, original: Option<string>, rewritten: string): (r: Result<real, EnvError>)
    ensures r.Failure? <==> original.None? && before != [] && after != []
    ensures before == [] || after == [] ==> r == Success(0.0)
    ensures original.Some? ==> r == Success(ComputeReward(before, after, original.value, rewritten))
  {
    if before == [] || after == [] then Success(ComputeReward(before, after, "", rewritten))
    else if original.None? then Failure(NoOriginalQuery)
    else Success(ComputeReward(before, after, original.value, rewritten))
  }

  class QueryRewriteEnv {
    /** The retriever, `retrieve(query, top_k)`: an oracle outside the model. */
    const retrieve: (string, int) -> seq<Hit>
    const maxSteps: int
    var stepT: int
    var originalQuery: Option<string>

    constructor (retriever: (string, int) -> seq<Hit>, maxSteps: int)
      ensures this.retrieve == retriever && this.maxSteps == maxSteps
      ensures stepT == 0 && originalQuery == None
    {
      this.retrieve := retriever;
      this.maxSteps := maxSteps;
      stepT := 0;
      originalQuery := None;
    }

    /** `reset(query, top_k)`: starts an episode from `query`. */
    method Reset(query: string, topK: int) returns (state: EpisodeState)
      modifies this
      ensures stepT == 0 && originalQuery == Some(query)
      ensures state == BuildState(query, retrieve(query, topK), 0)
      ensures state.query == query && |state.vector| == 4 && state.vector[3] == 0.0
    {
      stepT := 0;
      originalQuery := Some(query);
      var results := retrieve(query, topK);
      state := BuildState(query, results, stepT);
    }

    /** `step(state, action_fn, top_k)`: the counter goes up by one even when
        scoring then fails. */
    method Step(state: EpisodeState, action: string -> string, topK: int) returns (r: Result<Transition, EnvError>)
      modifies this`stepT
      ensures stepT == old(stepT) + 1
      ensures var rewritten := action(state.query);
              var before := retrieve(state.query, topK);
              var after := retrieve(rewritten, topK);
              && (r.Failure? <==> originalQuery.None? && before != [] && after != [])
              && (r.Success? ==>
                    && r.value.reward == StepReward(before, after, originalQuery, rewritten).value
                    && r.value.done == (stepT >= maxSteps)
                    && r.value.next == BuildState(rewritten, after, stepT)
                    && r.value.info == Info(before, after, rewritten))
    {
      stepT := stepT + 1;
      var currentQuery := state.query;
      var rewrittenQuery := action(currentQuery);
      var before := retrieve(currentQuery, topK);
      var after := retrieve(rewrittenQuery, topK);
      var reward := StepReward(before, after, originalQuery, rewrittenQuery);
      if reward.Failure? {
        return Failure(reward.error);
      }
      var done := stepT >= maxSteps;
      var nextState := BuildState(rewrittenQuery, after, stepT);
      var info := Info(before, after, rewrittenQuery);
      r := Success(Transition(nextState, reward.value, done, info));
    }
  }

  /** An episode in the default configuration: after `reset`, three steps
      all succeed (the original query is stored) and only the third one
      reports `done`. */
  method DefaultEpisode(retriever: (string, int) -> seq<Hit>, query: string, action: string -> string)
    returns (dones: seq<bool>)
    ensures dones == [false, false, true]
  {
    var env := new QueryRewriteEnv(retriever, DefaultMaxSteps);
    var state := env.Reset(query, DefaultTopK);
    var r1 := env.Step(state, action, DefaultTopK);
    var r2 := env.Step(r1.value.next, action, DefaultTopK);
    var r3 := env.Step(r2.value.next, action, DefaultTopK);
    dones := [r1.value.done, r2.value.done, r3.value.done];
  }
}
