# RL query rewriting for clinical retrieval — a Dafny model

The system rewrites a clinical search query (append domain terms, append
guideline terms, expand the acronym "dm", or leave it alone), retrieves
documents for the query before and after the rewrite, and rewards the rewrite
by how much the top retrieval score moved, how much of the original query
survives, how well the rewrite matches the top document, and how much longer
the query got. Two learners choose rewrites:

- a positive-reinforcement policy over the four actions;
- a tabular Q-learning baseline.

Two copies of the evaluation metrics (recall@k and the rank of the relevant
document) score the final retrieval.

The model is split into one module per source file, plus three helper modules:

- `Wrappers` holds the `Option` and `Result` types used for absent values and
  error paths.
- `Text` models Python's argument-less `str.split()` and `str.lower()`.
- `Retrieval` holds the result type and what the model relies on about the
  retriever.

Pure code is modelled by functions and lemmas:

- `reward.py` → `Reward`
- `actions.py` → `Actions`
- the metric functions of `eval.py` and `eval_metrics.py` → `Eval` and `EvalMetrics`

The three classes that update fields in place are Dafny classes:

- `QueryRewriteEnv` → `Env.QueryRewriteEnv`
- `PPOQueryRewriteAgent` → `Agent.QueryRewriteAgent`
- `DQNAgent` → `DqnAgent.DqnAgent`

Each of their methods states its whole new state in terms of a specification
function, and the properties are proved about that function. Both
`mean_rank` loops are methods proved equal to a recursive rank function
(`Eval.Rank`, `EvalMetrics.Rank`).

Random choices are nondeterministic. A step may pick any action with non-zero
probability (respectively any index when exploring). The property proved is
the one that holds for every draw.

Some behaviours of the code that a reader might not expect:

- `step` does not refuse to run after `done`. It increments the counter,
  and `done` stays true.
- Rewriting a query into itself does not earn a reward of zero. The semantic
  term contributes 0.5 and the grounding term up to 0.3
  (`Reward.IdentityRewriteReward`).
- A step before any `reset` does not get a zero reward. It fails as soon as
  both result lists are non-empty, because the missing original query is
  lower-cased (`Env.StepReward`).
- "Rank at most k" is not the same as "recall@k is 1". The not-found rank,
  `len(results) + 1`, can itself be at most k (`Eval.AbsentRankCanBeWithinK`).
  The equivalence holds only for a document that is present
  (`Eval.RecallIffRankWithinK`).

Scores and probabilities are `real`s. Integer widths do not matter anywhere
in this code.

## Model

| member | source | states |
|---|---|---|
| Text.Lower | reward.py:2-3 | `lower()`: same length, and separators stay exactly where they were |
| Text.Words | reward.py:2-3 | `split()`: never more words than characters; the word list itself is characterised by `Text.TokenLen`, `Text.WordsSplitAtSpace` and `Text.WordsAreWords` |
| Text.WordCount | reward.py:29 | `len(q.split())` is at most the length of `q` |
| Text.WordSet | reward.py:2-3 | `set(q.lower().split())` is empty exactly when `q` has no words, and holds only non-empty words without separators |
| Text.TokenLen | reward.py:2-3 | the first word of a string is the longest run of non-separator characters: all its characters are non-separators and the next one is a separator |
| Text.WordsSplitAtSpace | reward.py:2-3 | `split()` at a separator splits the word list: words of `x c y` are words of `x` followed by words of `y` |
| Text.LowerKeepsWordCount | reward.py:2-3 | `lower()` before `split()` never changes how many words there are |
| Text.LowerAtSpace | reward.py:2-3 | lower-casing is per character and leaves separators in place |
| Text.WordsAreWords | reward.py:2-3 | every word `split()` yields is non-empty and contains no separator |
| Text.WordsOfWord | reward.py:29 | a single word splits into exactly itself |
| Text.WordsAppendSpaced | actions.py:1-5 | appending space-separated words appends exactly those words to the split |
| Retrieval.SumScores | env.py:53 | no contract of its own: `sum(r[0] for r in results)`; bounded by `Retrieval.SumScoresBounded` |
| Retrieval.SumScoresBounded | env.py:53 | proof helper: scores each at most `m` sum to at most `len * m` |
| Reward.SubsetCardinality | reward.py:4 | proof helper: the shared words are no more than `a`'s words, and exactly as many only when all of `a`'s words are shared |
| Reward.Fraction | reward.py:4 | proof helper: a share of a positive whole lies in [0, 1] and is 1 only for the whole |
| Reward.PenaltyForGrowth | reward.py:29 | `max(0, growth) * 0.02` is non-negative and zero exactly when the query does not grow |
| Reward.LengthPenalty | reward.py:29 | the length penalty is non-negative and zero exactly when the rewrite has no more words than the original |
| Reward.TokenOverlap | reward.py:1-4 | overlap lies in [0, 1]; it is 0 for a query with no words; otherwise it is 1 exactly when every distinct lower-cased word of `a` occurs in `b` |
| Reward.ComputeReward | reward.py:7-38 | the reward is 0 when either result list is empty; otherwise it lies between the score gain minus the length penalty and that plus 0.8 (the weights of the two overlap terms) |
| Reward.PenaltyMonotone | reward.py:29 | the length penalty is 0 unless the query grows, grows by 0.02 per added word, and never decreases with growth |
| Reward.SelfOverlap | reward.py:1-4 | a query with a word overlaps itself completely |
| Reward.IdentityRewriteReward | reward.py:16-38 | a rewrite that keeps the query and its results earns exactly 0.5 plus 0.3 times the grounding overlap |
| Reward.OverlapIgnoresCase | reward.py:2-3 | overlap is unchanged by lower-casing both queries |
| Reward.OverlapIgnoresSpacing | reward.py:2-3 | overlap is unchanged by doubling a separator on either side |
| Reward.OverlapIgnoresRepetition | reward.py:2-4 | overlap is unchanged by repeating a query, since it counts distinct words |
| Actions.Catalogue | actions.py:14-19 | the catalogue has four distinct actions with `no_op` last |
| Actions.IndexOf | actions.py:14-19 | `ACTIONS.index(a)` is the position holding `a` |
| Actions.Replace | actions.py:8 | `str.replace`, left to right without overlaps: returns the text unchanged when the pattern does not occur in it (in particular when the pattern is longer) |
| Actions.Occurs | actions.py:8 | no contract of its own: the `in` test; `Actions.OccursIffSomewhere` shows it is the substring test |
| Actions.OccursIffSomewhere | actions.py:8 | the pattern occurs exactly when it starts at some position of the text |
| Actions.Apply | actions.py:1-11 | action dispatch: the two suffix actions and `no_op` keep the query as a prefix, `no_op` returns it, and `expand_acronyms` returns a query without "dm" unchanged |
| Actions.NoOpIsIdentity | actions.py:10-11 | `no_op` returns its input and is at index 3 |
| Actions.DomainTermsAreWords | actions.py:2 | each appended domain term is a single word |
| Actions.GuidelineTermsAreWords | actions.py:5 | each appended guideline term is a single word |
| Actions.DomainTermsAppended | actions.py:1-2 | `add_domain_terms` keeps the query as a prefix and appends exactly the six domain words |
| Actions.GuidelineTermsAppended | actions.py:4-5 | `add_guideline_terms` keeps the query as a prefix and appends exactly the four guideline words |
| Actions.ExpandWithoutAcronym | actions.py:7-8 | a query without "dm" is unchanged by `expand_acronyms` |
| Actions.NoAcronymWithoutPair | actions.py:8 | text with no 'd' directly before an 'm' contains no "dm" (in particular the expansion) |
| Actions.ExpandKeepsFirst | actions.py:7-8 | `expand_acronyms` keeps a query's first character |
| Actions.NoAcronymAcross | actions.py:8 | text without "dm" that does not end in 'd' cannot form "dm" with what follows |
| Actions.ExpandLeavesNoAcronym | actions.py:7-8 | the output of `expand_acronyms` contains no "dm" |
| Actions.ExpandIdempotent | actions.py:7-8 | applying `expand_acronyms` twice is the same as once |
| Actions.ExpandIsCaseSensitive | actions.py:8 | "DM" is not expanded |
| Actions.ExpandFiresInsideWords | actions.py:8 | "dm" inside a word ("admin") is expanded too |
| Eval.SliceEnd | eval.py:2 | the length of `results[:k]`: never more than the list, `min(k, len)` for non-negative k |
| Eval.TopDocs | eval.py:2 | the documents of the first `SliceEnd` results, in order |
| Eval.RecallAtK | eval.py:1-3 | recall is 0 or 1, and 1 exactly when some result within the slice holds the document |
| Eval.Rank | eval.py:6-10 | the rank is in 1..len+1; a rank within the list points at the document, and no earlier result holds it |
| Eval.MeanRank | eval.py:6-10 | the loop returns exactly the rank |
| Eval.RankPastEndIffAbsent | eval.py:10 | the rank is `len + 1` exactly when no result holds the document |
| Eval.RecallIffRankWithinK | eval.py:1-10 | for k ≥ 0, recall@k is 1 exactly when the document is found and its rank is at most k |
| Eval.AbsentRankCanBeWithinK | eval.py:1-10 | an absent document can have rank 2 with recall@3 equal to 0 |
| EvalMetrics.RecallAtK | eval_metrics.py:1-3 | recall is 0 or 1; for k ≥ 0, 1 exactly when one of the first k results holds the gold document |
| EvalMetrics.Rank | eval_metrics.py:6-10 | the rank is in 1..len+1, points at the gold document when within the list, and no earlier result holds it |
| EvalMetrics.MeanRank | eval_metrics.py:6-10 | the loop returns exactly `EvalMetrics.Rank`, and so a rank with those properties |
| EvalMetrics.AgreesWithEval | eval_metrics.py:1-10 | both copies of recall@k and of the rank agree on every input |
| Env.MeanScore | env.py:53 | 0 for no results; otherwise the mean times the number of results is the score sum |
| Env.BuildState | env.py:51-63 | the state keeps the query; its vector is top score, mean score (0 for no results), word count and step counter |
| Env.MeanAtMostTop | env.py:52-53 | for results sorted best first, the mean-score feature never exceeds the top-score feature |
| Env.StepReward | env.py:32-37 | scoring fails exactly when no original query is stored and both result lists are non-empty; it is 0 when either list is empty, otherwise the shaped reward against the stored query |
| Env.QueryRewriteEnv.constructor | env.py:9-13 | counter 0, no original query |
| Env.QueryRewriteEnv.Reset | env.py:15-20 | counter back to 0, query stored, state built from the retrieved results with counter 0 |
| Env.DefaultEpisode | env.py:9-49 | with the defaults `max_steps=3` and `top_k=3`, after `reset` three steps all succeed and report `done` as false, false, true |
| Env.QueryRewriteEnv.Step | env.py:22-49 | the counter goes up by one; failure exactly as `StepReward`; on success: the reward, `done` iff counter ≥ max steps, next state built from the rewrite and its results, and diagnostics |
| Agent.Reinforced | agent.py:26-29 | the probabilities after the first `n` (action, reward) pairs are walked; same length; entries and total are given by `Agent.ReinforcedEntry` and `Agent.ReinforcedSum` |
| Agent.ReinforcedEntry | agent.py:26-29 | each action's probability grows by `lr` per positive reward it was paired with, and by nothing else |
| Agent.ReinforcedSum | agent.py:26-29 | the total grows by `lr` per positive reward among the paired entries |
| Agent.ReinforcedStaysPositive | agent.py:26-29 | with `lr` ≥ 0, positive probabilities stay positive |
| Agent.NoPositiveRewardNoChange | agent.py:26-29 | with no positive reward the probabilities are unchanged |
| Agent.Times | agent.py:29 | proof helper: `lr` added `k` times, a second definition of `lr * k` kept for solver stability (`Agent.TimesIsProduct` equates them); non-negative for a non-negative `lr` |
| Agent.TimesIsProduct | agent.py:26-29 | proof helper: adding `lr` once per positive pair amounts to `lr` times the number of pairs |
| Agent.Sum | agent.py:32 | no contract of its own: `sum(probs)`; its properties are `Agent.SumRaise`, `Agent.SumScaled` and `Agent.PositiveSum` |
| Agent.Normalised | agent.py:33 | same length, and each entry times the total is the original entry |
| Agent.SumRaise | agent.py:29 | raising one entry raises the sum by the same amount |
| Agent.DivideSum | agent.py:33 | proof helper: dividing by the total distributes over a sum |
| Agent.SumScaled | agent.py:33 | dividing each entry by `t` divides the sum by `t` |
| Agent.Normalises | agent.py:32-33 | normalising by a positive total gives entries summing to 1, keeping positive entries positive |
| Agent.NormalisedFixesPolicy | agent.py:32-33 | normalising a vector already summing to 1 changes nothing |
| Agent.PositiveSum | agent.py:32 | a non-empty positive vector has a positive total, so the division is safe |
| Agent.UniformStart | agent.py:8 | the starting vector is a probability vector over the catalogue |
| Agent.UpdateTotal | agent.py:26-32 | before normalising, the total of a vector that sums to 1 has grown to 1 plus `lr` times the number of positive pairs |
| Agent.UpdateKeepsPolicy | agent.py:21-36 | with `lr` ≥ 0 the pre-normalisation total is at least 1, and the normalised result is a probability vector again |
| Agent.UpdateWithoutPositiveReward | agent.py:21-36 | when no reward paired with a history entry is positive (rewards past the end of the history are never read) an update leaves the policy unchanged |
| Agent.DefaultRateKeepsPolicy | agent.py:21-36 | with the default rate 0.05 an update keeps a probability vector a probability vector |
| Agent.QueryRewriteAgent.constructor | agent.py:6-9 | uniform probabilities 1/4, empty history |
| Agent.QueryRewriteAgent.SelectAction | agent.py:11-19 | the chosen action has non-zero probability and is appended to the history; the policy is unchanged |
| Agent.QueryRewriteAgent.UpdatePolicy | agent.py:21-36 | the new probabilities are the reinforced vector normalised, they form a probability vector again, and the history is cleared |
| DqnAgent.Zeros | dqn_agent.py:24 | `np.zeros(n)`: n entries, all zero |
| DqnAgent.MaxOf | dqn_agent.py:41 | `np.max`: an entry of the row that bounds every entry |
| DqnAgent.ArgMax | dqn_agent.py:29 | `np.argmax`: an index of a maximal entry, and no earlier index holds an entry that large |
| DqnAgent.CellIndex | dqn_agent.py:40 | numpy indexing of a row: valid exactly for `-dim <= a < dim`, negative indices counting from the end |
| DqnAgent.WithRow | dqn_agent.py:22-24 | an unseen key gets a row of zeros; known rows are untouched; no other key is added |
| DqnAgent.Bellman | dqn_agent.py:43-45 | the new value is the old one for lr 0 and the target for lr 1; for lr in [0, 1] it lies between the old value and the target |
| DqnAgent.DefaultRatesMoveStrictlyTowardTarget | dqn_agent.py:11-45 | with the default `lr=0.1` and `gamma=0.95`, a value different from its target moves strictly towards it without reaching it |
| DqnAgent.Learn | dqn_agent.py:33-45 | the update fails exactly when the state has no row after the next state's row was added, or the action index is outside the row |
| DqnAgent.LearnChangesOneCell | dqn_agent.py:37-45 | a successful update adds only the next state's key, keeps row lengths, and changes only the chosen cell of the current state's row, to its Bellman value |
| DqnAgent.UpdateAfterSelectSucceeds | dqn_agent.py:21-45 | after an action was chosen for a state, updating that state with an in-range index succeeds |
| DqnAgent.UnseenNextStateBootstrapsZero | dqn_agent.py:37-41 | an unseen next state contributes a maximum of 0 |
| DqnAgent.GreedyOnFreshRow | dqn_agent.py:23-29 | the greedy choice on a fresh row is action 0 |
| DqnAgent.DqnAgent.constructor | dqn_agent.py:11-16 | empty table and the given parameters |
| DqnAgent.DqnAgent.SelectAction | dqn_agent.py:21-31 | the state gains a row if it had none; a chosen index is within the row and the catalogue and names that action; with `eps` ≤ 0 the choice is greedy; an empty action space fails; any action space of at most four actions succeeds |
| DqnAgent.DqnAgent.Update | dqn_agent.py:33-45 | the table becomes `Learn`'s result; on failure it keeps the next state's new row |

## Left out

- The retriever (`retriever.py`, BM25 ranking) is not part of this model. `Env.QueryRewriteEnv` takes `retrieve` as an uninterpreted function. Only its sort order is assumed, and only by `Env.MeanAtMostTop`.
- Training, evaluation and configuration scripts (`train.py`, `evaluate.py`, `main.py`, `config.py`) are not part of this model. They are loops over I/O and printing.
- Floating point: scores, probabilities and Q-values are exact reals. Rounding in `0.02 * growth`, in normalisation and in `round(x, 2)` is not modelled.
- `DqnAgent.DqnAgent`: `_key` (rounding each component to two decimals) is an uninterpreted function `keyOf`, so which states share a row is left open.
- `Text.Lower`: only ASCII letters are lower-cased. Python's full Unicode case mapping is not modelled.
- Random draws (`random.choices`, `random.random`, `random.randint`): the model chooses nondeterministically, so probabilities and distributions are not modelled. Only the support is: non-zero weight, any index when exploring.
- `Agent.QueryRewriteAgent.UpdatePolicy`: requires `lr >= 0`. With a negative rate the total can reach zero and Python raises `ZeroDivisionError`; that path is not modelled.
- `Agent.QueryRewriteAgent.UpdatePolicy`: requires the current probabilities to form a probability vector (the class invariant every method keeps). Python would also normalise an arbitrary list.
- `Agent.QueryRewriteAgent.SelectAction`: requires the same invariant. The action history is a list of catalogue entries, so `ACTIONS.index` always succeeds.
- `DqnAgent.DqnAgent`: `action_dim` is a natural number. A negative dimension makes `np.zeros` raise and is not modelled.
- `Env.QueryRewriteEnv.Step`: the action is passed as a string function applied to the query. Any callable, not only the catalogue's, may be passed, as in Python.
- An actor-critic or PPO learner beyond the positive-reinforcement update is not part of the source shown and is not modelled.
