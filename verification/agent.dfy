/** The tabular positive-reinforcement policy: one probability per catalogue
    action, raised for actions that earned a positive reward and then
    renormalised. */
module Agent {
  import opened Actions

  /** The learning rate `update_policy` uses when none is given. */
  const DefaultLr: real := 0.05

  /** `sum(p)` */
  function Sum(p: seq<real>): real {
    if p == [] then 0.0 else p[0] + Sum(p[1..])
  }

  predicate Positive(p: seq<real>) {
    forall i :: 0 <= i < |p| ==> p[i] > 0.0
  }

  /** A probability vector over the catalogue: one strictly positive entry
      per action, summing to one. */
  predicate IsPolicy(p: seq<real>) {
    |p| == |Catalogue()| && Positive(p) && Sum(p) == 1.0
  }

  /** `[p / total for p in probs]` */
  function Normalised(p: seq<real>): (q: seq<real>)
    requires Sum(p) != 0.0
    ensures |q| == |p|
    ensures forall i :: 0 <= i < |p| ==> q[i] * Sum(p) == p[i]
  {
    var t := Sum(p);
    var q := seq(|p|, i requires 0 <= i < |p| => p[i] / t);
    assert forall i :: 0 <= i < |p| ==> q[i] * t == p[i];
    q
  }

  /** The probabilities after the first `n` (action, reward) pairs have been
      walked: `lr` is added to an action's entry once per positive reward. */
  function Reinforced(p: seq<real>, history: seq<Action>, rewards: seq<real>, lr: real, n: nat): (q: seq<real>)
    requires |p| == |Catalogue()|
    requires n <= |history| && n <= |rewards|
    ensures |q| == |p|
  {
    if n == 0 then p
    else
      var q := Reinforced(p, history, rewards, lr, n - 1);
      if rewards[n - 1] > 0.0 then
        var idx := IndexOf(history[n - 1]);
        q[idx := q[idx] + lr]
      else q
  }

  /** How many of the first `n` pairs have a positive reward for action `j`. */
  function PositiveCount(history: seq<Action>, rewards: seq<real>, n: nat, j: nat): nat
    requires n <= |history| && n <= |rewards|
  {
    if n == 0 then 0
    else PositiveCount(history, rewards, n - 1, j)
         + (if rewards[n - 1] > 0.0 && IndexOf(history[n - 1]) == j then 1 else 0)
  }

  /** How many of the first `n` pairs have a positive reward. */
  function PositivePairs(rewards: seq<real>, n: nat): nat
    requires n <= |rewards|
  {
    if n == 0 then 0 else PositivePairs(rewards, n - 1) + (if rewards[n - 1] > 0.0 then 1 else 0)
  }

  /** `lr` added `k` times over. */
  function Times(k: nat, lr: real): (r: real)
    ensures lr >= 0.0 ==> r >= 0.0
  {
    if k == 0 then 0.0 else Times(k - 1, lr) + lr
  }

  /** Adding `lr` `k` times is multiplying it by `k`. */
  lemma {:induction false} TimesIsProduct(k: nat, lr: real)
    ensures Times(k, lr) == lr * k as real
  {
    if k > 0 {
      TimesIsProduct(k - 1, lr);
      assert lr * k as real == lr * (k - 1) as real + lr;
    }
  }

  /** Raising one entry raises the sum by the same amount. */
  lemma {:induction false} SumRaise(p: seq<real>, j: nat, d: real)
    requires j < |p|
    ensures Sum(p[j := p[j] + d]) == Sum(p) + d
  {
    var q := p[j := p[j] + d];
    if j == 0 {
      assert q[1..] == p[1..];
    } else {
      assert q[1..] == p[1..][j - 1 := p[j] + d];
      SumRaise(p[1..], j - 1, d);
    }
  }

  /** Each action's entry grows by `lr` per positive reward it was paired
      with, and by nothing else. */
  lemma {:induction false} ReinforcedEntry(p: seq<real>, history: seq<Action>, rewards: seq<real>, lr: real, n: nat, j: nat)
    requires |p| == |Catalogue()| && j < |p|
    requires n <= |history| && n <= |rewards|
    ensures Reinforced(p, history, rewards, lr, n)[j] == p[j] + Times(PositiveCount(history, rewards, n, j), lr)
  {
    if n > 0 {
      var q := Reinforced(p, history, rewards, lr, n - 1);
      var c := PositiveCount(history, rewards, n - 1, j);
      ReinforcedEntry(p, history, rewards, lr, n - 1, j);
      if rewards[n - 1] > 0.0 && IndexOf(history[n - 1]) == j {
        assert Reinforced(p, history, rewards, lr, n)[j] == q[j] + lr;
        assert PositiveCount(history, rewards, n, j) == c + 1;
      } else {
        assert Reinforced(p, history, rewards, lr, n)[j] == q[j];
        assert PositiveCount(history, rewards, n, j) == c;
      }
    }
  }

  /** The total grows by `lr` per positive pair. */
  lemma {:induction false} ReinforcedSum(p: seq<real>, history: seq<Action>, rewards: seq<real>, lr: real, n: nat)
    requires |p| == |Catalogue()|
    requires n <= |history| && n <= |rewards|
    ensures Sum(Reinforced(p, history, rewards, lr, n)) == Sum(p) + Times(PositivePairs(rewards, n), lr)
  {
    if n > 0 {
      var q := Reinforced(p, history, rewards, lr, n - 1);
      var k := PositivePairs(rewards, n - 1);
      ReinforcedSum(p, history, rewards, lr, n - 1);
      if rewards[n - 1] > 0.0 {
        var idx := IndexOf(history[n - 1]);
        assert Reinforced(p, history, rewards, lr, n) == q[idx := q[idx] + lr];
        SumRaise(q, idx, lr);
        assert PositivePairs(rewards, n) == k + 1;
      } else {
        assert Reinforced(p, history, rewards, lr, n) == q;
        assert PositivePairs(rewards, n) == k;
      }
    }
  }

  /** Reinforcing never lowers an entry when `lr` is not negative, so
      positive entries stay positive. */
  lemma ReinforcedStaysPositive(p: seq<real>, history: seq<Action>, rewards: seq<real>, lr: real, n: nat)
    requires |p| == |Catalogue()| && Positive(p) && lr >= 0.0
    requires n <= |history| && n <= |rewards|
    ensures Positive(Reinforced(p, history, rewards, lr, n))
  {
    forall j | 0 <= j < |p|
      ensures Reinforced(p, history, rewards, lr, n)[j] > 0.0
    {
      ReinforcedEntry(p, history, rewards, lr, n, j);
    }
  }

  /** Without a positive reward among the pairs nothing is reinforced. */
  lemma {:induction false} NoPositiveRewardNoChange(p: seq<real>, history: seq<Action>, rewards: seq<real>, lr: real, n: nat)
    requires |p| == |Catalogue()|
    requires n <= |history| && n <= |rewards|
    requires forall k :: 0 <= k < n ==> rewards[k] <= 0.0
    ensures Reinforced(p, history, rewards, lr, n) == p
  {
    if n > 0 {
      NoPositiveRewardNoChange(p, history, rewards, lr, n - 1);
    }
  }

  /** Division by `t` distributes over a sum. */
  lemma DivideSum(a: real, b: real, t: real)
    requires t != 0.0
    ensures a / t + b / t == (a + b) / t
  {
    assert a / t * t == a;
    assert b / t * t == b;
    assert (a / t + b / t) * t == a / t * t + b / t * t;
  }

  /** Dividing every entry by `t` divides the sum by `t`. */
  lemma {:induction false} SumScaled(p: seq<real>, t: real)
    requires t != 0.0
    ensures Sum(seq(|p|, i requires 0 <= i < |p| => p[i] / t)) == Sum(p) / t
  {
    var s := seq(|p|, i requires 0 <= i < |p| => p[i] / t);
    if p != [] {
      assert s[1..] == seq(|p[1..]|, i requires 0 <= i < |p[1..]| => p[1..][i] / t);
      SumScaled(p[1..], t);
      DivideSum(p[0], Sum(p[1..]), t);
    }
  }

  /** Normalising a vector with a positive total gives entries that sum to
      one and keeps positive entries positive. */
  lemma Normalises(p: seq<real>)
    requires Sum(p) > 0.0
    ensures Sum(Normalised(p)) == 1.0
    ensures Positive(p) ==> Positive(Normalised(p))
  {
    var t := Sum(p);
    SumScaled(p, t);
    assert Normalised(p) == seq(|p|, i requires 0 <= i < |p| => p[i] / t);
    assert t / t == 1.0;
    if Positive(p) {
      forall i | 0 <= i < |p| ensures Normalised(p)[i] > 0.0 {
        assert Normalised(p)[i] == p[i] / t;
        assert p[i] / t * t == p[i];
      }
    }
  }

  /** Normalising a vector that already sums to one changes nothing. */
  lemma NormalisedFixesPolicy(p: seq<real>)
    requires Sum(p) == 1.0
    ensures Normalised(p) == p
  {
  }

  /** A positive vector has a positive sum. */
  lemma {:induction false} PositiveSum(p: seq<real>)
    requires Positive(p) && p != []
    ensures Sum(p) > 0.0
  {
    if |p| > 1 {
      PositiveSum(p[1..]);
    }
  }

  /** `PPOQueryRewriteAgent` */
  class QueryRewriteAgent {
    var probs: seq<real>
    var history: seq<Action>

    ghost predicate Valid()
      reads this
    {
      IsPolicy(probs)
    }

    /** Every action starts with probability 1/4 and the history is empty. */
    constructor ()
      ensures Valid()
      ensures probs == [0.25, 0.25, 0.25, 0.25] && history == []
    {
      probs := [0.25, 0.25, 0.25, 0.25];
      history := [];
    }

    /** `select_action()`: draws an action with non-zero probability and
        records it; which one is left open. */
    method SelectAction() returns (a: Action)
      requires Valid()
      modifies this`history
      ensures Valid()
      ensures probs[IndexOf(a)] > 0.0
      ensures history == old(history) + [a]
    {
      var i :| 0 <= i < |probs| && probs[i] > 0.0;
      a := Catalogue()[i];
      history := history + [a];
    }

    /** `update_policy(rewards, lr)`: raises the probability of each action
        paired with a positive reward, renormalises, and clears the history.
        Pairs beyond the shorter of the two lists are ignored. */
    method UpdatePolicy(rewards: seq<real>, lr: real)
      requires Valid()
      requires lr >= 0.0
      modifies this
      ensures Valid()
      ensures history == []
      ensures var n := if |old(history)| < |rewards| then |old(history)| else |rewards|;
              var raised := Reinforced(old(probs), old(history), rewards, lr, n);
              Sum(raised) > 0.0 && probs == Normalised(raised)
    {
      var n := if |history| < |rewards| then |history| else |rewards|;
      ghost var start := probs;
      var i := 0;
      while i < n
        invariant 0 <= i <= n
        invariant history == old(history)
        invariant probs == Reinforced(start, history, rewards, lr, i)
      {
        if rewards[i] > 0.0 {
          var idx := IndexOf(history[i]);
          probs := probs[idx := probs[idx] + lr];
        }
        i := i + 1;
      }
      ReinforcedStaysPositive(start, history, rewards, lr, n);
      PositiveSum(probs);
      Normalises(probs);
      var raw := probs;
      var total := Sum(raw);
      probs := seq(|raw|, j requires 0 <= j < |raw| => raw[j] / total);
      history := [];
    }
  }

  /** The starting policy is uniform over the catalogue. */
  lemma UniformStart()
    ensures IsPolicy([0.25, 0.25, 0.25, 0.25])
  {
  }

  /** Before normalising, an update has grown the total of a probability
      vector to 1 plus `lr` per positive pair. */
  lemma UpdateTotal(p: seq<real>, history: seq<Action>, rewards: seq<real>, lr: real)
    requires |p| == |Catalogue()| && Sum(p) == 1.0
    ensures var n := if |history| < |rewards| then |history| else |rewards|;
            Sum(Reinforced(p, history, rewards, lr, n)) == 1.0 + lr * PositivePairs(rewards, n) as real
  {
    var n := if |history| < |rewards| then |history| else |rewards|;
    ReinforcedSum(p, history, rewards, lr, n);
    TimesIsProduct(PositivePairs(rewards, n), lr);
  }

  /** One update of a valid policy with a non-negative rate never shrinks
      the total, and normalising gives a valid policy again. */
  lemma UpdateKeepsPolicy(p: seq<real>, history: seq<Action>, rewards: seq<real>, lr: real)
    requires IsPolicy(p) && lr >= 0.0
    ensures var n := if |history| < |rewards| then |history| else |rewards|;
            var q := Reinforced(p, history, rewards, lr, n);
            Sum(q) >= 1.0 && IsPolicy(Normalised(q))
  {
    var n := if |history| < |rewards| then |history| else |rewards|;
    var q := Reinforced(p, history, rewards, lr, n);
    ReinforcedSum(p, history, rewards, lr, n);
    ReinforcedStaysPositive(p, history, rewards, lr, n);
    Normalises(q);
  }

  /** When no paired reward is positive an update leaves the policy as it
      was, because it was already normalised; rewards beyond the history are
      never read. */
  lemma UpdateWithoutPositiveReward(p: seq<real>, history: seq<Action>, rewards: seq<real>, lr: real)
    requires IsPolicy(p)
    requires forall k :: 0 <= k < |history| && k < |rewards| ==> rewards[k] <= 0.0
    ensures var n := if |history| < |rewards| then |history| else |rewards|;
            Reinforced(p, history, rewards, lr, n) == p && Normalised(p) == p
  {
    var n := if |history| < |rewards| then |history| else |rewards|;
    NoPositiveRewardNoChange(p, history, rewards, lr, n);
    NormalisedFixesPolicy(p);
  }

  /** `update_policy` with its default rate keeps a valid policy valid. */
  lemma DefaultRateKeepsPolicy(p: seq<real>, history: seq<Action>, rewards: seq<real>)
    requires IsPolicy(p)
    ensures var n := if |history| < |rewards| then |history| else |rewards|;
            var q := Reinforced(p, history, rewards, DefaultLr, n);
            Sum(q) >= 1.0 && IsPolicy(Normalised(q))
  {
    UpdateKeepsPolicy(p, history, rewards, DefaultLr);
  }
}
