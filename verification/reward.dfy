/** The shaped reward of one rewrite: how much the top retrieval score moved,
    how much of the original query survives, how well the rewrite matches the
    top document, and a penalty for growing the query. */
module Reward {
  import opened Text
  import opened Retrieval

  /** A subset is no larger than its superset, and only an equal set is as
      large. */
  lemma SubsetCardinality<T>(a: set<T>, b: set<T>)
    requires a <= b
    ensures |a| <= |b|
    ensures |a| == |b| ==> a == b
  {
    assert b == a + (b - a);
  }

  /** `token_overlap(a, b)`: the share of `a`'s distinct lower-cased words
      that also occur in `b`, out of `a`'s distinct words (at least one). */
  function TokenOverlap(a: string, b: string): (r: real)
    ensures 0.0 <= r <= 1.0
    ensures WordSet(a) == {} ==> r == 0.0
    ensures WordSet(a) != {} ==> (r == 1.0 <==> WordSet(a) <= WordSet(b))
  {
    var sa := WordSet(a);
    var sb := WordSet(b);
    SubsetCardinality(sa * sb, sa);
    var shared: real := |sa * sb| as real;
    var denominator: real := (if |sa| > 1 then |sa| else 1) as real;
    assert shared <= denominator;
    assert sa != {} ==> |sa| >= 1 && denominator == |sa| as real;
    assert sa * sb == sa <==> sa <= sb;
    Fraction(shared, denominator);
    shared / denominator
  }

  /** A share of a positive whole is at most one, and exactly one only when
      the part is the whole. */
  lemma Fraction(part: real, whole: real)
    requires 0.0 <= part <= whole && whole > 0.0
    ensures 0.0 <= part / whole <= 1.0
    ensures part / whole == 1.0 <==> part == whole
  {
    assert part / whole * whole == part;
  }

  /** The per-word weight of query growth. */
  const PenaltyPerWord: real := 0.02

  /** `max(0, growth) * 0.02` */
  function PenaltyForGrowth(growth: int): (r: real)
    ensures r >= 0.0
    ensures r == 0.0 <==> growth <= 0
  {
    (if growth > 0 then growth else 0) as real * PenaltyPerWord
  }

  /** The length penalty of rewriting `original` into `rewritten`. */
  function LengthPenalty(original: string, rewritten: string): (r: real)
    ensures r >= 0.0
    ensures r == 0.0 <==> WordCount(rewritten) <= WordCount(original)
  {
    PenaltyForGrowth(WordCount(rewritten) - WordCount(original))
  }

  /** `compute_reward(before, after, original_q, rewritten_q)`. */
  function ComputeReward(before: seq<Hit>, after: seq<Hit>, original: string, rewritten: string): (r: real)
    ensures before == [] || after == [] ==> r == 0.0
    ensures before != [] && after != [] ==>
      var gain := after[0].score - before[0].score;
      gain - LengthPenalty(original, rewritten) <= r <= gain + 0.8 - LengthPenalty(original, rewritten)
  {
    if before == [] || after == [] then 0.0
    else
      var rankGain := after[0].score - before[0].score;
      var semanticSim := TokenOverlap(original, rewritten);
      var grounding := TokenOverlap(rewritten, after[0].doc);
      var lengthPenalty := LengthPenalty(original, rewritten);
      1.0 * rankGain + 0.5 * semanticSim + 0.3 * grounding - lengthPenalty
  }

  /** The penalty is zero unless the query grows, and it never decreases as the
      growth increases. */
  lemma PenaltyMonotone(g1: int, g2: int)
    requires g1 <= g2
    ensures 0.0 <= PenaltyForGrowth(g1) <= PenaltyForGrowth(g2)
    ensures g1 <= 0 ==> PenaltyForGrowth(g1) == 0.0
    ensures g2 > 0 ==> PenaltyForGrowth(g2) == PenaltyPerWord * g2 as real
  {
  }

  /** A query with at least one word overlaps itself completely. */
  lemma SelfOverlap(a: string)
    requires WordCount(a) >= 1
    ensures TokenOverlap(a, a) == 1.0
  {
    LowerKeepsWordCount(a);
    var w := Words(Lower(a))[0];
    assert w in WordSet(a);
  }

  /** Keeping the query and getting the same non-empty results back earns the
      full semantic term and the grounding term, nothing else. */
  lemma IdentityRewriteReward(results: seq<Hit>, query: string)
    requires results != []
    requires WordCount(query) >= 1
    ensures ComputeReward(results, results, query, query) == 0.5 + 0.3 * TokenOverlap(query, results[0].doc)
  {
    SelfOverlap(query);
  }

  /** Overlap ignores letter case on both sides. */
  lemma OverlapIgnoresCase(a: string, b: string)
    ensures TokenOverlap(Lower(a), Lower(b)) == TokenOverlap(a, b)
  {
    assert Lower(Lower(a)) == Lower(a);
    assert Lower(Lower(b)) == Lower(b);
  }

  /** Overlap ignores how much whitespace separates two words, on either
      side: one separator or two give the same value. */
  lemma OverlapIgnoresSpacing(x: string, c: char, d: char, y: string, b: string)
    requires IsSpace(c) && IsSpace(d)
    ensures TokenOverlap(x + [c, d] + y, b) == TokenOverlap(x + [c] + y, b)
    ensures TokenOverlap(b, x + [c, d] + y) == TokenOverlap(b, x + [c] + y)
  {
    assert x + [c, d] + y == x + [c] + ([d] + y);
    LowerAtSpace(x, c, [d] + y);
    LowerAtSpace(x, c, y);
    assert Lower([d] + y) == [d] + Lower(y);
    WordsSplitAtSpace(Lower(x), c, [d] + Lower(y));
    WordsSplitAtSpace(Lower(x), c, Lower(y));
    assert ([d] + Lower(y))[1..] == Lower(y);
    assert WordSet(x + [c, d] + y) == WordSet(x + [c] + y);
  }

  /** Overlap ignores repeated words: saying a query twice changes nothing. */
  lemma OverlapIgnoresRepetition(a: string, c: char, b: string)
    requires IsSpace(c)
    ensures TokenOverlap(a + [c] + a, b) == TokenOverlap(a, b)
    ensures TokenOverlap(b, a + [c] + a) == TokenOverlap(b, a)
  {
    LowerAtSpace(a, c, a);
    WordsSplitAtSpace(Lower(a), c, Lower(a));
    assert WordSet(a + [c] + a) == WordSet(a);
  }
}
