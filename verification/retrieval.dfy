/** What the rest of the system may rely on about the retriever, which ranks a
    corpus with BM25 and is otherwise not part of this model. */
module Retrieval {

  /** One ranked result: a relevance score and the document text. */
  datatype Hit = Hit(score: real, doc: string)

  /** The retriever sorts by score, highest first. */
  predicate Descending(hits: seq<Hit>) {
    forall i, j :: 0 <= i < j < |hits| ==> hits[j].score <= hits[i].score
  }

  /** `sum(r[0] for r in results)` */
  function SumScores(hits: seq<Hit>): real {
    if hits == [] then 0.0 else hits[0].score + SumScores(hits[1..])
  }

  /** Scores that are all at most `m` add up to at most `|hits|` times `m`. */
  lemma {:induction false} SumScoresBounded(hits: seq<Hit>, m: real)
    requires forall i :: 0 <= i < |hits| ==> hits[i].score <= m
    ensures SumScores(hits) <= |hits| as real * m
  {
    if hits != [] {
      SumScoresBounded(hits[1..], m);
    }
  }
}
