/** Ranking metrics of one retrieval: whether the relevant document made the
    top k, and the 1-based rank at which it first appears. */
module Eval {
  import opened Retrieval

  /** The length of the Python slice `xs[:k]` of a list of length `n`; a
      negative `k` counts from the end. */
  function SliceEnd(n: nat, k: int): (m: nat)
    ensures m <= n
    ensures k >= 0 ==> m == if k < n then k else n
  {
    if k >= 0 then (if k < n then k else n)
    else if n + k >= 0 then n + k
    else 0
  }

  /** `[doc for _, doc in results[:k]]` */
  function TopDocs(results: seq<Hit>, k: int): (docs: seq<string>)
    ensures |docs| == SliceEnd(|results|, k)
    ensures forall i :: 0 <= i < |docs| ==> docs[i] == results[i].doc
  {
    var m := SliceEnd(|results|, k);
    seq(m, i requires 0 <= i < m => results[i].doc)
  }

  /** `recall_at_k(results, relevant_doc, k)`: 1.0 when the relevant document
      is among the first k results, 0.0 otherwise. */
  function RecallAtK(results: seq<Hit>, relevantDoc: string, k: int): (r: real)
    ensures r == 0.0 || r == 1.0
    ensures r == 1.0 <==> exists i :: 0 <= i < SliceEnd(|results|, k) && results[i].doc == relevantDoc
  {
    var docs := TopDocs(results, k);
    if relevantDoc in docs then 1.0 else 0.0
  }

  /** The rank `mean_rank` returns: the 1-based position of the first result
      holding the document, or one past the end when none does. */
  function Rank(results: seq<Hit>, relevantDoc: string): (r: nat)
    ensures 1 <= r <= |results| + 1
    ensures r <= |results| ==> results[r - 1].doc == relevantDoc
    ensures forall j :: 0 <= j < r - 1 ==> results[j].doc != relevantDoc
  {
    if results == [] then 1
    else if relevantDoc == results[0].doc then 1
    else 1 + Rank(results[1..], relevantDoc)
  }

  /** `mean_rank(results, relevant_doc)`: a linear search that stops at the
      first match. */
  method MeanRank(results: seq<Hit>, relevantDoc: string) returns (r: nat)
    ensures r == Rank(results, relevantDoc)
  {
    var i := 0;
    while i < |results|
      invariant 0 <= i <= |results|
      invariant forall j :: 0 <= j < i ==> results[j].doc != relevantDoc
    {
      if relevantDoc == results[i].doc {
        return i + 1;
      }
      i := i + 1;
    }
    return |results| + 1;
  }

  /** The rank is one past the end exactly when the document is absent. */
  lemma RankPastEndIffAbsent(results: seq<Hit>, relevantDoc: string)
    ensures Rank(results, relevantDoc) == |results| + 1 <==>
            forall j :: 0 <= j < |results| ==> results[j].doc != relevantDoc
  {
  }

  /** Recall at a non-negative k is 1.0 exactly when the document was found
      (its rank is a real position) and that rank is at most k. */
  lemma RecallIffRankWithinK(results: seq<Hit>, relevantDoc: string, k: int)
    requires k >= 0
    ensures RecallAtK(results, relevantDoc, k) == 1.0 <==>
            Rank(results, relevantDoc) <= |results| && Rank(results, relevantDoc) <= k
  {
    var r := Rank(results, relevantDoc);
    if r <= |results| && r <= k {
      assert results[r - 1].doc == relevantDoc;
    }
  }

  /** The "not found" rank, one past the end, can itself be within k: with a
      single non-matching result and k = 3 the rank is 2 and recall is 0.0. */
  lemma AbsentRankCanBeWithinK()
    ensures var results := [Hit(1.0, "other")];
            Rank(results, "gold") == 2 && RecallAtK(results, "gold", 3) == 0.0
  {
    var results := [Hit(1.0, "other")];
    assert results[0].doc != "gold";
  }
}
