/** The second copy of the ranking metrics, written against a "gold"
    document; it is shown here to compute exactly what the first copy does. */
module EvalMetrics {
  import opened Retrieval
  import Eval

  /** `recall_at_k(results, gold_doc, k)` */
  function RecallAtK(results: seq<Hit>, goldDoc: string, k: int): (r: real)
    ensures r == 0.0 || r == 1.0
    ensures k >= 0 ==> (r == 1.0 <==> exists i :: 0 <= i < |results| && i < k && results[i].doc == goldDoc)
  {
    var m := Eval.SliceEnd(|results|, k);
    var docs := seq(m, i requires 0 <= i < m => results[i].doc);
    assert forall i :: 0 <= i < m ==> docs[i] == results[i].doc;
    if goldDoc in docs then 1.0 else 0.0
  }

  /** The rank `mean_rank` returns, comparing each document to the gold one. */
  function Rank(results: seq<Hit>, goldDoc: string): (r: nat)
    ensures 1 <= r <= |results| + 1
    ensures r <= |results| ==> results[r - 1].doc == goldDoc
    ensures forall j :: 0 <= j < r - 1 ==> results[j].doc != goldDoc
  {
    if results == [] then 1
    else if results[0].doc == goldDoc then 1
    else 1 + Rank(results[1..], goldDoc)
  }

  /** `mean_rank(results, gold_doc)` */
  method MeanRank(results: seq<Hit>, goldDoc: string) returns (r: nat)
    ensures r == Rank(results, goldDoc)
    ensures 1 <= r <= |results| + 1
    ensures r <= |results| ==> results[r - 1].doc == goldDoc
    ensures forall j :: 0 <= j < r - 1 ==> results[j].doc != goldDoc
  {
    var i := 0;
    while i < |results|
      invariant 0 <= i <= |results|
      invariant forall j :: 0 <= j < i ==> results[j].doc != goldDoc
    {
      if results[i].doc == goldDoc {
        return i + 1;
      }
      i := i + 1;
    }
    return |results| + 1;
  }

  /** Both copies of the metrics agree on every input. */
  lemma {:induction false} AgreesWithEval(results: seq<Hit>, doc: string, k: int)
    ensures RecallAtK(results, doc, k) == Eval.RecallAtK(results, doc, k)
    ensures Rank(results, doc) == Eval.Rank(results, doc)
    decreases |results|
  {
    var m := Eval.SliceEnd(|results|, k);
    var docs := seq(m, i requires 0 <= i < m => results[i].doc);
    assert docs == Eval.TopDocs(results, k);
    if results != [] && results[0].doc != doc {
      AgreesWithEval(results[1..], doc, k);
    }
  }
}
