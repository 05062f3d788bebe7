/**
 * `perform_sentimental_analysis` (main.py:134-159): each cleaned row gets
 * the four polarity scores of its body.  The scorer itself (VADER) is a
 * foreign library and is a parameter here.
 */
module Scorer {
  import opened Posts

  /** Append the scorer's columns to every row; no row is added, dropped or moved. */
  function Score(polarity: Text -> Polarity, rows: seq<CleanPost>): (r: seq<ScoredPost>)
    ensures |r| == |rows|
    ensures forall i :: 0 <= i < |rows| ==> r[i].post == rows[i] && r[i].sentiment == polarity(rows[i].text)
  {
    if rows == [] then []
    else [ScoredPost(rows[0], polarity(rows[0].text))] + Score(polarity, rows[1..])
  }

  /** The `final_rating` column: VADER's compound score. */
  function FinalRatings(rows: seq<ScoredPost>): (r: seq<real>)
    ensures |r| == |rows|
    ensures forall i :: 0 <= i < |rows| ==> r[i] == rows[i].sentiment.compound
  {
    if rows == [] then [] else [rows[0].sentiment.compound] + FinalRatings(rows[1..])
  }
}
