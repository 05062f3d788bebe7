/**
 * The pieces of the program that sit outside the core and are parameters of
 * the model: the Reddit search behind `extract` (main.py:67-95) and the
 * VADER scorer behind `perform_sentimental_analysis` (main.py:134-159).
 */
module Pipeline {
  import opened Posts
  import opened Transformer
  import opened Scorer

  /**
   * The outside world: what a search for a topic returns (possibly nothing,
   * which also stands for a failed request) and the polarity of a text.
   */
  datatype Env = Env(extract: Text -> seq<RawPost>, polarity: Text -> Polarity)

  /** extract, transform, then score: the scored frame for a topic, one row per post that transform keeps (main.py:47-59, 347-352). */
  function Dataset(env: Env, topic: Text): (r: seq<ScoredPost>)
    ensures |r| == |Transform(env.extract(topic))|
  {
    Score(env.polarity, Transform(env.extract(topic)))
  }

  /**
   * The scored frame is empty exactly when cleaning kept no row; in
   * particular an empty extraction gives an empty frame.
   */
  lemma DatasetEmptyIff(env: Env, topic: Text)
    ensures Dataset(env, topic) == [] <==> Transform(env.extract(topic)) == []
    ensures env.extract(topic) == [] ==> Dataset(env, topic) == []
  {
  }
}
