/**
 * The records that flow through the pipeline: a raw post as the extractor
 * delivers it, the cleaned post the transformer keeps, and the scored post
 * the sentiment scorer produces.
 */
module Posts {
  /** Text is a Python `str`: a sequence of code points. */
  type Text = seq<char>

  /**
   * One row of the extracted frame (columns timestamp, Title, Text,
   * subreddit, score, comments, author, url, date).  The timestamp is a
   * float in the source; nothing in the core computes with it, so it is
   * kept as an integer number of seconds.
   */
  datatype RawPost = RawPost(
    timestamp: int,
    title: Text,
    text: Text,
    subreddit: Text,
    score: int,
    comments: nat,
    author: Text,
    url: Text,
    date: Text)

  /** A row after cleaning: the same columns without the timestamp. */
  datatype CleanPost = CleanPost(
    title: Text,
    text: Text,
    subreddit: Text,
    score: int,
    comments: nat,
    author: Text,
    url: Text,
    date: Text)

  /** The four numbers the polarity scorer yields for one text. */
  datatype Polarity = Polarity(negative: real, neutral: real, positive: real, compound: real)

  /**
   * A cleaned row with the scorer's columns appended, renamed to
   * negative_score, neutral_score, positive_score and final_rating.
   */
  datatype ScoredPost = ScoredPost(post: CleanPost, sentiment: Polarity)
}
