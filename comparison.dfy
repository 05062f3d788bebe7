/**
 * `compare_topics` (main.py:332-380): tag a copy of the current frame with
 * its topic, fetch and score a second topic, and group the two frames'
 * ratings by topic label.  The caller's frame is never changed.
 */
module Comparison {
  import opened Wrappers
  import opened Posts
  import opened Scorer
  import opened Pipeline

  /** A scored DataFrame, with a `topic` column once one has been assigned. */
  class Frame {
    var rows: seq<ScoredPost>
    var topic: Option<Text>

    constructor (rows: seq<ScoredPost>)
      ensures this.rows == rows && topic == None
    {
      this.rows := rows;
      topic := None;
    }

    /** `df.copy()` (main.py:344): a new frame with the same contents. */
    method Copy() returns (c: Frame)
      ensures fresh(c) && c.rows == rows && c.topic == topic
    {
      c := new Frame(rows);
      c.topic := topic;
    }

    /** `df['topic'] = t` (main.py:345, 353): every row gets the label t. */
    method SetTopic(t: Text)
      modifies this
      ensures rows == old(rows) && topic == Some(t)
    {
      topic := Some(t);
    }
  }

  /** One row of the combined frame: its topic label and its final rating. */
  datatype Labelled = Labelled(topic: Text, rating: real)

  /** The (topic, final_rating) columns of a frame whose topic column is t. */
  function Label(rows: seq<ScoredPost>, t: Text): (r: seq<Labelled>)
    ensures |r| == |rows|
    ensures forall i :: 0 <= i < |rows| ==> r[i] == Labelled(t, rows[i].sentiment.compound)
  {
    if rows == [] then [] else [Labelled(t, rows[0].sentiment.compound)] + Label(rows[1..], t)
  }

  /** The labels that occur. */
  function Topics(rows: seq<Labelled>): set<Text> {
    if rows == [] then {} else {rows[0].topic} + Topics(rows[1..])
  }

  /** The ratings of the rows labelled t, in order. */
  function RatingsOf(rows: seq<Labelled>, t: Text): seq<real> {
    if rows == [] then []
    else if rows[0].topic == t then [rows[0].rating] + RatingsOf(rows[1..], t)
    else RatingsOf(rows[1..], t)
  }

  /**
   * `groupby('topic')['final_rating']` (main.py:356): one group per label
   * present, holding the ratings with that label.  The mean of each group
   * is floating-point arithmetic and is not part of this model.
   */
  function GroupByTopic(rows: seq<Labelled>): (m: map<Text, seq<real>>)
    ensures m.Keys == Topics(rows)
    ensures forall t :: t in m ==> m[t] == RatingsOf(rows, t)
  {
    if rows == [] then map[]
    else
      var m := GroupByTopic(rows[1..]);
      var t := rows[0].topic;
      RatingsOfAbsent(rows[1..], t);
      m[t := [rows[0].rating] + (if t in m then m[t] else [])]
  }

  /** A label that does not occur has no ratings. */
  lemma {:induction false} RatingsOfAbsent(rows: seq<Labelled>, t: Text)
    ensures t !in Topics(rows) ==> RatingsOf(rows, t) == []
  {
    if rows != [] {
      RatingsOfAbsent(rows[1..], t);
    }
  }

  /** What a call of `compare_topics` ends with. */
  datatype Outcome =
    | NoData                                              // the first frame is empty (main.py:338-340)
    | NoSecondData(topic2: Text)                          // nothing survives for the second topic (main.py:347-350)
    | Compared(topic2: Text, groups: map<Text, seq<real>>) // the grouped ratings that are plotted

  /** What `compare_topics` computes for the rows of the current frame and the second topic as typed. */
  function CompareOutcome(env: Env, rows1: seq<ScoredPost>, topic1: Text, topic2: Text): (r: Outcome)
    ensures r.NoData? <==> rows1 == []
    ensures r.NoSecondData? <==> rows1 != [] && Dataset(env, topic2) == []
    ensures !r.NoData? ==> r.topic2 == topic2
  {
    if rows1 == [] then NoData
    else
      var rows2 := Dataset(env, topic2);
      if rows2 == [] then NoSecondData(topic2)
      else Compared(topic2, GroupByTopic(Label(rows1, topic1) + Label(rows2, topic2)))
  }

  /**
   * `compare_topics(df1_sentiment, topic1)` with the second topic as typed
   * (it is not stripped, main.py:342).  The method has no `modifies` clause:
   * it labels a fresh copy, and the caller's frame stays as it was.
   */
  method CompareTopics(env: Env, df1: Frame, topic1: Text, topic2: Text) returns (out: Outcome)
    ensures out == CompareOutcome(env, df1.rows, topic1, topic2)
    ensures unchanged(df1)
  {
    if df1.rows == [] {
      return NoData;
    }
    var tagged1 := df1.Copy();
    tagged1.SetTopic(topic1);
    var rows2 := Dataset(env, topic2);
    if rows2 == [] {
      return NoSecondData(topic2);
    }
    var df2 := new Frame(rows2);
    df2.SetTopic(topic2);
    var combined := Label(tagged1.rows, tagged1.topic.value) + Label(df2.rows, df2.topic.value);
    out := Compared(topic2, GroupByTopic(combined));
  }

  /**
   * A comparison that goes through has one group per distinct topic: a
   * single group when the second topic equals the first, two otherwise.
   * With one group it holds the ratings of both frames, first frame first;
   * with two, each holds the ratings of its own topic's frame.
   */
  lemma ComparedGroups(env: Env, rows1: seq<ScoredPost>, topic1: Text, topic2: Text)
    requires CompareOutcome(env, rows1, topic1, topic2).Compared?
    ensures var g := CompareOutcome(env, rows1, topic1, topic2).groups;
      && g.Keys == {topic1, topic2}
      && (|g| == 1 <==> topic1 == topic2)
      && (topic1 == topic2 ==> g[topic1] == FinalRatings(rows1) + FinalRatings(Dataset(env, topic2)))
      && (topic1 != topic2 ==> g[topic1] == FinalRatings(rows1) && g[topic2] == FinalRatings(Dataset(env, topic2)))
  {
    LabelledGroups(rows1, topic1, Dataset(env, topic2), topic2);
  }

  /** The groups of two non-empty frames labelled with topic1 and topic2. */
  lemma LabelledGroups(rows1: seq<ScoredPost>, topic1: Text, rows2: seq<ScoredPost>, topic2: Text)
    requires rows1 != [] && rows2 != []
    ensures var g := GroupByTopic(Label(rows1, topic1) + Label(rows2, topic2));
      && g.Keys == {topic1, topic2}
      && (|g| == 1 <==> topic1 == topic2)
      && (topic1 == topic2 ==> g[topic1] == FinalRatings(rows1) + FinalRatings(rows2))
      && (topic1 != topic2 ==> g[topic1] == FinalRatings(rows1) && g[topic2] == FinalRatings(rows2))
  {
    var l1, l2 := Label(rows1, topic1), Label(rows2, topic2);
    var g := GroupByTopic(l1 + l2);
    TopicsAppend(l1, l2);
    TopicsOfLabel(rows1, topic1);
    TopicsOfLabel(rows2, topic2);
    assert g.Keys == {topic1, topic2};
    if topic1 != topic2 {
      assert |g.Keys| == |{topic1} + {topic2}| == 2;
      DistinctGroups(rows1, topic1, rows2, topic2);
    } else {
      assert g.Keys == {topic1};
      RatingsOfAppend(l1, l2, topic1);
      RatingsOfLabel(rows1, topic1);
      RatingsOfLabel(rows2, topic1);
    }
  }

  /** With two different labels, each label's group is its own frame's final_rating column. */
  lemma DistinctGroups(rows1: seq<ScoredPost>, t1: Text, rows2: seq<ScoredPost>, t2: Text)
    requires t1 != t2
    ensures RatingsOf(Label(rows1, t1) + Label(rows2, t2), t1) == FinalRatings(rows1)
    ensures RatingsOf(Label(rows1, t1) + Label(rows2, t2), t2) == FinalRatings(rows2)
  {
    var l1, l2 := Label(rows1, t1), Label(rows2, t2);
    RatingsOfAppend(l1, l2, t1);
    RatingsOfAppend(l1, l2, t2);
    RatingsOfLabel(rows1, t1);
    RatingsOfLabel(rows2, t2);
    RatingsOfOtherLabel(rows1, t1, t2);
    RatingsOfOtherLabel(rows2, t2, t1);
    assert FinalRatings(rows1) + [] == FinalRatings(rows1);
  }

  /** A frame labelled t has no ratings under any other label. */
  lemma {:induction false} RatingsOfOtherLabel(rows: seq<ScoredPost>, t: Text, u: Text)
    requires t != u
    ensures RatingsOf(Label(rows, t), u) == []
  {
    if rows != [] {
      assert Label(rows, t)[1..] == Label(rows[1..], t);
      RatingsOfOtherLabel(rows[1..], t, u);
    }
  }

  lemma {:induction false} TopicsAppend(a: seq<Labelled>, b: seq<Labelled>)
    ensures Topics(a + b) == Topics(a) + Topics(b)
  {
    if a != [] {
      assert (a + b)[1..] == a[1..] + b;
      TopicsAppend(a[1..], b);
    } else {
      assert a + b == b;
    }
  }

  /** A frame labelled t has the one label t, unless it is empty. */
  lemma {:induction false} TopicsOfLabel(rows: seq<ScoredPost>, t: Text)
    ensures Topics(Label(rows, t)) == if rows == [] then {} else {t}
  {
    if rows != [] {
      assert Label(rows, t)[1..] == Label(rows[1..], t);
      TopicsOfLabel(rows[1..], t);
    }
  }

  lemma {:induction false} RatingsOfAppend(a: seq<Labelled>, b: seq<Labelled>, t: Text)
    ensures RatingsOf(a + b, t) == RatingsOf(a, t) + RatingsOf(b, t)
    decreases |a|
  {
    if |a| > 0 {
      assert (a + b)[1..] == a[1..] + b;
      RatingsOfAppend(a[1..], b, t);
    } else {
      assert a + b == b;
    }
  }

  /** The group of the label t in a frame labelled t is its whole final_rating column. */
  lemma {:induction false} RatingsOfLabel(rows: seq<ScoredPost>, t: Text)
    ensures RatingsOf(Label(rows, t), t) == FinalRatings(rows)
  {
    if rows != [] {
      assert Label(rows, t)[1..] == Label(rows[1..], t);
      RatingsOfLabel(rows[1..], t);
    }
  }
}
