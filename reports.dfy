/**
 * The small pure helpers around the charts: the file names the program
 * writes, the count filter of `sentiment_by_subreddit` and the top-ten list
 * of `plot_subreddit_distribution`.
 */
module Reports {
  import opened Posts

  // ---------------------------------------------------------------------
  // File names
  // ---------------------------------------------------------------------

  /** `topic.replace(" ", "_")`: only the ASCII space is replaced. */
  function SafeTopic(t: Text): (r: Text)
    ensures |r| == |t|
    ensures forall i :: 0 <= i < |r| ==> r[i] != ' '
  {
    if t == [] then []
    else [if t[0] == ' ' then '_' else t[0]] + SafeTopic(t[1..])
  }

  /** Replacing the spaces of a name that has none already changes nothing. */
  lemma {:induction false} SafeTopicIdempotent(t: Text)
    ensures SafeTopic(SafeTopic(t)) == SafeTopic(t)
    decreases |t|
  {
    if t != [] {
      SafeTopicIdempotent(t[1..]);
    }
  }

  /** The characters a space and an underscore are merged by SafeTopic. */
  predicate SameUpToUnderscore(a: Text, b: Text) {
    |a| == |b| && forall i :: 0 <= i < |a| ==>
      a[i] == b[i] || ((a[i] == ' ' || a[i] == '_') && (b[i] == ' ' || b[i] == '_'))
  }

  /**
   * Two topics get the same chart names exactly when they differ only in
   * exchanging spaces and underscores; the charts of "new york" and
   * "new_york" overwrite each other.
   */
  lemma {:induction false} SafeTopicCollides(a: Text, b: Text)
    ensures SafeTopic(a) == SafeTopic(b) <==> SameUpToUnderscore(a, b)
    decreases |a|
  {
    if a != [] && b != [] {
      SafeTopicCollides(a[1..], b[1..]);
      if SameUpToUnderscore(a, b) {
        assert SameUpToUnderscore(a[1..], b[1..]) by {
          forall i | 0 <= i < |a[1..]| ensures a[1..][i] == a[i + 1] && b[1..][i] == b[i + 1] { }
        }
      }
      if SafeTopic(a) == SafeTopic(b) {
        assert SafeTopic(a)[0] == SafeTopic(b)[0];
        assert SafeTopic(a)[1..] == SafeTopic(a[1..]);
        forall i | 0 <= i < |a| ensures a[i] == b[i] || ((a[i] == ' ' || a[i] == '_') && (b[i] == ' ' || b[i] == '_')) {
          if i > 0 {
            assert a[i] == a[1..][i - 1] && b[i] == b[1..][i - 1];
          }
        }
      }
    }
  }

  /** `reddit_{topic}_data.csv` (main.py:41): the stripped topic, spaces and all. */
  function CsvFileName(topic: Text): (r: Text)
    ensures |r| == |topic| + 16
    ensures r[..7] == "reddit_" && r[7..|r| - 9] == topic && r[|r| - 9..] == "_data.csv"
  {
    "reddit_" + topic + "_data.csv"
  }

  /** `sentimental_analysis_{topic}_data.csv` (main.py:42). */
  function SentimentFileName(topic: Text): (r: Text)
    ensures |r| == |topic| + 30
    ensures r[..21] == "sentimental_analysis_" && r[21..|r| - 9] == topic && r[|r| - 9..] == "_data.csv"
  {
    "sentimental_analysis_" + topic + "_data.csv"
  }

  /** Different topics write different CSV files, and a topic's two files are never the same file. */
  lemma CsvFileNames(a: Text, b: Text)
    ensures CsvFileName(a) == CsvFileName(b) <==> a == b
    ensures SentimentFileName(a) == SentimentFileName(b) <==> a == b
    ensures CsvFileName(a) != SentimentFileName(b)
  {
    if CsvFileName(a) == CsvFileName(b) {
      assert a == CsvFileName(a)[7..|CsvFileName(a)| - 9];
      assert b == CsvFileName(b)[7..|CsvFileName(b)| - 9];
    }
    if SentimentFileName(a) == SentimentFileName(b) {
      assert a == SentimentFileName(a)[21..|SentimentFileName(a)| - 9];
      assert b == SentimentFileName(b)[21..|SentimentFileName(b)| - 9];
    }
    assert CsvFileName(a)[0] == 'r' && SentimentFileName(b)[0] == 's';
  }

  /** A space in the topic stays in the CSV names: they are not made safe. */
  lemma CsvFileNameKeepsSpaces(topic: Text, i: nat)
    requires i < |topic| && topic[i] == ' '
    ensures CsvFileName(topic)[7 + i] == ' '
    ensures SentimentFileName(topic)[21 + i] == ' '
  {
  }

  /** The four per-topic charts (main.py:212, 248, 288, 325). */
  datatype Chart = SubredditDistribution | EngagementMetrics | SentimentEngagement | SentimentBySubreddit

  function ChartPrefix(c: Chart): Text {
    match c
    case SubredditDistribution => "subreddit_distribution_"
    case EngagementMetrics => "engagement_metrics_"
    case SentimentEngagement => "sentiment_engagement_"
    case SentimentBySubreddit => "sentiment_by_subreddit_"
  }

  lemma PrefixHasNoSpace(c: Chart)
    ensures ' ' !in ChartPrefix(c)
  {
    match c
    case SubredditDistribution =>
      assert forall i :: 0 <= i < |"subreddit_distribution_"| ==> "subreddit_distribution_"[i] != ' ';
    case EngagementMetrics =>
      assert forall i :: 0 <= i < |"engagement_metrics_"| ==> "engagement_metrics_"[i] != ' ';
    case SentimentEngagement =>
      assert forall i :: 0 <= i < |"sentiment_engagement_"| ==> "sentiment_engagement_"[i] != ' ';
    case SentimentBySubreddit =>
      assert forall i :: 0 <= i < |"sentiment_by_subreddit_"| ==> "sentiment_by_subreddit_"[i] != ' ';
  }

  /** `{prefix}{safe_topic}.png` (main.py:211-212, 247-248, 287-288, 324-325): a PNG name without spaces. */
  function ChartFileName(c: Chart, topic: Text): (r: Text)
    ensures |r| == |ChartPrefix(c)| + |topic| + 4
    ensures r[|r| - 4..] == ".png"
    ensures ' ' !in r
  {
    var p, s := ChartPrefix(c), SafeTopic(topic);
    PrefixHasNoSpace(c);
    assert ' ' !in s;
    NoSpaceAppend(p, s);
    NoSpaceAppend(p + s, ".png");
    p + s + ".png"
  }

  /** `Comparison_between_{safe_topic1}_and_{safe_topic2}.png` (main.py:371-374). */
  function ComparisonFileName(topic1: Text, topic2: Text): (r: Text)
    ensures |r| == |topic1| + |topic2| + 28
    ensures r[|r| - 4..] == ".png"
    ensures ' ' !in r
  {
    var s1, s2 := SafeTopic(topic1), SafeTopic(topic2);
    assert ' ' !in s1 && ' ' !in s2;
    NoSpaceAppend("Comparison_between_", s1);
    NoSpaceAppend("Comparison_between_" + s1, "_and_");
    NoSpaceAppend("Comparison_between_" + s1 + "_and_", s2);
    NoSpaceAppend("Comparison_between_" + s1 + "_and_" + s2, ".png");
    "Comparison_between_" + s1 + "_and_" + s2 + ".png"
  }

  lemma NoSpaceAppend(a: Text, b: Text)
    requires ' ' !in a && ' ' !in b
    ensures ' ' !in a + b
  {
  }

  // ---------------------------------------------------------------------
  // Counting posts per subreddit
  // ---------------------------------------------------------------------

  /** The subreddit column. */
  function Subreddits(rows: seq<ScoredPost>): (r: seq<Text>)
    ensures |r| == |rows|
    ensures forall i :: 0 <= i < |rows| ==> r[i] == rows[i].post.subreddit
  {
    if rows == [] then [] else [rows[0].post.subreddit] + Subreddits(rows[1..])
  }

  /** The number of rows of a subreddit. */
  function Count(rows: seq<ScoredPost>, s: Text): nat {
    multiset(Subreddits(rows))[s]
  }

  /**
   * `groupby('subreddit')[...].agg(['count'])`: one group per subreddit
   * present, holding its number of rows.
   */
  function GroupCounts(rows: seq<ScoredPost>): (m: map<Text, nat>)
    ensures forall s :: s in m <==> s in Subreddits(rows)
    ensures forall s :: s in m ==> m[s] == Count(rows, s)
  {
    if rows == [] then map[]
    else
      var m := GroupCounts(rows[1..]);
      var s := rows[0].post.subreddit;
      assert Subreddits(rows) == [s] + Subreddits(rows[1..]);
      m[s := if s in m then m[s] + 1 else 1]
  }

  /** The groups that survive `count >= 3` (main.py:313). */
  function AveragedSubreddits(rows: seq<ScoredPost>): (r: map<Text, nat>)
    ensures forall s :: s in r <==> Count(rows, s) >= 3
    ensures forall s :: s in r ==> r[s] == Count(rows, s)
  {
    var m := GroupCounts(rows);
    assert forall s :: Count(rows, s) >= 3 ==> s in multiset(Subreddits(rows));
    map s | s in m && m[s] >= 3 :: m[s]
  }

  // ---------------------------------------------------------------------
  // Top ten subreddits
  // ---------------------------------------------------------------------

  /** One bar of the distribution chart. */
  datatype Bar = Bar(subreddit: Text, posts: nat)

  /** Each subreddit once (value_counts has one entry per distinct value). */
  function Distinct(xs: seq<Text>): (r: seq<Text>)
    ensures forall x :: x in r <==> x in xs
    ensures forall i, j :: 0 <= i < j < |r| ==> r[i] != r[j]
  {
    if xs == [] then []
    else if xs[0] in xs[1..] then Distinct(xs[1..])
    else [xs[0]] + Distinct(xs[1..])
  }

  /** Bars in order of non-increasing post count. */
  predicate ByCountDesc(bars: seq<Bar>) {
    forall i, j :: 0 <= i < j < |bars| ==> bars[i].posts >= bars[j].posts
  }

  function InsertByCount(b: Bar, bars: seq<Bar>): (r: seq<Bar>)
    ensures multiset(r) == multiset{b} + multiset(bars)
    ensures |r| == |bars| + 1 && (r[0] == b || (bars != [] && r[0] == bars[0]))
  {
    if bars == [] || b.posts >= bars[0].posts then [b] + bars
    else
      assert bars == [bars[0]] + bars[1..];
      [bars[0]] + InsertByCount(b, bars[1..])
  }

  /** `value_counts` sorts by count, largest first. */
  function SortByCount(bars: seq<Bar>): (r: seq<Bar>)
    ensures multiset(r) == multiset(bars)
  {
    if bars == [] then []
    else
      assert bars == [bars[0]] + bars[1..];
      InsertByCount(bars[0], SortByCount(bars[1..]))
  }

  lemma {:induction false} InsertByCountSorted(b: Bar, bars: seq<Bar>)
    requires ByCountDesc(bars)
    ensures ByCountDesc(InsertByCount(b, bars))
    decreases |bars|
  {
    if bars != [] && b.posts < bars[0].posts {
      InsertByCountSorted(b, bars[1..]);
      var t := InsertByCount(b, bars[1..]);
      var r := [bars[0]] + t;
      forall j | 1 <= j < |r| ensures bars[0].posts >= r[j].posts {
        assert r[j] in multiset(t);
        if r[j] != b {
          assert r[j] in bars[1..];
        }
      }
    }
  }

  lemma {:induction false} SortByCountSorted(bars: seq<Bar>)
    ensures ByCountDesc(SortByCount(bars))
    decreases |bars|
  {
    if bars != [] {
      SortByCountSorted(bars[1..]);
      InsertByCountSorted(bars[0], SortByCount(bars[1..]));
    }
  }

  /** One bar per subreddit, with its post count. */
  function Bars(rows: seq<ScoredPost>, names: seq<Text>): (r: seq<Bar>)
    ensures |r| == |names|
    ensures forall i :: 0 <= i < |names| ==> r[i] == Bar(names[i], Count(rows, names[i]))
  {
    if names == [] then [] else [Bar(names[0], Count(rows, names[0]))] + Bars(rows, names[1..])
  }

  /** `df['subreddit'].value_counts()`: every subreddit with its count, most frequent first. */
  function ValueCounts(rows: seq<ScoredPost>): seq<Bar> {
    SortByCount(Bars(rows, Distinct(Subreddits(rows))))
  }

  /** `.head(10)` of the value counts (main.py:197). */
  function TopSubreddits(rows: seq<ScoredPost>): (r: seq<Bar>)
    ensures |r| == if |ValueCounts(rows)| < 10 then |ValueCounts(rows)| else 10
    ensures r == ValueCounts(rows)[..|r|]
  {
    var v := ValueCounts(rows);
    if |v| <= 10 then v else v[..10]
  }

  /** Facts about the full value counts: each present subreddit once, with its count, largest first. */
  lemma ValueCountsFacts(rows: seq<ScoredPost>)
    ensures forall b :: b in ValueCounts(rows) ==> b.posts == Count(rows, b.subreddit) && b.subreddit in Subreddits(rows)
    ensures forall s :: s in Subreddits(rows) ==> Bar(s, Count(rows, s)) in ValueCounts(rows)
    ensures ByCountDesc(ValueCounts(rows))
    ensures |ValueCounts(rows)| == |Distinct(Subreddits(rows))|
  {
    var names := Distinct(Subreddits(rows));
    var bars := Bars(rows, names);
    var v := ValueCounts(rows);
    SortByCountSorted(bars);
    assert multiset(v) == multiset(bars);
    forall b | b in v ensures b.posts == Count(rows, b.subreddit) && b.subreddit in Subreddits(rows) {
      assert b in multiset(bars);
      var i :| 0 <= i < |bars| && bars[i] == b;
      assert names[i] in names;
    }
    forall s | s in Subreddits(rows) ensures Bar(s, Count(rows, s)) in v {
      var i :| 0 <= i < |names| && names[i] == s;
      assert bars[i] in multiset(v);
    }
    assert |multiset(v)| == |multiset(bars)|;
  }

  /** The chart shows ten subreddits, or all of them when there are fewer. */
  lemma TopSubredditsSize(rows: seq<ScoredPost>)
    ensures var n := |Distinct(Subreddits(rows))|;
      |TopSubreddits(rows)| == if n <= 10 then n else 10
  {
    ValueCountsFacts(rows);
  }

  /** Each bar of the chart is a present subreddit with its true count, and the bars are in order of count. */
  lemma TopSubredditsCounts(rows: seq<ScoredPost>)
    ensures forall b :: b in TopSubreddits(rows) ==> b.posts == Count(rows, b.subreddit) && b.posts >= 1
    ensures ByCountDesc(TopSubreddits(rows))
  {
    ValueCountsFacts(rows);
    var v := ValueCounts(rows);
    var top := TopSubreddits(rows);
    assert forall i :: 0 <= i < |top| ==> top[i] == v[i];
    forall b | b in top ensures b.posts == Count(rows, b.subreddit) && b.posts >= 1 {
      assert b in v;
      assert b.subreddit in multiset(Subreddits(rows));
    }
  }

  /** No subreddit left off the chart has more posts than one shown on it. */
  lemma TopSubredditsDominate(rows: seq<ScoredPost>, s: Text, b: Bar)
    requires s in Subreddits(rows) && b in TopSubreddits(rows)
    requires Bar(s, Count(rows, s)) !in TopSubreddits(rows)
    ensures Count(rows, s) <= b.posts
  {
    ValueCountsFacts(rows);
    var v := ValueCounts(rows);
    var top := TopSubreddits(rows);
    var k :| 0 <= k < |v| && v[k] == Bar(s, Count(rows, s));
    var i :| 0 <= i < |top| && top[i] == b;
    assert k >= 10 && i < 10;
    assert v[i] == b;
  }
}
