/**
 * `transform` (main.py:98-131) as a function on the rows of the extracted
 * frame: clean every body, drop the rows whose cleaned body is blank or at
 * most ten characters long, sort the rest by the date text and remove the
 * timestamp column.
 */
module Transformer {
  import opened Posts
  import opened Cleaning
  import opened Ordering

  /** The body matches `^\s*$`: it is empty or whitespace only, and becomes a missing value. */
  predicate IsBlank(t: Text) {
    forall i :: 0 <= i < |t| ==> IsSpace(t[i])
  }

  /**
   * A row survives `dropna` and the `len > 10` filter (main.py:119-121):
   * its body has a non-whitespace character and more than ten characters.
   */
  predicate Keep(t: Text): (b: bool)
    ensures b <==> |t| > 10 && exists i :: 0 <= i < |t| && !IsSpace(t[i])
  {
    !IsBlank(t) && |t| > 10
  }

  /** For a cleaned body the blank test is subsumed: it is kept exactly when it is longer than ten characters. */
  lemma KeepCleanedIff(s: Text)
    ensures Keep(CleanText(s)) <==> |CleanText(s)| > 10
  {
    var t := CleanText(s);
    if |t| > 10 {
      assert !IsSpace(t[0]);
    }
  }

  /** The row with its body replaced by the cleaned body (main.py:114-117). */
  function CleanBody(p: RawPost): (q: RawPost)
    ensures Normalized(q.text)
    ensures q.(text := p.text) == p
  {
    p.(text := CleanText(p.text))
  }

  /** The rows whose cleaned body passes the filter, in input order. */
  function KeptRows(rows: seq<RawPost>): (r: seq<RawPost>)
    ensures |r| <= |rows|
  {
    if rows == [] then []
    else
      var q := CleanBody(rows[0]);
      if Keep(q.text) then [q] + KeptRows(rows[1..]) else KeptRows(rows[1..])
  }

  /** Every kept row has a normalized body longer than ten characters. */
  lemma {:induction false} KeptRowsClean(rows: seq<RawPost>)
    ensures forall i :: 0 <= i < |KeptRows(rows)| ==> Normalized(KeptRows(rows)[i].text) && |KeptRows(rows)[i].text| > 10
    decreases |rows|
  {
    if rows != [] {
      KeptRowsClean(rows[1..]);
      var q := CleanBody(rows[0]);
      if Keep(q.text) {
        var r := KeptRows(rows);
        assert r == [q] + KeptRows(rows[1..]);
        forall i | 0 <= i < |r| ensures Normalized(r[i].text) && |r[i].text| > 10 {
          if i > 0 { assert r[i] == KeptRows(rows[1..])[i - 1]; }
        }
      }
    }
  }

  /** Every pair of rows is in order of the date text. */
  predicate SortedByDate(s: seq<RawPost>) {
    forall i, j :: 0 <= i < j < |s| ==> LexLe(s[i].date, s[j].date)
  }

  /** Insert x in front of the first row whose date is not smaller. */
  function InsertByDate(x: RawPost, s: seq<RawPost>): (r: seq<RawPost>)
    ensures multiset(r) == multiset{x} + multiset(s)
    ensures |r| == |s| + 1 && (r[0] == x || (s != [] && r[0] == s[0]))
  {
    if s == [] || LexLe(x.date, s[0].date) then [x] + s
    else
      assert s == [s[0]] + s[1..];
      [s[0]] + InsertByDate(x, s[1..])
  }

  /**
   * `sort_values(by="date")`.  The default algorithm is not stable, so the
   * order of rows with equal dates is not fixed by the source; this insertion
   * sort is one admissible outcome, and only sortedness and the permutation
   * are stated about it.
   */
  function SortByDate(s: seq<RawPost>): (r: seq<RawPost>)
    ensures multiset(r) == multiset(s)
    ensures |r| == |s|
  {
    if s == [] then []
    else
      assert s == [s[0]] + s[1..];
      InsertByDate(s[0], SortByDate(s[1..]))
  }

  lemma {:induction false} InsertKeepsSorted(x: RawPost, s: seq<RawPost>)
    requires SortedByDate(s)
    ensures SortedByDate(InsertByDate(x, s))
    decreases |s|
  {
    if s == [] || LexLe(x.date, s[0].date) {
      var r := [x] + s;
      forall i, j | 0 <= i < j < |r| ensures LexLe(r[i].date, r[j].date) {
        if i == 0 && j > 1 {
          LexLeTrans(x.date, s[0].date, s[j - 1].date);
        }
      }
    } else {
      LexLeTotal(x.date, s[0].date);
      InsertKeepsSorted(x, s[1..]);
      var t := InsertByDate(x, s[1..]);
      var r := [s[0]] + t;
      forall i, j | 0 <= i < j < |r| ensures LexLe(r[i].date, r[j].date) {
        if i == 0 {
          // t[j - 1] is x or a later row of s, each of which s[0] precedes.
          assert r[j] in multiset(t);
          assert r[j] == x || r[j] in s[1..];
          if r[j] != x {
            var k :| 0 <= k < |s[1..]| && s[1..][k] == r[j];
            assert s[k + 1] == r[j];
          }
        }
      }
    }
  }

  /** The sort's output is in date order. */
  lemma {:induction false} SortByDateSorted(s: seq<RawPost>)
    ensures SortedByDate(SortByDate(s))
    decreases |s|
  {
    if s != [] {
      SortByDateSorted(s[1..]);
      InsertKeepsSorted(s[0], SortByDate(s[1..]));
    }
  }

  /** Remove the timestamp column (main.py:124); every other column is kept as it is. */
  function DropTimestamp(p: RawPost): CleanPost {
    CleanPost(p.title, p.text, p.subreddit, p.score, p.comments, p.author, p.url, p.date)
  }

  function DropTimestamps(s: seq<RawPost>): (r: seq<CleanPost>)
    ensures |r| == |s|
    ensures forall i :: 0 <= i < |s| ==> r[i] == DropTimestamp(s[i])
  {
    if s == [] then [] else [DropTimestamp(s[0])] + DropTimestamps(s[1..])
  }

  /** `transform` on a well-typed frame. */
  function Transform(rows: seq<RawPost>): (r: seq<CleanPost>)
    ensures |r| <= |rows|
  {
    DropTimestamps(SortByDate(KeptRows(rows)))
  }

  /**
   * Reference definition of what `transform` keeps: the cleaned rows that
   * pass the filter, without timestamp, in input order.
   */
  function KeptPosts(rows: seq<RawPost>): seq<CleanPost> {
    if rows == [] then []
    else if Keep(CleanText(rows[0].text)) then [DropTimestamp(CleanBody(rows[0]))] + KeptPosts(rows[1..])
    else KeptPosts(rows[1..])
  }

  lemma {:induction false} KeptPostsIsDropped(rows: seq<RawPost>)
    ensures KeptPosts(rows) == DropTimestamps(KeptRows(rows))
    decreases |rows|
  {
    if rows != [] {
      KeptPostsIsDropped(rows[1..]);
    }
  }

  lemma {:induction false} DropInsert(x: RawPost, s: seq<RawPost>)
    ensures multiset(DropTimestamps(InsertByDate(x, s))) == multiset{DropTimestamp(x)} + multiset(DropTimestamps(s))
    decreases |s|
  {
    if s == [] || LexLe(x.date, s[0].date) {
      assert DropTimestamps([x] + s) == [DropTimestamp(x)] + DropTimestamps(s);
    } else {
      DropInsert(x, s[1..]);
      assert DropTimestamps([s[0]] + InsertByDate(x, s[1..])) == [DropTimestamp(s[0])] + DropTimestamps(InsertByDate(x, s[1..]));
      assert DropTimestamps(s) == [DropTimestamp(s[0])] + DropTimestamps(s[1..]);
    }
  }

  lemma {:induction false} DropSort(s: seq<RawPost>)
    ensures multiset(DropTimestamps(SortByDate(s))) == multiset(DropTimestamps(s))
    decreases |s|
  {
    if s != [] {
      DropSort(s[1..]);
      DropInsert(s[0], SortByDate(s[1..]));
    }
  }

  /**
   * `transform` returns exactly the kept rows, cleaned and without their
   * timestamp, each as often as in the input, in some order.
   */
  lemma TransformPermutes(rows: seq<RawPost>)
    ensures multiset(Transform(rows)) == multiset(KeptPosts(rows))
  {
    DropSort(KeptRows(rows));
    KeptPostsIsDropped(rows);
  }

  /** `transform` returns its rows in order of the date text. */
  lemma TransformSorted(rows: seq<RawPost>)
    ensures forall i, j :: 0 <= i < j < |Transform(rows)| ==> LexLe(Transform(rows)[i].date, Transform(rows)[j].date)
  {
    SortByDateSorted(KeptRows(rows));
  }

  /**
   * Every body `transform` returns is longer than ten characters and made
   * of lower-case ASCII letters and single inner spaces.
   */
  lemma TransformTextsClean(rows: seq<RawPost>)
    ensures forall i :: 0 <= i < |Transform(rows)| ==> Normalized(Transform(rows)[i].text) && |Transform(rows)[i].text| > 10
  {
    var k := KeptRows(rows);
    KeptRowsClean(rows);
    var s := SortByDate(k);
    forall i | 0 <= i < |s| ensures Normalized(s[i].text) && |s[i].text| > 10 {
      assert s[i] in multiset(k);
    }
  }

  /**
   * A post is in the output of `transform` exactly when some input row
   * cleans to a body longer than ten characters and yields that post: the
   * row's title, subreddit, score, comments, author, url and date unchanged,
   * its body cleaned and its timestamp gone.
   */
  lemma {:induction false} KeptPostsMembership(rows: seq<RawPost>, c: CleanPost)
    ensures c in KeptPosts(rows) <==>
      exists p :: p in rows && |CleanText(p.text)| > 10 &&
        c == CleanPost(p.title, CleanText(p.text), p.subreddit, p.score, p.comments, p.author, p.url, p.date)
    decreases |rows|
  {
    if rows != [] {
      KeptPostsMembership(rows[1..], c);
      KeepCleanedIff(rows[0].text);
      forall p | p in rows[1..] ensures p in rows { }
      if c !in KeptPosts(rows) {
        forall p | p in rows && |CleanText(p.text)| > 10
          ensures c != CleanPost(p.title, CleanText(p.text), p.subreddit, p.score, p.comments, p.author, p.url, p.date)
        {
          if p != rows[0] {
            assert p in rows[1..];
          }
        }
      }
    }
  }

  /** Membership in the output of `transform`, through the permutation. */
  lemma TransformMembership(rows: seq<RawPost>, c: CleanPost)
    ensures c in Transform(rows) <==>
      exists p :: p in rows && |CleanText(p.text)| > 10 &&
        c == CleanPost(p.title, CleanText(p.text), p.subreddit, p.score, p.comments, p.author, p.url, p.date)
  {
    TransformPermutes(rows);
    assert c in Transform(rows) <==> c in multiset(Transform(rows));
    KeptPostsMembership(rows, c);
  }
}
