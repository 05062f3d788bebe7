/**
 * Python's ordering of `str` values: lexicographic by code point, a proper
 * prefix first.  `sort_values(by="date")` sorts the date column with it, and
 * the date column is text in the format '%Y-%b-%d-%H:%M:%S' (main.py:89),
 * so months compare by their English abbreviations, not by the calendar.
 */
module Ordering {
  import opened Posts

  /** a <= b for Python strings. */
  predicate LexLe(a: Text, b: Text)
    decreases |a|
  {
    a == [] || (b != [] && (a[0] < b[0] || (a[0] == b[0] && LexLe(a[1..], b[1..]))))
  }

  /** a < b for Python strings. */
  predicate LexLt(a: Text, b: Text) {
    LexLe(a, b) && a != b
  }

  /** Any two strings are comparable, so sorting by them is well defined. */
  lemma {:induction false} LexLeTotal(a: Text, b: Text)
    ensures LexLe(a, b) || LexLe(b, a)
    decreases |a|
  {
    if a != [] && b != [] && a[0] == b[0] {
      LexLeTotal(a[1..], b[1..]);
    }
  }

  lemma {:induction false} LexLeTrans(a: Text, b: Text, c: Text)
    requires LexLe(a, b) && LexLe(b, c)
    ensures LexLe(a, c)
    decreases |a|
  {
    if a != [] && a[0] == b[0] && b[0] == c[0] {
      LexLeTrans(a[1..], b[1..], c[1..]);
    }
  }

  lemma {:induction false} LexLeAntisym(a: Text, b: Text)
    requires LexLe(a, b) && LexLe(b, a)
    ensures a == b
    decreases |a|
  {
    if a != [] {
      LexLeAntisym(a[1..], b[1..]);
      assert a == [a[0]] + a[1..] && b == [b[0]] + b[1..];
    }
  }

  /** Two strings that first differ at position k compare as their characters there do. */
  lemma {:induction false} LexLtAt(a: Text, b: Text, k: nat)
    requires k < |a| && k < |b| && a[k] < b[k]
    requires forall i :: 0 <= i < k ==> a[i] == b[i]
    ensures LexLt(a, b)
    decreases k
  {
    if k > 0 {
      LexLtAt(a[1..], b[1..], k - 1);
    }
  }

  /**
   * The date column does not sort chronologically: 30 April 2024 sorts
   * before 1 January 2024, because "Apr" < "Jan" as text.
   */
  lemma AprilSortsBeforeJanuary(april: Text, january: Text)
    requires april == "2024-Apr-30-12:00:00" && january == "2024-Jan-01-12:00:00"
    ensures LexLt(april, january)
  {
    LexLtAt(april, january, 5);
  }
}
