/**
 * The interactive session of `take_topic` and `main` (main.py:28-64,
 * 406-459) as a state machine driven by the lines the user types.  Each
 * line is consumed by one Step; Run feeds a whole input sequence through
 * it.  Running out of input (where `input()` would raise EOFError) just
 * ends the run in the mode reached.
 */
module Session {
  import opened Posts
  import opened Cleaning
  import opened Transformer
  import opened Scorer
  import opened Reports
  import opened Pipeline
  import opened Comparison

  /** What the menu choices 1 to 5 show (main.py:162-329); the plots themselves are not modelled. */
  datatype Report =
    | Histogram(ratings: seq<real>)
    | SubredditBars(bars: seq<Bar>, file: Text)
    | Engagement(file: Text)
    | SentimentVsEngagement(file: Text)
    | SubredditAverages(counts: map<Text, nat>, file: Text)

  datatype Reason = UserExit | NoValidData

  /** Where the session is: which line it waits for, and the current topic and scored frame. */
  datatype Mode =
    | AwaitingTopic                                          // inside take_topic
    | Active(topic: Text, data: seq<ScoredPost>)             // at the menu
    | AwaitingSecondTopic(topic: Text, data: seq<ScoredPost>) // inside compare_topics, before its input()
    | Exited(reason: Reason)

  /** What one line of input made the program do. */
  datatype Event =
    | EmptyTopic                  // "Topic cannot be empty. Try again."
    | NothingExtracted(topic: Text) // "No data extracted for ..."
    | Loaded(topic: Text)         // take_topic returned a non-empty frame
    | NoValidDataFor(topic: Text) // "No valid data to analyze. Exiting..."
    | Shown(report: Report)
    | AskSecondTopic
    | ComparisonDone(outcome: Outcome)
    | ChangeTopic
    | Exit
    | InvalidChoice

  /** A line typed at "Enter a topic: " that take_topic does not accept. */
  predicate Rejected(env: Env, line: Text) {
    var t := Strip(line);
    t == [] || env.extract(t) == []
  }

  /**
   * One line read by take_topic (main.py:35-64), followed, once a topic is
   * accepted, by the emptiness test of main (main.py:407-411, 446-450).
   */
  function TopicStep(env: Env, line: Text): (r: (Mode, Event))
    ensures r.0 == AwaitingTopic <==> Rejected(env, line)
    ensures r.0 == AwaitingTopic ==> r.1 == Reprompt(line)
    ensures r.0.Exited? ==> r.0.reason == NoValidData && r.1 == NoValidDataFor(Strip(line))
    ensures r.0.Active? ==>
      && r.0.topic == Strip(line) && r.0.topic != []
      && r.0.data == Dataset(env, r.0.topic) && r.0.data != [] && r.1 == Loaded(r.0.topic)
    ensures !r.0.AwaitingSecondTopic?
  {
    var t := Strip(line);
    if t == [] then (AwaitingTopic, EmptyTopic)
    else if env.extract(t) == [] then (AwaitingTopic, NothingExtracted(t))
    else
      var data := Dataset(env, t);
      if data == [] then (Exited(NoValidData), NoValidDataFor(t))
      else (Active(t, data), Loaded(t))
  }

  /** The kinds of chart behind menu choices 1 to 5. */
  datatype ChartKind = HistogramChart | SubredditChart | EngagementChart | CorrelationChart | AverageChart

  /** What a line typed at the menu selects (main.py:427-459): exact string equality, no stripping. */
  datatype Choice = Plot(kind: ChartKind) | CompareChoice | ChangeChoice | ExitChoice | Invalid

  function ParseChoice(line: Text): (c: Choice)
    ensures c.Invalid? <==> !(|line| == 1 && '1' <= line[0] <= '8')
    ensures c.Plot? ==> |line| == 1 && '1' <= line[0] <= '5'
  {
    if line == "1" then Plot(HistogramChart)
    else if line == "2" then Plot(SubredditChart)
    else if line == "3" then Plot(EngagementChart)
    else if line == "4" then Plot(CorrelationChart)
    else if line == "5" then Plot(AverageChart)
    else if line == "6" then CompareChoice
    else if line == "7" then ChangeChoice
    else if line == "8" then ExitChoice
    else Invalid
  }

  /** The report a chart choice produces for the current topic and frame. */
  function ReportFor(kind: ChartKind, topic: Text, data: seq<ScoredPost>): Report {
    match kind
    case HistogramChart => Histogram(FinalRatings(data))
    case SubredditChart => SubredditBars(TopSubreddits(data), ChartFileName(SubredditDistribution, topic))
    case EngagementChart => Engagement(ChartFileName(EngagementMetrics, topic))
    case CorrelationChart => SentimentVsEngagement(ChartFileName(SentimentEngagement, topic))
    case AverageChart => SubredditAverages(AveragedSubreddits(data), ChartFileName(SentimentBySubreddit, topic))
  }

  /** One line typed at the menu. */
  function MenuStep(topic: Text, data: seq<ScoredPost>, line: Text): (r: (Mode, Event))
    ensures r.0 == AwaitingTopic <==> line == "7"
    ensures r.0.Exited? <==> line == "8"
    ensures r.0.Exited? ==> r.0.reason == UserExit
    ensures r.0.AwaitingSecondTopic? <==> line == "6" && data != []
    ensures r.0.Active? || r.0.AwaitingSecondTopic? ==> r.0.topic == topic && r.0.data == data
  {
    match ParseChoice(line)
    case Plot(kind) => (Active(topic, data), Shown(ReportFor(kind, topic, data)))
    case CompareChoice =>
      if data == [] then (Active(topic, data), ComparisonDone(NoData))
      else (AwaitingSecondTopic(topic, data), AskSecondTopic)
    case ChangeChoice => (AwaitingTopic, ChangeTopic)
    case ExitChoice => (Exited(UserExit), Exit)
    case Invalid => (Active(topic, data), InvalidChoice)
  }

  /** The effect of one line of input. */
  function Step(env: Env, m: Mode, line: Text): (r: (Mode, Event))
    requires !m.Exited?
    ensures m.AwaitingSecondTopic? ==> r.0 == Active(m.topic, m.data) && r.1.ComparisonDone?
    ensures m.Active? && (r.0.Active? || r.0.AwaitingSecondTopic?) ==> r.0.topic == m.topic && r.0.data == m.data
  {
    match m
    case AwaitingTopic => TopicStep(env, line)
    case Active(topic, data) => MenuStep(topic, data, line)
    case AwaitingSecondTopic(topic, data) =>
      (Active(topic, data), ComparisonDone(CompareOutcome(env, data, topic, line)))
  }

  /** Prefix some events to the trace of a run. */
  function Then(events: seq<Event>, r: (Mode, seq<Event>)): (Mode, seq<Event>) {
    (r.0, events + r.1)
  }

  /** Feed the lines one by one until the program exits or the input runs out. */
  function Run(env: Env, m: Mode, lines: seq<Text>): (r: (Mode, seq<Event>))
    ensures m.Exited? ==> r == (m, [])
    ensures |r.1| <= |lines|
    ensures !r.0.Exited? ==> |r.1| == |lines|
    decreases |lines|
  {
    if lines == [] || m.Exited? then (m, [])
    else
      var (m', e) := Step(env, m, lines[0]);
      Then([e], Run(env, m', lines[1..]))
  }

  // ---------------------------------------------------------------------
  // The session invariant
  // ---------------------------------------------------------------------

  /**
   * At the menu, the topic is a non-empty stripped line and the frame is
   * the non-empty scored frame of exactly that topic.
   */
  predicate Valid(env: Env, m: Mode) {
    (m.Active? || m.AwaitingSecondTopic?) ==>
      m.topic != [] && Stripped(m.topic) && m.data != [] && m.data == Dataset(env, m.topic)
  }

  lemma StepKeepsValid(env: Env, m: Mode, line: Text)
    requires !m.Exited? && Valid(env, m)
    ensures Valid(env, Step(env, m, line).0)
  {
    match m
    case AwaitingTopic => TopicStepValid(env, line);
    case Active(topic, data) => MenuKeepsFrame(topic, data, line);
    case AwaitingSecondTopic(_, _) =>
  }

  /** A topic line leads to a valid mode: a frame is only kept for a non-empty stripped topic. */
  lemma TopicStepValid(env: Env, line: Text)
    ensures Valid(env, TopicStep(env, line).0)
  {
    var t := Strip(line);
    if t != [] {
      assert Stripped(t);
    }
  }

  /** A menu choice keeps the topic and its frame, or leaves the menu for the topic prompt or the end. */
  lemma MenuKeepsFrame(topic: Text, data: seq<ScoredPost>, line: Text)
    ensures var m := MenuStep(topic, data, line).0;
      m == Active(topic, data) || m == AwaitingSecondTopic(topic, data) || m == AwaitingTopic || m.Exited?
  {
  }

  lemma {:induction false} RunKeepsValid(env: Env, m: Mode, lines: seq<Text>)
    requires Valid(env, m)
    ensures Valid(env, Run(env, m, lines).0)
    decreases |lines|
  {
    if lines != [] && !m.Exited? {
      StepKeepsValid(env, m, lines[0]);
      RunKeepsValid(env, Step(env, m, lines[0]).0, lines[1..]);
    }
  }

  /** Every session the program can reach from its start is valid. */
  lemma ReachableValid(env: Env, lines: seq<Text>)
    ensures Valid(env, Run(env, AwaitingTopic, lines).0)
  {
    RunKeepsValid(env, AwaitingTopic, lines);
  }

  // ---------------------------------------------------------------------
  // take_topic
  // ---------------------------------------------------------------------

  /** The messages take_topic prints for a run of rejected lines. */
  function Rejections(lines: seq<Text>): seq<Event> {
    if lines == [] then [] else [Reprompt(lines[0])] + Rejections(lines[1..])
  }

  /** The message take_topic prints for a line it rejects (main.py:37-39, 49-51). */
  function Reprompt(line: Text): Event {
    var t := Strip(line);
    if t == [] then EmptyTopic else NothingExtracted(t)
  }

  /** Rejections grows at the back as take_topic reads on. */
  lemma {:induction false} RejectionsSnoc(lines: seq<Text>, line: Text)
    ensures Rejections(lines + [line]) == Rejections(lines) + [Reprompt(line)]
    decreases |lines|
  {
    if lines == [] {
      assert lines + [line] == [line];
    } else {
      assert (lines + [line])[1..] == lines[1..] + [line];
      RejectionsSnoc(lines[1..], line);
    }
  }

  /** Lines that are blank after stripping, or whose topic yields no posts, only re-prompt. */
  lemma RejectedReprompts(env: Env, line: Text)
    requires Rejected(env, line)
    ensures TopicStep(env, line) == (AwaitingTopic, Reprompt(line))
  {
  }

  /**
   * The line take_topic accepts ends the prompt: with the stripped topic at
   * the menu, or, when cleaning kept no post, with the program exiting.  It
   * never goes back to an earlier topic.
   */
  lemma AcceptedLine(env: Env, line: Text)
    requires !Rejected(env, line)
    ensures var t := Strip(line);
      TopicStep(env, line) ==
        if Transform(env.extract(t)) == [] then (Exited(NoValidData), NoValidDataFor(t))
        else (Active(t, Dataset(env, t)), Loaded(t))
  {
    DatasetEmptyIff(env, Strip(line));
  }

  /** One unfolding of Run. */
  lemma RunCons(env: Env, m: Mode, lines: seq<Text>)
    requires lines != [] && !m.Exited?
    ensures Run(env, m, lines) == Then([Step(env, m, lines[0]).1], Run(env, Step(env, m, lines[0]).0, lines[1..]))
  {
  }

  lemma ThenThen(a: seq<Event>, b: seq<Event>, r: (Mode, seq<Event>))
    ensures Then(a, Then(b, r)) == Then(a + b, r)
  {
    assert a + (b + r.1) == (a + b) + r.1;
  }

  /** A rejected line at the prompt only adds its message. */
  lemma RejectedStep(env: Env, lines: seq<Text>)
    requires lines != [] && Rejected(env, lines[0])
    ensures Run(env, AwaitingTopic, lines) == Then([Reprompt(lines[0])], Run(env, AwaitingTopic, lines[1..]))
  {
    RunCons(env, AwaitingTopic, lines);
    RejectedReprompts(env, lines[0]);
  }

  /** Rejected lines from start on are skipped with their messages. */
  lemma {:induction false} RunSkipsRejected(env: Env, lines: seq<Text>, start: nat, k: nat)
    requires start <= k <= |lines|
    requires forall i :: start <= i < k ==> Rejected(env, lines[i])
    ensures Run(env, AwaitingTopic, lines[start..]) == Then(Rejections(lines[start..k]), Run(env, AwaitingTopic, lines[k..]))
    decreases k
  {
    if k == start {
      var r := Run(env, AwaitingTopic, lines[k..]);
      assert lines[start..k] == [];
      assert Then([], r) == (r.0, [] + r.1) && [] + r.1 == r.1;
    } else {
      RunSkipsRejected(env, lines, start, k - 1);
      SkipOneMore(env, Run(env, AwaitingTopic, lines[start..]), lines, start, k);
    }
  }

  /** The step of RunSkipsRejected: one more rejected line moves from the run to the messages. */
  lemma SkipOneMore(env: Env, whole: (Mode, seq<Event>), lines: seq<Text>, start: nat, k: nat)
    requires start < k <= |lines| && Rejected(env, lines[k - 1])
    requires whole == Then(Rejections(lines[start..k - 1]), Run(env, AwaitingTopic, lines[k - 1..]))
    ensures whole == Then(Rejections(lines[start..k]), Run(env, AwaitingTopic, lines[k..]))
  {
    var rest := lines[k - 1..];
    assert rest[0] == lines[k - 1] && rest[1..] == lines[k..];
    RejectedStep(env, rest);
    ThenThen(Rejections(lines[start..k - 1]), [Reprompt(lines[k - 1])], Run(env, AwaitingTopic, lines[k..]));
    SliceSnoc(lines, start, k - 1);
    RejectionsSnoc(lines[start..k - 1], lines[k - 1]);
  }

  lemma SliceSnoc(s: seq<Text>, lo: nat, hi: nat)
    requires lo <= hi < |s|
    ensures s[lo..hi + 1] == s[lo..hi] + [s[hi]]
  {
  }

  /**
   * take_topic returns the first line whose stripped text is non-empty and
   * yields posts; everything before it is only re-prompted.
   */
  lemma FirstAccepted(env: Env, lines: seq<Text>, start: nat, k: nat)
    requires start <= k < |lines| && !Rejected(env, lines[k])
    requires forall i :: start <= i < k ==> Rejected(env, lines[i])
    ensures Run(env, AwaitingTopic, lines[start..]) ==
      Then(Rejections(lines[start..k]) + [TopicStep(env, lines[k]).1], Run(env, TopicStep(env, lines[k]).0, lines[k + 1..]))
  {
    RunSkipsRejected(env, lines, start, k);
    var rest := lines[k..];
    RunCons(env, AwaitingTopic, rest);
    assert rest[0] == lines[k] && rest[1..] == lines[k + 1..];
    ThenThen(Rejections(lines[start..k]), [TopicStep(env, lines[k]).1], Run(env, TopicStep(env, lines[k]).0, lines[k + 1..]));
  }

  // ---------------------------------------------------------------------
  // The menu
  // ---------------------------------------------------------------------

  /** Chart choices 1 to 5 show a report and leave topic and frame as they were. */
  lemma ChartChoicesKeepSession(env: Env, topic: Text, data: seq<ScoredPost>, choice: Text)
    requires choice == "1" || choice == "2" || choice == "3" || choice == "4" || choice == "5"
    ensures Step(env, Active(topic, data), choice).0 == Active(topic, data)
    ensures Step(env, Active(topic, data), choice).1.Shown?
  {
  }

  /**
   * Choice 6 reads one more line, the second topic, and comes back to the
   * menu with topic and frame as they were, whatever the comparison found.
   */
  lemma CompareKeepsSession(env: Env, topic: Text, data: seq<ScoredPost>, topic2: Text, rest: seq<Text>)
    requires data != []
    ensures Run(env, Active(topic, data), ["6", topic2] + rest) ==
      Then([AskSecondTopic, ComparisonDone(CompareOutcome(env, data, topic, topic2))], Run(env, Active(topic, data), rest))
  {
    var lines := ["6", topic2] + rest;
    assert lines[0] == "6" && lines[1] == topic2 && lines[1..][0] == topic2;
    assert Step(env, Active(topic, data), lines[0]) == (AwaitingSecondTopic(topic, data), AskSecondTopic);
    RunCons(env, Active(topic, data), lines);
    RunCons(env, AwaitingSecondTopic(topic, data), lines[1..]);
    assert lines[1..][1..] == rest;
    var done := ComparisonDone(CompareOutcome(env, data, topic, topic2));
    assert Step(env, AwaitingSecondTopic(topic, data), lines[1..][0]) == (Active(topic, data), done);
    ThenThen([AskSecondTopic], [done], Run(env, Active(topic, data), rest));
    assert [AskSecondTopic] + [done] == [AskSecondTopic, done];
  }

  /** Choice 8 ends the program; nothing typed after it is read. */
  lemma ExitEndsRun(env: Env, topic: Text, data: seq<ScoredPost>, rest: seq<Text>)
    ensures Run(env, Active(topic, data), ["8"] + rest) == (Exited(UserExit), [Exit])
  {
    var lines := ["8"] + rest;
    assert lines[0] == "8";
    assert Step(env, Active(topic, data), lines[0]) == (Exited(UserExit), Exit);
    RunCons(env, Active(topic, data), lines);
    assert Run(env, Exited(UserExit), lines[1..]) == (Exited(UserExit), []);
    assert [Exit] + [] == [Exit];
  }

  /** Any line other than "1" to "8" is an invalid choice that changes nothing. */
  lemma OtherChoicesInvalid(env: Env, topic: Text, data: seq<ScoredPost>, choice: Text)
    requires choice !in {"1", "2", "3", "4", "5", "6", "7", "8"}
    ensures Step(env, Active(topic, data), choice) == (Active(topic, data), InvalidChoice)
  {
  }

  /** The choice is not stripped: " 1" is invalid. */
  lemma PaddedChoiceInvalid(env: Env, topic: Text, data: seq<ScoredPost>, choice: Text)
    requires choice == " 1"
    ensures Step(env, Active(topic, data), choice) == (Active(topic, data), InvalidChoice)
  {
    assert |choice| == 2;
  }

  /**
   * Choice 7 starts a new session from scratch: what follows does not depend
   * on the old topic or frame, so a failed new topic never falls back to it.
   */
  lemma ChangeTopicForgets(env: Env, t1: Text, d1: seq<ScoredPost>, t2: Text, d2: seq<ScoredPost>, rest: seq<Text>)
    ensures Run(env, Active(t1, d1), ["7"] + rest) == Then([ChangeTopic], Run(env, AwaitingTopic, rest))
    ensures Run(env, Active(t1, d1), ["7"] + rest) == Run(env, Active(t2, d2), ["7"] + rest)
  {
    var lines := ["7"] + rest;
    assert lines[0] == "7" && lines[1..] == rest;
    assert Step(env, Active(t1, d1), lines[0]) == (AwaitingTopic, ChangeTopic);
    assert Step(env, Active(t2, d2), lines[0]) == (AwaitingTopic, ChangeTopic);
    RunCons(env, Active(t1, d1), lines);
    RunCons(env, Active(t2, d2), lines);
  }
}
