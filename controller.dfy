/**
 * `take_topic` and `main` (main.py:28-64, 406-459) as the loops they are,
 * reading the typed lines from a sequence, and proved to behave as the
 * Session state machine says.
 */
module Controller {
  import opened Wrappers
  import opened Posts
  import opened Cleaning
  import opened Transformer
  import opened Scorer
  import opened Pipeline
  import opened Comparison
  import opened Session

  /** take_topic has rejected lines[start..i], each with its message. */
  ghost predicate Skipped(env: Env, lines: seq<Text>, start: nat, i: nat, events: seq<Event>) {
    && start <= i <= |lines|
    && (forall k :: start <= k < i ==> Rejected(env, lines[k]))
    && events == Rejections(lines[start..i])
  }

  /**
   * What `take_topic()` reading from lines[start..] has done once it returns
   * at `next`: every line before the accepted one was rejected and printed
   * its message, and the accepted line (if any) is lines[next - 1], whose
   * stripped text is the topic and whose scored frame is data.  No topic
   * means the input ran out.
   */
  ghost predicate TookTopic(env: Env, lines: seq<Text>, start: nat, next: nat, topic: Option<Text>,
                            data: seq<ScoredPost>, events: seq<Event>)
  {
    && start <= next <= |lines|
    && (topic.None? ==> next == |lines| && data == [] && Skipped(env, lines, start, next, events))
    && (topic.Some? ==>
         && start < next && !Rejected(env, lines[next - 1])
         && topic.value == Strip(lines[next - 1]) && data == Dataset(env, topic.value)
         && Skipped(env, lines, start, next - 1, events))
  }

  /** `take_topic()` reading from lines[start..]: it returns how far it read, the topic with its frame, and the messages it printed. */
  method TakeTopic(env: Env, lines: seq<Text>, start: nat) returns (next: nat, topic: Option<Text>, data: seq<ScoredPost>, events: seq<Event>)
    requires start <= |lines|
    ensures TookTopic(env, lines, start, next, topic, data, events)
  {
    var i := start;
    events := [];
    assert lines[start..start] == [];
    while i < |lines|
      invariant i <= |lines|
      invariant Skipped(env, lines, start, i, events)
      decreases |lines| - i
    {
      var accepted, t, d, events' := ReadTopic(env, lines, start, i, events);
      if accepted {
        return i + 1, Some(t), d, events;
      }
      events := events';
      i := i + 1;
    }
    return i, None, [], events;
  }

  /**
   * One pass of take_topic's loop body (main.py:35-64) on lines[i]: strip
   * the line, search for it, and either accept it with its scored frame or
   * print why it is rejected and read on.
   */
  method ReadTopic(env: Env, lines: seq<Text>, start: nat, i: nat, events: seq<Event>)
    returns (accepted: bool, topic: Text, data: seq<ScoredPost>, events': seq<Event>)
    requires i < |lines| && Skipped(env, lines, start, i, events)
    ensures accepted ==> TookTopic(env, lines, start, i + 1, Some(topic), data, events)
    ensures !accepted ==> Skipped(env, lines, start, i + 1, events')
  {
    topic := Strip(lines[i]);
    data := [];
    var message := EmptyTopic;
    if topic != [] {
      var raw := env.extract(topic);
      if raw != [] {
        var clean := Transform(raw);
        data := Score(env.polarity, clean);
        return true, topic, data, events;
      }
      message := NothingExtracted(topic);
    }
    // The line is rejected: print why and prompt again.
    SkipLine(lines, start, i, events);
    AllRejectedSnoc(env, lines, start, i);
    return false, topic, data, events + [message];
  }

  /** One more line read by TakeTopic's loop: its messages grow at the back. */
  lemma SkipLine(lines: seq<Text>, start: nat, i: nat, events: seq<Event>)
    requires start <= i < |lines|
    requires events == Rejections(lines[start..i])
    ensures events + [Reprompt(lines[i])] == Rejections(lines[start..i + 1])
  {
    SliceSnoc(lines, start, i);
    RejectionsSnoc(lines[start..i], lines[i]);
  }

  lemma AllRejectedSnoc(env: Env, lines: seq<Text>, start: nat, i: nat)
    requires start <= i < |lines| && Rejected(env, lines[i])
    requires forall k :: start <= k < i ==> Rejected(env, lines[k])
    ensures forall k :: start <= k < i + 1 ==> Rejected(env, lines[k])
  {
  }

  /** The accepted line k, followed by main's test of its frame. */
  lemma AcceptedRun(env: Env, whole: (Mode, seq<Event>), lines: seq<Text>, k: nat, next: nat, events: seq<Event>, t: Text, data: seq<ScoredPost>)
    requires k < |lines| && next == k + 1 && !Rejected(env, lines[k])
    requires t == Strip(lines[k]) && data == Dataset(env, t)
    requires whole == Then(events + [TopicStep(env, lines[k]).1], Run(env, TopicStep(env, lines[k]).0, lines[k + 1..]))
    ensures data == [] ==> whole == (Exited(NoValidData), events + [NoValidDataFor(t)])
    ensures data != [] ==> whole == Then(events + [Loaded(t)], Run(env, Active(t, data), lines[next..]))
  {
    AcceptedLine(env, lines[k]);
    DatasetEmptyIff(env, t);
    if data == [] {
      EndOfInput(env, Exited(NoValidData), lines[k + 1..], events + [NoValidDataFor(t)]);
    }
  }

  /** Once the program has exited, or the input has run out, the run adds nothing. */
  lemma EndOfInput(env: Env, m: Mode, lines: seq<Text>, trace: seq<Event>)
    requires m.Exited? || lines == []
    ensures Then(trace, Run(env, m, lines)) == (m, trace)
  {
    assert trace + [] == trace;
  }

  /** One more line consumed by the state machine, as the loop of MainLoop sees it. */
  lemma Advance(env: Env, whole: (Mode, seq<Event>), lines: seq<Text>, i: nat, trace: seq<Event>, m: Mode)
    requires i < |lines| && !m.Exited?
    requires whole == Then(trace, Run(env, m, lines[i..]))
    ensures whole ==
      Then(trace + [Step(env, m, lines[i]).1], Run(env, Step(env, m, lines[i]).0, lines[i + 1..]))
  {
    var rest := lines[i..];
    assert rest[0] == lines[i] && rest[1..] == lines[i + 1..];
    RunCons(env, m, rest);
    ThenThen(trace, [Step(env, m, lines[i]).1], Run(env, Step(env, m, lines[i]).0, lines[i + 1..]));
  }

  /** A line typed at the menu, as the loop of MainLoop sees it. */
  lemma MenuAdvance(env: Env, whole: (Mode, seq<Event>), lines: seq<Text>, i: nat, trace: seq<Event>,
                    topic: Text, data: seq<ScoredPost>)
    requires i < |lines|
    requires whole == Then(trace, Run(env, Active(topic, data), lines[i..]))
    ensures whole == Then(trace + [MenuStep(topic, data, lines[i]).1], Run(env, MenuStep(topic, data, lines[i]).0, lines[i + 1..]))
  {
    Advance(env, whole, lines, i, trace, Active(topic, data));
  }

  /** Choices 1 to 5: the chart is shown and the menu comes back. */
  lemma PlotAdvance(env: Env, whole: (Mode, seq<Event>), lines: seq<Text>, i: nat, trace: seq<Event>,
                    topic: Text, data: seq<ScoredPost>, kind: ChartKind)
    requires i < |lines| && ParseChoice(lines[i]) == Plot(kind)
    requires whole == Then(trace, Run(env, Active(topic, data), lines[i..]))
    ensures whole == Then(trace + [Shown(ReportFor(kind, topic, data))], Run(env, Active(topic, data), lines[i + 1..]))
  {
    MenuAdvance(env, whole, lines, i, trace, topic, data);
  }

  /** Any other line at the menu: a message, and the menu comes back. */
  lemma InvalidAdvance(env: Env, whole: (Mode, seq<Event>), lines: seq<Text>, i: nat, trace: seq<Event>,
                       topic: Text, data: seq<ScoredPost>)
    requires i < |lines| && ParseChoice(lines[i]) == Invalid
    requires whole == Then(trace, Run(env, Active(topic, data), lines[i..]))
    ensures whole == Then(trace + [InvalidChoice], Run(env, Active(topic, data), lines[i + 1..]))
  {
    MenuAdvance(env, whole, lines, i, trace, topic, data);
  }

  /** Choice 7: back to the topic prompt. */
  lemma ChangeAdvance(env: Env, whole: (Mode, seq<Event>), lines: seq<Text>, i: nat, trace: seq<Event>,
                      topic: Text, data: seq<ScoredPost>)
    requires i < |lines| && ParseChoice(lines[i]) == ChangeChoice
    requires whole == Then(trace, Run(env, Active(topic, data), lines[i..]))
    ensures whole == Then(trace + [ChangeTopic], Run(env, AwaitingTopic, lines[i + 1..]))
  {
    MenuAdvance(env, whole, lines, i, trace, topic, data);
  }

  /** Choice 8: the program ends and reads nothing more. */
  lemma ExitAt(env: Env, whole: (Mode, seq<Event>), lines: seq<Text>, i: nat, trace: seq<Event>,
               topic: Text, data: seq<ScoredPost>)
    requires i < |lines| && ParseChoice(lines[i]) == ExitChoice
    requires whole == Then(trace, Run(env, Active(topic, data), lines[i..]))
    ensures whole == (Exited(UserExit), trace + [Exit])
  {
    MenuAdvance(env, whole, lines, i, trace, topic, data);
    EndOfInput(env, Exited(UserExit), lines[i + 1..], trace + [Exit]);
  }

  /** Choice 6 with a second line: both lines are consumed and the menu comes back. */
  lemma CompareAdvance(env: Env, whole: (Mode, seq<Event>), lines: seq<Text>, i: nat, trace: seq<Event>,
                       topic: Text, data: seq<ScoredPost>)
    requires i + 1 < |lines| && data != [] && ParseChoice(lines[i]) == CompareChoice
    requires whole == Then(trace, Run(env, Active(topic, data), lines[i..]))
    ensures whole == Then(trace + [AskSecondTopic] + [ComparisonDone(CompareOutcome(env, data, topic, lines[i + 1]))],
                          Run(env, Active(topic, data), lines[i + 2..]))
  {
    MenuAdvance(env, whole, lines, i, trace, topic, data);
    Advance(env, whole, lines, i + 1, trace + [AskSecondTopic], AwaitingSecondTopic(topic, data));
  }

  /** Choice 6 as the last line: the program is left waiting for the second topic. */
  lemma CompareAtEnd(env: Env, whole: (Mode, seq<Event>), lines: seq<Text>, i: nat, trace: seq<Event>,
                     topic: Text, data: seq<ScoredPost>)
    requires i + 1 == |lines| && data != [] && ParseChoice(lines[i]) == CompareChoice
    requires whole == Then(trace, Run(env, Active(topic, data), lines[i..]))
    ensures whole == (AwaitingSecondTopic(topic, data), trace + [AskSecondTopic])
  {
    MenuAdvance(env, whole, lines, i, trace, topic, data);
    EndOfInput(env, AwaitingSecondTopic(topic, data), lines[i + 1..], trace + [AskSecondTopic]);
  }

  /** The run of the rest of the input, after a prefix of it has been accounted for. */
  lemma Resume(whole: (Mode, seq<Event>), trace: seq<Event>, middle: (Mode, seq<Event>), events: seq<Event>, r: (Mode, seq<Event>))
    requires whole == Then(trace, middle)
    requires middle == Then(events, r)
    ensures whole == Then(trace + events, r)
  {
    ThenThen(trace, events, r);
  }

  /**
   * `take_topic()` followed by main's test of the frame it returns
   * (main.py:407-411, 446-450): the program ends up at the menu with a
   * non-empty frame, exits because cleaning kept nothing, or is still at
   * the prompt because the input ran out.
   */
  method LoadTopic(env: Env, lines: seq<Text>, start: nat) returns (next: nat, mode: Mode, events: seq<Event>)
    requires start <= |lines|
    ensures start <= next <= |lines|
    ensures mode.AwaitingTopic? ==> next == |lines|
    ensures mode == AwaitingTopic || mode == Exited(NoValidData) || (mode.Active? && mode.data != [])
    ensures Run(env, AwaitingTopic, lines[start..]) == Then(events, Run(env, mode, lines[next..]))
  {
    var topic, data, skipped;
    next, topic, data, skipped := TakeTopic(env, lines, start);
    if topic.None? {
      RunSkipsRejected(env, lines, start, next);
      return next, AwaitingTopic, skipped;
    }
    LoadAccepted(env, lines, start, next - 1, next, skipped, topic.value, data);
    if data == [] {
      return next, Exited(NoValidData), skipped + [NoValidDataFor(topic.value)];
    }
    return next, Active(topic.value, data), skipped + [Loaded(topic.value)];
  }

  /** The lines before k are rejected and line k is accepted: the run up to main's test of the frame. */
  lemma LoadAccepted(env: Env, lines: seq<Text>, start: nat, k: nat, next: nat, skipped: seq<Event>, t: Text, data: seq<ScoredPost>)
    requires start <= k < |lines| && next == k + 1
    requires forall i :: start <= i < k ==> Rejected(env, lines[i])
    requires !Rejected(env, lines[k]) && t == Strip(lines[k]) && data == Dataset(env, t)
    requires skipped == Rejections(lines[start..k])
    ensures data == [] ==> Run(env, AwaitingTopic, lines[start..]) == Then(skipped + [NoValidDataFor(t)], Run(env, Exited(NoValidData), lines[next..]))
    ensures data != [] ==> Run(env, AwaitingTopic, lines[start..]) == Then(skipped + [Loaded(t)], Run(env, Active(t, data), lines[next..]))
  {
    FirstAccepted(env, lines, start, k);
    AcceptedRun(env, Run(env, AwaitingTopic, lines[start..]), lines, k, next, skipped, t, data);
    if data == [] {
      EndOfInput(env, Exited(NoValidData), lines[next..], skipped + [NoValidDataFor(t)]);
    }
  }

  /**
   * `main()` over the typed lines: the final mode it ends in and every
   * message it printed are those of the Session state machine.
   */
  method MainLoop(env: Env, lines: seq<Text>) returns (final: Mode, trace: seq<Event>)
    ensures (final, trace) == Run(env, AwaitingTopic, lines)
  {
    var next, mode, events := LoadTopic(env, lines, 0);
    assert lines[0..] == lines;
    if !mode.Active? {
      EndOfInput(env, mode, lines[next..], events);
      return mode, events;
    }
    var frame := new Frame(mode.data);
    final, trace := Menu(env, lines, next, mode.topic, frame, events);
  }

  /**
   * The menu loop of `main()` (main.py:413-459) from line i0 on, with the
   * frame of topic t0 loaded and the messages printed so far.  The menu's
   * string tests are ParseChoice.
   */
  method Menu(env: Env, lines: seq<Text>, i0: nat, t0: Text, frame0: Frame, trace0: seq<Event>) returns (final: Mode, trace: seq<Event>)
    requires i0 <= |lines| && frame0.rows != []
    ensures (final, trace) == Then(trace0, Run(env, Active(t0, frame0.rows), lines[i0..]))
  {
    ghost var whole := Then(trace0, Run(env, Active(t0, frame0.rows), lines[i0..]));
    var t, frame := t0, frame0;
    trace := trace0;
    var i := i0;
    while i < |lines|
      invariant i <= |lines| && frame.rows != []
      invariant whole == Then(trace, Run(env, Active(t, frame.rows), lines[i..]))
      decreases |lines| - i
    {
      var stop;
      stop, i, t, frame, trace, final := Round(env, whole, lines, i, t, frame, trace);
      if stop {
        return final, trace;
      }
    }
    EndOfInput(env, Active(t, frame.rows), lines[i..], trace);
    return Active(t, frame.rows), trace;
  }

  /**
   * One pass of the menu loop: the choice on line i and what it does.  With
   * `stop` the program has ended or the input ran out in the middle of the
   * choice, and `final` is the mode it ended in.
   */
  method Round(env: Env, ghost whole: (Mode, seq<Event>), lines: seq<Text>, i: nat, t: Text, frame: Frame, trace: seq<Event>)
    returns (stop: bool, i': nat, t': Text, frame': Frame, trace': seq<Event>, final: Mode)
    requires i < |lines| && frame.rows != []
    requires whole == Then(trace, Run(env, Active(t, frame.rows), lines[i..]))
    ensures stop ==> whole == (final, trace')
    ensures !stop ==> i < i' <= |lines| && frame'.rows != [] && whole == Then(trace', Run(env, Active(t', frame'.rows), lines[i'..]))
  {
    stop, i', t', frame', trace', final := false, i + 1, t, frame, trace, Active(t, frame.rows);
    match ParseChoice(lines[i])
    case Plot(kind) =>
      PlotAdvance(env, whole, lines, i, trace, t, frame.rows, kind);
      trace' := trace + [Shown(ReportFor(kind, t, frame.rows))];
    case CompareChoice =>
      if i + 1 == |lines| {
        CompareAtEnd(env, whole, lines, i, trace, t, frame.rows);
        return true, i', t, frame, trace + [AskSecondTopic], AwaitingSecondTopic(t, frame.rows);
      }
      trace' := CompareRound(env, whole, lines, i, trace, t, frame);
      i' := i + 2;
    case ChangeChoice =>
      var next, mode;
      next, mode, trace' := ChangeRound(env, whole, lines, i, trace, t, frame.rows);
      if !mode.Active? {
        EndOfInput(env, mode, lines[next..], trace');
        return true, next, t, frame, trace', mode;
      }
      t' := mode.topic;
      frame' := new Frame(mode.data);
      i' := next;
    case ExitChoice =>
      ExitAt(env, whole, lines, i, trace, t, frame.rows);
      return true, i', t, frame, trace + [Exit], Exited(UserExit);
    case Invalid =>
      InvalidAdvance(env, whole, lines, i, trace, t, frame.rows);
      trace' := trace + [InvalidChoice];
  }

  /** Choice "6" followed by the second topic (main.py:442-443, 342): the comparison's messages. */
  method CompareRound(env: Env, ghost whole: (Mode, seq<Event>), lines: seq<Text>, i: nat, trace: seq<Event>, t: Text, frame: Frame)
    returns (trace': seq<Event>)
    requires i + 1 < |lines| && frame.rows != [] && ParseChoice(lines[i]) == CompareChoice
    requires whole == Then(trace, Run(env, Active(t, frame.rows), lines[i..]))
    ensures whole == Then(trace', Run(env, Active(t, frame.rows), lines[i + 2..]))
  {
    CompareAdvance(env, whole, lines, i, trace, t, frame.rows);
    var outcome := CompareTopics(env, frame, t, lines[i + 1]);
    trace' := trace + [AskSecondTopic] + [ComparisonDone(outcome)];
  }

  /** Choice "7" (main.py:445-450): a new topic is read and its frame replaces the current one. */
  method ChangeRound(env: Env, ghost whole: (Mode, seq<Event>), lines: seq<Text>, i: nat, trace: seq<Event>, t: Text, rows: seq<ScoredPost>)
    returns (next: nat, mode: Mode, trace': seq<Event>)
    requires i < |lines| && ParseChoice(lines[i]) == ChangeChoice
    requires whole == Then(trace, Run(env, Active(t, rows), lines[i..]))
    ensures i < next <= |lines|
    ensures mode.AwaitingTopic? ==> next == |lines|
    ensures mode == AwaitingTopic || mode == Exited(NoValidData) || (mode.Active? && mode.data != [])
    ensures whole == Then(trace', Run(env, mode, lines[next..]))
  {
    ChangeAdvance(env, whole, lines, i, trace, t, rows);
    var events;
    next, mode, events := LoadTopic(env, lines, i + 1);
    Resume(whole, trace + [ChangeTopic], Run(env, AwaitingTopic, lines[i + 1..]), events, Run(env, mode, lines[next..]));
    trace' := trace + [ChangeTopic] + events;
  }
}
