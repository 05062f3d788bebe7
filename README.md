# Reddit topic sentiment analysis: a verified model

The program (`main.py`) is an interactive console tool. It asks for a topic and
searches Reddit for it. It cleans the post bodies, scores each post with
VADER, and then offers a menu of charts about the scored frame: a histogram
of ratings, the top ten subreddits, engagement, sentiment against engagement,
and the mean sentiment of subreddits with at least three posts. The menu
can also compare the topic with a second one, change the topic, or exit.

This Dafny project models the core of that program:

- **Cleaning** (`cleaning.dfy`): the cleaning of a post body, as functions on code-point strings: three regular-expression substitutions, then `lower().strip()`.
- **Ordering** (`ordering.dfy`): Python's string order, by which the date column is sorted.
- **Transformer** (`transformer.dfy`): `transform` as a function on rows. It cleans, drops blank or short bodies, sorts by the date text and drops the timestamp.
- **Scorer** and **Pipeline** (`scorer.dfy`, `pipeline.dfy`): scoring with a polarity function given as a parameter, and the scored frame of a topic.
- **Reports** (`reports.dfy`): the chart and CSV file names, the `count >= 3` filter and the top-ten list.
- **Comparison** (`comparison.dfy`): `compare_topics` as a method over a `Frame` class. The caller's frame is copied before it is labelled, and the ratings are grouped by topic.
- **Session** (`session.dfy`): what `take_topic` and `main` do with the lines the user types, as a state machine (`Step`, `Run`). It also holds the invariant kept by every reachable state.
- **Controller** (`controller.dfy`): `take_topic` and `main` as the loops they are. Each is proved to produce exactly the mode and the messages of the state machine.

Behaviour of the source worth knowing, which the model keeps:

- Cleaning is not idempotent. In `"htt.pfoo is great"` step 2 removes the dot and creates a URL match that a second pass deletes (`Cleaning.CleaningNotIdempotent`). Step 1 on its own is idempotent (`Cleaning.StripUrlsIdempotent`).
- The date column is sorted as text in the `'%Y-%b-%d-%H:%M:%S'` format, so an April date sorts before a January date of the same year (`Ordering.AprilSortsBeforeJanuary`).
- An empty search result re-prompts for a topic. A search that returns posts but cleans down to nothing makes `main` print "No valid data to analyze" and exit instead of re-prompting.
- The second topic of a comparison is used as typed, without stripping.

## Model

| member | source | states |
|---|---|---|
| Cleaning.LinkAt | main.py:110 | the pattern matches at the front exactly when the text starts with `http`, or with `www` and a character other than a newline, and its fifth character is not whitespace |
| Cleaning.NonSpaceRun | main.py:110 | the greedy `\S+` run ends at the first whitespace character or at the end of the text |
| Cleaning.LinkEnd | main.py:110 | a URL match is at least five characters long and ends before whitespace or at the end |
| Cleaning.StripUrls | main.py:114 | its own contract says only that step 1 never lengthens the text; what it deletes and keeps is stated by StripUrlsLinkFree, LinkFreeFixed, StripUrlsShortens, StripUrlsToken and StripUrlsIdempotent |
| Cleaning.StripUrlsLinkFree | main.py:110-114 | no URL match is left in the output of step 1, even where deletions bring characters together |
| Cleaning.LinkFreeFixed | main.py:110-114 | step 1 leaves a text without any match unchanged |
| Cleaning.StripUrlsIdempotent | main.py:110-114 | step 1 applied twice equals step 1 applied once |
| Cleaning.StripUrlsShortens | main.py:110-114 | step 1 deletes something from every text that contains a match |
| Cleaning.StripUrlsToken | main.py:110-114 | a whole URL token followed by whitespace or nothing is deleted |
| Cleaning.KeepLettersAndSpaces | main.py:111-115 | step 2 leaves only ASCII letters and whitespace and never lengthens the text |
| Cleaning.KeepLettersAndSpacesFixed | main.py:111-115 | step 2 leaves text of letters and whitespace unchanged |
| Cleaning.KeepLettersAndSpacesAppend | main.py:111-115 | step 2 distributes over concatenation |
| Cleaning.KeepDropsOne | main.py:111-115 | step 2 deletes a single character that is neither a letter nor whitespace |
| Cleaning.CollapseSpaces | main.py:112-116 | after step 3 every whitespace character is a single space, and no two spaces are adjacent |
| Cleaning.CollapseKeepsNonSpaces | main.py:112-116 | step 3 keeps every non-whitespace character, in order, and adds none |
| Cleaning.CollapseSpacesRun | main.py:112-116 | a whole run of whitespace characters, of any length and kind, becomes exactly one space |
| Cleaning.CollapsedLettersOnly | main.py:112-116 | step 3 turns letters-and-whitespace into letters and single spaces |
| Cleaning.CollapseSpacesFixed | main.py:112-116 | step 3 leaves text whose whitespace is only single spaces unchanged |
| Cleaning.LowerChar | main.py:117 | a capital becomes its own small letter (its code point plus 32), and every other character is unchanged |
| Cleaning.Lower | main.py:117 | `lower()` keeps the length, leaves no capital, turns each capital into its own small letter and keeps every other character |
| Cleaning.Strip | main.py:117 | `str.strip()` gives the slice between leading and trailing whitespace, and that slice contains every non-whitespace character |
| Cleaning.StripLowerFixed | main.py:117 | step 4 leaves stripped text without capitals unchanged |
| Cleaning.CleanText | main.py:114-117 | whatever the input, the cleaned body is lower-case ASCII letters and single inner spaces, with no space at either end |
| Cleaning.LaterStepsFixNormalized | main.py:115-117 | steps 2 to 4 leave a normalized text unchanged |
| Cleaning.CleanTextFixedIffLinkFree | main.py:114-117 | cleaning a normalized text changes it exactly when the text contains a URL match |
| Cleaning.CleaningNotIdempotent | main.py:114-117 | "htt.pfoo is great" cleans to "httpfoo is great", and cleaning that again changes it |
| Cleaning.UrlExample | main.py:110-117 | "check http://example.com/x now" cleans to "check now" |
| Cleaning.StripUrlsPlainWord | main.py:110-114 | step 1 keeps a text followed by a space when the text holds no match and does not end in `www` |
| Cleaning.CleanLinkBetweenWords | main.py:110-117 | a URL token between two lower-case words disappears, and the spaces around it collapse into one, provided neither word holds a match and the first does not end in `www` (otherwise step 1 deletes more) |
| Ordering.LexLeTotal | main.py:123 | any two date texts are comparable |
| Ordering.LexLeTrans | main.py:123 | the string order is transitive |
| Ordering.LexLeAntisym | main.py:123 | two texts each at most the other are equal |
| Ordering.AprilSortsBeforeJanuary | main.py:123 | with `%b` month names, an April date sorts before a January date of the same year |
| Transformer.Keep | main.py:119-121 | a body survives exactly when it has more than ten characters and at least one of them is not whitespace |
| Transformer.KeepCleanedIff | main.py:119-121 | a cleaned body is kept exactly when it is longer than ten characters |
| Transformer.CleanBody | main.py:114-117 | only the body changes, and the new body is normalized |
| Transformer.KeptRowsClean | main.py:119-121 | every kept row has a normalized body longer than ten characters |
| Transformer.InsertByDate | main.py:123 | insertion adds exactly one row to the multiset of rows |
| Transformer.SortByDate | main.py:123 | the sort is a permutation of its input |
| Transformer.SortByDateSorted | main.py:123 | the sort's output is in order of the date text |
| Transformer.DropTimestamps | main.py:124 | every row keeps all its columns except the timestamp, and the order is unchanged |
| Transformer.Transform | main.py:98-127 | its own contract says only that no row is added; contents, order and multiplicity are stated by TransformPermutes, TransformSorted, TransformTextsClean and TransformMembership |
| Transformer.TransformPermutes | main.py:98-127 | `transform` returns exactly the kept, cleaned rows without timestamp, each as often as in the input |
| Transformer.TransformSorted | main.py:123 | the output of `transform` is in date-text order |
| Transformer.TransformTextsClean | main.py:114-121 | every output body is normalized and longer than ten characters |
| Transformer.TransformMembership | main.py:98-127 | a post is in the output exactly when some input row cleans to a body longer than ten characters and yields that post |
| Scorer.Score | main.py:140-152 | one scored row per cleaned row, in order, carrying that row and the polarity of its body |
| Scorer.FinalRatings | main.py:147-152 | the final_rating column is the compound score of each row |
| Pipeline.Dataset | main.py:47-59 | the scored frame of a topic has one row per post that `transform` keeps from the search result; the rows' contents are Scorer.Score's contract |
| Pipeline.DatasetEmptyIff | main.py:47-59 | the scored frame is empty exactly when cleaning kept nothing, and an empty extraction gives an empty frame |
| Reports.SafeTopic | main.py:211 | the safe topic has the topic's length and no space |
| Reports.SafeTopicIdempotent | main.py:211 | making a safe topic safe again changes nothing |
| Reports.SafeTopicCollides | main.py:211-212 | two topics get the same chart names exactly when they differ only by spaces against underscores |
| Reports.CsvFileName | main.py:41 | the name is `reddit_`, then the topic unchanged, then `_data.csv` |
| Reports.SentimentFileName | main.py:42 | the name is `sentimental_analysis_`, then the topic unchanged, then `_data.csv` |
| Reports.CsvFileNames | main.py:41-42 | different topics give different CSV names, and a topic's two CSV files are distinct |
| Reports.CsvFileNameKeepsSpaces | main.py:41-42 | a space in the topic stays in both CSV names |
| Reports.ChartFileName | main.py:211-212 | a chart name is the chart's prefix and the topic's length plus four, ends in `.png` and holds no space, whatever the topic (the same pattern is at main.py:247-248, 287-288 and 324-325) |
| Reports.ComparisonFileName | main.py:371-374 | the comparison chart's name is as long as both topics plus 28 characters, ends in `.png` and holds no space |
| Reports.GroupCounts | main.py:312 | one group per subreddit present, holding its number of posts |
| Reports.AveragedSubreddits | main.py:312-313 | a subreddit is on the average chart exactly when it has at least three posts, and with that count |
| Reports.Distinct | main.py:197 | each subreddit appears once, and exactly the present ones appear |
| Reports.SortByCountSorted | main.py:197 | value counts are in order of non-increasing count |
| Reports.ValueCountsFacts | main.py:197 | each present subreddit appears once with its true count, largest first |
| Reports.TopSubreddits | main.py:197 | the chart shows the first ten value counts, or all of them when there are fewer |
| Reports.TopSubredditsSize | main.py:197 | the chart shows ten subreddits, or all of them when there are fewer |
| Reports.TopSubredditsCounts | main.py:197 | every bar is a present subreddit with its true count, in order of count |
| Reports.TopSubredditsDominate | main.py:197 | no subreddit left off the chart has more posts than one shown on it |
| Comparison.Frame.Copy | main.py:344 | the copy is a fresh frame with the same rows and topic |
| Comparison.Frame.SetTopic | main.py:345 | the topic column is set and the rows are unchanged |
| Comparison.Label | main.py:353-355 | every row becomes its topic label and its final rating, in order |
| Comparison.GroupByTopic | main.py:356 | one group per label present, holding that label's ratings in order |
| Comparison.CompareOutcome | main.py:338-356 | the outcome is no data exactly when the first frame is empty, no second data exactly when the first frame is not empty and the second topic's frame is, and otherwise the groups; the second topic is kept as typed |
| Comparison.CompareTopics | main.py:332-380 | the method reaches the no-data, no-second-data or compared outcome, and the caller's frame is unchanged |
| Comparison.ComparedGroups | main.py:353-356 | a finished comparison has groups exactly for the two topics: with equal topics one group holding both frames' ratings, first frame first; with different topics two groups, each holding its own frame's ratings |
| Session.TopicStep | main.py:34-64 | a topic line keeps the prompt exactly when it is rejected, printing its re-prompt message; otherwise it exits for lack of valid data, or opens the menu with the non-empty stripped topic and its non-empty frame |
| Session.ParseChoice | main.py:425-459 | a menu line is invalid exactly when it is not a single character from `1` to `8`, and a chart choice is one from `1` to `5` |
| Session.MenuStep | main.py:425-459 | only `7` returns to the topic prompt and only `8` exits, by the user's choice; `6` waits for a second topic only when the frame is not empty; a choice that stays in the session keeps the topic and the frame |
| Session.Step | main.py:406-459 | a line typed at the second-topic prompt returns to the menu with a comparison outcome, and a menu line that stays in the session keeps the topic and the frame |
| Session.Run | main.py:406-459 | each line read adds one event, only an exit stops the reading early, and a run that has exited adds nothing |
| Session.StepKeepsValid | main.py:406-459 | from a valid mode, one line leads to a valid mode |
| Session.TopicStepValid | main.py:35-64 | a topic line leads to the menu only with a non-empty stripped topic and its non-empty frame |
| Session.RunKeepsValid | main.py:406-459 | any run from a valid mode ends in a valid mode |
| Session.ReachableValid | main.py:406-459 | at the menu the topic is a non-empty stripped line and the frame is that topic's non-empty scored frame |
| Session.RejectedReprompts | main.py:37-51 | an empty topic, or one whose search returns nothing, re-prompts with its message |
| Session.AcceptedLine | main.py:47-64 | an accepted topic either opens the menu with its frame or ends the program when cleaning kept nothing |
| Session.RunSkipsRejected | main.py:34-51 | rejected lines only add their re-prompt messages, and the run carries on waiting for a topic |
| Session.FirstAccepted | main.py:34-64 | the run up to the first accepted line is the rejected lines' messages followed by that line's step |
| Session.ChartChoicesKeepSession | main.py:427-440 | choices 1 to 5 show a report and keep the topic and the frame |
| Session.CompareKeepsSession | main.py:442-443 | "6" and a second topic add the comparison's messages and return to the same topic and frame |
| Session.ExitEndsRun | main.py:452-456 | "8" ends the program, and the lines after it are never read |
| Session.OtherChoicesInvalid | main.py:458-459 | any other line is an invalid choice and the session is unchanged |
| Session.PaddedChoiceInvalid | main.py:425-459 | a choice is not stripped, so " 1" is invalid |
| Session.ChangeTopicForgets | main.py:445-450 | "7" returns to the topic prompt, and what follows does not depend on the old topic or frame |
| Controller.TakeTopic | main.py:28-64 | the loop skips rejected lines, with their messages, and returns the first accepted stripped topic with its scored frame; it returns no topic when the input runs out |
| Controller.ReadTopic | main.py:35-64 | one pass of `take_topic`'s loop either accepts the line, with its stripped topic and scored frame, or rejects it and adds its message, the lines before it having been rejected |
| Controller.LoadTopic | main.py:406-411 | `take_topic` and main's emptiness test reach the same mode and messages as the state machine |
| Controller.LoadAccepted | main.py:47-64 | after rejected lines and one accepted line, the run either exits for lack of data or reaches the menu with the topic's frame |
| Controller.MainLoop | main.py:406-459 | `main()` ends in exactly the mode, and prints exactly the messages, of the state machine run on the same input |
| Controller.Menu | main.py:413-459 | the menu loop from any line on equals the state machine run from the menu |
| Controller.Round | main.py:425-459 | one menu choice advances the run like the state machine, or ends it in the machine's final mode |
| Controller.CompareRound | main.py:442-443 | choice "6" and the second topic add the comparison's two messages |
| Controller.ChangeRound | main.py:445-450 | choice "7" followed by `take_topic` advances the run like the state machine |

## Left out

- The Reddit search (`extract`, main.py:67-95) and the VADER analyser are parameters of the model (`Pipeline.Env`). A failed request is an empty result.
- Pipeline.Env: `extract` is a function, so a topic returns the same rows every time it is searched during a session. The live search can return different posts on each call. `Session.Valid` (the frame at the menu is the topic's `Dataset`) relies on this.
- Scorer.Score: the bounds of the VADER scores are not stated. The scores come from the polarity parameter, which the model does not constrain.
- Floating-point work is out of scope: the means of `groupby(...).mean()`, `round(3)`, `corr`, and the histograms. `Comparison.GroupByTopic` keeps each group's ratings, and `Reports.AveragedSubreddits` keeps each group's count, instead of means.
- Plotting, `print`, `log_progress`, the CSV files and the MySQL append are I/O. The model records which report or message each step produces, not the output itself.
- The `try`/`except` fallbacks are not modelled: `transform` or the scorer returning their input after an exception, and a chart function swallowing an error. Nothing in the modelled operations raises on well-typed rows.
- Transformer.SortByDate: `sort_values` is not stable, so the order of rows with equal dates is not fixed by the source. The model's insertion sort is one admissible order, and only sortedness and the permutation are stated.
- Reports.TopSubreddits: the order among subreddits with equal counts is not fixed by `value_counts`. Only the counts, the size and the dominance over the omitted subreddits are stated.
- Running out of input, where `input()` would raise EOFError, ends the run in the mode reached.
- The timestamp is an integer rather than a float. Nothing in the core computes with it.
- A dataframe that is `None`, and non-string cells, cannot occur in the typed model.
