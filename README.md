# NeuralNote core in Dafny

NeuralNote is a journaling app. The backend reflects on each journal entry with
a rule-based "AI" service and serves a dashboard of statistics. This project
models three parts of that backend and proves properties about them.

- **The reflection service** (`backend/src/services/aiService.js`):
  - `detectEmotion` scores each emotion by how many of its keywords occur in the lower-cased entry, then keeps the first emotion with the strictly highest score. With no hits the emotion is `neutral`.
  - `generateSummary` splits the entry into sentences on runs of `.`, `!` and `?`, keeps the pieces longer than 10 characters once trimmed, and joins the first one or two. With nothing kept it returns a fixed fallback sentence.
  - `getAffirmation` picks a template for the emotion; unknown emotions fall back to `neutral`.
  - `detectCompletedHabits` returns the ids of the habits whose name, or some word of the name longer than 3 characters, occurs in the entry.
  - `generateReflection` combines the four.
- **The dashboard aggregation** (`backend/src/routes/dashboard.js`, lines 30-107): the emotion histogram, the set of entry days, the journaling streak, seven daily activity buckets, the mean habit completion count and the stats block.
- **`requireString`** (`backend/src/routes/helpers.js`): the check on required text fields.

## Files

- `Optional.dfy`: `Option`.
- `JsString.dfy`: the JavaScript string built-ins the core uses: `toLowerCase`, `trim`, `includes`, `split` on one character and `join`.
- `Emotion.dfy`, `Summary.dfy`, `Templates.dfy`, `Affirmation.dfy`, `Habits.dfy`, `AiService.dfy`: the reflection service.
- `Dashboard.dfy`: the dashboard handler.
- `Helpers.dfy`: `requireString`.

## How loops are modelled

Where the source works with loops, the model is a method with the same loops:
- `DetectEmotionWith`
- `DetectCompletedHabits`
- `EmotionDistribution`
- `UniqueDates`
- `CurrentStreak`
- `WeeklyActivity`

Each method is proved equal to a specification function. The lemmas characterise that function.

## How inputs are modelled

- `Math.random()` is a parameter `random` in `[0, 1)`. The index computation `Math.floor(random * length)` is kept.
- Today's date is a day number.

## Streak behaviour

The streak is modelled exactly as written, including its behaviour when there is no entry today:
- At `i = 0` the loop finds yesterday and sets the streak to 1.
- At `i = 1`, when there are at least two distinct entry days, it finds yesterday again and counts it a second time.

So entries on yesterday, two days ago and ten days ago give a streak of 3 (`Dashboard.StreakYesterdayExample`).

`Dashboard.StreakOf` states this closed form. `Dashboard.YesterdayCountedTwice` states the over-count: when some entry day lies outside the run ending yesterday, a streak of `k` stands for `k - 1` consecutive entry days. With no such day the loop runs once per distinct day, and the streak equals the run (`Dashboard.YesterdayRunHoldsAllDays`).

## Model

| member | source | states |
|---|---|---|
| Emotion.KeywordTableWellFormed | backend/src/services/aiService.js:8-16 | the keyword table has seven emotions with distinct names, none of them `neutral`, and no keyword listed twice within an emotion |
| Emotion.CountMatchesDistinct | backend/src/services/aiService.js:72-77 | for a keyword list without repeats, the number of matches is the number of distinct keywords found in the text |
| Emotion.PickIsFirstMaximum | backend/src/services/aiService.js:81-89 | the max scan never sees a score above the running maximum. The maximum is 0 exactly when all scores are 0, and then the result is `neutral`. Otherwise the result is the first emotion that reaches the maximum |
| Emotion.EmotionWithIsFirstBest | backend/src/services/aiService.js:67-92 | for any well-formed table: the detected emotion is `neutral` iff no keyword occurs. Otherwise it is the first emotion whose score is the highest |
| Emotion.DetectEmotionWith | backend/src/services/aiService.js:67-92 | the nested scoring loops and the max loop compute `EmotionWith` |
| Emotion.DetectEmotion | backend/src/services/aiService.js:67-92 | `detectEmotion` on the source's table equals `EmotionOf` |
| Emotion.ScoreCountsDistinctKeywords | backend/src/services/aiService.js:71-78 | each emotion's score is the number of its keywords that occur in the lower-cased entry |
| Emotion.EmotionOfIsFirstBest | backend/src/services/aiService.js:81-91 | `neutral` iff every score is 0. Otherwise the result names an emotion whose score no other emotion beats and is strictly higher than every earlier emotion's |
| Emotion.EmotionOfIgnoresCase | backend/src/services/aiService.js:68 | lower-casing the entry first does not change the emotion |
| Summary.DropTerminators | backend/src/services/aiService.js:101 | dropping a run of separators leaves a suffix that starts with a non-separator |
| Summary.SplitSentences | backend/src/services/aiService.js:101 | splitting on runs of `.`, `!`, `?` gives at least one piece |
| Summary.SplitSentencesNoTerminator | backend/src/services/aiService.js:101 | no piece of the split contains a separator |
| Summary.SplitSentencesPartitions | backend/src/services/aiService.js:101 | the pieces concatenated spell the entry's non-separator characters, and they leave room in the entry for at least one separator between each two neighbouring pieces (where each piece starts and ends is fixed by `SplitAfterPlainText` and `SplitAfterRun`) |
| Summary.SplitAfterPlainText | backend/src/services/aiService.js:101 | text without separators before `b` is glued onto the first piece of `b`'s split |
| Summary.SplitAfterRun | backend/src/services/aiService.js:101 | a leading separator run splits off one empty piece |
| Summary.KeepLong | backend/src/services/aiService.js:101 | the filter keeps at most as many pieces as it gets |
| Summary.KeepLongFilters | backend/src/services/aiService.js:101 | a piece is kept iff it is a piece whose trim has more than 10 characters. The kept pieces are no longer than all pieces. Order and repeats: see KeepLongSingle and KeepLongConcat |
| Summary.KeepLongSingle | backend/src/services/aiService.js:101 | a single piece is kept iff its trim has more than 10 characters |
| Summary.KeepLongConcat | backend/src/services/aiService.js:101 | the filter of a concatenation is the concatenation of the filters, so the kept pieces stay in their original order, repeats included |
| Summary.GenerateSummary | backend/src/services/aiService.js:99-114 | the summary is non-empty and ends with `.`. With no long sentence it is the fallback sentence |
| Summary.SummaryOfSentences | backend/src/services/aiService.js:103-113 | one long sentence gives that sentence trimmed, followed by `.`. Two or more give the first two trimmed, joined by `. ` and closed by `.` |
| Summary.SentencesComeFromContent | backend/src/services/aiService.js:101 | every kept sentence is a split piece of the entry, has no separator and has a trim longer than 10 |
| Summary.SummaryShorterThanLongEntry | backend/src/services/aiService.js:99-114 | an entry of five or more pieces with some long sentence has a summary shorter than itself |
| Summary.SummaryOfOneSentence | backend/src/services/aiService.js:107-109 | a trimmed sentence of more than 10 characters followed by `.` is its own summary |
| Summary.SummaryOfTwoSentences | backend/src/services/aiService.js:111-113 | two such sentences joined by `. ` and closed by `.` are their own summary |
| Summary.SummaryIdempotent | backend/src/services/aiService.js:99-114 | summarising a summary gives it back |
| Summary.FallbackIsOwnSummary | backend/src/services/aiService.js:103-105 | the fallback sentence is its own summary |
| Summary.RepeatedEntrySummary | backend/src/services/aiService.js:99-114 | `"Today was an amazing day! "` repeated `n >= 2` times summarises to that sentence twice, closed by `.`, and is shorter than the entry |
| Summary.SummaryOfRepeated | backend/src/services/aiService.js:99-114 | the same for any trimmed sentence longer than 10 characters repeated with `! ` |
| Summary.TrimKeepsNoTerminator | backend/src/services/aiService.js:108 | trimming a piece keeps it free of separators |
| Templates.TemplatesIn | backend/src/services/aiService.js:122 | the list used is always one of the table's lists, and in a well-formed table it is non-empty and holds no empty template |
| Templates.AffirmationFrom | backend/src/services/aiService.js:121-125 | for any `random` in `[0, 1)`, the index `floor(random * n)` picks one of the templates, and it is non-empty |
| Templates.AffirmationFromByRandomValue | backend/src/services/aiService.js:123-124 | when `random` lies in `[i/n, (i+1)/n)`, the affirmation is template `i` |
| Templates.RandomIndex | backend/src/services/aiService.js:123 | `Math.floor(random * n)` for `random` in `[0, 1)` is a valid index into `n` templates |
| Templates.RandomIndexByValue | backend/src/services/aiService.js:123 | the index is `i` if and only if `random` lies in `[i/n, (i+1)/n)` |
| Templates.RandomIndexRange | backend/src/services/aiService.js:123 | the chosen index `i` always has `random` in `[i/n, (i+1)/n)` |
| Affirmation.AffirmationsWellFormed | backend/src/services/aiService.js:19-60 | every list of templates has exactly three non-empty templates, and `neutral` has a list |
| Affirmation.CategoriesHaveTemplates | backend/src/services/aiService.js:8-60 | each of the seven emotions and `neutral` has templates |
| Affirmation.EmotionOfInRange | backend/src/services/aiService.js:67-92 | the detected emotion is `neutral` or one of the table's emotions, so it always has templates |
| Affirmation.TemplatesFor | backend/src/services/aiService.js:122 | three templates: the emotion's own, or `neutral`'s for an unknown emotion |
| Affirmation.GetAffirmation | backend/src/services/aiService.js:121-125 | the affirmation is one of the emotion's templates, and it is non-empty |
| Affirmation.AffirmationByRandomValue | backend/src/services/aiService.js:123-124 | `random` in `[i/3, (i+1)/3)` gives template `i` |
| Habits.SomeLongWordIncludedIff | backend/src/services/aiService.js:154-156 | true iff some word of the name has more than 3 characters and occurs in the entry |
| Habits.SomeIncludedIff | backend/src/services/aiService.js:161-163 | true iff some completion phrase occurs in the entry |
| Habits.MentionedIff | backend/src/services/aiService.js:146-157 | a habit is mentioned iff its lower-cased name occurs in the lower-cased entry, or some word of the name longer than 3 characters does |
| Habits.NameInEntryIsMentioned | backend/src/services/aiService.js:142-150 | an entry that contains the habit's name in any spelling that lower-cases to the same text ("EXERCISE" for "Exercise") mentions it |
| Habits.MentionedPositionsSpec | backend/src/services/aiService.js:145-170 | the positions of the mentioned habits are ascending, within range, and include a position iff that habit is mentioned |
| Habits.CompletedHabitsAreMentionedInOrder | backend/src/services/aiService.js:145-170 | the detected ids are the ids of the mentioned habits, in input order |
| Habits.CompletedHabitsMembership | backend/src/services/aiService.js:141-173 | every mentioned habit's id is detected, and every detected id belongs to some habit |
| Habits.DetectCompletedHabits | backend/src/services/aiService.js:141-173 | the loop over the habits, including the completion-phrase check, computes `CompletedHabits` |
| AiService.GenerateReflection | backend/src/services/aiService.js:181-192 | the reflection carries `EmotionOf`, `GenerateSummary`, the affirmation chosen for that emotion and `CompletedHabits`. The emotion has templates and the affirmation is one of them, both texts are non-empty, and with no habits nothing is detected |
| Dashboard.DistributionCounts | backend/src/routes/dashboard.js:30-36 | an emotion is a key of the histogram iff some entry carries it, and its count is the number of entries carrying it |
| Dashboard.DistributionTotal | backend/src/routes/dashboard.js:30-36 | the counts add up to the number of entries that have an emotion |
| Dashboard.EmotionDistribution | backend/src/routes/dashboard.js:30-36 | the histogram loop computes `Distribution` |
| Dashboard.EntryDaysBound | backend/src/routes/dashboard.js:49-54 | there are at most as many distinct entry days as entries |
| Dashboard.UniqueDates | backend/src/routes/dashboard.js:48-54 | the loop collects exactly the days of the entries |
| Dashboard.RunFromIsRun | backend/src/routes/dashboard.js:58-78 | a run of length `r` from day `d` covers `d - r + 1 .. d`, and day `d - r` is missing |
| Dashboard.StreakOf | backend/src/routes/dashboard.js:58-78 | the streak is never more than the number of distinct entry days |
| Dashboard.CurrentStreak | backend/src/routes/dashboard.js:56-78 | the loop, with its yesterday fallback, its `continue` and its `break`, computes `StreakOf` |
| Dashboard.StreakZeroIff | backend/src/routes/dashboard.js:58-78 | the streak is 0 iff there is no entry today and none yesterday |
| Dashboard.StreakFromToday | backend/src/routes/dashboard.js:58-64 | with an entry today, the streak is the length of the run of consecutive entry days ending today |
| Dashboard.YesterdayCountedTwice | backend/src/routes/dashboard.js:65-73 | with no entry today but one yesterday, and some entry day outside the run ending yesterday, the streak is one more than that run. So the run covers only `streak - 1` days |
| Dashboard.YesterdayRunHoldsAllDays | backend/src/routes/dashboard.js:58-78 | with no entry today, when the run ending yesterday holds every entry day, the loop runs once per distinct day and the streak equals that run |
| Dashboard.StreakOnlyYesterday | backend/src/routes/dashboard.js:65-73 | an entry only yesterday gives 1 |
| Dashboard.StreakTodayAndYesterday | backend/src/routes/dashboard.js:58-64 | entries today and yesterday give 2 |
| Dashboard.StreakYesterdayExample | backend/src/routes/dashboard.js:58-78 | entries yesterday, two days ago and ten days ago give 3 |
| Dashboard.EntriesOnKeepsDay | backend/src/routes/dashboard.js:87-90 | the filter keeps exactly the entries of that day |
| Dashboard.Week | backend/src/routes/dashboard.js:81-97 | seven buckets |
| Dashboard.WeeklyActivity | backend/src/routes/dashboard.js:81-97 | the countdown loop from 6 down to 0 computes `Week` |
| Dashboard.EntriesOnCount | backend/src/routes/dashboard.js:87-90 | the filter for a day keeps exactly as many entries as carry that day, repeats included |
| Dashboard.WeekCounts | backend/src/routes/dashboard.js:81-97 | bucket `k` is day `today - 6 + k`, and its count is the number of entries on that day (by EntriesOnCount). Together the buckets count each entry of the last seven days once, so never more than all entries |
| Dashboard.CompletionRate | backend/src/routes/dashboard.js:105-107 | 0 with no habit rows. Otherwise the rate times the number of rows is the sum of the completion counts, and it is never negative |
| Dashboard.CompletionRateBounded | backend/src/routes/dashboard.js:105-107 | if no habit was completed more than `b` times, the rate is at most `b` |
| Dashboard.BuildDashboard | backend/src/routes/dashboard.js:27-107 | the stats block: total entries, total habits, the streak, the rate; the histogram and the seven buckets; the streak and the weekly total never exceed the entry count |
| Helpers.RequireString | backend/src/routes/helpers.js:4-10 | missing, non-string and blank values are rejected with 400 and the caller's message. Any other string is accepted trimmed, non-empty, with no blank at either end |
| Helpers.RequireStringIdempotent | backend/src/routes/helpers.js:4-10 | an accepted value fed back in is accepted unchanged |
| Helpers.RequireStringKeepsTrimmed | backend/src/routes/helpers.js:9 | a non-empty string without blank ends is accepted as it is |
| JsString.TrimIsSlice | backend/src/routes/helpers.js:5-9 | `trim` returns the slice between a white-space prefix and a white-space suffix, and it is empty iff the string is all white space |
| JsString.TrimIdempotent | backend/src/routes/helpers.js:9 | trimming twice is trimming once |
| JsString.IncludesIffOccurs | backend/src/services/aiService.js:74 | `includes` holds iff the keyword occurs at some position |
| JsString.JoinSplit | backend/src/services/aiService.js:147 | joining the pieces of a split with its separator gives back the string |
| JsString.LowerIdempotent | backend/src/services/aiService.js:68 | lower-casing twice is lower-casing once |

## Left out

- HTTP: the router, `res.status(...).json(...)` and the error handling around them are not modelled. `requireString` returns its 400 answer as a value instead.
- Persistence: the SQL queries behind `allEntries`, `habitCompletions` and `allHabits` are not modelled. Their rows are inputs.
  - The model methods in `backend/src/models/` are `async`, and `dashboard.js` calls them without `await`. The model takes the resolved rows.
  - The rows from `getCompletionsByDateRange` are given as their `completion_count` numbers. A driver returning `COUNT` as text, which would make `reduce` concatenate strings, is not modelled.
- The `user` lookup, `recentEntries` and `dayName` of the dashboard response are not modelled.
- Dates: clocks, time zones, and the `toISOString` conversions of local midnight are not modelled. A calendar day is one integer, consecutive days differ by 1, and today is an input. The source gives an entry two possibly different days: the streak uses the ISO date of the entry's local midnight, the weekly buckets the UTC date of its timestamp. The model gives each entry one `day` and uses it for both.
- Sorting: `sortedEntries` and `sortedDates` are not modelled as sorts. Only their contents and their length reach the streak loop, so they are a set and its size.
- Character set: `toLowerCase` and `trim` are modelled for ASCII only. Other Unicode case mappings and white space are out of scope.
- Summary.KeepLong, Habits.SomeLongWordIncluded: lengths are counted in characters (Unicode scalar values), not in the UTF-16 code units of JavaScript's `.length`. Outside the Basic Multilingual Plane (emoji, for example) a character is two code units in the source. So the `> 10` test of `generateSummary` and the `> 3` test of `detectCompletedHabits` can reject text that the source accepts. Six `😊` make a sentence of length 12 in the source but 6 here.
- Floating point: the completion rate and `Math.random()` are exact reals, not IEEE doubles.
- `Math.random()` is a parameter, not a source of randomness.
- Objects as maps: the emotion histogram and the tables ignore JavaScript prototype keys such as `constructor`. An emotion named like a prototype key would find a value in `affirmations` in the source.
- Templates.AffirmationFrom: the random choice itself is not modelled. Which template each value of `random` selects is proved by Templates.AffirmationFromByRandomValue and Templates.RandomIndexByValue.
- Other files of the repository (the remaining routes, the models, the frontend, the tests) are not part of this model.
