# Majority judgment: the poll bot and the aggregation, in Dafny

This project models two parts of the majority-judgment tools.

**The Discord poll bot** (`discord-bot/major_bot.py`). It keeps one poll in
module globals: whether a poll is open, its UUID, the question, the choices,
each user's row of grades, each user's grade buttons and the list of users who
validated. Three handlers change that state:

- `major_create` opens a poll;
- `major_update` handles one button click;
- `major_delete` closes the poll.

The bot is modelled in two layers:

- `PollSpec` describes the state as a `Poll` value and each handler as a pure
  transition (`Open`, `Click`, `Close`).
- `MajorBot.Bot` is a class whose fields are the globals. Its methods update
  those fields in place, with the same loops the handlers use, and each method
  is proved to perform exactly the transition `PollSpec` defines.

`PollProperties` proves what those transitions promise, for example:

- a validated user is frozen;
- a click with a stale token changes nothing;
- a reset restarts the clicking user's row;
- a grade fills only the first unset choice, and a set grade is never lost over
  any run of clicks;
- the CSV export keeps exactly the rows with no unset grade.

A button's `custom_id` string is modelled as a structured `Event`. Each event
carries the poll token it was built with. The handler's string comparison
becomes an equality test on that event, for the clicking user.

**The aggregation** (`majority_judgment.py` and the older `majority-judgment.py`).
A CSV file, already parsed, is a `Table` whose cells are `Num`, `Label` or
`Blank`. A column that holds any text holds all of its cells as text, as
pandas reads it (`TextColumnsHoldNoNumbers`). `read_and_aggregate_csv` does the following, in order:

- it drops the first column when asked;
- it checks the cells against the scale (ranks 1..K in 'int' mode, category
  names in 'str' mode) and warns;
- in 'str' mode it maps category names to ranks;
- it counts the values and fills in 0 for the missing ranks;
- it lists the counts in value order.

`Aggregation` models that function, and the methods `ReadAndAggregate`,
`CountColumns` and `CountRatings` follow its loops. `AggregationProperties`
proves what the counts mean. `Survey` models the rest of `survey`:

- the majority index (the first cumulative count to reach half the total);
- the left offset of the highlighted segment;
- the name of the PNG file.

It proves that the highlighted grade is the lower median of the ratings.
`Legacy` is the older script: there is no check and no mapping, and the scale
is fixed at five ratings.

Behaviour of the code that the model keeps as written:

- `major_delete` keeps the UUID, and `major_create` clears neither rows,
  buttons nor validations. A user who clicks an old poll's "participate" after it
  is closed gets an empty row. In the next poll that user's participate is
  ignored and every grade click raises KeyError (`StaleRowLocksOutNextPoll`).
- Likewise, an old poll's validate button clicked after `major_delete` records
  the user as validated, and that user is frozen for the whole next poll
  (`StaleValidateFreezesNextPoll`).
- Validating does not require every choice to be graded.
- Duplicate choice labels collapse into one key of the row
  (`DuplicateChoicesCollapse`).
- A click that looks up a missing row or key raises KeyError. It is modelled
  as the response `Crashed`, with the state unchanged.
- An all-zero count vector gives majority index 0, not "insufficient data".

## Model

| member | source | states |
|---|---|---|
| ChoiceText.LeadingSpaces | discord-bot/major_bot.py:88 | the length of the longest prefix made of white space (the full `str.isspace` set): every character before it is white space, the one at it is not |
| ChoiceText.TrailingSpaces | discord-bot/major_bot.py:88 | the length of the longest suffix made of white space: every character after the cut is white space, the one before it is not |
| ChoiceText.Split | discord-bot/major_bot.py:88 | `str.split(sep)` always yields at least one piece |
| ChoiceText.SplitJoin | discord-bot/major_bot.py:88 | joining the pieces with the separator gives the input back, and no piece holds the separator |
| ChoiceText.JoinSplit | discord-bot/major_bot.py:88 | splitting a join of separator-free pieces gives those pieces back |
| ChoiceText.SplitAfterPiece | discord-bot/major_bot.py:88 | a separator-free piece followed by the separator is split off as the first piece |
| ChoiceText.SplitWhole | discord-bot/major_bot.py:88 | a string without the separator is one piece |
| ChoiceText.SplitCount | discord-bot/major_bot.py:88 | there is one more piece than there are separators |
| ChoiceText.TrimIsInfix | discord-bot/major_bot.py:88 | `strip()` returns the slice left after removing the leading and trailing white space, and that slice neither starts nor ends with white space |
| ChoiceText.TrimKeepsOnlyInputChars | discord-bot/major_bot.py:88 | stripping introduces no character |
| ChoiceText.TrimIdempotent | discord-bot/major_bot.py:88 | stripping twice is stripping once |
| ChoiceText.ParseChoicesSpec | discord-bot/major_bot.py:88 | the choices are the ';'-separated pieces of the input, each stripped, in input order; there is one more than there are ';'; none holds ';' and none has surrounding white space |
| PollSpec.Open | discord-bot/major_bot.py:66-93 | refused exactly when a poll is open, the state then unchanged; otherwise the poll is open under the drawn token with the question and the parsed choices, and rows, buttons and validations are kept |
| PollSpec.Close | discord-bot/major_bot.py:224-242 | the state becomes the one at module load, under the same token, the closed question is answered, and a create afterwards always succeeds |
| PollSpec.Click | discord-bot/major_bot.py:95-180 | a click is announced exactly when it is the user's own validate button and the user has not validated; a KeyError leaves the state unchanged; a prompted choice is one of the choices and a key of the user's row |
| PollSpec.Progress | discord-bot/major_bot.py:142-180 | raises KeyError exactly when the row or a choice key is missing; a KeyError or an ignored click changes nothing; a prompted choice is a key of the user's row |
| PollSpec.CompleteRows | discord-bot/major_bot.py:184 | the export keeps a user exactly when the row holds no unset grade, and keeps that row as it is |
| PollSpec.FirstUnset | discord-bot/major_bot.py:150-154 | on a row with an unset choice: the index of the first unset choice, every earlier one being set |
| MajorBot.Bot.constructor | discord-bot/major_bot.py:22-43 | module load: no poll open, a start-up token drawn, everything else empty |
| MajorBot.Bot.Create | discord-bot/major_bot.py:66-93 | refused while a poll is open, leaving every global unchanged; otherwise opens the poll under a never-drawn token with the parsed choices, leaving rows, buttons and validations as they were |
| MajorBot.Bot.Delete | discord-bot/major_bot.py:224-242 | closes the poll and empties question, choices, rows, buttons and validations; keeps the token; answers the closed question |
| MajorBot.Bot.Update | discord-bot/major_bot.py:95-180 | the new globals and the response are exactly the `Click` transition of the old globals |
| MajorBot.Bot.Join | discord-bot/major_bot.py:126-137 | the clicking user gets a row with every choice unset and the five grade buttons of every choice; nothing else changes |
| MajorBot.Bot.ScanRow | discord-bot/major_bot.py:142-148 | reports a KeyError exactly when the user's row or one of the choice keys is missing; otherwise whether every choice is graded |
| MajorBot.Bot.GradeCurrent | discord-bot/major_bot.py:150-180 | performs the grading step of `Click`: sets the first unset choice when the click is one of its buttons, and prompts for the next choice, finishes, or re-prompts |
| PollProperties.FreshRowIsUnset | discord-bot/major_bot.py:126-132 | a new row has a key for every choice and no grade, so grading starts at the first choice |
| PollProperties.DistinctLabelCount | discord-bot/major_bot.py:130-131 | a list has at most as many distinct labels as entries, and exactly as many iff its labels are distinct |
| PollProperties.DuplicateChoicesCollapse | discord-bot/major_bot.py:130-131 | a row has fewer keys than there are choices exactly when two choice labels coincide |
| PollProperties.ProgressIsLocal | discord-bot/major_bot.py:142-180 | the grading step changes only the clicking user's row, and never its set of keys |
| PollProperties.ClickIsLocal | discord-bot/major_bot.py:95-180 | a click never changes whether a poll is open, nor the token, question or choices; it touches only the clicking user's row and buttons; it either leaves the validations alone or appends the clicking user |
| PollProperties.ValidatedUserIsFrozen | discord-bot/major_bot.py:105-106 | any click from a validated user changes nothing and gets no answer |
| PollProperties.ValidatedStaysFrozen | discord-bot/major_bot.py:105-106 | over any run of clicks, a validated user stays validated and their row stays exactly as it was |
| PollProperties.StaleEventIsIgnored | discord-bot/major_bot.py:107-156 | a click on a button of an earlier poll (another token) changes nothing |
| PollProperties.ValidateAppends | discord-bot/major_bot.py:107-111 | a user's own validate button appends the user to the validations and changes nothing else |
| PollProperties.ForeignButtonIsIgnored | discord-bot/major_bot.py:107-124 | for every user and state, validate and reset buttons made for another user change nothing |
| PollProperties.ResetRestartsRow | discord-bot/major_bot.py:114-137 | a reset without a row is ignored; with a row it leaves every choice unset, rebuilds the buttons, and prompts for the first choice |
| PollProperties.ParticipateEnrols | discord-bot/major_bot.py:123-140 | participating again is ignored; the first time it creates a row with every choice unset and prompts for the first choice |
| PollProperties.GradeFillsFirstUnsetOnly | discord-bot/major_bot.py:150-174 | a grade click sets only the first unset choice, and only when the button is that choice's; every other entry and every other user's row are unchanged |
| PollProperties.CompleteRowIgnoresGrades | discord-bot/major_bot.py:143-148 | once a row is complete, every grade click is ignored |
| PollProperties.GradeWithoutRowCrashes | discord-bot/major_bot.py:143-145 | a grade click from a user without a row raises KeyError and changes nothing |
| PollProperties.GradeIsKept | discord-bot/major_bot.py:95-180 | a set grade survives any click except its owner's reset |
| PollProperties.GradesPersist | discord-bot/major_bot.py:95-180 | a set grade survives any run of clicks that holds no reset by its owner |
| PollProperties.ProgressKeepsOrder | discord-bot/major_bot.py:150-180 | with distinct choices, the grading step keeps a row graded in choice order, and a prompt names the first unset choice |
| PollProperties.PromptIsCurrentChoice | discord-bot/major_bot.py:95-180 | with distinct choices, every click keeps rows graded in choice order, and every prompt names the user's first unset choice |
| PollProperties.ClickPreservesRowsMatch | discord-bot/major_bot.py:95-180 | if every row has exactly the choices as keys, it stays so after any click |
| PollProperties.ExportedIffAllGraded | discord-bot/major_bot.py:184 | when rows match the choices, a user's row is exported iff every choice is graded |
| PollProperties.FinishedFillsRow | discord-bot/major_bot.py:150-173 | the grading step that answers with the summary leaves every choice of the row graded |
| PollProperties.FinishedRowIsExported | discord-bot/major_bot.py:158-173 | the row of a user who just finished is exported |
| PollProperties.ButtonsFollowRows | discord-bot/major_bot.py:126-137 | create, close and every click keep each row's grade buttons keyed by exactly the row's keys, so the buttons of a prompted choice (line 180) always exist |
| PollProperties.OpenWhileOpenIsRefused | discord-bot/major_bot.py:79-82 | creating while a poll is open changes nothing and is refused |
| PollProperties.StaleValidateFreezesNextPoll | discord-bot/major_bot.py:84-111 | after a close, an old validate button still records the user, and in the next poll every click of that user is ignored |
| PollProperties.StaleRowLocksOutNextPoll | discord-bot/major_bot.py:225-240 | after a close, an old participate button still creates an empty row; in the next poll that user's participate is ignored and every grade click raises KeyError |
| Aggregation.DropFirstColumn | majority_judgment.py:20-22 | exactly the first column is dropped: the other names stay in order and every cell moves one place left |
| Aggregation.Counted | majority_judgment.py:20-22 | the counted table keeps every row and has the remaining column names in order |
| Aggregation.RankOf | majority_judgment.py:53-54 | the rank of a category name is one more than its last position in the list |
| Aggregation.Lowest | majority_judgment.py:55-60 | the smallest of the values and rank 1: the first key the sorted listing holds |
| Aggregation.Highest | majority_judgment.py:55-60 | the largest of the values and rank K: the last key the sorted listing holds |
| Aggregation.FirstUnsortable | majority_judgment.py:50-60 | the first column whose mapped values still hold text, every earlier column being sortable |
| Aggregation.Tally | majority_judgment.py:50-61 | succeeds exactly when no column holds text after mapping, then one vector per column under its name in column order; otherwise the error names the first such column |
| Aggregation.Aggregate | majority_judgment.py:17-61 | on success the keys are the counted column names in order; it raises only for an unknown values_type, a text cell in 'int' mode, or an unsortable column |
| Aggregation.CountRatings | majority_judgment.py:56-60 | the loop that adds the missing ranks with 0 and lists the counts yields the count vector of the column |
| Aggregation.CountColumns | majority_judgment.py:50-61 | the column loop yields every column's count vector in column order, or stops at the first column that cannot be sorted |
| Aggregation.ReadAndAggregate | majority_judgment.py:17-61 | drop, check and count as `Aggregate` defines: an unknown mode raises, a text cell in 'int' mode raises, otherwise counts and a warning flag |
| AggregationProperties.CategoryRank | majority_judgment.py:53-54 | in 'str' mode the category name at position i, when not repeated later, is mapped to rank i+1 |
| AggregationProperties.ValuesCount | majority_judgment.py:55 | `value_counts` drops NaN and text: each number is counted as often as it occurs among the cells |
| AggregationProperties.MappedColumnInScale | majority_judgment.py:52-55 | a column in scale maps to ranks 1..K only, one per cell, with no text left |
| AggregationProperties.NamedColumnRanks | majority_judgment.py:52-55 | with distinct names in scale, exactly the cells holding name r are mapped to rank r+1 |
| AggregationProperties.ZeroFilledCounts | majority_judgment.py:56-59 | after zero-filling, every rank 1..K has an entry and each entry is the number of occurrences of its value |
| AggregationProperties.ListingAll | majority_judgment.py:60 | listing a range of present keys gives their counts in increasing key order |
| AggregationProperties.ListingSum | majority_judgment.py:56-60 | the listed counts sum to the occurrences of the values in the listed range |
| AggregationProperties.CountVectorSum | majority_judgment.py:53-60 | a question's counts add up to its number of non-empty cells, for any values |
| AggregationProperties.CountVectorInScale | majority_judgment.py:56-60 | when every value is a rank 1..K, the vector has K entries and entry r-1 is the number of values equal to r, absent ranks getting 0 |
| AggregationProperties.CumulativeCounts | majority_judgment.py:56-60 | the cumulative count up to entry i is the number of values in 1..i+1 |
| AggregationProperties.ColumnCountsInScale | majority_judgment.py:52-60 | a column in scale has K counts, entry r-1 counting the cells of rank r, adding up to its number of cells |
| AggregationProperties.AggregateColumnsInScale | majority_judgment.py:50-61 | on a table in scale, one vector per column, keyed by the column names in order, each K long, counting ranks, summing to the number of rows |
| AggregationProperties.AggregateInScale | majority_judgment.py:17-61 | when every cell is in scale: no error, no warning, keys are the remaining column names in order, K entries per question, summing to the number of rows |
| AggregationProperties.IntModeCounts | majority_judgment.py:50-60 | in 'int' mode entry r-1 is the number of cells holding r |
| AggregationProperties.StrModeCounts | majority_judgment.py:52-60 | in 'str' mode, with distinct names, entry r is the number of cells holding the r-th name |
| AggregationProperties.CheckOutcome | majority_judgment.py:17-48 | an unknown values_type raises; in 'int' mode a text cell raises; otherwise the call succeeds exactly when every text cell is a category name in 'str' mode, and on success the warning is raised iff some cell is out of scale |
| AggregationProperties.MixedColumnCells | majority_judgment.py:52-60 | a column still holds text after mapping exactly when one of its cells is text that is not a category name |
| AggregationProperties.OutOfScaleWarns | majority_judgment.py:25-61 | a table with a rating above the scale in 'int' mode is still aggregated, with the warning raised |
| AggregationProperties.UnknownLabelRaises | majority_judgment.py:52-60 | in 'str' mode, with at least one category name, a label that is not a category name stays text beside the int keys the zero-fill adds, so sorting raises |
| Survey.CumulativeStep | majority_judgment.py:137 | each cumulative count is the previous one plus its own entry |
| Survey.FirstReaching | majority_judgment.py:139 | the first index from i on whose cumulative count reaches half the total |
| Survey.MajorityIndex | majority_judgment.py:136-139 | defined iff the vector is non-empty; the smallest index whose cumulative count is at least half the total, every earlier one being below half |
| Survey.LeftOffset | majority_judgment.py:142 | the left offset plus the highlighted count is that index's cumulative count; for a later index it is the previous cumulative count |
| Survey.HighlightStraddlesHalf | majority_judgment.py:136-142 | the left offset is the majority index's cumulative count minus its own count; the highlighted segment starts at or before half the total (strictly before unless it is the first segment) and ends at or after it |
| Survey.MajorityExamples | majority_judgment.py:136-139 | [1,3,2,1,1] gives 1, [4,0,0,1,1] gives 0, all zeros give 0, an empty vector gives none |
| Survey.MajorityGradeIsLowerMedian | majority_judgment.py:136-142 | for ratings in 1..K, the highlighted grade is the lower median: at least half the ratings are at or below it, fewer than half below it, and its segment starts after the ratings below it |
| Survey.PngName | majority_judgment.py:160-164 | every name is word characters followed by ".png", with one stem character per title character for a non-empty title |
| Survey.PngNameShape | majority_judgment.py:160-164 | "plot.png" for an empty title; otherwise the title with every non-word character replaced by '_', followed by ".png" |
| Survey.StemIsSafe | majority_judgment.py:163-164 | the stem holds word characters only, so no path separator or other character Windows forbids in names |
| Survey.SanitiseIdempotent | majority_judgment.py:164 | sanitising twice is sanitising once, and a title of word characters is kept as it is |
| Survey.PngNameCollision | majority_judgment.py:160-164 | any two titles of equal length that agree on their word characters and differ only in non-word characters share a file name |
| Legacy.ReadAndAggregate | majority-judgment.py:14-23 | the column loop over the five fixed ratings yields every column's count vector in column order |
| Legacy.FiveRatings | majority-judgment.py:16-22 | on ratings 1..5: keys are the column names in order, five entries each, entry r-1 counting the cells holding r (0 when absent), summing to the number of rows |
| Legacy.TextCellRaises | majority-judgment.py:18-22 | a text cell stays text beside the int keys 1..5 the zero-fill adds, so sorting raises |
| Legacy.HighlightedRating | majority-judgment.py:64-70 | the highlighted rating is the lower median of ratings in 1..5, and its segment starts after the ratings below it |

## Left out

- Discord transport: slash-command registration, button construction, message texts, `send_message` and `bot.run`. A response is only its kind (`Ignored`, `Announced`, `Prompt`, `Finished`, `Crashed`), and `BUTTONS` is the list of grade events per user and choice.
- Environment variables, logging and the guild list of `major_bot.py`, because they are I/O.
- asyncio concurrency: each click is one atomic transition.
- `uuid.uuid4()` is a `Token` passed in by the caller. A ghost set of drawn tokens and a precondition make each new token unlike every earlier one.
- `major_display` and the CSV layout written by `dict_to_csv` (header from the first row, one line per row). Only the row filter is modelled, because the rest is file I/O and glue.
- Reading the CSV with pandas. The model starts from the parsed table, and non-integer numbers in cells are not modelled.
- The printed warnings: the warning is a boolean in the result. A call that raises returns only its error, so a warning printed before the raise (lines 43-44 in 'str' mode) is not recorded.
- All matplotlib drawing in both `survey` functions, and `show`/`savefig`.
- argparse and the language defaults of both scripts.
- Floating point: `cum >= total / 2` is stated as `2 * cum >= total`, which is the same test on integers.
- Aggregation.Aggregate: in 'str' mode with an empty category list, a column holding only text is reported as unsortable. pandas would instead list that column's counts in label order, and counts keyed by text are not modelled.
- Survey.IsWordChar: `\W` is modelled for characters up to U+00FF. Characters beyond U+00FF are treated as non-word, although Python counts letters and digits of every script as word characters.
- Legacy.TextCellRaises: assumes pandas 3, where `counts[rating] = 0` assigns by label. pandas 2 assigns by position when the index holds only text: a column of text with more than five distinct labels then does not raise, and gets a vector whose entries 1..5 are overwritten by 0. With five labels or fewer, pandas 2 raises IndexError, which the model also reports as an error. A column mixing text and numbers raises under both versions.
- AggregationProperties.UnknownLabelRaises: the same pandas 3 label semantics. Under pandas 2, a column whose labels are all unknown and more than k distinct gets positional zeros instead of an error. A column with a mapped rank beside the unknown label raises under both versions.
