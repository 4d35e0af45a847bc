# Task list, modelled and verified in Dafny

The modelled program is a console task-list manager written in Kotlin. It
reads an action: `add`, `print`, `edit`, `delete` or `end`. It then asks
for each task's priority (C, H, N, L), due date (`yyyy-mm-dd`), due time
(`hh:mm`) and content lines. It keeps the tasks in a list and prints them
as a table. In that table every content line is cut into 44-character
cells, and coloured swatches show the priority and whether the task is due
today, later or earlier.

The model follows the program's own structure.

- `Task`, `TaskList` and `Process` are Dafny classes that update their
  fields in place.
- Each prompt method reads the lines still to be read from a sequence. It
  returns whether it finished, how many lines it read and what it printed.
- Each method is proved equal to a pure function of the old state and the
  input: `PriorityReply`, `DateReply`, `AddReply`, `DeleteReply`, `Action`,
  `Runs`, and so on.
- The program's properties are proved as lemmas about those functions.
- The two loops of the rendering code, `formattedLine` and `addSpaces`,
  are methods with loop invariants.

Modules, one per file:

| file | module | covers |
|---|---|---|
| `optional.dfy` | `Optional` | `Option` and `Result` |
| `text.dfy` | `Text` | Kotlin's `lowercase`, `isBlank`, `Int.toString`, `String.toInt`, `split` |
| `calendar.dfy` | `Calendar` | valid `LocalDateTime` fields and `daysUntil` |
| `render.dfy` | `Render` | cells, date and time columns, swatches, the rows of one task |
| `prompts.dfy` | `Prompts` | what each `Task` prompt accepts and stores |
| `task.dfy` | `Tasks` | class `Task` |
| `tasklist.dfy` | `TaskLists` | class `TaskList` |
| `session.dfy` | `Session` | `object Process` and the `main` loop |

The program ends in one of three ways, and `Session.Status` records which:

- `end` calls `exitProcess(1)`.
- `readln` finds no more input.
- An exception is thrown while printing and nothing catches it. A run
  reaches only two such exceptions:
  - `addSpaces` on year 0 divides by zero;
  - the task's content wraps to no cell, so `newTaskContent[0]` fails.

`Render.TaskBlock` describes the rows of any task, including one whose
`lateinit` priority was never set, so the model has a third exception,
`UninitializedPriority`. Every task in the list has its priority set
(`TaskLists.AddedTaskKept`), so a listing never throws it
(`TaskLists.ListingKeepsPriority`) and no run ends with it
(`Session.RunsKeep`).

One might expect a task's lines to be joined before they are wrapped. The
code (`src/main/kotlin/Main.kt:139-141`) wraps each line on its own, and
`Render.WrapIsPerLine` shows that the two differ.

## Model

| member | source | states |
|---|---|---|
| Text.Lowercase | src/main/kotlin/Main.kt:23 | lower-casing keeps the length and maps every character to its lower case |
| Text.LowercaseAppend | src/main/kotlin/Main.kt:36 | lower-casing distributes over concatenation |
| Text.LowercaseFixed | src/main/kotlin/Main.kt:212 | text without upper-case letters is unchanged by lower-casing |
| Text.Spaces | src/main/kotlin/Main.kt:104 | the padding is exactly `n` spaces |
| Text.DecimalString | src/main/kotlin/Main.kt:114 | `Int.toString` writes at least one character: the digits, after a minus sign for a negative number |
| Text.ParseInt | src/main/kotlin/Main.kt:38 | `toInt` accepts only text that, after an optional sign, is one or more digits, with a value in the `Int` range |
| Text.ParseIntMeaning | src/main/kotlin/Main.kt:38 | `toInt` accepts exactly an optional sign followed by at least one digit whose signed value fits in an `Int`, and gives that value |
| Text.ParseDecimal | src/main/kotlin/Main.kt:214 | `toInt` reads back every `Int` that `toString` wrote |
| Text.DigitsValueOfNatural | src/main/kotlin/Main.kt:114 | the digits written for a natural number have that number as their value |
| Text.Split | src/main/kotlin/Main.kt:38 | `split` always yields at least one piece, and no piece contains the delimiter |
| Text.JoinSplit | src/main/kotlin/Main.kt:38 | joining the pieces with the delimiter gives back the original line |
| Text.SplitAppend | src/main/kotlin/Main.kt:38 | splitting at one delimiter occurrence splits the two sides independently |
| Text.SplitWhole | src/main/kotlin/Main.kt:50 | a line without the delimiter is one piece |
| Calendar.DaysInMonth | src/main/kotlin/Main.kt:39 | a month has 28 to 31 days |
| Calendar.DaysUntilSign | src/main/kotlin/Main.kt:13 | `daysUntil` is zero exactly on the same day, positive exactly for a later date, negative exactly for an earlier one |
| Calendar.DayNumberOrder | src/main/kotlin/Main.kt:13 | the day count grows with calendar order |
| Calendar.YearStep | src/main/kotlin/Main.kt:13 | consecutive years are one year's length apart |
| Render.Chunks | src/main/kotlin/Main.kt:93-111 | a line wraps to no cell exactly when it is empty, and every cell is 44 wide; `ChunksShape` states the rest |
| Render.ChunksShape | src/main/kotlin/Main.kt:93-111 | wrapping yields ceil(\|s\|/44) cells, each 44 wide, whose concatenation is `s` followed by spaces only |
| Render.FormattedLine | src/main/kotlin/Main.kt:93-111 | the loop yields ceil(\|s\|/44) cells of width 44, which together are `s` padded with spaces; an empty line yields none |
| Render.NextCell | src/main/kotlin/Main.kt:98-107 | one pass of the inner loop takes the first cell and leaves strictly less text |
| Render.WrapAllEmpty | src/main/kotlin/Main.kt:139-141 | content wraps to no cell exactly when every line is empty |
| Render.WrapIsPerLine | src/main/kotlin/Main.kt:139-141 | wrapping each line separately differs from wrapping their concatenation |
| Render.WrapAll | src/main/kotlin/Main.kt:139-141 | every cell of the wrapped content is 44 wide |
| Render.AddZero | src/main/kotlin/Main.kt:113-115 | a natural number gets at least two digits, and a number below ten starts with `0` |
| Render.AddZeroDigits | src/main/kotlin/Main.kt:113-115 | for 0..99 `addZero` writes exactly two digits, which read back as the number |
| Render.DigitCountBelow | src/main/kotlin/Main.kt:117-126 | digit counts of numbers below 10, 100 and 1000 |
| Render.YearField | src/main/kotlin/Main.kt:117-126 | the year column exists exactly when the year is not 0, and is at least 4 characters |
| Render.AddSpaces | src/main/kotlin/Main.kt:117-126 | the loop right-aligns the year in four columns, and fails (division by zero) exactly for year 0 |
| Render.YearFieldWidth | src/main/kotlin/Main.kt:117-126 | for years 1..9999 the year column is 4 characters: (4 - digit count) spaces, then the year |
| Render.GetDate | src/main/kotlin/Main.kt:128-130 | the date column is the padded year, `-`, the two-digit month, `-`, the two-digit day |
| Render.DateField | src/main/kotlin/Main.kt:128-130 | the date column exists exactly when the year is not 0 |
| Render.DateFieldShape | src/main/kotlin/Main.kt:128-130 | a valid date with a four-digit year is 10 characters, with `-` at positions 4 and 7 |
| Render.TimeField | src/main/kotlin/Main.kt:132-134 | no ensures: its body is the definition of the time column; `Render.TimeFieldShape` and `Prompts.TimeRoundTrip` state its properties |
| Render.TimeFieldShape | src/main/kotlin/Main.kt:132-134 | a valid time is always 5 characters with `:` in the middle |
| Render.DueTag | src/main/kotlin/Main.kt:11-19 | the tag is T exactly for zero days left, I exactly for a positive count, O exactly for a negative one |
| Render.DueTagOn | src/main/kotlin/Main.kt:11-19 | the tag is always one of T, I, O; `DueTagMeaning` ties it to the calendar |
| Render.DueTagMeaning | src/main/kotlin/Main.kt:11-19 | the tag is T exactly when due today, I exactly when due later, O exactly when overdue |
| Render.PriorityColor | src/main/kotlin/Main.kt:67-73 | a swatch exactly for the four priority codes, in either case, and "" otherwise |
| Render.PrioritySwatchesDistinct | src/main/kotlin/Main.kt:67-73 | the four codes get four different swatches |
| Render.DueTagColor | src/main/kotlin/Main.kt:75-80 | a swatch exactly for the tags i, t, o, in either case, and "" otherwise |
| Render.DueTagSwatches | src/main/kotlin/Main.kt:75-80 | every due tag has a swatch, and different tags have different ones |
| Render.FirstRowOpens | src/main/kotlin/Main.kt:143 | the numbered row opens with the task's 1-based number in the first column |
| Render.FirstRowEnds | src/main/kotlin/Main.kt:143 | the numbered row ends with the first content cell and the closing bar |
| Render.ContinuationRows | src/main/kotlin/Main.kt:145-146 | one blank-column row per cell, in order |
| Render.TaskBlock | src/main/kotlin/Main.kt:136-149 | a printed block has at least two rows and ends with the rule line; `TaskBlockFaults` and `TaskBlockRows` state the rest |
| Render.TaskBlockFaults | src/main/kotlin/Main.kt:136-149 | a task prints exactly when its year is not 0, its priority is set and some content line is non-empty; otherwise the first failing check names the exception |
| Render.TaskBlockRows | src/main/kotlin/Main.kt:136-149 | a printed block is the numbered row, one continuation row per further cell, then the rule; the numbered row holds, in order, the number `index + 1`, the date column, the time column, the priority swatch, the due-tag swatch and the first cell |
| Prompts.ParseInts | src/main/kotlin/Main.kt:38 | the fields parse together exactly when each one parses, giving each field's value in order |
| Prompts.ParseIntsOf | src/main/kotlin/Main.kt:38 | fields that each parse to `v[i]` parse together to `v` |
| Prompts.ParseIntsAppend | src/main/kotlin/Main.kt:38 | parsing two field lists together is parsing each and concatenating |
| Prompts.ParseDate | src/main/kotlin/Main.kt:36-39 | an accepted date line always gives a valid calendar date |
| Prompts.ParseDateFields | src/main/kotlin/Main.kt:36-39 | a date line is accepted exactly when every `-` field is an `Int`, there are at least three and the first three are a valid date, which is the date stored |
| Prompts.ParseDigitGroups | src/main/kotlin/Main.kt:36-39 | three digit groups joined by `-` are accepted exactly when their values are a valid date, and give that date |
| Prompts.ParseDateLeapDay | src/main/kotlin/Main.kt:36-39 | "2024-02-29" is accepted as that date, and "2024-02-30" is rejected |
| Prompts.ParseTime | src/main/kotlin/Main.kt:48-51 | an accepted time line gives a valid time on the stored date |
| Prompts.ParseTimeFields | src/main/kotlin/Main.kt:48-51 | a time line is accepted exactly when every `:` field is an `Int`, there are at least two and the first two are a valid hour and minute, which are stored on the stored date |
| Prompts.ParseTimeRejectsHour24 | src/main/kotlin/Main.kt:48-51 | "24:00" is rejected, whatever the date |
| Prompts.DateRoundTrip | src/main/kotlin/Main.kt:128-130 | the date column of a year from 1000 on, typed back at the date prompt, gives the same date |
| Prompts.DateTextFields | src/main/kotlin/Main.kt:128-130 | for a year from 1000 on, the date column splits on `-` into the year, month and day digits |
| Prompts.DateFieldText | src/main/kotlin/Main.kt:129 | for a year from 1000 on, the date column is three digit groups separated by `-` |
| Prompts.ShortYearRejected | src/main/kotlin/Main.kt:117-130 | the date column of a year from 1 to 999 starts with a padding space, so the date prompt rejects it |
| Prompts.DigitGroups | src/main/kotlin/Main.kt:38 | three digit groups joined by a separator split back into the same groups |
| Prompts.TimeRoundTrip | src/main/kotlin/Main.kt:132-134 | the time column, typed back at the time prompt, gives the same hour and minute on the same date |
| Prompts.DateExtraFields | src/main/kotlin/Main.kt:38 | fields after the third are ignored when they are integers, and reject the line otherwise |
| Prompts.PriorityReply | src/main/kotlin/Main.kt:21-32 | the priority prompt changes only the priority, and running out of input changes nothing |
| Prompts.FirstPriority | src/main/kotlin/Main.kt:24-29 | the position of the first line whose lower case is a priority code |
| Prompts.PriorityReplyStoresFirstLine | src/main/kotlin/Main.kt:21-32 | the prompt ends at the first valid code but stores the lower case of the FIRST line, printing one prompt per line read |
| Prompts.PriorityKeepsInvalidLine | src/main/kotlin/Main.kt:31 | after "x" then "h" the stored priority is "x", which has no swatch |
| Prompts.DateReply | src/main/kotlin/Main.kt:34-44 | the date prompt changes only the due date and time, and a finished one leaves them valid |
| Prompts.DateReplyStep | src/main/kotlin/Main.kt:40-43 | proof helper, one unfolding of the definition: a rejected line costs one prompt and one "invalid date" |
| Prompts.DateReplySkips | src/main/kotlin/Main.kt:40-43 | k rejected lines cost k rounds of prompt and "invalid date" |
| Prompts.FirstDate | src/main/kotlin/Main.kt:37-39 | the position of the first valid date line |
| Prompts.DateReplyFirstValid | src/main/kotlin/Main.kt:34-44 | the prompt takes the first valid date line, rejects all earlier ones, and sets that date at 00:00 |
| Prompts.TimeReply | src/main/kotlin/Main.kt:46-57 | the time prompt changes only hour and minute and keeps the date |
| Prompts.TimeReplyStep | src/main/kotlin/Main.kt:53-56 | proof helper, one unfolding of the definition: a rejected line costs one prompt and one "invalid time" |
| Prompts.TimeReplySkips | src/main/kotlin/Main.kt:53-56 | k rejected lines cost k rounds of prompt and "invalid time" |
| Prompts.FirstTime | src/main/kotlin/Main.kt:49-51 | the position of the first valid time line |
| Prompts.TimeReplyFirstValid | src/main/kotlin/Main.kt:46-57 | the prompt takes the first valid time line, rejects all earlier ones, and keeps year, month and day |
| Prompts.ContentReply | src/main/kotlin/Main.kt:82-91 | the content prompt changes only the content |
| Prompts.FirstBlank | src/main/kotlin/Main.kt:84 | the position of the first blank line |
| Prompts.ContentReplyLines | src/main/kotlin/Main.kt:82-91 | the prompt appends the lines before the first blank one, in order, and prints "The task is blank" only when the content is still empty |
| Prompts.NonContentReply | src/main/kotlin/Main.kt:59-63 | priority, date and time together leave the content alone and the due date and time valid |
| Prompts.DateTimeReply | src/main/kotlin/Main.kt:34-57 | the date prompt, then the time prompt on the lines after it, change only the due date and time, and a finished pair leaves them valid |
| Prompts.DateTimeFirstValid | src/main/kotlin/Main.kt:34-57 | with `kd` the first valid date line: nothing finishes without one; otherwise the time prompt takes the first line after it that is a valid time on that date, finishing exactly when there is one, and stores that date and time, having read `kd + kt + 2` lines and printed `kd` date retries, the date prompt, `kt` time retries and the time prompt |
| Prompts.NonContentFirstValid | src/main/kotlin/Main.kt:59-63 | priority, then date, then time: nothing finishes without a priority code; otherwise the date and time prompts run on the lines after the first code, on the task whose priority is the lower case of the FIRST line, and decide what is stored, how many lines are read and what follows the priority prompts printed |
| Prompts.ReadDateTime | src/main/kotlin/Main.kt:34-57 | an independent statement of which due date and time the two prompts settle on, and after how many lines |
| Prompts.DateTimeReads | src/main/kotlin/Main.kt:34-57 | the date and time prompts finish exactly when `ReadDateTime` finds a date and time, and then store exactly that and read exactly that many lines |
| Prompts.EditReply | src/main/kotlin/Main.kt:152-182 | an edit keeps the due date and time valid; `EditReplyNamesField` says which field each name changes |
| Prompts.EditReplyStep | src/main/kotlin/Main.kt:177-180 | proof helper, one unfolding of the definition: an unknown field name costs one prompt and one "Invalid field" |
| Prompts.EditReplySkips | src/main/kotlin/Main.kt:177-180 | k unknown field names cost k such rounds |
| Prompts.FirstField | src/main/kotlin/Main.kt:153-181 | the position of the first line that names a field |
| Prompts.EditReplyNamesField | src/main/kotlin/Main.kt:152-182 | every line before the first field name costs a prompt and "Invalid field"; then "priority" runs only the priority prompt, "date" only the date prompt, "time" only the time prompt, and "task" the content prompt on emptied content, each confirmed by "The task is changed" when it finishes; without a field name the task is unchanged |
| Prompts.Edited | src/main/kotlin/Main.kt:155-175 | a field update keeps what was printed before it, and a finished one ends with "The task is changed" |
| Prompts.EditReplyOneField | src/main/kotlin/Main.kt:152-182 | an edit changes at most one of content, priority and due date/time, and a finished edit ends with "The task is changed" |
| Prompts.EditCanEmptyContent | src/main/kotlin/Main.kt:170-174 | editing "task" with a blank line leaves the task with no content |
| Prompts.RetriedOnce | src/main/kotlin/Main.kt:42 | one more rejected line is one more round of retry output |
| Prompts.RepeatSplit | src/main/kotlin/Main.kt:42 | repeated retry output can be split at either end |
| Tasks.Task.constructor | src/main/kotlin/Main.kt:6-9 | a new task has no content, no priority and is due now |
| Tasks.Task.SetPriority | src/main/kotlin/Main.kt:21-32 | the task and the lines read and printed are those `PriorityReply` describes |
| Tasks.Task.SetDate | src/main/kotlin/Main.kt:34-44 | the task and the lines read and printed are those `DateReply` describes |
| Tasks.Task.SetTime | src/main/kotlin/Main.kt:46-57 | the task and the lines read and printed are those `TimeReply` describes |
| Tasks.Task.SetNonContentData | src/main/kotlin/Main.kt:59-63 | the task and the lines read and printed are those `NonContentReply` describes |
| Tasks.Task.SetContentData | src/main/kotlin/Main.kt:82-91 | the task and the lines read and printed are those `ContentReply` describes |
| Tasks.Task.EditTask | src/main/kotlin/Main.kt:152-182 | the task and the lines read and printed are those `EditReply` describes |
| Tasks.Task.PrintTask | src/main/kotlin/Main.kt:136-149 | the printed rows, or the exception, are those `TaskBlock` describes |
| Tasks.WrapContent | src/main/kotlin/Main.kt:137-141 | the cells are every content line's wrapping, in order |
| Tasks.ContinuationBlock | src/main/kotlin/Main.kt:145-146 | one continuation row for each cell after the first |
| Tasks.ContinuationRowsAppend | src/main/kotlin/Main.kt:145-146 | one more cell adds one more row at the end |
| TaskLists.NewTaskReply | src/main/kotlin/Main.kt:191-194 | the new task's due date and time stay valid through its prompts |
| TaskLists.AddReply | src/main/kotlin/Main.kt:190-197 | adding keeps every due date valid |
| TaskLists.NewTaskOrder | src/main/kotlin/Main.kt:190-194 | a new task reads its priority, then its date and time from the lines after the first priority code, then its content from the lines after the time, and finishes exactly when all of them do |
| TaskLists.DateTimeThenContent | src/main/kotlin/Main.kt:192-194 | a finished new task holds the due date and time `ReadDateTime` finds and, as content, the lines after the time up to the first blank one |
| TaskLists.PrioritySet | src/main/kotlin/Main.kt:31 | a finished priority prompt always stores a priority |
| TaskLists.ContentNonBlank | src/main/kotlin/Main.kt:84-89 | the content prompt stores only non-blank lines |
| TaskLists.AddedTaskKept | src/main/kotlin/Main.kt:191-194 | a task that finished its prompts has a priority, a valid due date and time, and non-blank lines |
| TaskLists.AddKeeps | src/main/kotlin/Main.kt:190-197 | adding leaves the list unchanged or appends exactly one task with content at the end, and keeps the invariant |
| TaskLists.AddAppendsTypedTask | src/main/kotlin/Main.kt:190-197 | adding appends exactly when the priority, date and time prompts finish and a blank line ends at least one content line; the task appended holds what those prompts stored and the lines before the blank one; otherwise the list is unchanged |
| TaskLists.AddBlankTask | src/main/kotlin/Main.kt:84-86 | a blank first content line adds nothing, and "The task is blank" is printed last |
| TaskLists.Decrement32 | src/main/kotlin/Main.kt:214 | `v - 1` on an `Int` wraps from the smallest value to the largest |
| TaskLists.ListIndex | src/main/kotlin/Main.kt:212-214 | a line names a position only inside the list |
| TaskLists.PositionOf | src/main/kotlin/Main.kt:214 | `toInt() - 1` names a position only inside the list |
| TaskLists.PositionMeaning | src/main/kotlin/Main.kt:214 | in a list no longer than the `Int` range, the parsed number `i + 1` and only it names position `i`; the wrap-around of the smallest `Int` names nothing |
| TaskLists.ListIndexMeaning | src/main/kotlin/Main.kt:212-214 | a line names position `i` exactly when it reads as the number `i + 1` of a task in the list |
| TaskLists.ListIndexOfNumber | src/main/kotlin/Main.kt:211-214 | the number `i + 1`, as `toString` writes it, typed back names position `i` |
| TaskLists.RowNumberNamesTask | src/main/kotlin/Main.kt:143 | the listing row where task `i`'s block starts, right after the header and the blocks before it, opens with the digits of `i + 1`, and those digits typed back at the task number prompt name task `i` |
| TaskLists.BlockNumberNamesTask | src/main/kotlin/Main.kt:143 | the first row of task `i`'s block opens with the digits of `i + 1`, and those digits typed back name position `i` |
| TaskLists.FirstIndex | src/main/kotlin/Main.kt:212-214 | the position of the first line that names a task |
| TaskLists.DeleteReply | src/main/kotlin/Main.kt:210-220 | deleting keeps every due date valid and the invariant of the tasks left |
| TaskLists.DeleteReplyStep | src/main/kotlin/Main.kt:216-219 | proof helper, one unfolding of the definition: a line naming no task costs one prompt and one "Invalid task number" |
| TaskLists.DeleteReplyFound | src/main/kotlin/Main.kt:213-215 | proof helper, one unfolding of the definition: a line naming a task removes exactly that task and prints "The task is deleted" |
| TaskLists.DeleteKeeps | src/main/kotlin/Main.kt:214 | removing one task keeps the invariant of the others |
| TaskLists.DeleteReplySkips | src/main/kotlin/Main.kt:216-219 | k lines naming no task cost k such rounds |
| TaskLists.DeleteReplyAt | src/main/kotlin/Main.kt:210-220 | when line `k` is the first to name a task, deleting removes exactly that task after `k` retries, having read `k + 1` lines |
| TaskLists.DeleteRemovesNamedTask | src/main/kotlin/Main.kt:210-220 | deleting finishes exactly when some line names a task, removes exactly that task keeping the others in order, and otherwise changes nothing |
| TaskLists.EditListReply | src/main/kotlin/Main.kt:222-231 | editing keeps the list's length and every due date valid |
| TaskLists.EditListReplyFound | src/main/kotlin/Main.kt:225-226 | proof helper, one unfolding of the definition: a line naming a task edits exactly that task; an edit cut short by the end of input is reported as an invalid number |
| TaskLists.EditListReplyStep | src/main/kotlin/Main.kt:227-230 | proof helper, one unfolding of the definition: a line naming no task costs one prompt and one "Invalid task number" |
| TaskLists.EditListReplySkips | src/main/kotlin/Main.kt:227-230 | k lines naming no task cost k rounds of prompt and "Invalid task number" |
| TaskLists.EditListReplyAt | src/main/kotlin/Main.kt:222-231 | when line `k` is the first to name a task, editing changes exactly that task, as `EditReply` on the lines after it, after `k` retries |
| TaskLists.EditChangesNamedTask | src/main/kotlin/Main.kt:222-231 | with `k` the first line naming a task: without one the list is unchanged and only prompts and rejections are printed; otherwise exactly the named task is edited with the lines after it, every other task is kept, and the lines read and printed are the `k` retries followed by the edit's |
| TaskLists.EditNoTaskNamed | src/main/kotlin/Main.kt:227-230 | when no line names a task, the list is unchanged and every line read costs a prompt and "Invalid task number" |
| TaskLists.EditKeeps | src/main/kotlin/Main.kt:152-182 | editing keeps a task's priority set, its due date and time valid, and its lines non-blank |
| TaskLists.EditListKeeps | src/main/kotlin/Main.kt:222-231 | editing changes at most one task and keeps the invariant of all |
| TaskLists.Blocks | src/main/kotlin/Main.kt:206-207 | without an exception, every task prints at least two rows; `BlocksNext` and `BlocksShowTask` say which rows belong to which task |
| TaskLists.Listing | src/main/kotlin/Main.kt:199-208 | the listing always starts with the three header lines; `ListingShowsTask` places each task's block after them, in list order |
| TaskLists.BlocksFaultSticks | src/main/kotlin/Main.kt:206-207 | once one task's block throws, the later tasks print nothing |
| TaskLists.BlocksNext | src/main/kotlin/Main.kt:206-207 | when the first `n + 1` tasks print, their rows are those of the first `n` followed by the block of task `n`, numbered `n + 1` |
| TaskLists.BlocksPrefix | src/main/kotlin/Main.kt:206-207 | what the first tasks print is a prefix of what the whole list prints |
| TaskLists.BlocksShowTask | src/main/kotlin/Main.kt:206-207 | when the first `i + 1` tasks print, task `i`'s block appears right after the blocks of the tasks before it |
| TaskLists.ListingShowsTask | src/main/kotlin/Main.kt:199-208 | when the first `i + 1` tasks print, the listing shows task `i`'s block right after the header and the blocks before it |
| TaskLists.BlocksStep | src/main/kotlin/Main.kt:206-207 | one pass of the printing loop appends task `i`'s block, or, when it throws, the listing ends there with that exception |
| TaskLists.ListingOfAll | src/main/kotlin/Main.kt:199-208 | after the loop over every task the listing is the header followed by their blocks |
| TaskLists.BlockPrints | src/main/kotlin/Main.kt:136-149 | a task that keeps the invariant prints exactly when its year is not 0 and it has content |
| TaskLists.ListingStep | src/main/kotlin/Main.kt:206-207 | proof helper, one unfolding of the definition: the list prints in full exactly when all but its last task do and the last one's block does |
| TaskLists.PrintableSplit | src/main/kotlin/Main.kt:206-207 | every task is printable exactly when all but the last are and the last is |
| TaskLists.ListingFaults | src/main/kotlin/Main.kt:199-208 | a list that keeps the invariant prints in full exactly when no task is due in year 0 and none has empty content |
| TaskLists.ListingKeepsPriority | src/main/kotlin/Main.kt:199-208 | a list whose tasks keep the invariant never throws for an unset priority |
| TaskLists.EmptiedTaskBreaksListing | src/main/kotlin/Main.kt:170-174 | editing a task's content to nothing keeps it in the list, and printing then throws at `newTaskContent[0]` |
| TaskLists.StatesOf | src/main/kotlin/Main.kt:188 | one value per task object, in list order |
| TaskLists.StatesOfAppend | src/main/kotlin/Main.kt:196 | proof helper, one unfolding of the definition: appending an object appends its value |
| TaskLists.StatesOfRemove | src/main/kotlin/Main.kt:214 | removing an object removes its value |
| TaskLists.NewTask | src/main/kotlin/Main.kt:191-194 | a fresh task, and the lines read and printed, as `NewTaskReply` describes |
| TaskLists.TaskList.constructor | src/main/kotlin/Main.kt:188 | the list starts empty |
| TaskLists.TaskList.AddTask | src/main/kotlin/Main.kt:190-197 | the list and the lines read and printed are those `AddReply` describes, and the invariant holds |
| TaskLists.TaskList.Append | src/main/kotlin/Main.kt:196 | the task joins the end of the list, and nothing else changes |
| TaskLists.TaskList.DeleteTask | src/main/kotlin/Main.kt:210-220 | the list and the lines read and printed are those `DeleteReply` describes |
| TaskLists.TaskList.RemoveAt | src/main/kotlin/Main.kt:214 | exactly the task at `i` is removed, and the others keep their order |
| TaskLists.TaskList.EditTask | src/main/kotlin/Main.kt:222-231 | the list and the lines read and printed are those `EditListReply` describes |
| TaskLists.TaskList.EditAt | src/main/kotlin/Main.kt:226 | only task `i` changes, as `EditReply` describes |
| TaskLists.TaskList.PrintTasks | src/main/kotlin/Main.kt:199-208 | the header and the blocks printed, and the exception if any, are those `Listing` describes |
| Session.Action | src/main/kotlin/Main.kt:239-251 | one action reads at most the input, reads at least the action line unless the program stops, and keeps due dates valid |
| Session.ListAction | src/main/kotlin/Main.kt:253-280 | print, delete or edit on a non-empty list reads at most the input and keeps due dates valid |
| Session.ListActionCases | src/main/kotlin/Main.kt:253-280 | proof helper, one unfolding of the definition: the table is printed first; a throw or `print` stops there, otherwise delete or edit follows |
| Session.Runs | src/main/kotlin/Main.kt:288-292 | the loop of actions ends only by exit, end of input or an exception, after reading at most the input |
| Session.Follow | src/main/kotlin/Main.kt:288-292 | after a running action the loop goes on from the next unread line |
| Session.ActionKeeps | src/main/kotlin/Main.kt:239-251 | every action keeps the invariant of every task, and never throws for an unset priority |
| Session.RunsKeep | src/main/kotlin/Main.kt:288-292 | a whole run keeps the invariant of every task, and can end with an exception only for year 0 or empty content |
| Session.FollowKeeps | src/main/kotlin/Main.kt:288-292 | the rest of a run keeps the invariant of every task, and never ends for an unset priority |
| Session.RunsExtend | src/main/kotlin/Main.kt:288-292 | a run's output starts with what was printed before it |
| Session.FollowExtends | src/main/kotlin/Main.kt:288-292 | the rest of a run only appends output |
| Session.RunsStep | src/main/kotlin/Main.kt:289-290 | proof helper, one unfolding of the definition: a run is its first action followed by the rest |
| Session.FollowRuns | src/main/kotlin/Main.kt:289-290 | proof helper, one unfolding of the definition: after an action that keeps the program running, the run restarts at the next line |
| Session.EndExits | src/main/kotlin/Main.kt:282-285 | `end` prints "Tasklist exiting!" and exits with code 1, whatever input follows |
| Session.PrintCrashes | src/main/kotlin/Main.kt:275-280 | `print` ends the program exactly when some task is due in year 0 or has no content |
| Session.UnknownAction | src/main/kotlin/Main.kt:247-249 | an unknown action changes nothing and only says so |
| Session.EmptyListActions | src/main/kotlin/Main.kt:253-280 | `print`, `edit` and `delete` on an empty list print only "No tasks have been input" |
| Session.ActionRoutes | src/main/kotlin/Main.kt:239-251 | `add` adds a task from the lines after the action; `print`, `edit` and `delete` on a list that is not empty go to the list action |
| Session.Process.constructor | src/main/kotlin/Main.kt:236-237 | the process starts with an empty list |
| Session.Process.Start | src/main/kotlin/Main.kt:239-251 | the list, status and lines read and printed are those `Action` describes |
| Session.Process.ListStart | src/main/kotlin/Main.kt:253-280 | the list, status and lines read and printed are those `ListAction` describes |
| Session.Process.ChangeList | src/main/kotlin/Main.kt:253-269 | the list, status and lines read and printed are those `DeleteReply` or `EditListReply` describes, after what was printed before |
| Session.Process.Run | src/main/kotlin/Main.kt:288-292 | the loop's final list, status, lines read and output are those `Runs` describes, and the invariant holds |

## Left out

- Console I/O is not modelled directly. `readln` input is a sequence of lines, and `println` output is a sequence of strings.
- The table header, printed by one `println` with two embedded newlines, appears as three output lines.
- The clock is not modelled. `Clock.System.now()` in UTC+0 is a `now` parameter, fixed for a whole run. The program reads it again for every new task and every due tag.
- kotlinx-datetime is a library outside this model. `LocalDateTime` validity is the proleptic Gregorian calendar with the year range of `java.time`.
- Calendar.DaysUntil: kotlinx-datetime clamps the day difference to an `Int`. The model does not, because clamping never changes the sign, and only the sign reaches the due tag.
- Render.Chunks: counts Unicode code points. Kotlin's `formattedLine` counts UTF-16 units, so a line with characters outside the Basic Multilingual Plane wraps and pads differently, and Kotlin can split a surrogate pair between two cells.
- Render.FormattedLine: 44 code points per cell, not 44 UTF-16 units, for the reason given for `Render.Chunks`.
- Render.NextCell: takes 44 code points, not 44 UTF-16 units, for the reason given for `Render.Chunks`.
- Render.ChunksShape: the cell count ceil(|s|/44) uses the length in code points, not in UTF-16 units, for the reason given for `Render.Chunks`.
- Text.ParseInt: accepts only ASCII digits. Kotlin's `toInt` also accepts other Unicode decimal digits.
- Text.Lowercase: changes only the ASCII letters A to Z. Kotlin's `lowercase()` also lower-cases letters outside ASCII.
- Deep recursion of the Kotlin retries can overflow the stack on very long invalid input. The model has no stack limit.
- `exitProcess(1)` is not executed. It becomes the final status `Exited(1)`, after which no more input is read.
- The ANSI colour swatches are plain strings. Terminal rendering is not modelled.
