# Duke task manager, modelled in Dafny

Duke is a console chatbot that keeps a list of tasks: to-dos, deadlines and events. The user types one command per line, and the first word selects the command:

- `bye` ends the chat.
- `list` shows the numbered list.
- `done <n>` marks task n done.
- `delete <n>` removes task n.
- `todo <text>` adds a to-do.
- `deadline <text> /by <date>` adds a deadline.
- `event <text> /at <date>` adds an event.

A line whose first word is anything else shows the help.

This project models the following parts:

- **The monolithic interpreter (`Duke.java`).** It strips each line and takes the lower-cased first word as the keyword. Payloads are cut out at fixed offsets (keyword length + 1) and by splitting on the separators ` /by ` and ` /at `. Each exception kind gets its own error message. The task list is a list mutated in place.
- **The keyword classifier `Parser.parseChat`.** It exists twice with identical logic, once in the default package and once in `duke.command`. One function models both.
- **The constant table `Keyword`.** It holds each keyword's text, separator, save code and `length()`.
- **`Events`.** Its two constructors, its display line and its saved line.
- **`DoneCommand`.** How it extracts the payload, parses it and tells the two error kinds apart.

Modules:

- `Lang`: `Option`, and `Try`, which stands for a value or one of the three exception kinds the interpreter catches.
- `Strings`: the `java.lang.String` operations used: `strip`, ASCII `toLowerCase`/`toUpperCase`, `substring`, and `split` on a literal separator that drops trailing empty pieces.
- `Integers`: 32-bit `Integer.parseInt` and `Integer.toString`.
- `Keywords`: the enum table.
- `Tasks`: the `Task` entity, as its callers rely on it.
- `Events`: the `Events` class.
- `CommandParser`: `parseChat`.
- `Interpreter`: one pass of the chat loop, as a function of the task list and the line. `InterpreterFacts` holds the properties of that step.
- `Sessions`: the loop over a sequence of lines.
- `DukeApp`: the class `Duke`. Its `taskList` is a `seq<Task>` field that its methods change. `MarkDone`, `DeleteTask`, `Handle` and `Chat` are proved equal to the matching step or run function. The add methods and `ListTask` state the new list or the listing outright.
- `TaskLists` and `DoneCommands`: the packaged `DoneCommand` and the task list it mutates.

Date/time parsing happens inside the `Task` constructors, which have no source here. It is a parameter `parses: string -> bool`: a date is accepted exactly when `parses` holds of it. Console input is a sequence of lines and console output is a sequence of `Reply` values. A `Reply` says which message is shown, not its text.

## Model

| member | source | states |
|---|---|---|
| Strings.Strip | src/main/java/Duke.java:38 | `strip()` leaves no leading or trailing whitespace, never lengthens the line, and leaves an already stripped line unchanged |
| Strings.StripRemovesEdges | src/main/java/Duke.java:38 | `strip()` keeps one contiguous slice of the line; everything cut off before it and after it is whitespace |
| Strings.CaseMapping | src/main/java/Duke.java:39 | `Lower` and `Upper` keep the length; `Lower` leaves no upper-case ASCII letter and `Upper` no lower-case one; each changes a character exactly when it is a letter of the other case |
| Strings.Substring | src/main/java/Duke.java:47 | `substring(from)` succeeds exactly when `from <= length`, and then the line is the prefix followed by the result; otherwise it is IndexOutOfBounds |
| Strings.Split | src/main/java/Duke.java:55 | a line without the separator splits into itself alone; no piece contains the separator; when the separator occurs, a non-empty result never ends in an empty piece |
| Strings.SplitJoinsBack | src/main/java/Duke.java:55 | the pieces, with the trailing empty pieces that split dropped put back, join with the separator into the line again |
| Strings.PiecesAfterHead | src/main/java/Duke.java:55 | when no match of the separator starts inside the head, splitting head, separator, rest gives the head, then the pieces of the rest |
| Strings.SplitOfJoin | src/main/java/Events.java:41-42 | splitting fields joined by a separator gives the fields back, when no field holds the separator's second character and the last field is not empty |
| Strings.SpaceSplitHead | src/main/java/Duke.java:39 | `split(" ")` is empty exactly for a non-empty all-space line; otherwise its first element is the text before the first space |
| Strings.FirstToken | src/main/java/duke/command/Parser.java:23 | `split(" ")[0]` is missing exactly for a non-empty all-space line, and is otherwise the text before the first space |
| Strings.UpperTakeUntilSpace | src/main/java/duke/command/Parser.java:23 | the first word of an upper-cased line is the upper-cased first word |
| Strings.LowerOfUpper | src/main/java/duke/command/Parser.java:23 | lower-casing forgets the letter case of the input |
| Integers.ParseInt | src/main/java/Duke.java:47 | `parseInt` succeeds exactly when the text after an optional sign is a non-empty run of decimal digits whose signed value fits in 32 bits, and then yields that signed value; otherwise it is NumberFormat; a text holding a space is never accepted |
| Integers.ParseIntLeadingZero | src/main/java/Duke.java:47 | a leading zero does not change the parsed value |
| Integers.ParseIntPlusSign | src/main/java/Duke.java:47 | a leading '+' does not change the parsed value |
| Integers.IntToString | src/main/java/Duke.java:146 | the decimal text of a number is never empty and ends in a digit |
| Integers.ParseIntOfString | src/main/java/Duke.java:47 | parsing the decimal text of any 32-bit int gives that int back |
| Integers.ParseIntOverflow | src/main/java/Duke.java:47-48 | a decimal above 2^31 - 1 is a NumberFormat, not a value |
| Keywords.Text | src/main/java/duke/task/Keyword.java:12-24 | every keyword text is a non-empty word of lower-case letters |
| Keywords.FromText | src/main/java/Duke.java:41-82 | the if-chain finds the keyword whose text equals the word, and finds none exactly when no keyword has that text |
| Keywords.SevenDistinctKeywords | src/main/java/duke/task/Keyword.java:12-24 | there are exactly seven keywords, every keyword is among them, and their texts are pairwise distinct |
| Keywords.TextInjective | src/main/java/duke/task/Keyword.java:12-24 | two keywords with the same text are the same keyword |
| Keywords.TextIsLowerWord | src/main/java/duke/task/Keyword.java:12-24 | keyword texts are already lower case, hold no space, and neither start nor end with whitespace |
| Keywords.FromTextOfText | src/main/java/duke/task/Keyword.java:66-68 | looking up a keyword's own text gives that keyword |
| Keywords.TaskKeywordTable | src/main/java/duke/task/Keyword.java:18-22 | `Separator` and `SaveWord`: deadline has ` /by ` and D, event has ` /at ` and E, todo has the empty separator and T, and the three save codes are pairwise distinct |
| Keywords.PlainKeywordsHaveNoCodes | src/main/java/duke/task/Keyword.java:38-42 | bye, list, done and delete have the empty separator and the empty save code |
| Keywords.PayloadOffsets | src/main/java/duke/task/Keyword.java:62-64 | `Length`, i.e. `length()`, plus one is 5 for done and todo, 7 for delete, 9 for deadline and 6 for event |
| Tasks.NewDated | src/main/java/Events.java:18-31 | the dated constructor succeeds exactly when the date parses, carrying kind, description, done flag and date unchanged; otherwise it is DateParse |
| Tasks.DoneFlag | src/main/java/Events.java:41-42 | the done field is "1" exactly when done, and "0" exactly when not done |
| Tasks.MarkDoneTwice | src/main/java/Duke.java:160-164 | `Tasks.MarkDone`, i.e. `markDone`, sets the flag and answers whether it was clear; marking again answers false and changes nothing |
| Events.New | src/main/java/Events.java:18-20 | `Events(task, dateTime)` is a not-done event with exactly those texts when the date parses, and DateParse otherwise |
| Events.NewWithDone | src/main/java/Events.java:29-31 | `Events(task, dateTime, done)` carries the given done flag, and propagates the date failure the same way |
| Events.ToStringShape | src/main/java/Events.java:46-48 | `Events.ToString`: the display line is "[E][", the status mark (X exactly when done), "] ", the description, then " (at: <dateTime>)" |
| Events.SaveOutputFields | src/main/java/Events.java:40-43 | `Events.SaveOutput`, as written: when neither text holds '\|' and the date is not empty, the saved line splits into exactly four fields: "D", description, done flag, date; the third is "1" exactly when done |
| Events.SavedEventReadsAsDeadline | src/main/java/Events.java:36-41 | as written, the first field of every saved event is the deadline's save code, and never the events code |
| Events.SaveOutputCorrectedFields | src/main/java/Events.java:36-43 | `Events.SaveOutputCorrected`: the first field is the events code E, which is not the deadline's; with plain texts the line splits into "E", description, done flag, date |
| CommandParser.ParseChat | src/main/java/duke/command/Parser.java:22-41 | only a blank line has no first token; the line is not parsable exactly when its lower-cased first word is no keyword, with "Command not parsable"; it exits exactly when that word is bye; commands carry the whole line |
| CommandParser.Classify | src/main/java/Parser.java:16-35 | the if-chain on the word: not parsable exactly when no keyword matches, exit exactly for bye, commands built from the whole message, never a missing token |
| CommandParser.ParseDependsOnlyOnWord | src/main/java/duke/command/Parser.java:23 | two non-blank lines with the same lower-cased first word get the same kind of outcome, whatever their payloads |
| CommandParser.ParseByKeyword | src/test/java/duke/command/ParserTest.java:16-62 | a keyword in any letter case, alone or followed by a space and any payload, gives that keyword's command built from the whole line |
| CommandParser.ParseCaseInsensitive | src/test/java/duke/command/ParserTest.java:66-115 | upper-casing a line does not change the kind of outcome |
| CommandParser.DistinctCommandKinds | src/main/java/duke/command/Parser.java:27-38 | different keywords give different kinds of command |
| CommandParser.ParseLeadingSpace | src/main/java/duke/command/Parser.java:23 | a line starting with a space that is not all spaces has an empty first word and is not parsable |
| CommandParser.ParseUnknownWord | src/test/java/duke/command/ParserTest.java:118-124 | a first word that is no keyword in any letter case makes the line not parsable with "Command not parsable" |
| Interpreter.CommandWord | src/main/java/Duke.java:39 | on a stripped line the keyword word has no space, is the lower-cased text before the first space, and is followed by a space when shorter than the line |
| Interpreter.IntArgument | src/main/java/Duke.java:47 | the argument throws IndexOutOfBounds exactly when the line is shorter than the offset; otherwise it is `parseInt` of the text from the offset, untrimmed |
| Interpreter.DatedArgument | src/main/java/Duke.java:55-56 | the parts exist exactly when the split has two parts and part 0 reaches the offset; they are part 0 from the offset and part 1; without the separator it is IndexOutOfBounds |
| Interpreter.Add | src/main/java/Duke.java:92-96 | adding grows the list by one, keeps every earlier task, puts the task last and reports the new size |
| Interpreter.MarkStep | src/main/java/Duke.java:158-164 | out of range the list is unchanged with the index error; otherwise exactly task n - 1 is marked done and its earlier flag picks the message |
| Interpreter.RemoveStep | src/main/java/Duke.java:172-176 | out of range the list is unchanged with the index error; otherwise task n - 1 is removed and shown with the new size |
| Interpreter.DoneStep | src/main/java/Duke.java:45-52 | a format exception gives the done format error, an index exception gives the done index error, both with the list unchanged; a parsed number is `markDone(n)` |
| Interpreter.DeleteStep | src/main/java/Duke.java:73-80 | the same three cases for delete, with `deleteTask(n)` |
| Interpreter.TodoStep | src/main/java/Duke.java:67-72 | a line shorter than the offset gives the todo format error with no change; otherwise it adds a to-do holding the text from offset 5 |
| Interpreter.DatedStep | src/main/java/Duke.java:53-66 | missing parts give the command's format error; a refused date gives the date error; both leave the list unchanged; otherwise the dated task is appended, not done |
| Interpreter.Step | src/main/java/Duke.java:37-83 | the loop ends exactly when the stripped line's keyword is bye, with the farewell and no change; an unknown keyword shows the help and changes nothing; every reply accounts for the change of the list |
| Interpreter.Dispatch | src/main/java/Duke.java:41-80 | a known keyword never shows the help, ends the loop exactly for bye, and every branch accounts for the change of the list |
| Interpreter.ListLines | src/main/java/Duke.java:139-150 | an empty list gives the single "You have no task." line; otherwise one line per task in order, line i (`ListLine`) being the number i + 1, ". " and the task's display line |
| Interpreter.TaskString | src/main/java/Events.java:46-48 | a task's display line is "[", its kind letter (E, D or T), "][", X exactly when done, "] ", the description, and then " (at: <dateTime>)" for an event, " (by: <dateTime>)" for a deadline and nothing for a to-do |
| InterpreterFacts.WordOfLine | src/main/java/Duke.java:39 | a word without spaces followed by a space is the keyword, lower-cased |
| InterpreterFacts.WordOfBareLine | src/main/java/Duke.java:39 | a stripped line without spaces is its own keyword, lower-cased |
| InterpreterFacts.StepByKeyword | src/main/java/Duke.java:38-80 | a line whose keyword is k runs the branch of k on the stripped line |
| InterpreterFacts.StepOnKeywordLine | src/main/java/Duke.java:41-80 | a stripped line whose first word is k's text runs k's branch on itself |
| InterpreterFacts.KeywordWordHasNoSpace | src/main/java/Duke.java:39 | a word that lower-cases to a keyword holds no space |
| InterpreterFacts.PayloadAfterKeyword | src/main/java/Duke.java:47 | a word spelling a keyword in any case has length `length()`, so the payload starts at offset `length() + 1` |
| InterpreterFacts.KeywordPayloadLine | src/main/java/Duke.java:39-47 | on "<word> <payload>" with the word spelling k, the keyword is k and the text from offset `length() + 1` is the payload |
| InterpreterFacts.NumberLine | src/main/java/Duke.java:47 | "<keyword> <n>" for a 32-bit n is stripped, has keyword k and int argument n |
| InterpreterFacts.KeywordNumberLine | src/main/java/Duke.java:38 | a keyword, a space and the decimal text of any int make a line that is already stripped |
| InterpreterFacts.InterpreterAgreesWithParser | src/main/java/duke/command/Parser.java:22-41 | on a stripped line the parser always finds a first word, the same as the interpreter's; it is not parsable exactly when the interpreter shows the help, and exits exactly when the interpreter ends |
| InterpreterFacts.StepIntCommandLine | src/main/java/Duke.java:45-80 | on a stripped done or delete line whose argument parses to n, the step is `markDone(n)` or `deleteTask(n)` |
| InterpreterFacts.StepDoneAt | src/main/java/Duke.java:45-52 | "done <n>" for any 32-bit n is `markDone(n)`, the number forwarded 1-based |
| InterpreterFacts.StepDeleteAt | src/main/java/Duke.java:73-80 | "delete <n>" for any 32-bit n is `deleteTask(n)` |
| InterpreterFacts.MarkStepTouchesOne | src/main/java/Duke.java:158-164 | marking touches only task n - 1, which keeps its kind, description and date and becomes done; "marked done" is shown exactly when it was not done |
| InterpreterFacts.MarkStepMarksIndex | src/main/java/Duke.java:159-160 | marking number i + 1 marks the task at position i and no other |
| InterpreterFacts.MarkStepTwice | src/main/java/Duke.java:160-164 | marking the same task again reports "already done" and changes nothing |
| InterpreterFacts.RemoveStepShifts | src/main/java/Duke.java:172-173 | deleting n keeps the tasks before position n - 1, moves every later task down one, shrinks the list by one and shows the removed task |
| InterpreterFacts.StepIntCommandBare | src/main/java/Duke.java:45-52 | a bare done or delete, in any case, gives the index error, not the format error, with no change |
| InterpreterFacts.StepIntCommandNotInteger | src/main/java/Duke.java:46-49 | a payload that is not a decimal int gives the format error with no change |
| InterpreterFacts.StepIntCommandTwoSpaces | src/main/java/Duke.java:46-49 | two spaces before the number give the format error: the payload is not trimmed |
| InterpreterFacts.StepIntCommandOverflow | src/main/java/Duke.java:46-49 | a number beyond 32 bits gives the format error, not an index error |
| InterpreterFacts.StepTodoAdds | src/main/java/Duke.java:67-69 | "todo <description>" appends a not-done to-do with exactly that description |
| InterpreterFacts.StepTodoLine | src/main/java/Duke.java:67-69 | a stripped todo line that reaches offset 5 adds a to-do with the text from offset 5 |
| InterpreterFacts.StepTodoBranch | src/main/java/Duke.java:67-72 | a line whose keyword is todo runs the todo branch on the stripped line |
| InterpreterFacts.StepTodoBare | src/main/java/Duke.java:67-72 | a bare todo, in any case, gives the todo format error with no change |
| InterpreterFacts.TodoStepNotEmpty | src/main/java/Duke.java:38-69 | on a stripped todo line, the added description is never empty |
| InterpreterFacts.DispatchAddsTodoOnlyForTodo | src/main/java/Duke.java:41-80 | a branch other than todo never adds a to-do |
| InterpreterFacts.DispatchAddedTodoNotEmpty | src/main/java/Duke.java:41-80 | every branch run on a stripped line adds no to-do with an empty description |
| InterpreterFacts.AddedTodoIsNotEmpty | src/main/java/Duke.java:38-72 | whatever the line, a to-do that gets added has a non-empty description |
| InterpreterFacts.KeywordWordIsLetters | src/main/java/Duke.java:39 | a word that lower-cases to a keyword is all ASCII letters |
| InterpreterFacts.StepDatedWithoutSeparator | src/main/java/Duke.java:53-66 | a deadline or event line without its separator gives its format error and adds nothing |
| InterpreterFacts.StepDatedBare | src/main/java/Duke.java:53-66 | a bare deadline or event keyword gives its format error and adds nothing |
| InterpreterFacts.BareDatedKeyword | src/main/java/Duke.java:53-63 | a stripped word spelling a dated keyword is that keyword and holds no separator |
| InterpreterFacts.DatedLineHead | src/main/java/Duke.java:55-56 | the joined dated line starts with the keyword word and a space |
| InterpreterFacts.DatedArgumentOfFields | src/main/java/Duke.java:55-56 | splitting "<word> <description><sep><date>...", where no separator match starts inside the head or the date and the date is not empty, gives the description as part 0 from the offset and the date as part 1; parts beyond the second are ignored |
| InterpreterFacts.DatedPartsOfDate | src/main/java/Duke.java:55-56 | the condition above holds whenever the head holds no '/' and the date is not empty and never has a space followed by '/', as for any dd/mm/yy date |
| InterpreterFacts.SubmitReportDeadlineParts | src/main/java/Duke.java:55-56 | the line "deadline submit report /by 01/12/21 2359" meets the condition, with description "submit report" and date "01/12/21 2359" |
| InterpreterFacts.StepDatedAdds | src/main/java/Duke.java:53-66 | such a line adds the dated task with that description and date when the date parses; otherwise it gives the date error with no change |
| InterpreterFacts.StepList | src/main/java/Duke.java:43-44 | a line whose keyword is list shows the listing and changes nothing, whatever follows the keyword |
| InterpreterFacts.ListAfterAppend | src/main/java/Duke.java:139-150 | after an append the listing has one more line, the new last line numbers the new task, and every earlier line is as it was |
| InterpreterFacts.ListedNumberMarksThatTask | src/main/java/Duke.java:45-47 | line i of the listing shows the number i + 1, and "done <i + 1>" marks exactly the task on that line |
| Sessions.Run | src/main/java/Duke.java:37-84 | a run shows at most one reply per line read; it reads every line when it does not end; when it ends it has a last reply |
| Sessions.RunIgnoresAfterExit | src/main/java/Duke.java:41-42 | lines after the one that ends the loop are never read: more input changes nothing |
| Sessions.RunEndsOnExit | src/main/java/Duke.java:37-84 | a run that ends stopped at a step that ends the loop, and what every such step satisfies holds of the last line and reply |
| Sessions.RunEndsOnStop | src/main/java/Duke.java:37-84 | when every step that ends the loop read a stopping line and showed a fixed reply, a run that ends read such a line last and showed that reply last |
| Sessions.RunStopsAt | src/main/java/Duke.java:37-42 | when ending depends on the line alone, a run ends at the first stopping line i, with i + 1 replies |
| Sessions.RunWithoutStop | src/main/java/Duke.java:37-42 | under the same condition, a run over lines none of which stops it does not end |
| Sessions.StepOfExitsOnBye | src/main/java/Duke.java:41-42 | the interpreter's step ends the loop exactly on a line that says bye |
| Sessions.StepOfFarewells | src/main/java/Duke.java:41-42 | a step that ends the loop shows the farewell |
| Sessions.RunEndsOnBye | src/main/java/Duke.java:41-42 | a chat that ends read a line saying bye as its last line, and its last reply is the farewell |
| Sessions.RunStopsAtFirstBye | src/main/java/Duke.java:37-42 | a chat whose first line saying bye is line i ends, with exactly i + 1 replies |
| Sessions.RunWithoutByeNeverEnds | src/main/java/Duke.java:37-42 | a chat in which no line says bye reads every line, one reply each, and does not end |
| Sessions.RunByeFirst | src/main/java/Duke.java:41-42 | a chat saying bye first shows only the farewell and leaves the list unchanged |
| Sessions.RunResumes | src/main/java/Duke.java:37-83 | a run read up to line i goes on with line i: it ends there when that step exits, and otherwise continues from the state that step left |
| DukeApp.Duke.constructor | src/main/java/Duke.java:25-28 | a new chatbot has an empty task list |
| DukeApp.Duke.AddTask | src/main/java/Duke.java:92-96 | `taskList.add` appends the task at the end and reports the new size |
| DukeApp.Duke.AddEvent | src/main/java/Duke.java:105-111 | the event is appended when its date parses; otherwise the date error is shown and the list is unchanged |
| DukeApp.Duke.AddDeadline | src/main/java/Duke.java:119-125 | the deadline is appended when its date parses; otherwise the date error is shown and the list is unchanged |
| DukeApp.Duke.AddTodo | src/main/java/Duke.java:132-134 | a new not-done to-do is appended |
| DukeApp.Duke.ListTask | src/main/java/Duke.java:139-150 | the no-task line for an empty list, else one numbered line per task, in list order |
| DukeApp.Duke.MarkDone | src/main/java/Duke.java:158-164 | the list and the reply are exactly those of the marking step on the old list |
| DukeApp.Duke.DeleteTask | src/main/java/Duke.java:172-176 | the list and the reply are exactly those of the removing step on the old list |
| DukeApp.Duke.Handle | src/main/java/Duke.java:38-82 | one pass of the loop leaves the list, reply and exit flag that the step function gives for the old list |
| DukeApp.Duke.HandleKeyword | src/main/java/Duke.java:41-80 | the if-chain branch for keyword k agrees with the dispatch function |
| DukeApp.Duke.HandleDone | src/main/java/Duke.java:45-52 | the done branch agrees with the done step |
| DukeApp.Duke.HandleDelete | src/main/java/Duke.java:73-80 | the delete branch agrees with the delete step |
| DukeApp.Duke.HandleTodo | src/main/java/Duke.java:67-72 | the todo branch agrees with the todo step |
| DukeApp.Duke.HandleDated | src/main/java/Duke.java:53-66 | the deadline and event branches agree with the dated step |
| DukeApp.Duke.Chat | src/main/java/Duke.java:37-84 | the loop's replies, end flag and final list are exactly those of the run over the input lines |
| TaskLists.TaskList.MarkDone | src/main/java/DoneCommand.java:22 | out of range it throws IndexOutOfBounds with the list unchanged; otherwise it marks exactly task n - 1 and answers whether it was not done; the new list is the marking step's, and it throws exactly when that step gives the index error |
| DoneCommands.Execution | src/main/java/DoneCommand.java:19-28 | executing changes no task's position, and leaves the tasks as they were unless it completes; a parsed number gives the marking step's list |
| DoneCommands.DoneCommand.constructor | src/main/java/DoneCommand.java:9-11 | the command keeps the message verbatim |
| DoneCommands.DoneCommand.Execute | src/main/java/DoneCommand.java:19-28 | execute's outcome and the task list after it are exactly those of Execution on the old list |
| DoneCommands.BareDoneIsIndexError | src/main/java/DoneCommand.java:22-26 | a bare "done" makes substring throw, giving the index message with no change |
| DoneCommands.NonIntegerIsFormatError | src/main/java/DoneCommand.java:22-24 | a payload that is not a decimal int gives the format message; markDone is not reached and nothing changes |
| DoneCommands.NumberIsForwarded | src/main/java/DoneCommand.java:22-26 | the parsed number is forwarded unchanged and 1-based: it marks task n - 1 when there is one, and gives the index message otherwise |
| DoneCommands.AgreesWithInterpreter | src/main/java/DoneCommand.java:19-28 | the packaged command does what the interpreter's done branch does: the same tasks, and the format and index messages in the same cases |

## Left out

- Console I/O is not modelled: the `Scanner`, `printMessage` boxing, and the greet, help and error texts. Replies are message kinds, not strings. Input is a sequence of lines.
- The task count in the "added" and "removed" messages is printed with `%o`, i.e. in octal. `Reply` carries the count as a number, not its rendering.
- Date/time parsing is a parameter `parses`. It stands for the `java.text` parser in the `Task` constructors, which are not part of this model. No calendar rules are modelled.
- `toLowerCase` and `toUpperCase` are locale-sensitive in Java. They are modelled on the ASCII letters only. Any other letter in a command word cannot match a keyword either way.
- `split` takes a regular expression in Java. It is modelled as a split on a literal text, which is the same thing for ` `, ` /by ` and ` /at `, since none of them holds a metacharacter.
- Events.SaveOutputFields and Events.SaveOutputCorrectedFields read a saved line back by a literal split on ` | ` (through `Strings.SplitOfJoin`). That stands for the decoder in `Storage`, which is not part of this model; in Java it would have to split on the escaped pattern `" \\| "`, because a bare `|` is regular-expression alternation and `split(" | ")` splits at every space.
- `Integer.parseInt` is modelled for ASCII decimal digits with an optional sign. The other Unicode decimal digits that Java accepts are not modelled.
- `Task`, `ToDos`, `Deadlines`, `TaskList`, `Storage`, `Ui` and `DukeException` are not part of this model.
  - `Task` is a datatype.
  - `Task.markDone` returns whether the flag was clear, then sets it.
  - The display lines of to-dos and deadlines (`Interpreter.TaskString`) follow the shape of `Events.toString`, with T and D and the word "by".
  - `TaskLists.TaskList.MarkDone` follows `Duke.markDone`.
  - `Task.toString`, the "[<status>] <description>" line (`Tasks.StatusIcon` and `Tasks.BaseString`), and the getters `getTask` and `getDateTime` are assumed to behave as `Events.toString` and the `Events` constructors use them; the model reads the fields directly.
- Tasks are Java objects, and `markDone` changes one in place. In the model the list is a sequence of values, and the change is a sequence update at that position. Aliasing of task objects is not modelled.
- Sessions.Run: when the input runs out before a bye, the run simply has not ended. Java would throw `NoSuchElementException` from `nextLine`.
- `src/main/java/duke/Duke.java`, the packaged wiring loop, is not modelled. Its one point, that a `null` command stops the loop, is `CommandParser.ParseChat` giving `Exit` exactly for bye.
- `TodoCommand.java` delegates to `TaskList.addTodo`, which is not part of this model. The to-do behaviour is modelled from `Duke.java`.
- The concrete test lines of `ParserTest` (`"done 2"`, `"DEADLINE cs2106"`, `"hello world."`) are not stated one by one. The general lemmas `ParseByKeyword`, `ParseCaseInsensitive` and `ParseUnknownWord` cover them.
- A line holding only whitespace strips to the empty line. Its keyword is the empty word, which shows the help. In `parseChat`, a non-empty line of spaces gives `split(" ")` no element, so `[0]` throws. The model records that as `NoFirstToken`, an outcome the source does not catch.

## Findings

| source | as written | input that shows it | evidently intended | confidence | as-written member | corrected member |
|---|---|---|---|---|---|---|
| src/main/java/Events.java:41 | `saveOutput` writes the type code "D", which is the deadline's code | any event, e.g. `Events("meet", "01/01/21 1200")`: its saved line starts with "D \| " | the code "E", as the comment at line 36 and the EVENTS save word at src/main/java/duke/task/Keyword.java:20 say | not executed | Events.SavedEventReadsAsDeadline | Events.SaveOutputCorrectedFields |
