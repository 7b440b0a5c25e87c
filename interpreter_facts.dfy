/** What the chat loop of the monolithic interpreter does with each form of command line. */
module InterpreterFacts {
  import opened Lang
  import opened Strings
  import opened Integers
  import opened Tasks
  import opened Interpreter
  import K = Keywords
  import P = CommandParser

  /** A word without spaces, then a space and a payload: that word is the keyword. */
  lemma WordOfLine(w: string, payload: string)
    requires ' ' !in w && IsStripped(w + " " + payload)
    ensures CommandWord(w + " " + payload) == Lower(w)
  {
    TakeUntilSpaceAfterWord(w, payload);
  }

  /** A stripped line without spaces is its own keyword. */
  lemma WordOfBareLine(w: string)
    requires ' ' !in w && IsStripped(w)
    ensures CommandWord(w) == Lower(w)
  {
    TakeUntilSpaceOfWord(w);
  }

  /** A line whose keyword is k runs the branch of k on the stripped line. */
  lemma StepByKeyword(tasks: seq<Task>, line: string, k: K.Keyword, parses: string -> bool)
    requires K.FromText(CommandWord(Strip(line))) == Some(k)
    ensures Step(tasks, line, parses) == Dispatch(tasks, Strip(line), k, parses)
  {
  }

  /** A stripped line whose first word is the text of k runs the branch of k on itself. */
  lemma StepOnKeywordLine(tasks: seq<Task>, line: string, k: K.Keyword, parses: string -> bool)
    requires IsStripped(line) && CommandWord(line) == K.Text(k)
    ensures Step(tasks, line, parses) == Dispatch(tasks, line, k, parses)
  {
    K.FromTextOfText(k);
    StepByKeyword(tasks, line, k, parses);
  }

  /** A word that lower-cases to a keyword has no space in it. */
  lemma KeywordWordHasNoSpace(w: string, k: K.Keyword)
    requires Lower(w) == K.Text(k)
    ensures ' ' !in w
  {
    K.TextIsLowerWord(k);
    LowerKeepsSpaces(w);
  }

  /** A word spelling keyword k has the keyword's length, so the payload starts at length() + 1. */
  lemma PayloadAfterKeyword(w: string, payload: string, k: K.Keyword)
    requires Lower(w) == K.Text(k)
    ensures |w| == K.Length(k)
    ensures (w + " " + payload)[K.Length(k) + 1..] == payload
  {
    assert |Lower(w)| == |w|;
  }

  /**
   * A word spelling keyword k in any case, a space and a payload, on a stripped line: the
   * keyword is k and the text from offset length() + 1 is the payload.
   */
  lemma KeywordPayloadLine(w: string, payload: string, k: K.Keyword)
    requires Lower(w) == K.Text(k) && IsStripped(w + " " + payload)
    ensures |w| == K.Length(k)
    ensures (w + " " + payload)[K.Length(k) + 1..] == payload
    ensures CommandWord(w + " " + payload) == K.Text(k)
  {
    PayloadAfterKeyword(w, payload, k);
    KeywordWordHasNoSpace(w, k);
    WordOfLine(w, payload);
  }

  /** The line "<keyword> <n>" for a 32-bit n: stripped, keyword k, and its int argument is n. */
  lemma NumberLine(k: K.Keyword, n: int)
    requires MinInt <= n <= MaxInt
    ensures var line := K.Text(k) + " " + IntToString(n);
      && IsStripped(line)
      && CommandWord(line) == K.Text(k)
      && IntArgument(line, k) == Ok(n)
  {
    KeywordNumberLine(k, n);
    K.TextIsLowerWord(k);
    KeywordPayloadLine(K.Text(k), IntToString(n), k);
    ParseIntOfString(n);
  }

  /** A keyword, a space and the decimal text of any int make a line that is already stripped. */
  lemma KeywordNumberLine(k: K.Keyword, n: int)
    ensures IsStripped(K.Text(k) + " " + IntToString(n))
    ensures ' ' !in K.Text(k)
  {
    K.TextIsLowerWord(k);
    var line := K.Text(k) + " " + IntToString(n);
    assert line[0] == K.Text(k)[0];
    assert line[|line| - 1] == IntToString(n)[|IntToString(n)| - 1];
  }

  /**
   * The interpreter never meets the parser's empty split: after strip, the line always has
   * a first word, and the interpreter's branch is the one the packaged parser picks. An
   * unknown keyword is the parser's "Command not parsable" and the interpreter's help.
   */
  lemma InterpreterAgreesWithParser(tasks: seq<Task>, line: string, parses: string -> bool)
    ensures P.ParseChat(Strip(line)) != P.NoFirstToken
    ensures P.Word(Strip(line)) == CommandWord(Strip(line))
    ensures P.ParseChat(Strip(line)).NotParsable? <==> Step(tasks, line, parses).reply == Help
    ensures P.ParseChat(Strip(line)) == P.Exit <==> Step(tasks, line, parses).exit
  {
    var m := Strip(line);
    if m != [] {
      assert m[0] != ' ';
    }
  }

  /** A stripped line with keyword done or delete whose argument parses runs that branch's step. */
  lemma StepIntCommandLine(tasks: seq<Task>, line: string, k: K.Keyword, n: int, parses: string -> bool)
    requires k == K.Done || k == K.Delete
    requires IsStripped(line) && CommandWord(line) == K.Text(k) && IntArgument(line, k) == Ok(n)
    ensures Step(tasks, line, parses) == if k == K.Done then MarkStep(tasks, n) else RemoveStep(tasks, n)
  {
    StepOnKeywordLine(tasks, line, k, parses);
  }

  /** "done <n>" for any 32-bit n is markDone(n): the number is forwarded as written, 1-based. */
  lemma StepDoneAt(tasks: seq<Task>, n: int, parses: string -> bool)
    requires MinInt <= n <= MaxInt
    ensures Step(tasks, K.Text(K.Done) + " " + IntToString(n), parses) == MarkStep(tasks, n)
  {
    NumberLine(K.Done, n);
    StepIntCommandLine(tasks, K.Text(K.Done) + " " + IntToString(n), K.Done, n, parses);
  }

  /** "delete <n>" for any 32-bit n is deleteTask(n). */
  lemma StepDeleteAt(tasks: seq<Task>, n: int, parses: string -> bool)
    requires MinInt <= n <= MaxInt
    ensures Step(tasks, K.Text(K.Delete) + " " + IntToString(n), parses) == RemoveStep(tasks, n)
  {
    NumberLine(K.Delete, n);
    StepIntCommandLine(tasks, K.Text(K.Delete) + " " + IntToString(n), K.Delete, n, parses);
  }

  /**
   * markDone(n) touches task n - 1 only: it is marked done with its other fields kept, and
   * every other task is as it was. Out of range, no task changes.
   */
  lemma MarkStepTouchesOne(tasks: seq<Task>, n: int)
    ensures var r := MarkStep(tasks, n);
      forall j :: 0 <= j < |tasks| && j != n - 1 ==> r.tasks[j] == tasks[j]
    ensures 1 <= n <= |tasks| ==> var r := MarkStep(tasks, n);
      && r.tasks[n - 1].done
      && r.tasks[n - 1].kind == tasks[n - 1].kind
      && r.tasks[n - 1].description == tasks[n - 1].description
      && r.tasks[n - 1].dateTime == tasks[n - 1].dateTime
      && (r.reply.MarkedDone? <==> !tasks[n - 1].done)
  {
  }

  /** Marking the same task twice: the second time says it was already done and changes nothing. */
  lemma MarkStepTwice(tasks: seq<Task>, n: int)
    requires 1 <= n <= |tasks|
    ensures var once := MarkStep(tasks, n);
      MarkStep(once.tasks, n) == StepResult(once.tasks, AlreadyDone(once.tasks[n - 1]), false)
  {
    var once := MarkStep(tasks, n);
    assert once.tasks[n - 1 := once.tasks[n - 1].(done := true)] == once.tasks;
  }

  /**
   * deleteTask(n) removes task n - 1: the tasks before it keep their positions, the tasks
   * after it move down one, and the removed task is the one shown.
   */
  lemma RemoveStepShifts(tasks: seq<Task>, n: int)
    requires 1 <= n <= |tasks|
    ensures var r := RemoveStep(tasks, n);
      && |r.tasks| == |tasks| - 1
      && (forall j :: 0 <= j < n - 1 ==> r.tasks[j] == tasks[j])
      && (forall j :: n - 1 <= j < |r.tasks| ==> r.tasks[j] == tasks[j + 1])
      && r.reply.task == tasks[n - 1]
  {
  }

  /** A done or delete keyword alone: substring throws, so it is the index error, not the format error. */
  lemma StepIntCommandBare(tasks: seq<Task>, line: string, k: K.Keyword, parses: string -> bool)
    requires k == K.Done || k == K.Delete
    requires Lower(Strip(line)) == K.Text(k)
    ensures Step(tasks, line, parses)
      == StepResult(tasks, if k == K.Done then DoneIndexError else DeleteIndexError, false)
  {
    var m := Strip(line);
    KeywordWordHasNoSpace(m, k);
    WordOfBareLine(m);
    K.FromTextOfText(k);
    StepByKeyword(tasks, line, k, parses);
    assert IntArgument(m, k) == IndexOutOfBounds;
  }

  /**
   * A done or delete keyword, a space and anything that is not a decimal int: the format
   * error, and the list is unchanged. The payload is not trimmed.
   */
  lemma StepIntCommandNotInteger(tasks: seq<Task>, w: string, payload: string, k: K.Keyword,
                                 parses: string -> bool)
    requires k == K.Done || k == K.Delete
    requires Lower(w) == K.Text(k) && IsStripped(w + " " + payload)
    requires !ParseInt(payload).Ok?
    ensures Step(tasks, w + " " + payload, parses)
      == StepResult(tasks, if k == K.Done then DoneFormatError else DeleteFormatError, false)
  {
    var line := w + " " + payload;
    KeywordPayloadLine(w, payload, k);
    StepOnKeywordLine(tasks, line, k, parses);
  }

  /** Two spaces before the number: the payload starts with a space, which parseInt refuses. */
  lemma StepIntCommandTwoSpaces(tasks: seq<Task>, n: int, k: K.Keyword, parses: string -> bool)
    requires k == K.Done || k == K.Delete
    ensures Step(tasks, K.Text(k) + " " + (" " + IntToString(n)), parses)
      == StepResult(tasks, if k == K.Done then DoneFormatError else DeleteFormatError, false)
  {
    var payload := " " + IntToString(n);
    var line := K.Text(k) + " " + payload;
    K.TextIsLowerWord(k);
    assert line[0] == K.Text(k)[0];
    assert line[|line| - 1] == IntToString(n)[|IntToString(n)| - 1];
    assert payload[0] == ' ';
    StepIntCommandNotInteger(tasks, K.Text(k), payload, k, parses);
  }

  /** A number beyond 32 bits is the format error, not an index error. */
  lemma StepIntCommandOverflow(tasks: seq<Task>, n: nat, k: K.Keyword, parses: string -> bool)
    requires k == K.Done || k == K.Delete
    requires n > MaxInt
    ensures Step(tasks, K.Text(k) + " " + NatToString(n), parses)
      == StepResult(tasks, if k == K.Done then DoneFormatError else DeleteFormatError, false)
  {
    var line := K.Text(k) + " " + NatToString(n);
    K.TextIsLowerWord(k);
    assert line[0] == K.Text(k)[0];
    assert line[|line| - 1] == NatToString(n)[|NatToString(n)| - 1];
    ParseIntOverflow(n);
    StepIntCommandNotInteger(tasks, K.Text(k), NatToString(n), k, parses);
  }

  /** "todo <description>" appends a to-do with exactly the text after "todo ", not done. */
  lemma StepTodoAdds(tasks: seq<Task>, w: string, description: string, parses: string -> bool)
    requires Lower(w) == K.Text(K.Todos) && IsStripped(w + " " + description)
    ensures Step(tasks, w + " " + description, parses) == Add(tasks, NewTodo(description))
  {
    KeywordPayloadLine(w, description, K.Todos);
    StepTodoLine(tasks, w + " " + description, parses);
  }

  /** A stripped todo line long enough for the offset adds the text from offset 5. */
  lemma StepTodoLine(tasks: seq<Task>, line: string, parses: string -> bool)
    requires IsStripped(line) && CommandWord(line) == K.Text(K.Todos)
    requires |line| >= K.Length(K.Todos) + 1
    ensures Step(tasks, line, parses) == Add(tasks, NewTodo(line[K.Length(K.Todos) + 1..]))
  {
    K.FromTextOfText(K.Todos);
    StepTodoBranch(tasks, line, parses);
  }

  /** A line whose keyword is todo runs the todo branch on the stripped line. */
  lemma StepTodoBranch(tasks: seq<Task>, line: string, parses: string -> bool)
    requires K.FromText(CommandWord(Strip(line))) == Some(K.Todos)
    ensures Step(tasks, line, parses) == TodoStep(tasks, Strip(line))
  {
  }

  /** A todo keyword alone is the todo format error. */
  lemma StepTodoBare(tasks: seq<Task>, line: string, parses: string -> bool)
    requires Lower(Strip(line)) == K.Text(K.Todos)
    ensures Step(tasks, line, parses) == StepResult(tasks, TodoFormatError, false)
  {
    var m := Strip(line);
    KeywordWordHasNoSpace(m, K.Todos);
    WordOfBareLine(m);
    K.FromTextOfText(K.Todos);
    StepByKeyword(tasks, line, K.Todos, parses);
    assert |m| < K.Length(K.Todos) + 1;
    assert TodoStep(tasks, m) == StepResult(tasks, TodoFormatError, false);
  }

  /** On a stripped todo line, the text after "todo " ends in a non-space, so it is not empty. */
  lemma TodoStepNotEmpty(tasks: seq<Task>, m: string)
    requires IsStripped(m) && CommandWord(m) == K.Text(K.Todos)
    ensures TodoStep(tasks, m).reply.Added? ==> TodoStep(tasks, m).reply.task.description != []
  {
    if |m| >= K.Length(K.Todos) + 1 {
      assert m[K.Length(K.Todos)] == ' ';
      assert m[|m| - 1] != ' ';
    }
  }

  /** Only the todo branch adds a to-do. */
  lemma DispatchAddsTodoOnlyForTodo(tasks: seq<Task>, m: string, k: K.Keyword, parses: string -> bool)
    requires k != K.Todos
    ensures var r := Dispatch(tasks, m, k, parses); r.reply.Added? ==> r.reply.task.kind != ToDo
  {
  }

  /** Whatever the line, a to-do that gets added has a non-empty description. */
  lemma AddedTodoIsNotEmpty(tasks: seq<Task>, line: string, parses: string -> bool)
    ensures var r := Step(tasks, line, parses);
      r.reply.Added? && r.reply.task.kind == ToDo ==> r.reply.task.description != []
  {
    var m := Strip(line);
    var keyword := K.FromText(CommandWord(m));
    if keyword.Some? {
      StepByKeyword(tasks, line, keyword.value, parses);
      DispatchAddedTodoNotEmpty(tasks, m, keyword.value, parses);
    }
  }

  /** A branch run on a stripped line whose keyword is k adds no to-do with an empty description. */
  lemma DispatchAddedTodoNotEmpty(tasks: seq<Task>, m: string, k: K.Keyword, parses: string -> bool)
    requires IsStripped(m) && K.FromText(CommandWord(m)) == Some(k)
    ensures var r := Dispatch(tasks, m, k, parses);
      r.reply.Added? && r.reply.task.kind == ToDo ==> r.reply.task.description != []
  {
    if k == K.Todos {
      TodoStepNotEmpty(tasks, m);
    } else {
      DispatchAddsTodoOnlyForTodo(tasks, m, k, parses);
    }
  }

  /** A word that lower-cases to a keyword is made of ASCII letters only. */
  lemma KeywordWordIsLetters(w: string, k: K.Keyword)
    requires Lower(w) == K.Text(k)
    ensures forall i :: 0 <= i < |w| ==> 'a' <= w[i] <= 'z' || 'A' <= w[i] <= 'Z'
  {
    forall i | 0 <= i < |w| ensures 'a' <= w[i] <= 'z' || 'A' <= w[i] <= 'Z' {
      assert Lower(w)[i] == LowerChar(w[i]);
    }
  }

  /** A dated line with no separator: the split gives the whole line, and there is no part 1. */
  lemma StepDatedWithoutSeparator(tasks: seq<Task>, line: string, k: K.Keyword, parses: string -> bool)
    requires k == K.Deadline || k == K.Events
    requires CommandWord(Strip(line)) == K.Text(k) && Free(Strip(line), K.Separator(k))
    ensures Step(tasks, line, parses) == StepResult(tasks, DatedFormatError(k), false)
  {
    K.FromTextOfText(k);
    StepByKeyword(tasks, line, k, parses);
  }

  /** A deadline or event keyword alone is its format error: the separator cannot occur in it. */
  lemma StepDatedBare(tasks: seq<Task>, line: string, k: K.Keyword, parses: string -> bool)
    requires k == K.Deadline || k == K.Events
    requires Lower(Strip(line)) == K.Text(k)
    ensures Step(tasks, line, parses) == StepResult(tasks, DatedFormatError(k), false)
  {
    BareDatedKeyword(Strip(line), k);
    StepDatedWithoutSeparator(tasks, line, k, parses);
  }

  /** A stripped word spelling a dated keyword is its own keyword and holds no separator. */
  lemma BareDatedKeyword(m: string, k: K.Keyword)
    requires k == K.Deadline || k == K.Events
    requires IsStripped(m) && Lower(m) == K.Text(k)
    ensures CommandWord(m) == K.Text(k) && Free(m, K.Separator(k))
  {
    KeywordWordIsLetters(m, k);
    KeywordWordHasNoSpace(m, k);
    WordOfBareLine(m);
    FreeWhenMarkerAbsent(m, K.Separator(k));
  }

  /** The fields of a dated line: the keyword word, a space and the description, then the date/time. */
  function DatedFields(w: string, description: string, dateTime: string, rest: seq<string>): seq<string> {
    [w + " " + description, dateTime] + rest
  }

  /**
   * The split finds the parts where they were written: no match of the separator starts
   * inside the head (the keyword word, a space and the description), none starts inside the
   * date/time before any further parts or occurs in it when it is last, and the date/time
   * is not empty.
   */
  predicate PartsSeparate(head: string, dateTime: string, rest: seq<string>, sep: string) {
    && dateTime != []
    && NoMatchStartsIn(head, sep)
    && (if rest == [] then Free(dateTime, sep) else NoMatchStartsIn(dateTime, sep))
  }

  /** The joined dated line starts with the keyword word and a space. */
  lemma DatedLineHead(w: string, description: string, dateTime: string, rest: seq<string>, sep: string)
    ensures Join(DatedFields(w, description, dateTime, rest), sep)
      == w + " " + (description + sep + Join([dateTime] + rest, sep))
  {
    var fields := DatedFields(w, description, dateTime, rest);
    assert fields[1..] == [dateTime] + rest;
  }

  /**
   * The description and the date/time of a dated line whose parts the split finds: part 0
   * from offset length() + 1 and part 1; the parts after the second, whatever they hold,
   * are ignored.
   */
  lemma DatedArgumentOfFields(w: string, description: string, dateTime: string, rest: seq<string>, k: K.Keyword)
    requires k == K.Deadline || k == K.Events
    requires Lower(w) == K.Text(k) && PartsSeparate(w + " " + description, dateTime, rest, K.Separator(k))
    ensures DatedArgument(Join(DatedFields(w, description, dateTime, rest), K.Separator(k)), k)
      == Ok((description, dateTime))
  {
    var sep := K.Separator(k);
    var head := w + " " + description;
    var fields := DatedFields(w, description, dateTime, rest);
    var after := Join([dateTime] + rest, sep);
    assert fields[1..] == [dateTime] + rest;
    var line := head + sep + after;
    assert Join(fields, sep) == line;
    PiecesAfterHead(head, sep, after);
    if rest == [] {
      assert after == dateTime;
    } else {
      assert ([dateTime] + rest)[1..] == rest;
      PiecesAfterHead(dateTime, sep, Join(rest, sep));
    }
    var p := Pieces(line, sep);
    assert p[0] == head && p[1] == dateTime;
    assert line[|head|..|head| + |sep|] == sep;
    assert !Free(line, sep) by {
      assert OccursAt(line, sep, |head|);
    }
    PayloadAfterKeyword(w, description, k);
  }

  /**
   * "deadline <description> /by <date/time>" (or event with " /at ") on a stripped line:
   * the dated task is appended, not done, when its date/time parses; otherwise the date
   * error, and the list is unchanged.
   */
  lemma StepDatedAdds(tasks: seq<Task>, w: string, description: string, dateTime: string,
                      rest: seq<string>, k: K.Keyword, parses: string -> bool)
    requires k == K.Deadline || k == K.Events
    requires Lower(w) == K.Text(k) && PartsSeparate(w + " " + description, dateTime, rest, K.Separator(k))
    requires IsStripped(Join(DatedFields(w, description, dateTime, rest), K.Separator(k)))
    ensures Step(tasks, Join(DatedFields(w, description, dateTime, rest), K.Separator(k)), parses)
      == if parses(dateTime) then Add(tasks, Task(DatedKind(k), description, false, dateTime))
         else StepResult(tasks, DateTimeError, false)
  {
    var line := Join(DatedFields(w, description, dateTime, rest), K.Separator(k));
    var tail := description + K.Separator(k) + Join([dateTime] + rest, K.Separator(k));
    DatedLineHead(w, description, dateTime, rest, K.Separator(k));
    KeywordWordHasNoSpace(w, k);
    WordOfLine(w, tail);
    DatedArgumentOfFields(w, description, dateTime, rest, k);
    StepOnKeywordLine(tasks, line, k, parses);
  }

  /** A description without '/' and a date/time in the dd/mm/yy hhmm form are found by the split. */
  lemma DatedPartsOfDate(w: string, description: string, dateTime: string, k: K.Keyword)
    requires k == K.Deadline || k == K.Events
    requires '/' !in w + " " + description && dateTime != []
    requires forall i :: 0 <= i < |dateTime| - 1 ==> !(dateTime[i] == ' ' && dateTime[i + 1] == '/')
    ensures PartsSeparate(w + " " + description, dateTime, [], K.Separator(k))
  {
    NoMatchWhenMarkerAbsent(w + " " + description, K.Separator(k));
    FreeWhenNoMarkerPair(dateTime, K.Separator(k));
  }

  /**
   * The parts of "deadline submit report /by 01/12/21 2359" are found by the split, so
   * StepDatedAdds applies to it.
   */
  lemma SubmitReportDeadlineParts()
    ensures PartsSeparate("deadline submit report", "01/12/21 2359", [], K.Separator(K.Deadline))
  {
    var dateTime := "01/12/21 2359";
    assert forall i :: 0 <= i < |dateTime| - 1 ==> !(dateTime[i] == ' ' && dateTime[i + 1] == '/');
    assert "deadline" + " " + "submit report" == "deadline submit report";
    DatedPartsOfDate("deadline", "submit report", dateTime, K.Deadline);
  }

  /** A line whose keyword is list shows the listing and changes nothing; the payload is ignored. */
  lemma StepList(tasks: seq<Task>, line: string, parses: string -> bool)
    requires CommandWord(Strip(line)) == K.Text(K.List)
    ensures Step(tasks, line, parses) == StepResult(tasks, Listing(ListLines(tasks)), false)
  {
    K.FromTextOfText(K.List);
    StepByKeyword(tasks, line, K.List, parses);
  }

  /**
   * After an append, the listing has one line more: the earlier lines are as they were and
   * the last is the new task's, numbered with the new size.
   */
  lemma ListAfterAppend(tasks: seq<Task>, t: Task)
    ensures |ListLines(tasks + [t])| == |tasks| + 1
    ensures ListLines(tasks + [t])[|tasks|] == ListLine(t, |tasks|)
    ensures forall i :: 0 <= i < |tasks| ==> ListLines(tasks + [t])[i] == ListLines(tasks)[i]
  {
    var after := tasks + [t];
    assert after[|tasks|] == t;
    forall i | 0 <= i < |tasks| ensures ListLines(after)[i] == ListLines(tasks)[i] {
      assert after[i] == tasks[i];
    }
  }

  /**
   * The number a listing shows in front of a task marks that task: "done <i + 1>" marks
   * task i done and leaves every other task as it was.
   */
  lemma ListedNumberMarksThatTask(tasks: seq<Task>, i: nat, parses: string -> bool)
    requires i < |tasks| && i + 1 <= MaxInt
    ensures ListLines(tasks)[i] == IntToString(i + 1) + ". " + TaskString(tasks[i])
    ensures var r := Step(tasks, K.Text(K.Done) + " " + IntToString(i + 1), parses);
      && |r.tasks| == |tasks|
      && r.tasks[i] == tasks[i].(done := true)
      && (forall j :: 0 <= j < |tasks| && j != i ==> r.tasks[j] == tasks[j])
  {
    StepDoneAt(tasks, i + 1, parses);
    MarkStepMarksIndex(tasks, i);
  }

  lemma MarkStepMarksIndex(tasks: seq<Task>, i: nat)
    requires i < |tasks|
    ensures var r := MarkStep(tasks, i + 1);
      && |r.tasks| == |tasks|
      && r.tasks[i] == tasks[i].(done := true)
      && (forall j :: 0 <= j < |tasks| && j != i ==> r.tasks[j] == tasks[j])
  {
  }
}
