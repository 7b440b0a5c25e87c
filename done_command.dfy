/**
 * DoneCommand: the packaged form of the done branch. The command keeps the whole line;
 * executing it reads the number from offset length() + 1, without trimming, and hands it
 * to the task list as written.
 */
module DoneCommands {
  import opened Lang
  import opened Integers
  import opened Tasks
  import opened Interpreter
  import opened TaskLists
  import K = Keywords

  /** What one execute() ends in: markDone completed, or exactly one of the two messages. */
  datatype Outcome = Completed | FormatError | IndexError

  /** The outcome of executing a done command with the given line on the given tasks. */
  function Execution(message: string, tasks: seq<Task>): (r: (Outcome, seq<Task>))
    ensures |r.1| == |tasks|
    ensures r.0 != Completed ==> r.1 == tasks
    ensures IntArgument(message, K.Done).Ok? ==>
      r.1 == MarkStep(tasks, IntArgument(message, K.Done).value).tasks
  {
    match IntArgument(message, K.Done)
    case Ok(n) =>
      var marked := MarkStep(tasks, n);
      (if marked.reply == DoneIndexError then IndexError else Completed, marked.tasks)
    case NumberFormat => (FormatError, tasks)
    case _ => (IndexError, tasks)
  }

  class DoneCommand {
    /** The line the user entered, kept as it was. */
    const message: string

    constructor(message: string)
      ensures this.message == message
    {
      this.message := message;
    }

    /**
     * execute(taskList, ui): markDone(parseInt(message.substring(5))); a NumberFormatException
     * is the format message, an IndexOutOfBoundsException from substring or from markDone
     * the index message.
     */
    method Execute(taskList: TaskList) returns (outcome: Outcome)
      modifies taskList
      ensures (outcome, taskList.tasks) == Execution(message, old(taskList.tasks))
    {
      var argument := IntArgument(message, K.Done);
      match argument
      case Ok(n) =>
        var marked := taskList.MarkDone(n);
        outcome := if marked.Ok? then Completed else IndexError;
      case NumberFormat =>
        outcome := FormatError;
      case _ =>
        outcome := IndexError;
    }
  }

  /** A bare "done", in any case: substring throws, so the index message, and nothing changes. */
  lemma BareDoneIsIndexError(message: string, tasks: seq<Task>)
    requires |message| == K.Length(K.Done)
    ensures Execution(message, tasks) == (IndexError, tasks)
  {
  }

  /**
   * A payload that is not a decimal int is the format message: markDone is not reached and
   * the tasks are as they were.
   */
  lemma NonIntegerIsFormatError(word: string, payload: string, tasks: seq<Task>)
    requires |word| == K.Length(K.Done) && !ParseInt(payload).Ok?
    ensures Execution(word + " " + payload, tasks) == (FormatError, tasks)
  {
    assert (word + " " + payload)[K.Length(K.Done) + 1..] == payload;
  }

  /**
   * The number is forwarded as written: "done <n>" marks task n - 1 when there is one and
   * is the index message otherwise.
   */
  lemma NumberIsForwarded(word: string, n: int, tasks: seq<Task>)
    requires |word| == K.Length(K.Done) && MinInt <= n <= MaxInt
    ensures Execution(word + " " + IntToString(n), tasks)
      == if 1 <= n <= |tasks| then (Completed, tasks[n - 1 := tasks[n - 1].(done := true)])
         else (IndexError, tasks)
  {
    assert (word + " " + IntToString(n))[K.Length(K.Done) + 1..] == IntToString(n);
    ParseIntOfString(n);
  }

  /**
   * The packaged command does what the interpreter's done branch does to the same line:
   * the same tasks, the format and index messages in the same cases, and completion exactly
   * when a task was marked.
   */
  lemma AgreesWithInterpreter(message: string, tasks: seq<Task>)
    ensures var (outcome, after) := Execution(message, tasks);
      var step := DoneStep(tasks, message);
      && after == step.tasks
      && (outcome == FormatError <==> step.reply == DoneFormatError)
      && (outcome == IndexError <==> step.reply == DoneIndexError)
      && (outcome == Completed <==> step.reply.MarkedDone? || step.reply.AlreadyDone?)
  {
  }
}
