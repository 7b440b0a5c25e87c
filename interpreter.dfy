/**
 * One pass of the chat loop of the monolithic interpreter (Duke.chat): the line is
 * stripped, its first space-separated word lower-cased is the keyword, and the branch
 * for that keyword extracts its payload by fixed offsets and separators, changes the task
 * list or not, and chooses what is shown. The class DukeApp.Duke runs these steps on its
 * own task list; this module states what each step does.
 */
module Interpreter {
  import opened Lang
  import opened Strings
  import opened Integers
  import opened Tasks
  import K = Keywords
  import Events

  /** What a step shows. The texts themselves are not modelled, only which message it is. */
  datatype Reply =
    | Farewell                         // exitMessage, after the loop ends
    | Help                             // chatErrorMessage: the keyword is unknown
    | Listing(lines: seq<string>)      // listTask
    | Added(task: Task, size: nat)     // addTask: the task and the new size
    | MarkedDone(task: Task)           // markDone, the task was not done
    | AlreadyDone(task: Task)          // markDone, the task was done already
    | Removed(task: Task, size: nat)   // deleteTask: the task and the new size
    | DoneFormatError | DoneIndexError
    | DeleteFormatError | DeleteIndexError
    | TodoFormatError | DeadlineFormatError | EventFormatError
    | DateTimeError

  /** The task list after a step, what it showed, and whether the loop ends. */
  datatype StepResult = StepResult(tasks: seq<Task>, reply: Reply, exit: bool)

  /** The replies after which the task list is the one before the step. */
  predicate ChangesNothing(reply: Reply) {
    !(reply.Added? || reply.MarkedDone? || reply.AlreadyDone? || reply.Removed?)
  }

  /**
   * The reply accounts for the change of the list: nothing changes unless a task was
   * added at the end, marked in place or removed, and the size shown is the new size.
   */
  predicate Accounted(before: seq<Task>, r: StepResult) {
    && (ChangesNothing(r.reply) ==> r.tasks == before)
    && (r.reply.Added? ==> r.tasks == before + [r.reply.task] && r.reply.size == |r.tasks|)
    && (r.reply.MarkedDone? || r.reply.AlreadyDone? ==> |r.tasks| == |before| && r.reply.task.done)
    && (r.reply.Removed? ==> |r.tasks| == |before| - 1 && r.reply.size == |r.tasks|)
  }

  /**
   * message.split(" ")[0].toLowerCase() on a stripped line: the array always has a first
   * element, the text up to the first space, lower-cased.
   */
  function CommandWord(message: string): (r: string)
    requires IsStripped(message)
    ensures ' ' !in r && |r| <= |message|
    ensures r == Lower(message[..|r|])
    ensures |r| < |message| ==> message[|r|] == ' '
    ensures r == Lower(TakeUntilSpace(message))
  {
    var first := FirstToken(message);
    assert first.Some? by {
      if message != [] {
        assert message[0] != ' ';
      }
    }
    LowerKeepsSpaces(first.value);
    Lower(first.value)
  }

  /** Integer.parseInt(message.substring(k.length() + 1)). */
  function IntArgument(message: string, k: K.Keyword): (r: Try<int>)
    ensures r == IndexOutOfBounds <==> |message| < K.Length(k) + 1
    ensures r.Ok? || r == NumberFormat || r == IndexOutOfBounds
    ensures r.Ok? ==> MinInt <= r.value <= MaxInt
    ensures |message| >= K.Length(k) + 1 ==> r == ParseInt(message[K.Length(k) + 1..])
  {
    match Substring(message, K.Length(k) + 1)
    case Ok(payload) => ParseInt(payload)
    case _ => IndexOutOfBounds
  }

  /**
   * The description and the date/time of a dated command: the line is split on the
   * keyword's separator; the description is part 0 from offset length() + 1 and the
   * date/time is part 1. A missing part or a part 0 too short throws
   * IndexOutOfBoundsException.
   */
  function DatedArgument(message: string, k: K.Keyword): (r: Try<(string, string)>)
    requires K.Separator(k) != []
    ensures r.Ok? || r == IndexOutOfBounds
    ensures Free(message, K.Separator(k)) ==> r == IndexOutOfBounds
    ensures r.Ok? <==> var d := Split(message, K.Separator(k));
      |d| >= 2 && |d[0]| >= K.Length(k) + 1
    ensures r.Ok? ==> var d := Split(message, K.Separator(k));
      r.value == (d[0][K.Length(k) + 1..], d[1])
  {
    var details := Split(message, K.Separator(k));
    if |details| == 0 then IndexOutOfBounds
    else
      match Substring(details[0], K.Length(k) + 1)
      case Ok(description) => if |details| < 2 then IndexOutOfBounds else Ok((description, details[1]))
      case _ => IndexOutOfBounds
  }

  /** addTask(task): appends it and reports the new size. */
  function Add(tasks: seq<Task>, t: Task): (r: StepResult)
    ensures |r.tasks| == |tasks| + 1 && r.tasks[..|tasks|] == tasks && r.tasks[|tasks|] == t
    ensures r.reply == Added(t, |r.tasks|) && !r.exit
  {
    StepResult(tasks + [t], Added(t, |tasks| + 1), false)
  }

  /**
   * markDone(n): taskList.get(n - 1) throws when n - 1 is no position of the list;
   * otherwise that task is marked done and the flag markDone returns picks the message.
   * The subtraction cannot wrap to a valid position: it only wraps for n = MinInt, to
   * MaxInt, which is no position of a list.
   */
  function MarkStep(tasks: seq<Task>, n: int): (r: StepResult)
    ensures !r.exit && |r.tasks| == |tasks|
    ensures !(1 <= n <= |tasks|) ==> r == StepResult(tasks, DoneIndexError, false)
    ensures 1 <= n <= |tasks| ==>
      && r.tasks == tasks[n - 1 := tasks[n - 1].(done := true)]
      && r.reply == (if tasks[n - 1].done then AlreadyDone(r.tasks[n - 1]) else MarkedDone(r.tasks[n - 1]))
    ensures Accounted(tasks, r)
  {
    if 1 <= n <= |tasks| then
      var (changed, t) := MarkDone(tasks[n - 1]);
      StepResult(tasks[n - 1 := t], if changed then MarkedDone(t) else AlreadyDone(t), false)
    else
      StepResult(tasks, DoneIndexError, false)
  }

  /** deleteTask(n): taskList.remove(n - 1), which throws when n - 1 is no position. */
  function RemoveStep(tasks: seq<Task>, n: int): (r: StepResult)
    ensures !r.exit
    ensures !(1 <= n <= |tasks|) ==> r == StepResult(tasks, DeleteIndexError, false)
    ensures 1 <= n <= |tasks| ==>
      && r.tasks == tasks[..n - 1] + tasks[n..]
      && r.reply == Removed(tasks[n - 1], |tasks| - 1)
    ensures Accounted(tasks, r)
  {
    if 1 <= n <= |tasks| then
      StepResult(tasks[..n - 1] + tasks[n..], Removed(tasks[n - 1], |tasks| - 1), false)
    else
      StepResult(tasks, DeleteIndexError, false)
  }

  /** The done branch: the payload from offset 5, parsed; each exception its own message. */
  function DoneStep(tasks: seq<Task>, message: string): (r: StepResult)
    ensures !r.exit
    ensures IntArgument(message, K.Done) == NumberFormat ==> r == StepResult(tasks, DoneFormatError, false)
    ensures IntArgument(message, K.Done) == IndexOutOfBounds ==> r == StepResult(tasks, DoneIndexError, false)
    ensures IntArgument(message, K.Done).Ok? ==> r == MarkStep(tasks, IntArgument(message, K.Done).value)
    ensures Accounted(tasks, r)
  {
    match IntArgument(message, K.Done)
    case Ok(n) => MarkStep(tasks, n)
    case NumberFormat => StepResult(tasks, DoneFormatError, false)
    case _ => StepResult(tasks, DoneIndexError, false)
  }

  /** The delete branch: the payload from offset 7, parsed; each exception its own message. */
  function DeleteStep(tasks: seq<Task>, message: string): (r: StepResult)
    ensures !r.exit
    ensures IntArgument(message, K.Delete) == NumberFormat ==> r == StepResult(tasks, DeleteFormatError, false)
    ensures IntArgument(message, K.Delete) == IndexOutOfBounds ==> r == StepResult(tasks, DeleteIndexError, false)
    ensures IntArgument(message, K.Delete).Ok? ==> r == RemoveStep(tasks, IntArgument(message, K.Delete).value)
    ensures Accounted(tasks, r)
  {
    match IntArgument(message, K.Delete)
    case Ok(n) => RemoveStep(tasks, n)
    case NumberFormat => StepResult(tasks, DeleteFormatError, false)
    case _ => StepResult(tasks, DeleteIndexError, false)
  }

  /** The todo branch: the description is the line from offset 5, untrimmed. */
  function TodoStep(tasks: seq<Task>, message: string): (r: StepResult)
    ensures |message| < K.Length(K.Todos) + 1 ==> r == StepResult(tasks, TodoFormatError, false)
    ensures |message| >= K.Length(K.Todos) + 1 ==> r == Add(tasks, NewTodo(message[K.Length(K.Todos) + 1..]))
    ensures Accounted(tasks, r)
  {
    match Substring(message, K.Length(K.Todos) + 1)
    case Ok(description) => Add(tasks, NewTodo(description))
    case _ => StepResult(tasks, TodoFormatError, false)
  }

  /** The task kind a dated keyword creates. */
  function DatedKind(k: K.Keyword): Kind {
    if k == K.Deadline then Deadline else Event
  }

  /** The format error of a dated keyword. */
  function DatedFormatError(k: K.Keyword): Reply {
    if k == K.Deadline then DeadlineFormatError else EventFormatError
  }

  /**
   * The deadline and event branches: a format error when the parts are missing, a date
   * error when the task constructor refuses the date/time, otherwise the new task added.
   */
  function DatedStep(tasks: seq<Task>, message: string, k: K.Keyword, parses: string -> bool): (r: StepResult)
    requires k == K.Deadline || k == K.Events
    ensures !r.exit
    ensures !DatedArgument(message, k).Ok? ==> r == StepResult(tasks, DatedFormatError(k), false)
    ensures DatedArgument(message, k).Ok? ==>
      var (description, dateTime) := DatedArgument(message, k).value;
      r == if parses(dateTime) then Add(tasks, Task(DatedKind(k), description, false, dateTime))
           else StepResult(tasks, DateTimeError, false)
    ensures Accounted(tasks, r)
  {
    var parts := DatedArgument(message, k);
    if !parts.Ok? then StepResult(tasks, DatedFormatError(k), false)
    else
      match NewDated(DatedKind(k), parts.value.0, parts.value.1, false, parses)
      case Ok(t) => Add(tasks, t)
      case _ => StepResult(tasks, DateTimeError, false)
  }

  /** The line says bye: its keyword, after strip and lower-casing, is the exit keyword. */
  predicate SaysBye(line: string) {
    CommandWord(Strip(line)) == K.Text(K.Exit)
  }

  /**
   * One pass of the loop: strip the line, take the keyword, run its branch. Only bye ends
   * the loop, an unknown keyword shows the help and changes nothing, and every error
   * message leaves the task list as it was.
   */
  function Step(tasks: seq<Task>, line: string, parses: string -> bool): (r: StepResult)
    ensures r.exit <==> SaysBye(line)
    ensures r.exit ==> r.reply == Farewell && r.tasks == tasks
    ensures K.FromText(CommandWord(Strip(line))).None? ==> r == StepResult(tasks, Help, false)
    ensures Accounted(tasks, r)
  {
    var message := Strip(line);
    var word := CommandWord(message);
    match K.FromText(word)
    case None => StepResult(tasks, Help, false)
    case Some(k) =>
      K.TextInjective(k, K.Exit);
      Dispatch(tasks, message, k, parses)
  }

  /** The branch of the if-chain for a known keyword. */
  function Dispatch(tasks: seq<Task>, message: string, k: K.Keyword, parses: string -> bool): (r: StepResult)
    ensures r.exit <==> k == K.Exit
    ensures r.exit ==> r.reply == Farewell && r.tasks == tasks
    ensures r.reply != Help
    ensures Accounted(tasks, r)
  {
    match k
    case Exit => StepResult(tasks, Farewell, true)
    case List => StepResult(tasks, Listing(ListLines(tasks)), false)
    case Done => DoneStep(tasks, message)
    case Deadline => DatedStep(tasks, message, k, parses)
    case Events => DatedStep(tasks, message, k, parses)
    case Todos => TodoStep(tasks, message)
    case Delete => DeleteStep(tasks, message)
  }

  const NoTask: string := "You have no task."

  /**
   * The display line of a task. Events.toString is modelled in Events; the to-do and
   * deadline classes are not part of this model and are rendered the same way, with the
   * codes T and D and the word "by".
   */
  function TaskString(t: Task): (r: string)
    ensures |r| >= 7 + |t.description|
    ensures r[0] == '[' && r[2] == ']' && r[3] == '[' && r[5] == ']' && r[6] == ' '
    ensures r[1] == (match t.kind case Event => 'E' case Deadline => 'D' case ToDo => 'T')
    ensures r[4] == (if t.done then 'X' else ' ')
    ensures r[7..7 + |t.description|] == t.description
    ensures r[7 + |t.description|..] == match t.kind
      case Event => " (at: " + t.dateTime + ")"
      case Deadline => " (by: " + t.dateTime + ")"
      case ToDo => ""
  {
    Events.ToStringShape(t);
    match t.kind
    case Event => Events.ToString(t)
    case Deadline =>
      var head, tail := "[D]" + BaseString(t), " (by: " + t.dateTime + ")";
      assert |head| == 7 + |t.description| && (head + tail)[|head|..] == tail;
      head + tail
    case ToDo => "[T]" + BaseString(t)
  }

  /** Line i of a listing, numbered from 1. */
  function ListLine(t: Task, i: nat): string {
    IntToString(i + 1) + ". " + TaskString(t)
  }

  /** listTask: the single no-task line, or one numbered line per task in list order. */
  function ListLines(tasks: seq<Task>): (r: seq<string>)
    ensures tasks == [] ==> r == [NoTask]
    ensures tasks != [] ==> |r| == |tasks| && forall i :: 0 <= i < |r| ==> r[i] == ListLine(tasks[i], i)
  {
    if tasks == [] then [NoTask]
    else seq(|tasks|, i requires 0 <= i < |tasks| => ListLine(tasks[i], i))
  }
}
