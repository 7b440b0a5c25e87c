/**
 * The monolithic chatbot (Duke.java): an object holding the task list, whose methods
 * append to it, mark a task in place and remove a task, and whose chat loop reads lines
 * until one says bye. Each method is proved against the step functions of Interpreter.
 */
module DukeApp {
  import opened Lang
  import opened Strings
  import opened Tasks
  import opened Interpreter
  import K = Keywords
  import Events
  import opened InterpreterFacts
  import opened Sessions

  class Duke {
    /** taskList: the tasks in the order they were added. */
    var taskList: seq<Task>
    /** The date/time check of the task constructors, which this model does not contain. */
    const parses: string -> bool

    /** Duke(): an empty task list. The console scanner is not modelled. */
    constructor(parses: string -> bool)
      ensures taskList == [] && this.parses == parses
    {
      taskList := [];
      this.parses := parses;
    }

    /** addTask(task): appends the task and reports it with the new size. */
    method AddTask(task: Task) returns (reply: Reply)
      modifies this
      ensures taskList == old(taskList) + [task]
      ensures reply == Added(task, |taskList|)
    {
      taskList := taskList + [task];
      reply := Added(task, |taskList|);
    }

    /** addEvent(s, dateTime): a new event appended, or the date error and no change. */
    method AddEvent(s: string, dateTime: string) returns (reply: Reply)
      modifies this
      ensures parses(dateTime) ==> taskList == old(taskList) + [Task(Event, s, false, dateTime)]
      ensures parses(dateTime) ==> reply == Added(Task(Event, s, false, dateTime), |taskList|)
      ensures !parses(dateTime) ==> taskList == old(taskList) && reply == DateTimeError
    {
      var created := Events.New(s, dateTime, parses);
      if created.Ok? {
        reply := AddTask(created.value);
      } else {
        reply := DateTimeError;
      }
    }

    /** addDeadline(s, dateTime): a new deadline appended, or the date error and no change. */
    method AddDeadline(s: string, dateTime: string) returns (reply: Reply)
      modifies this
      ensures parses(dateTime) ==> taskList == old(taskList) + [Task(Deadline, s, false, dateTime)]
      ensures parses(dateTime) ==> reply == Added(Task(Deadline, s, false, dateTime), |taskList|)
      ensures !parses(dateTime) ==> taskList == old(taskList) && reply == DateTimeError
    {
      var created := NewDated(Deadline, s, dateTime, false, parses);
      if created.Ok? {
        reply := AddTask(created.value);
      } else {
        reply := DateTimeError;
      }
    }

    /** addTodo(s): a new to-do appended. */
    method AddTodo(s: string) returns (reply: Reply)
      modifies this
      ensures taskList == old(taskList) + [NewTodo(s)]
      ensures reply == Added(NewTodo(s), |taskList|)
    {
      reply := AddTask(NewTodo(s));
    }

    /** listTask(): the lines shown for the current list; nothing changes. */
    method ListTask() returns (lines: seq<string>)
      ensures taskList == [] ==> lines == [NoTask]
      ensures taskList != [] ==> |lines| == |taskList|
      ensures forall i :: 0 <= i < |taskList| ==> lines[i] == ListLine(taskList[i], i)
    {
      lines := ListLines(taskList);
    }

    /**
     * markDone(n): taskList.get(n - 1), which throws for a position outside the list (the
     * chat loop shows the done index error), then Task.markDone on it in place.
     */
    method MarkDone(n: int) returns (reply: Reply)
      modifies this
      ensures StepResult(taskList, reply, false) == MarkStep(old(taskList), n)
    {
      if 1 <= n <= |taskList| {
        var (success, task) := Tasks.MarkDone(taskList[n - 1]);
        taskList := taskList[n - 1 := task];
        if success {
          reply := MarkedDone(task);
        } else {
          reply := AlreadyDone(task);
        }
      } else {
        reply := DoneIndexError;
      }
    }

    /** deleteTask(n): taskList.remove(n - 1), which throws for a position outside the list. */
    method DeleteTask(n: int) returns (reply: Reply)
      modifies this
      ensures StepResult(taskList, reply, false) == RemoveStep(old(taskList), n)
    {
      if 1 <= n <= |taskList| {
        var task := taskList[n - 1];
        taskList := taskList[..n - 1] + taskList[n..];
        reply := Removed(task, |taskList|);
      } else {
        reply := DeleteIndexError;
      }
    }

    /**
     * One pass of the chat loop: the stripped line, its keyword, and the if-chain over the
     * keywords, each exception caught as its own message.
     */
    method Handle(line: string) returns (reply: Reply, exit: bool)
      modifies this
      ensures StepResult(taskList, reply, exit) == Step(old(taskList), line, parses)
    {
      var message := Strip(line);
      var command := CommandWord(message);
      var keyword := K.FromText(command);
      match keyword
      case None =>
        reply, exit := Help, false;
      case Some(k) =>
        StepByKeyword(taskList, line, k, parses);
        reply, exit := HandleKeyword(message, k);
    }

    /** The branch of the if-chain for the keyword the command equals. */
    method HandleKeyword(message: string, k: K.Keyword) returns (reply: Reply, exit: bool)
      modifies this
      ensures StepResult(taskList, reply, exit) == Dispatch(old(taskList), message, k, parses)
    {
      exit := false;
      match k
      case Exit =>
        reply, exit := Farewell, true;
      case List =>
        var lines := ListTask();
        reply := Listing(lines);
      case Done =>
        reply := HandleDone(message);
      case Deadline =>
        reply := HandleDated(message, K.Deadline);
      case Events =>
        reply := HandleDated(message, K.Events);
      case Todos =>
        reply := HandleTodo(message);
      case Delete =>
        reply := HandleDelete(message);
    }

    /** The done branch: markDone(parseInt(message.substring(5))). */
    method HandleDone(message: string) returns (reply: Reply)
      modifies this
      ensures StepResult(taskList, reply, false) == DoneStep(old(taskList), message)
    {
      var argument := IntArgument(message, K.Done);
      match argument
      case Ok(n) => reply := MarkDone(n);
      case NumberFormat => reply := DoneFormatError;
      case _ => reply := DoneIndexError;
    }

    /** The delete branch: deleteTask(parseInt(message.substring(7))). */
    method HandleDelete(message: string) returns (reply: Reply)
      modifies this
      ensures StepResult(taskList, reply, false) == DeleteStep(old(taskList), message)
    {
      var argument := IntArgument(message, K.Delete);
      match argument
      case Ok(n) => reply := DeleteTask(n);
      case NumberFormat => reply := DeleteFormatError;
      case _ => reply := DeleteIndexError;
    }

    /** The todo branch: addTodo(message.substring(5)). */
    method HandleTodo(message: string) returns (reply: Reply)
      modifies this
      ensures StepResult(taskList, reply, false) == TodoStep(old(taskList), message)
    {
      var description := Substring(message, K.Length(K.Todos) + 1);
      if description.Ok? {
        reply := AddTodo(description.value);
      } else {
        reply := TodoFormatError;
      }
    }

    /** The deadline and event branches: split on the separator, then addDeadline or addEvent. */
    method HandleDated(message: string, k: K.Keyword) returns (reply: Reply)
      requires k == K.Deadline || k == K.Events
      modifies this
      ensures StepResult(taskList, reply, false) == DatedStep(old(taskList), message, k, parses)
    {
      var parts := DatedArgument(message, k);
      if !parts.Ok? {
        reply := DatedFormatError(k);
      } else if k == K.Deadline {
        reply := AddDeadline(parts.value.0, parts.value.1);
      } else {
        reply := AddEvent(parts.value.0, parts.value.1);
      }
    }

    /**
     * chat(): reads the lines in order and handles each until one says bye, then shows the
     * farewell. When the lines run out first the run has not ended.
     */
    method Chat(input: seq<string>) returns (replies: seq<Reply>, ended: bool)
      modifies this
      ensures Session(taskList, replies, ended) == Run(StepOf(parses), old(taskList), input)
    {
      ghost var total := Run(StepOf(parses), taskList, input);
      replies, ended := [], false;
      var i := 0;
      while i < |input| && !ended
        invariant 0 <= i <= |input|
        invariant !ended ==> Resumes(StepOf(parses), total, taskList, input, i, replies)
        invariant ended ==> total == Session(taskList, replies, true)
        decreases |input| - i
      {
        RunResumes(StepOf(parses), taskList, input, i, replies, total);
        assert StepOf(parses)(taskList, input[i]) == Step(taskList, input[i], parses);
        var reply, exit := Handle(input[i]);
        replies := replies + [reply];
        ended := exit;
        i := i + 1;
      }
    }
  }
}
