/**
 * The task entity the interpreter stores. The Task class itself and its subclasses
 * ToDos and Deadlines are not part of this model; this module gives them the
 * behaviour their callers rely on.
 */
module Tasks {
  import opened Lang

  datatype Kind = ToDo | Deadline | Event

  /** A task: its kind, its description, whether it is done, and its date/time text
      (empty for a to-do). */
  datatype Task = Task(kind: Kind, description: string, done: bool, dateTime: string)

  /**
   * The constructor of a dated task. The date/time is checked by a parser this model
   * does not contain, passed in as `parses`; when it refuses, the constructor throws
   * ParseException.
   */
  function NewDated(kind: Kind, description: string, dateTime: string, done: bool,
                    parses: string -> bool): (r: Try<Task>)
    requires kind != ToDo
    ensures r.Ok? <==> parses(dateTime)
    ensures r.Ok? ==> r.value.kind == kind && r.value.description == description
    ensures r.Ok? ==> r.value.done == done && r.value.dateTime == dateTime
    ensures !r.Ok? ==> r == DateParse
  {
    if parses(dateTime) then Ok(Task(kind, description, done, dateTime)) else DateParse
  }

  /** new ToDos(description): a to-do that is not done. */
  function NewTodo(description: string): Task {
    Task(ToDo, description, false, "")
  }

  /**
   * Task.markDone(): sets the done flag and answers whether it was clear before, so
   * the caller can choose between "marked done" and "already done".
   */
  function MarkDone(t: Task): (r: (bool, Task)) {
    (!t.done, t.(done := true))
  }

  /** A second markDone right after a first reports that nothing changed. */
  lemma MarkDoneTwice(t: Task)
    ensures MarkDone(t).1.done && MarkDone(t).1.description == t.description
    ensures MarkDone(t).0 == !t.done
    ensures !MarkDone(MarkDone(t).1).0 && MarkDone(MarkDone(t).1).1 == MarkDone(t).1
  {
  }

  /** The status mark shown between brackets. */
  function StatusIcon(t: Task): char {
    if t.done then 'X' else ' '
  }

  /** Task.toString(): "[<status>] <description>". */
  function BaseString(t: Task): string {
    "[" + [StatusIcon(t)] + "] " + t.description
  }

  /** The done field of a saved line. */
  function DoneFlag(done: bool): (r: string)
    ensures r == "1" <==> done
    ensures r == "0" <==> !done
  {
    if done then "1" else "0"
  }
}
