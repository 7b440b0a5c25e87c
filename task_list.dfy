/**
 * The task list the packaged commands work on. TaskList.java is not part of this model;
 * this class gives markDone the behaviour of the monolithic interpreter's markDone: the
 * task at position n - 1 is marked in place, and a position outside the list throws
 * IndexOutOfBoundsException. Its contract ties it to Interpreter.MarkStep.
 */
module TaskLists {
  import opened Lang
  import opened Tasks
  import opened Interpreter

  class TaskList {
    var tasks: seq<Task>

    constructor(tasks: seq<Task>)
      ensures this.tasks == tasks
    {
      this.tasks := tasks;
    }

    /**
     * markDone(n): Ok with whether the task was not done before, or IndexOutOfBounds with
     * the list unchanged.
     */
    method MarkDone(n: int) returns (r: Try<bool>)
      modifies this
      ensures r == IndexOutOfBounds <==> !(1 <= n <= |old(tasks)|)
      ensures r == IndexOutOfBounds ==> tasks == old(tasks)
      ensures r.Ok? ==> tasks == old(tasks)[n - 1 := old(tasks)[n - 1].(done := true)]
      ensures r.Ok? ==> r.value == !old(tasks)[n - 1].done
      ensures r.Ok? || r == IndexOutOfBounds
      ensures tasks == MarkStep(old(tasks), n).tasks
      ensures r == IndexOutOfBounds <==> MarkStep(old(tasks), n).reply == DoneIndexError
    {
      if 1 <= n <= |tasks| {
        var (changed, t) := Tasks.MarkDone(tasks[n - 1]);
        tasks := tasks[n - 1 := t];
        r := Ok(changed);
      } else {
        r := IndexOutOfBounds;
      }
    }
  }
}
