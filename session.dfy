/**
 * The chat loop over a sequence of input lines: each line is one step of the interpreter,
 * and the loop stops after the step that says bye. The loop is stated for any step
 * function, so its properties are proved once; the interpreter's step is StepOf(parses).
 */
module Sessions {
  import opened Tasks
  import opened Interpreter

  /** The outcome of a run of the loop over the given lines. */
  datatype Session = Session(tasks: seq<Task>, replies: seq<Reply>, ended: bool)

  /** The interpreter's step as a function value. */
  function StepOf(parses: string -> bool): (seq<Task>, string) -> StepResult {
    (tasks: seq<Task>, line: string) => Step(tasks, line, parses)
  }

  /**
   * chat(): steps over the lines in order until one ends the loop, with its reply the
   * last. Running out of lines is not an end (the console read would throw).
   */
  function Run(step: (seq<Task>, string) -> StepResult, tasks: seq<Task>, input: seq<string>): (r: Session)
    ensures |r.replies| <= |input|
    ensures !r.ended ==> |r.replies| == |input|
    ensures r.ended ==> r.replies != []
    decreases |input|
  {
    if input == [] then Session(tasks, [], false)
    else
      var s := step(tasks, input[0]);
      if s.exit then Session(s.tasks, [s.reply], true)
      else
        var rest := Run(step, s.tasks, input[1..]);
        Session(rest.tasks, [s.reply] + rest.replies, rest.ended)
  }

  /** The lines after the one that ends the loop are never read: more input changes nothing. */
  lemma {:induction false} RunIgnoresAfterExit(step: (seq<Task>, string) -> StepResult, tasks: seq<Task>,
                                               input: seq<string>, more: seq<string>)
    requires Run(step, tasks, input).ended
    ensures Run(step, tasks, input + more) == Run(step, tasks, input)
    decreases |input|
  {
    assert (input + more)[0] == input[0];
    assert (input + more)[1..] == input[1..] + more;
    var s := step(tasks, input[0]);
    if !s.exit {
      RunIgnoresAfterExit(step, s.tasks, input[1..], more);
    }
  }

  /**
   * A run that ends stopped at a step that ended the loop: ts is the state the run had
   * reached when it read its last line, and the step from there ends the loop with the
   * last reply.
   */
  lemma {:induction false} RunEndsOnExit(step: (seq<Task>, string) -> StepResult, tasks: seq<Task>,
                                         input: seq<string>) returns (ts: seq<Task>)
    requires Run(step, tasks, input).ended
    ensures var r := Run(step, tasks, input);
      && 1 <= |r.replies| <= |input|
      && step(ts, input[|r.replies| - 1]).exit
      && step(ts, input[|r.replies| - 1]).reply == r.replies[|r.replies| - 1]
    decreases |input|
  {
    var s := step(tasks, input[0]);
    if s.exit {
      ts := tasks;
    } else {
      ts := RunEndsOnExit(step, s.tasks, input[1..]);
      var rest := Run(step, s.tasks, input[1..]);
      assert input[1..][|rest.replies| - 1] == input[|rest.replies|];
    }
  }

  /** The interpreter's step ends the loop exactly on a line that says bye. */
  lemma StepOfExitsOnBye(parses: string -> bool)
    ensures forall ts, line :: StepOf(parses)(ts, line).exit <==> SaysBye(line)
  {
    forall ts, line ensures StepOf(parses)(ts, line).exit <==> SaysBye(line) {
      assert StepOf(parses)(ts, line) == Step(ts, line, parses);
    }
  }

  /**
   * A chat that ends has read a line that says bye as its last line, and its last reply is
   * the farewell.
   */
  lemma RunEndsOnBye(parses: string -> bool, tasks: seq<Task>, input: seq<string>)
    requires Run(StepOf(parses), tasks, input).ended
    ensures var r := Run(StepOf(parses), tasks, input);
      1 <= |r.replies| <= |input|
      && SaysBye(input[|r.replies| - 1]) && r.replies[|r.replies| - 1] == Farewell
  {
    StepOfFarewells(parses);
    RunEndsOnStop(StepOf(parses), SaysBye, Farewell, tasks, input);
  }

  /** The interpreter's step that ends the loop read a line saying bye and shows the farewell. */
  lemma StepOfFarewells(parses: string -> bool)
    ensures forall ts, line :: StepOf(parses)(ts, line).exit ==>
      SaysBye(line) && StepOf(parses)(ts, line).reply == Farewell
  {
    forall ts, line | StepOf(parses)(ts, line).exit
      ensures SaysBye(line) && StepOf(parses)(ts, line).reply == Farewell
    {
      assert StepOf(parses)(ts, line) == Step(ts, line, parses);
    }
  }

  /**
   * When every step that ends the loop read a line that stops it and showed the reply last,
   * a run that ends read such a line last and showed last as its last reply.
   */
  lemma RunEndsOnStop(step: (seq<Task>, string) -> StepResult, stops: string -> bool, last: Reply,
                      tasks: seq<Task>, input: seq<string>)
    requires forall ts, line :: step(ts, line).exit ==> stops(line) && step(ts, line).reply == last
    requires Run(step, tasks, input).ended
    ensures var r := Run(step, tasks, input);
      1 <= |r.replies| <= |input| && stops(input[|r.replies| - 1]) && r.replies[|r.replies| - 1] == last
  {
    var ts := RunEndsOnExit(step, tasks, input);
  }

  /**
   * When whether a step ends the loop depends on the line alone, the run ends at the first
   * line that stops it, with one reply per line read.
   */
  lemma {:induction false} RunStopsAt(step: (seq<Task>, string) -> StepResult, stops: string -> bool,
                                      tasks: seq<Task>, input: seq<string>, i: nat)
    requires forall ts, line :: step(ts, line).exit <==> stops(line)
    requires i < |input| && stops(input[i]) && forall j :: 0 <= j < i ==> !stops(input[j])
    ensures Run(step, tasks, input).ended && |Run(step, tasks, input).replies| == i + 1
    decreases i
  {
    if i > 0 {
      assert !stops(input[0]);
      var s := step(tasks, input[0]);
      forall j | 0 <= j < i - 1 ensures !stops(input[1..][j]) {
        assert input[1..][j] == input[j + 1];
      }
      RunStopsAt(step, stops, s.tasks, input[1..], i - 1);
    }
  }

  /** Under the same condition, a run over lines of which none stops it does not end. */
  lemma {:induction false} RunWithoutStop(step: (seq<Task>, string) -> StepResult, stops: string -> bool,
                                          tasks: seq<Task>, input: seq<string>)
    requires forall ts, line :: step(ts, line).exit <==> stops(line)
    requires forall j :: 0 <= j < |input| ==> !stops(input[j])
    ensures !Run(step, tasks, input).ended
    decreases |input|
  {
    if input != [] {
      assert !stops(input[0]);
      var s := step(tasks, input[0]);
      forall j | 0 <= j < |input| - 1 ensures !stops(input[1..][j]) {
        assert input[1..][j] == input[j + 1];
      }
      RunWithoutStop(step, stops, s.tasks, input[1..]);
    }
  }

  /** A chat whose first line saying bye is line i ends there, with i + 1 replies. */
  lemma RunStopsAtFirstBye(parses: string -> bool, tasks: seq<Task>, input: seq<string>, i: nat)
    requires i < |input| && SaysBye(input[i]) && forall j :: 0 <= j < i ==> !SaysBye(input[j])
    ensures var r := Run(StepOf(parses), tasks, input); r.ended && |r.replies| == i + 1
  {
    StepOfExitsOnBye(parses);
    RunStopsAt(StepOf(parses), SaysBye, tasks, input, i);
  }

  /** A chat in which no line says bye reads every line and does not end. */
  lemma RunWithoutByeNeverEnds(parses: string -> bool, tasks: seq<Task>, input: seq<string>)
    requires forall j :: 0 <= j < |input| ==> !SaysBye(input[j])
    ensures var r := Run(StepOf(parses), tasks, input); !r.ended && |r.replies| == |input|
  {
    StepOfExitsOnBye(parses);
    RunWithoutStop(StepOf(parses), SaysBye, tasks, input);
  }

  /** A chat that says bye on its first line shows only the farewell and changes nothing. */
  lemma RunByeFirst(parses: string -> bool, tasks: seq<Task>, line: string, more: seq<string>)
    requires SaysBye(line)
    ensures Run(StepOf(parses), tasks, [line] + more) == Session(tasks, [Farewell], true)
  {
    assert StepOf(parses)(tasks, line) == Step(tasks, line, parses);
  }

  /** The run over all the input is the replies so far followed by the run from line i on. */
  predicate Resumes(step: (seq<Task>, string) -> StepResult, total: Session, tasks: seq<Task>,
                    input: seq<string>, i: nat, replies: seq<Reply>)
    requires i <= |input|
  {
    var rest := Run(step, tasks, input[i..]);
    total == Session(rest.tasks, replies + rest.replies, rest.ended)
  }

  /**
   * A run read up to line i, with the replies so far, goes on with line i: it ends there
   * when that step ends the loop, and otherwise continues from the state that step left.
   */
  lemma RunResumes(step: (seq<Task>, string) -> StepResult, tasks: seq<Task>, input: seq<string>, i: nat,
                   replies: seq<Reply>, total: Session)
    requires i < |input| && Resumes(step, total, tasks, input, i, replies)
    ensures var s := step(tasks, input[i]);
      s.exit ==> total == Session(s.tasks, replies + [s.reply], true)
    ensures var s := step(tasks, input[i]);
      !s.exit ==> Resumes(step, total, s.tasks, input, i + 1, replies + [s.reply])
  {
    assert input[i..][0] == input[i] && input[i..][1..] == input[i + 1..];
    var s := step(tasks, input[i]);
    if !s.exit {
      var rest := Run(step, s.tasks, input[i + 1..]);
      assert replies + ([s.reply] + rest.replies) == (replies + [s.reply]) + rest.replies;
    }
  }
}
