/** Events: the task kind with a scheduled date/time, its display line and its saved line. */
module Events {
  import opened Lang
  import opened Strings
  import opened Tasks
  import K = Keywords

  /** The field separator of a saved line. */
  const FieldSeparator: string := " | "

  /** Events(task, dateTime): delegates to the dated Task constructor, not done. */
  function New(task: string, dateTime: string, parses: string -> bool): (r: Try<Task>)
    ensures r.Ok? <==> parses(dateTime)
    ensures r.Ok? ==> r.value == Task(Event, task, false, dateTime)
    ensures !r.Ok? ==> r == DateParse
  {
    NewDated(Event, task, dateTime, false, parses)
  }

  /** Events(task, dateTime, done): the same, carrying the given done flag. */
  function NewWithDone(task: string, dateTime: string, done: bool, parses: string -> bool): (r: Try<Task>)
    ensures r.Ok? <==> parses(dateTime)
    ensures r.Ok? ==> r.value == Task(Event, task, done, dateTime)
    ensures !r.Ok? ==> r == DateParse
  {
    NewDated(Event, task, dateTime, done, parses)
  }

  /** toString(): "[E]", the base rendering, then " (at: <dateTime>)". */
  function ToString(t: Task): string {
    "[E]" + BaseString(t) + " (at: " + t.dateTime + ")"
  }

  /** The display line opens with the kind and status marks and closes with the date/time. */
  lemma ToStringShape(t: Task)
    ensures var r := ToString(t);
      && r[..4] == "[E]["
      && r[4] == (if t.done then 'X' else ' ')
      && r[5..7] == "] "
      && r[7..7 + |t.description|] == t.description
      && r[7 + |t.description|..] == " (at: " + t.dateTime + ")"
  {
  }

  /** The fields after the type code: description, done flag and date/time, each after a separator. */
  function SavedRest(t: Task): string {
    t.description + FieldSeparator + DoneFlag(t.done) + FieldSeparator + t.dateTime
  }

  /** saveOutput() as written: the type code written is "D", the deadline's. */
  function SaveOutput(t: Task): string {
    "D" + FieldSeparator + SavedRest(t)
  }

  /** saveOutput() as its documentation and the keyword table intend: type code "E". */
  function SaveOutputCorrected(t: Task): string {
    K.SaveWord(K.Events) + FieldSeparator + SavedRest(t)
  }

  /** A field without the separator's bar, so no match of the separator can start inside it. */
  predicate PlainField(s: string) {
    '|' !in s
  }

  lemma {:induction false} SavedFields(code: string, t: Task)
    requires PlainField(code) && PlainField(t.description) && PlainField(t.dateTime)
    requires t.dateTime != []
    ensures Split(code + FieldSeparator + SavedRest(t), FieldSeparator)
            == [code, t.description, DoneFlag(t.done), t.dateTime]
  {
    var fields := [code, t.description, DoneFlag(t.done), t.dateTime];
    assert Join(fields, FieldSeparator) == code + FieldSeparator + SavedRest(t)
    by {
      assert fields[1..] == [t.description, DoneFlag(t.done), t.dateTime];
      assert fields[2..] == [DoneFlag(t.done), t.dateTime];
      assert fields[3..] == [t.dateTime];
      assert Join(fields[2..], FieldSeparator) == DoneFlag(t.done) + FieldSeparator + t.dateTime;
      assert Join(fields[1..], FieldSeparator)
        == t.description + FieldSeparator + (DoneFlag(t.done) + FieldSeparator + t.dateTime);
    }
    SplitOfJoin(fields, FieldSeparator);
  }

  /**
   * The saved line of an event has exactly four fields: the type code, the description,
   * the done flag ("1" exactly when done) and the date/time, when neither text holds '|'.
   */
  lemma SaveOutputFields(t: Task)
    requires PlainField(t.description) && PlainField(t.dateTime) && t.dateTime != []
    ensures Split(SaveOutput(t), FieldSeparator) == ["D", t.description, DoneFlag(t.done), t.dateTime]
    ensures Split(SaveOutput(t), FieldSeparator)[2] == "1" <==> t.done
  {
    SavedFields("D", t);
  }

  /** The first field of any line beginning with a code free of '|' is that code. */
  lemma FirstFieldIsCode(code: string, rest: string)
    requires code != [] && PlainField(code)
    ensures var p := Split(code + FieldSeparator + rest, FieldSeparator); |p| > 0 && p[0] == code
  {
    var s := code + FieldSeparator + rest;
    FindAfterMarkerFree(code, FieldSeparator, rest);
    assert s[..|code|] == code;
    var pieces := Pieces(s, FieldSeparator);
    assert pieces[0] == code;
  }

  /**
   * As written, an event's saved line carries the deadline's type code in its first
   * field, whatever the event: a reader of the line cannot tell it from a deadline.
   */
  lemma SavedEventReadsAsDeadline(t: Task)
    ensures var p := Split(SaveOutput(t), FieldSeparator);
      |p| > 0 && p[0] == K.SaveWord(K.Deadline) && p[0] != K.SaveWord(K.Events)
  {
    FirstFieldIsCode("D", SavedRest(t));
  }

  /**
   * Corrected: the first field of an event's saved line is the events save code "E",
   * which differs from the deadline's, and the line has its four fields.
   */
  lemma SaveOutputCorrectedFields(t: Task)
    ensures var p := Split(SaveOutputCorrected(t), FieldSeparator);
      |p| > 0 && p[0] == K.SaveWord(K.Events) && p[0] != K.SaveWord(K.Deadline)
    ensures PlainField(t.description) && PlainField(t.dateTime) && t.dateTime != [] ==>
      Split(SaveOutputCorrected(t), FieldSeparator) == ["E", t.description, DoneFlag(t.done), t.dateTime]
  {
    FirstFieldIsCode(K.SaveWord(K.Events), SavedRest(t));
    if PlainField(t.description) && PlainField(t.dateTime) && t.dateTime != [] {
      SavedFields(K.SaveWord(K.Events), t);
    }
  }
}
