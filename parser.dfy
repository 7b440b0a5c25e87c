/**
 * Parser.parseChat: classifies a line by its first space-separated word, lower-cased.
 * The packaged parser (duke.command.Parser) and the top-level Parser are the same code
 * line for line; this one function models both.
 */
module CommandParser {
  import opened Lang
  import opened Strings
  import K = Keywords

  /** What parseChat gives back or throws. */
  datatype Parsed =
    | Exit                              // null: the session ends
    | ListCommand
    | DoneCommand(message: string)
    | DeadlineCommand(message: string)
    | EventCommand(message: string)
    | TodoCommand(message: string)
    | DeleteCommand(message: string)
    | NotParsable(reason: string)       // DukeException
    | NoFirstToken                      // split(" ") gave an empty array, so [0] throws

  const NotParsableReason: string := "Command not parsable"

  /** The command object built for a keyword, from the whole message. */
  function CommandFor(k: K.Keyword, message: string): Parsed {
    match k
    case Exit => Exit
    case List => ListCommand
    case Done => DoneCommand(message)
    case Deadline => DeadlineCommand(message)
    case Events => EventCommand(message)
    case Todos => TodoCommand(message)
    case Delete => DeleteCommand(message)
  }

  /** The same outcome with the carried message erased: the kind of command. */
  function Shape(p: Parsed): Parsed {
    match p
    case DoneCommand(_) => DoneCommand("")
    case DeadlineCommand(_) => DeadlineCommand("")
    case EventCommand(_) => EventCommand("")
    case TodoCommand(_) => TodoCommand("")
    case DeleteCommand(_) => DeleteCommand("")
    case _ => p
  }

  /** The keyword word of a line: the text before its first space, lower-cased. */
  function Word(message: string): string {
    Lower(TakeUntilSpace(message))
  }

  /** A non-empty line of spaces only: split(" ") gives it no first element. */
  predicate Blank(message: string) {
    message != [] && AllSpaces(message)
  }

  /** parseChat(message). */
  function ParseChat(message: string): (r: Parsed)
    ensures r == NoFirstToken <==> Blank(message)
    ensures r.NotParsable? <==> !Blank(message) && K.FromText(Word(message)).None?
    ensures r.NotParsable? ==> r.reason == NotParsableReason
    ensures r == Exit <==> !Blank(message) && Word(message) == K.Text(K.Exit)
    ensures r.DoneCommand? || r.DeadlineCommand? || r.EventCommand? || r.TodoCommand? || r.DeleteCommand?
            ==> r.message == message
  {
    var first := FirstToken(message);
    if first.None? then NoFirstToken
    else
      assert Lower(first.value) == Word(message);
      Classify(Lower(first.value), message)
  }

  /** The if-chain of parseChat on the lower-cased first word. */
  function Classify(word: string, message: string): (r: Parsed)
    ensures r.NotParsable? <==> K.FromText(word).None?
    ensures r.NotParsable? ==> r.reason == NotParsableReason
    ensures r == Exit <==> word == K.Text(K.Exit)
    ensures r.DoneCommand? || r.DeadlineCommand? || r.EventCommand? || r.TodoCommand? || r.DeleteCommand?
            ==> r.message == message
    ensures r != NoFirstToken
  {
    match K.FromText(word)
    case None => NotParsable(NotParsableReason)
    case Some(k) =>
      K.TextInjective(k, K.Exit);
      CommandFor(k, message)
  }

  /** The outcome depends on the line only through its lower-cased first word. */
  lemma ParseDependsOnlyOnWord(m1: string, m2: string)
    requires !Blank(m1) && !Blank(m2) && Word(m1) == Word(m2)
    ensures Shape(ParseChat(m1)) == Shape(ParseChat(m2))
  {
    assert ParseChat(m1) == Classify(Word(m1), m1);
    assert ParseChat(m2) == Classify(Word(m1), m2);
    ClassifyShape(Word(m1), m1, m2);
  }

  lemma ClassifyShape(word: string, m1: string, m2: string)
    ensures Shape(Classify(word, m1)) == Shape(Classify(word, m2))
  {
    match K.FromText(word)
    case None =>
    case Some(k) =>
      assert Shape(CommandFor(k, m1)) == Shape(CommandFor(k, m2));
  }

  /**
   * A keyword written in any letter case, followed by a space and anything at all or by
   * nothing, gives that keyword's command built from the whole line; the payload is never
   * looked at.
   */
  lemma ParseByKeyword(k: K.Keyword, word: string, payload: string)
    requires Lower(word) == K.Text(k)
    ensures ParseChat(word + " " + payload) == CommandFor(k, word + " " + payload)
    ensures ParseChat(word) == CommandFor(k, word)
  {
    K.TextIsLowerWord(k);
    LowerKeepsSpaces(word);
    K.FromTextOfText(k);
    TakeUntilSpaceAfterWord(word, payload);
    TakeUntilSpaceOfWord(word);
    var line := word + " " + payload;
    assert line[0] == word[0] != ' ';
    assert word[0] != ' ';
  }

  /** Upper-casing a line does not change which command it is. */
  lemma ParseCaseInsensitive(message: string)
    ensures Shape(ParseChat(Upper(message))) == Shape(ParseChat(message))
  {
    UpperKeepsSpaces(message);
    var up := Upper(message);
    assert Blank(up) <==> Blank(message);
    if !Blank(message) {
      UpperTakeUntilSpace(message);
      LowerOfUpper(TakeUntilSpace(message));
      assert Word(up) == Word(message);
      ParseDependsOnlyOnWord(up, message);
    }
  }

  /** Each keyword yields its own kind of command. */
  lemma DistinctCommandKinds(k1: K.Keyword, k2: K.Keyword, m1: string, m2: string)
    requires k1 != k2
    ensures Shape(CommandFor(k1, m1)) != Shape(CommandFor(k2, m2))
  {
  }

  /** A line with a leading space has an empty first word, which is no keyword. */
  lemma ParseLeadingSpace(message: string)
    requires |message| > 0 && message[0] == ' ' && !AllSpaces(message)
    ensures ParseChat(message) == NotParsable(NotParsableReason)
  {
    assert Word(message) == [];
  }

  /** A first word that is no keyword in any letter case makes the line not parsable. */
  lemma ParseUnknownWord(word: string, payload: string)
    requires word != [] && ' ' !in word && K.FromText(Lower(word)).None?
    ensures ParseChat(word + " " + payload) == NotParsable(NotParsableReason)
  {
    var line := word + " " + payload;
    TakeUntilSpaceAfterWord(word, payload);
    assert line[0] == word[0];
    assert !Blank(line);
  }
}
