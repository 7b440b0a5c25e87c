/** The constant table of command keywords, their separators and their save codes. */
module Keywords {
  import opened Lang
  import opened Strings

  datatype Keyword = Exit | List | Done | Deadline | Events | Todos | Delete

  /** The enum constants in declaration order. */
  const AllKeywords: seq<Keyword> := [Exit, List, Done, Deadline, Events, Todos, Delete]

  predicate IsLowerLetters(s: string) {
    forall i :: 0 <= i < |s| ==> 'a' <= s[i] <= 'z'
  }

  /** getKeyword(): the word a command starts with. */
  function Text(k: Keyword): (s: string)
    ensures s != [] && IsLowerLetters(s)
  {
    match k
    case Exit => "bye"
    case List => "list"
    case Done => "done"
    case Deadline => "deadline"
    case Events => "event"
    case Todos => "todo"
    case Delete => "delete"
  }

  /** getSeparator(): the text between a task's description and its date/time. */
  function Separator(k: Keyword): string {
    match k
    case Deadline => " /by "
    case Events => " /at "
    case _ => ""
  }

  /** getSaveWord(): the type code written first on a saved task's line. */
  function SaveWord(k: Keyword): string {
    match k
    case Deadline => "D"
    case Events => "E"
    case Todos => "T"
    case _ => ""
  }

  /** length(): the length of the keyword. */
  function Length(k: Keyword): nat {
    |Text(k)|
  }

  /** The keyword whose text is s, found by comparing s with each keyword in turn. */
  function FromText(s: string): (r: Option<Keyword>)
    ensures r.Some? ==> Text(r.value) == s
    ensures r.None? <==> forall k :: Text(k) != s
  {
    if s == Text(Exit) then Some(Exit)
    else if s == Text(List) then Some(List)
    else if s == Text(Done) then Some(Done)
    else if s == Text(Deadline) then Some(Deadline)
    else if s == Text(Events) then Some(Events)
    else if s == Text(Todos) then Some(Todos)
    else if s == Text(Delete) then Some(Delete)
    else None
  }

  /** Keyword text is already lower case and has no space in it. */
  lemma TextIsLowerWord(k: Keyword)
    ensures Lower(Text(k)) == Text(k)
    ensures ' ' !in Text(k)
    ensures !IsWhitespace(Text(k)[0]) && !IsWhitespace(Text(k)[|Text(k)| - 1])
  {
    var s := Text(k);
    assert forall i :: 0 <= i < |s| ==> LowerChar(s[i]) == s[i];
  }

  /** Exactly seven keywords, pairwise distinct in text. */
  lemma SevenDistinctKeywords()
    ensures |AllKeywords| == 7
    ensures forall k :: k in AllKeywords
    ensures forall i, j :: 0 <= i < j < |AllKeywords| ==> Text(AllKeywords[i]) != Text(AllKeywords[j])
  {
    forall k ensures k in AllKeywords {
      match k
      case Exit => assert AllKeywords[0] == k;
      case List => assert AllKeywords[1] == k;
      case Done => assert AllKeywords[2] == k;
      case Deadline => assert AllKeywords[3] == k;
      case Events => assert AllKeywords[4] == k;
      case Todos => assert AllKeywords[5] == k;
      case Delete => assert AllKeywords[6] == k;
    }
    forall i, j | 0 <= i < j < |AllKeywords|
      ensures Text(AllKeywords[i]) != Text(AllKeywords[j])
    {
      assert AllKeywords[i] != AllKeywords[j];
      TextInjective(AllKeywords[i], AllKeywords[j]);
    }
  }

  /** Two keywords with the same text are the same keyword. */
  lemma TextInjective(k1: Keyword, k2: Keyword)
    ensures Text(k1) == Text(k2) ==> k1 == k2
  {
    if Text(k1) == Text(k2) {
      assert |Text(k1)| == |Text(k2)| && Text(k1)[0] == Text(k2)[0];
    }
  }

  /** Looking a keyword's own text up gives that keyword back. */
  lemma FromTextOfText(k: Keyword)
    ensures FromText(Text(k)) == Some(k)
  {
  }

  /** The three task keywords carry their separators and distinct save codes. */
  lemma TaskKeywordTable()
    ensures Separator(Deadline) == " /by " && SaveWord(Deadline) == "D"
    ensures Separator(Events) == " /at " && SaveWord(Events) == "E"
    ensures Separator(Todos) == "" && SaveWord(Todos) == "T"
    ensures SaveWord(Deadline) != SaveWord(Events) && SaveWord(Events) != SaveWord(Todos) && SaveWord(Todos) != SaveWord(Deadline)
  {
  }

  /** The one-argument constructor leaves separator and save code empty. */
  lemma PlainKeywordsHaveNoCodes(k: Keyword)
    requires k == Exit || k == List || k == Done || k == Delete
    ensures Separator(k) == "" && SaveWord(k) == ""
  {
  }

  /** The payload offsets the interpreter uses, keyword length plus the one space. */
  lemma PayloadOffsets()
    ensures Length(Done) + 1 == 5 && Length(Delete) + 1 == 7 && Length(Todos) + 1 == 5
    ensures Length(Deadline) + 1 == 9 && Length(Events) + 1 == 6
  {
  }
}
