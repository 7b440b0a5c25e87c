/**
 * The java.lang.String operations the interpreter relies on: strip, ASCII case
 * mapping, substring and split on a literal separator.
 */
module Strings {
  import opened Lang

  /** Character.isWhitespace: the Unicode space, line and paragraph separators other
      than the non-breaking ones, plus the ASCII controls HT, LF, VT, FF, CR and FS..US. */
  predicate IsWhitespace(c: char) {
    || c == ' ' || c == '\t' || c == '\n' || c == '\U{0B}' || c == '\U{0C}' || c == '\r'
    || ('\U{1C}' <= c <= '\U{1F}')
    || c == '\U{1680}' || ('\U{2000}' <= c <= '\U{2006}') || ('\U{2008}' <= c <= '\U{200A}')
    || c == '\U{2028}' || c == '\U{2029}' || c == '\U{205F}' || c == '\U{3000}'
  }

  /** No leading and no trailing whitespace. */
  predicate IsStripped(s: string) {
    s == [] || (!IsWhitespace(s[0]) && !IsWhitespace(s[|s| - 1]))
  }

  /** Drops leading whitespace: what is left is a suffix that does not start with whitespace. */
  function TrimLeft(s: string): (r: string)
    ensures |r| <= |s| && r == s[|s| - |r|..]
    ensures r == [] || !IsWhitespace(r[0])
    ensures forall k :: 0 <= k < |s| - |r| ==> IsWhitespace(s[k])
  {
    if s == [] || !IsWhitespace(s[0]) then s else TrimLeft(s[1..])
  }

  /** Drops trailing whitespace: what is left is a prefix that does not end with whitespace. */
  function TrimRight(s: string): (r: string)
    ensures |r| <= |s| && r == s[..|r|]
    ensures r == [] || !IsWhitespace(r[|r| - 1])
    ensures forall k :: |r| <= k < |s| ==> IsWhitespace(s[k])
  {
    if s == [] || !IsWhitespace(s[|s| - 1]) then s else TrimRight(s[..|s| - 1])
  }

  /** String.strip(). */
  function Strip(s: string): (r: string)
    ensures IsStripped(r)
    ensures |r| <= |s|
    ensures IsStripped(s) ==> r == s
  {
    TrimRight(TrimLeft(s))
  }

  /**
   * strip() removes whitespace at the two ends and nothing else: the result is the slice
   * of s between a prefix and a suffix made only of whitespace.
   */
  lemma StripRemovesEdges(s: string)
    ensures exists i, j ::
      && 0 <= i <= j <= |s| && Strip(s) == s[i..j]
      && (forall k :: 0 <= k < i ==> IsWhitespace(s[k]))
      && (forall k :: j <= k < |s| ==> IsWhitespace(s[k]))
  {
    var i, j := StripBounds(s);
  }

  /** The two ends strip() cuts at. */
  lemma StripBounds(s: string) returns (i: nat, j: nat)
    ensures i <= j <= |s| && Strip(s) == s[i..j]
    ensures forall k :: 0 <= k < i ==> IsWhitespace(s[k])
    ensures forall k :: j <= k < |s| ==> IsWhitespace(s[k])
  {
    var l := TrimLeft(s);
    var r := TrimRight(l);
    i := |s| - |l|;
    j := i + |r|;
    assert l == s[i..];
    assert r == l[..|r|];
    assert l[..|r|] == s[i..j];
    forall k | j <= k < |s| ensures IsWhitespace(s[k]) {
      assert |r| <= k - i < |l|;
      assert s[k] == l[k - i];
    }
  }

  /** Lower-casing of one character; only 'A'..'Z' change. */
  function LowerChar(c: char): char {
    if 'A' <= c <= 'Z' then (c as int + 32) as char else c
  }

  /** Upper-casing of one character; only 'a'..'z' change. */
  function UpperChar(c: char): char {
    if 'a' <= c <= 'z' then (c as int - 32) as char else c
  }

  /** String.toLowerCase() on the ASCII letters. */
  function Lower(s: string): string {
    seq(|s|, i requires 0 <= i < |s| => LowerChar(s[i]))
  }

  /** String.toUpperCase() on the ASCII letters. */
  function Upper(s: string): string {
    seq(|s|, i requires 0 <= i < |s| => UpperChar(s[i]))
  }

  /**
   * Case mapping keeps the length, leaves no letter of the other case, and changes a
   * character exactly when it is an ASCII letter of the other case.
   */
  lemma CaseMapping(s: string)
    ensures |Lower(s)| == |s| && |Upper(s)| == |s|
    ensures forall i :: 0 <= i < |s| ==> !('A' <= Lower(s)[i] <= 'Z') && !('a' <= Upper(s)[i] <= 'z')
    ensures forall i :: 0 <= i < |s| ==> (Lower(s)[i] == s[i] <==> !('A' <= s[i] <= 'Z'))
    ensures forall i :: 0 <= i < |s| ==> (Upper(s)[i] == s[i] <==> !('a' <= s[i] <= 'z'))
  {
  }

  /** Lower-casing forgets the case a string was written in. */
  lemma LowerOfUpper(s: string)
    ensures Lower(Upper(s)) == Lower(s)
  {
    assert forall i :: 0 <= i < |s| ==> LowerChar(UpperChar(s[i])) == LowerChar(s[i]);
  }

  /** String.substring(from): throws IndexOutOfBoundsException when from exceeds the length. */
  function Substring(s: string, from: nat): (r: Try<string>)
    ensures r.Ok? <==> from <= |s|
    ensures r.Ok? ==> s == s[..from] + r.value
    ensures !r.Ok? ==> r == IndexOutOfBounds
  {
    if from <= |s| then Ok(s[from..]) else IndexOutOfBounds
  }

  /** sep occurs in s starting at position i. */
  predicate OccursAt(s: string, sep: string, i: int) {
    0 <= i && i + |sep| <= |s| && s[i..i + |sep|] == sep
  }

  /** sep occurs nowhere in s. */
  predicate Free(s: string, sep: string) {
    forall j :: 0 <= j <= |s| ==> !OccursAt(s, sep, j)
  }

  /** The first position where sep occurs in s, as a left-to-right matcher finds it. */
  function Find(s: string, sep: string): (r: Option<nat>)
    requires sep != []
    ensures r.Some? ==> OccursAt(s, sep, r.value)
    ensures r.Some? ==> forall j :: 0 <= j < r.value ==> !OccursAt(s, sep, j)
    ensures r.None? <==> Free(s, sep)
    decreases |s|
  {
    if |s| < |sep| then None
    else if s[..|sep|] == sep then Some(0)
    else
      var rest := Find(s[1..], sep);
      assert !OccursAt(s, sep, 0);
      forall j | 1 <= j <= |s| ensures OccursAt(s, sep, j) <==> OccursAt(s[1..], sep, j - 1) {
        OccursShift(s, sep, j);
      }
      match rest
      case None => None
      case Some(i) => Some(i + 1)
  }

  lemma OccursShift(s: string, sep: string, j: int)
    requires 1 <= j <= |s|
    ensures OccursAt(s, sep, j) <==> OccursAt(s[1..], sep, j - 1)
  {
    if j + |sep| <= |s| {
      assert s[1..][j - 1..j - 1 + |sep|] == s[j..j + |sep|];
    }
  }

  /** The pieces joined back with the separator between neighbours. */
  function Join(pieces: seq<string>, sep: string): string
    decreases |pieces|
  {
    if |pieces| == 0 then []
    else if |pieces| == 1 then pieces[0]
    else pieces[0] + sep + Join(pieces[1..], sep)
  }

  /** The raw pieces between successive non-overlapping occurrences of sep, found left to right. */
  function Pieces(s: string, sep: string): (r: seq<string>)
    requires sep != []
    ensures |r| >= 1
    ensures Join(r, sep) == s
    ensures forall k :: 0 <= k < |r| ==> Free(r[k], sep)
    decreases |s|
  {
    match Find(s, sep)
    case None => [s]
    case Some(i) =>
      var head, rest := s[..i], Pieces(s[i + |sep|..], sep);
      assert Free(head, sep) by {
        forall j | 0 <= j <= |head| ensures !OccursAt(head, sep, j) {
          if j + |sep| <= |head| {
            assert j < i;
            assert !OccursAt(s, sep, j);
            assert head[j..j + |sep|] == s[j..j + |sep|];
          }
        }
      }
      assert ([head] + rest)[1..] == rest;
      assert s == head + sep + s[i + |sep|..] by {
        assert s[i..i + |sep|] == sep;
        assert s == s[..i] + s[i..i + |sep|] + s[i + |sep|..];
      }
      [head] + rest
  }

  /** Removes the empty strings at the end of a list of pieces, as String.split does. */
  function DropTrailingEmpty(pieces: seq<string>): (r: seq<string>)
    ensures |r| <= |pieces| && r == pieces[..|r|]
    ensures r == [] || r[|r| - 1] != []
    ensures forall k :: |r| <= k < |pieces| ==> pieces[k] == []
    decreases |pieces|
  {
    if pieces == [] || pieces[|pieces| - 1] != [] then pieces
    else DropTrailingEmpty(pieces[..|pieces| - 1])
  }

  /**
   * String.split(sep) for a separator without regular-expression metacharacters:
   * a string with no match is returned whole; otherwise the pieces between matches,
   * with the trailing empty pieces removed.
   */
  function Split(s: string, sep: string): (r: seq<string>)
    requires sep != []
    ensures Free(s, sep) ==> r == [s]
    ensures !Free(s, sep) ==> (r == [] || r[|r| - 1] != [])
    ensures forall k :: 0 <= k < |r| ==> Free(r[k], sep)
  {
    if Find(s, sep).None? then [s] else DropTrailingEmpty(Pieces(s, sep))
  }

  /** m empty pieces. */
  function EmptyPieces(m: nat): seq<string> {
    seq(m, _ => "")
  }

  /** The pieces split returns, followed by the empty pieces it dropped, join back to s. */
  lemma SplitJoinsBack(s: string, sep: string)
    requires sep != []
    ensures exists m: nat :: Join(Split(s, sep) + EmptyPieces(m), sep) == s
  {
    var r := Split(s, sep);
    if Find(s, sep).None? {
      assert r + EmptyPieces(0) == [s];
    } else {
      var p := Pieces(s, sep);
      var m := |p| - |r|;
      assert r + EmptyPieces(m) == p;
    }
  }

  /** No match of sep starts inside a, not even one running on into a separator after a. */
  predicate NoMatchStartsIn(a: string, sep: string) {
    forall j :: 0 <= j < |a| ==> !OccursAt(a + sep, sep, j)
  }

  /** When no match starts inside a, the pieces of a + sep + b are a, then the pieces of b. */
  lemma PiecesAfterHead(a: string, sep: string, b: string)
    requires sep != [] && NoMatchStartsIn(a, sep)
    ensures Pieces(a + sep + b, sep) == [a] + Pieces(b, sep)
  {
    var s := a + sep + b;
    assert s[|a|..|a| + |sep|] == sep;
    assert OccursAt(s, sep, |a|);
    forall j | 0 <= j < |a| ensures !OccursAt(s, sep, j) {
      assert !OccursAt(a + sep, sep, j);
      assert s[j..j + |sep|] == (a + sep)[j..j + |sep|];
    }
    assert s[..|a|] == a;
    assert s[|a| + |sep|..] == b;
  }

  /** A text without sep's second character has no match of sep starting inside it. */
  lemma NoMatchWhenMarkerAbsent(a: string, sep: string)
    requires |sep| >= 2 && sep[0] != sep[1] && sep[1] !in a
    ensures NoMatchStartsIn(a, sep)
  {
    forall j | 0 <= j < |a| ensures !OccursAt(a + sep, sep, j) {
      var t := a + sep;
      if j + |sep| <= |t| {
        assert t[j..j + |sep|][1] == t[j + 1];
      }
    }
  }

  /** A text in which sep's first two characters never stand side by side holds no sep. */
  lemma FreeWhenNoMarkerPair(a: string, sep: string)
    requires |sep| >= 2
    requires forall i :: 0 <= i < |a| - 1 ==> !(a[i] == sep[0] && a[i + 1] == sep[1])
    ensures Free(a, sep)
  {
    forall j | 0 <= j <= |a| ensures !OccursAt(a, sep, j) {
      if j + |sep| <= |a| {
        assert a[j..j + |sep|][0] == a[j] && a[j..j + |sep|][1] == a[j + 1];
      }
    }
  }

  /** A second character of the separator that a text does not contain cannot start
      a match inside it. */
  lemma FreeWhenMarkerAbsent(a: string, sep: string)
    requires |sep| >= 2 && sep[1] !in a
    ensures Free(a, sep)
  {
    forall j | 0 <= j <= |a| ensures !OccursAt(a, sep, j) {
      if j + |sep| <= |a| {
        assert a[j..j + |sep|][1] == a[j + 1];
      }
    }
  }

  /** The first match in a + sep + b is the one right after a, when a lacks sep's second character. */
  lemma FindAfterMarkerFree(a: string, sep: string, b: string)
    requires |sep| >= 2 && sep[0] != sep[1] && sep[1] !in a
    ensures Find(a + sep + b, sep) == Some(|a|)
  {
    var s := a + sep + b;
    assert s[|a|..|a| + |sep|] == sep;
    assert OccursAt(s, sep, |a|);
    forall j | 0 <= j < |a| ensures !OccursAt(s, sep, j) {
      assert s[j..j + |sep|][1] == s[j + 1];
      if j + 1 < |a| {
        assert s[j + 1] == a[j + 1];
      } else {
        assert s[j + 1] == sep[0];
      }
    }
  }

  /** Splitting pieces joined with sep gives them back, when no piece holds sep's second
      character and the last piece is not empty. */
  lemma {:induction false} SplitOfJoin(fields: seq<string>, sep: string)
    requires |sep| >= 2 && sep[0] != sep[1]
    requires |fields| >= 1 && fields[|fields| - 1] != []
    requires forall k :: 0 <= k < |fields| ==> sep[1] !in fields[k]
    ensures Split(Join(fields, sep), sep) == fields
  {
    PiecesOfJoin(fields, sep);
    if |fields| == 1 {
      FreeWhenMarkerAbsent(fields[0], sep);
    } else {
      FindAfterMarkerFree(fields[0], sep, Join(fields[1..], sep));
    }
  }

  lemma {:induction false} PiecesOfJoin(fields: seq<string>, sep: string)
    requires |sep| >= 2 && sep[0] != sep[1]
    requires |fields| >= 1
    requires forall k :: 0 <= k < |fields| ==> sep[1] !in fields[k]
    ensures Pieces(Join(fields, sep), sep) == fields
    decreases |fields|
  {
    if |fields| == 1 {
      FreeWhenMarkerAbsent(fields[0], sep);
    } else {
      var rest := Join(fields[1..], sep);
      var s := fields[0] + sep + rest;
      assert Join(fields, sep) == s;
      FindAfterMarkerFree(fields[0], sep, rest);
      assert s[..|fields[0]|] == fields[0];
      assert s[|fields[0]| + |sep|..] == rest;
      PiecesOfJoin(fields[1..], sep);
      assert Pieces(s, sep) == [fields[0]] + Pieces(rest, sep);
      assert fields == [fields[0]] + fields[1..];
    }
  }

  /** The text before the first space (the whole text when it has none). */
  function TakeUntilSpace(s: string): (r: string)
    ensures |r| <= |s| && r == s[..|r|]
    ensures ' ' !in r
    ensures |r| < |s| ==> s[|r|] == ' '
  {
    if s == [] || s[0] == ' ' then [] else [s[0]] + TakeUntilSpace(s[1..])
  }

  /** Only spaces. */
  predicate AllSpaces(s: string) {
    forall k :: 0 <= k < |s| ==> s[k] == ' '
  }

  lemma SpaceOccurs(s: string, k: int)
    ensures OccursAt(s, " ", k) <==> (0 <= k < |s| && s[k] == ' ')
  {
    if 0 <= k < |s| {
      assert s[k..k + 1] == [s[k]];
    }
  }

  /** Every piece is the empty string. */
  predicate AllEmpty(p: seq<string>) {
    forall k :: 0 <= k < |p| ==> p[k] == []
  }

  lemma {:induction false} PiecesAllEmpty(s: string)
    ensures AllEmpty(Pieces(s, " ")) <==> AllSpaces(s)
    decreases |s|
  {
    var p := Pieces(s, " ");
    match Find(s, " ")
    case None =>
      assert p == [s];
      if s != [] {
        SpaceOccurs(s, 0);
        assert s[0] != ' ' && p[0] != [];
      }
    case Some(i) =>
      SpaceOccurs(s, i);
      PiecesAllEmpty(s[i + 1..]);
      var q := Pieces(s[i + 1..], " ");
      assert p == [s[..i]] + q;
      if i == 0 {
        assert s == [' '] + s[1..];
        assert AllSpaces(s) <==> AllSpaces(s[1..]);
        assert AllEmpty(p) <==> AllEmpty(q) by {
          forall k | 0 <= k < |q| ensures p[k + 1] == q[k] { }
        }
      } else {
        assert p[0] != [];
        SpaceOccurs(s, 0);
        assert s[0] != ' ' by {
          assert !OccursAt(s, " ", 0);
        }
      }
  }

  /**
   * The head of String.split(" "): the array is empty exactly for a non-empty line of
   * spaces; otherwise its first element is the text before the first space.
   */
  lemma {:induction false} SpaceSplitHead(s: string)
    ensures |Split(s, " ")| == 0 <==> (s != [] && AllSpaces(s))
    ensures |Split(s, " ")| > 0 ==> Split(s, " ")[0] == TakeUntilSpace(s)
  {
    match Find(s, " ")
    case None =>
      NoSpaceIsOneToken(s);
    case Some(i) =>
      FirstSpaceEndsToken(s, i);
      var p := Pieces(s, " ");
      PiecesAllEmpty(s);
      DropTrailingEmptyHead(p);
  }

  /** With no space at all, the line is its own first token and is not all spaces unless empty. */
  lemma NoSpaceIsOneToken(s: string)
    requires Find(s, " ").None?
    ensures TakeUntilSpace(s) == s
    ensures s == [] || !AllSpaces(s)
  {
    forall k | 0 <= k < |s| ensures s[k] != ' ' {
      SpaceOccurs(s, k);
    }
  }

  /** The first space found ends both the first token and the first raw piece. */
  lemma FirstSpaceEndsToken(s: string, i: nat)
    requires Find(s, " ") == Some(i)
    ensures TakeUntilSpace(s) == s[..i]
    ensures Pieces(s, " ")[0] == s[..i]
  {
    SpaceOccurs(s, i);
    forall k | 0 <= k < i ensures s[k] != ' ' {
      SpaceOccurs(s, k);
    }
  }

  /** Dropping trailing empty pieces leaves nothing exactly when every piece is empty,
      and otherwise keeps the first piece. */
  lemma DropTrailingEmptyHead(p: seq<string>)
    ensures DropTrailingEmpty(p) == [] <==> AllEmpty(p)
    ensures DropTrailingEmpty(p) != [] ==> DropTrailingEmpty(p)[0] == p[0]
  {
    var r := DropTrailingEmpty(p);
    if r != [] {
      var last := |r| - 1;
      assert p[last] == r[last];
    }
  }

  /** A keyword followed by a space: the text before the first space is the keyword. */
  lemma TakeUntilSpaceAfterWord(a: string, b: string)
    requires ' ' !in a
    ensures TakeUntilSpace(a + " " + b) == a
  {
    var s := a + " " + b;
    assert s[|a|] == ' ';
    assert forall k :: 0 <= k < |a| ==> s[k] == a[k];
  }

  /** A word without spaces is its own first token. */
  lemma TakeUntilSpaceOfWord(a: string)
    requires ' ' !in a
    ensures TakeUntilSpace(a) == a
  {
  }

  /** Upper-casing keeps spaces where they are and makes no new ones. */
  lemma UpperKeepsSpaces(s: string)
    ensures |Upper(s)| == |s|
    ensures forall k :: 0 <= k < |s| ==> (Upper(s)[k] == ' ' <==> s[k] == ' ')
    ensures AllSpaces(Upper(s)) <==> AllSpaces(s)
  {
  }

  /** Lower-casing keeps spaces where they are and makes no new ones. */
  lemma LowerKeepsSpaces(s: string)
    ensures ' ' in Lower(s) <==> ' ' in s
  {
    assert forall k :: 0 <= k < |s| ==> (Lower(s)[k] == ' ' <==> s[k] == ' ');
    if ' ' in s {
      var k :| 0 <= k < |s| && s[k] == ' ';
      assert Lower(s)[k] == ' ';
    }
  }

  /** The first token of an upper-cased line is the upper-cased first token. */
  lemma {:induction false} UpperTakeUntilSpace(s: string)
    ensures TakeUntilSpace(Upper(s)) == Upper(TakeUntilSpace(s))
    decreases |s|
  {
    if s != [] {
      assert Upper(s)[0] == UpperChar(s[0]);
      assert Upper(s)[1..] == Upper(s[1..]);
      if s[0] != ' ' {
        UpperTakeUntilSpace(s[1..]);
        assert Upper([s[0]] + TakeUntilSpace(s[1..])) == [UpperChar(s[0])] + Upper(TakeUntilSpace(s[1..]));
      }
    }
  }

  /** split(" ")[0] when the array has a first element: the text before the first space. */
  function FirstToken(s: string): (r: Option<string>)
    ensures r.None? <==> s != [] && AllSpaces(s)
    ensures r.Some? ==> r.value == TakeUntilSpace(s)
  {
    SpaceSplitHead(s);
    var tokens := Split(s, " ");
    if |tokens| == 0 then None else Some(tokens[0])
  }
}
