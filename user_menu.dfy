/**
 * The user menu: an avatar showing the user's initials and a dialog to change
 * the display name. The initials are the first character of each
 * space-separated word, upper-cased, at most two of them. Saving a new name
 * trims it and refuses a name that is blank after trimming.
 */
module UserMenu {

  /** The string split at every single space, as `split(" ")` does; empty words are kept. */
  function SplitOnSpace(s: string): (words: seq<string>)
    ensures |words| >= 1
    ensures forall i :: 0 <= i < |words| ==> ' ' !in words[i]
  {
    if |s| == 0 then [""]
    else
      var rest := SplitOnSpace(s[1..]);
      if s[0] == ' ' then [""] + rest
      else [[s[0]] + rest[0]] + rest[1..]
  }

  /** The words put back together with one space between neighbours. */
  function JoinWithSpace(words: seq<string>): string
    requires |words| >= 1
  {
    if |words| == 1 then words[0] else words[0] + " " + JoinWithSpace(words[1..])
  }

  /** Splitting loses nothing: joining the words again gives the original string. */
  lemma {:induction false} SplitJoinRoundTrip(s: string)
    ensures JoinWithSpace(SplitOnSpace(s)) == s
  {
    if |s| > 0 {
      var rest := SplitOnSpace(s[1..]);
      SplitJoinRoundTrip(s[1..]);
      if s[0] == ' ' {
        assert ([""] + rest)[1..] == rest;
        assert s == [s[0]] + s[1..];
      } else {
        var words := SplitOnSpace(s);
        assert words[1..] == rest[1..];
        if |rest| == 1 {
          assert s == [s[0]] + rest[0];
        } else {
          assert JoinWithSpace(rest) == rest[0] + " " + JoinWithSpace(rest[1..]);
          assert s == [s[0]] + s[1..];
        }
      }
    }
  }

  /** The first character of each word; an empty word contributes nothing. */
  function FirstChars(words: seq<string>): (r: string)
    ensures |r| <= |words|
  {
    if |words| == 0 then ""
    else (if |words[0]| > 0 then [words[0][0]] else "") + FirstChars(words[1..])
  }

  function UpperAscii(c: char): (u: char)
    ensures !('a' <= u <= 'z')
    ensures 'a' <= c <= 'z' ==> u as int == c as int - 32
    ensures !('a' <= c <= 'z') ==> u == c
  {
    if 'a' <= c <= 'z' then (c as int - 32) as char else c
  }

  function ToUpper(s: string): (r: string)
    ensures |r| == |s|
    ensures forall i :: 0 <= i < |s| ==> r[i] == UpperAscii(s[i])
  {
    seq(|s|, i requires 0 <= i < |s| => UpperAscii(s[i]))
  }

  /** The avatar's text. */
  function GetInitials(name: string): (initials: string)
    ensures |initials| <= 2
    ensures forall i :: 0 <= i < |initials| ==> !('a' <= initials[i] <= 'z')
  {
    var firsts := ToUpper(FirstChars(SplitOnSpace(name)));
    if |firsts| <= 2 then firsts else firsts[..2]
  }

  /**
   * A reference reading of the initials without words: the characters of `s`
   * that are not spaces and come first or right after a space (`atStart`
   * says whether the position before `s` counts as a word start).
   */
  function WordStarts(s: string, atStart: bool): (r: string)
    ensures ' ' !in r
  {
    if |s| == 0 then ""
    else (if atStart && s[0] != ' ' then [s[0]] else "") + WordStarts(s[1..], s[0] == ' ')
  }

  lemma FirstCharsCons(w: string, rest: seq<string>)
    ensures FirstChars([w] + rest) == (if |w| > 0 then [w[0]] else "") + FirstChars(rest)
  {
    assert ([w] + rest)[1..] == rest;
  }

  /** The words after the first contribute exactly the word starts after position 0. */
  lemma {:induction false} LaterWordStarts(s: string)
    ensures FirstChars(SplitOnSpace(s)[1..]) == WordStarts(s, false)
  {
    if |s| > 0 {
      var rest := SplitOnSpace(s[1..]);
      if s[0] == ' ' {
        assert SplitOnSpace(s)[1..] == rest;
        WordStartsSplit(s[1..]);
      } else {
        assert SplitOnSpace(s)[1..] == rest[1..];
        LaterWordStarts(s[1..]);
      }
    }
  }

  /** Taking first characters of the split words is the same as taking the word starts. */
  lemma {:induction false} WordStartsSplit(s: string)
    ensures FirstChars(SplitOnSpace(s)) == WordStarts(s, true)
  {
    if |s| > 0 {
      var rest := SplitOnSpace(s[1..]);
      if s[0] == ' ' {
        FirstCharsCons("", rest);
        WordStartsSplit(s[1..]);
      } else {
        FirstCharsCons([s[0]] + rest[0], rest[1..]);
        LaterWordStarts(s[1..]);
      }
    }
  }

  /**
   * The initials are the first two word starts of the name, in order, each
   * upper-cased; a name with fewer word starts gives fewer initials.
   */
  lemma InitialsAreWordStarts(name: string)
    ensures var starts, initials := WordStarts(name, true), GetInitials(name);
      && |initials| == (if |starts| < 2 then |starts| else 2)
      && forall i :: 0 <= i < |initials| ==> initials[i] == UpperAscii(starts[i])
  {
    WordStartsSplit(name);
  }

  /** The initials never contain a space. */
  lemma InitialsHaveNoSpace(name: string)
    ensures ' ' !in GetInitials(name)
  {
    WordStartsSplit(name);
    var firsts := FirstChars(SplitOnSpace(name));
    assert forall i :: 0 <= i < |firsts| ==> firsts[i] != ' ';
  }

  lemma InitialsExamples()
    ensures GetInitials("") == ""
    ensures GetInitials("al") == "A"
  {
    assert SplitOnSpace("") == [""];
    WordStartsSplit("al");
    assert WordStarts("l", false) == "";
    assert WordStarts("al", true) == "a";
  }

  /** A character that is not a space starts a word exactly when it comes first or after a space. */
  lemma WordStartsCons(c: char, rest: string, atStart: bool)
    ensures WordStarts([c] + rest, atStart) ==
      (if atStart && c != ' ' then [c] else "") + WordStarts(rest, c == ' ')
  {
    assert ([c] + rest)[1..] == rest;
  }

  /** A double space yields an empty word, which adds no initial. */
  lemma InitialsSkipEmptyWords()
    ensures GetInitials("a  b") == "AB"
  {
    WordStartsCons('b', "", true);
    WordStartsCons(' ', "b", false);
    WordStartsCons(' ', " b", false);
    WordStartsCons('a', "  b", true);
    assert WordStarts("a  b", true) == "ab";
    InitialsAreWordStarts("a  b");
  }

  /** Three words still give only two initials. */
  lemma InitialsKeepTwo()
    ensures GetInitials("a b c") == "AB"
  {
    WordStartsCons('c', "", true);
    WordStartsCons(' ', "c", false);
    WordStartsCons('b', " c", true);
    WordStartsCons(' ', "b c", false);
    WordStartsCons('a', " b c", true);
    assert WordStarts("a b c", true) == "abc";
    InitialsAreWordStarts("a b c");
  }

  /**
   * The characters `String.prototype.trim` removes: the ECMAScript white
   * space and line terminator code points.
   */
  predicate IsWhitespace(c: char) {
    var n := c as int;
    n == 9 || n == 10 || n == 11 || n == 12 || n == 13 || n == 32 || n == 160
    || n == 5760 || (8192 <= n <= 8202) || n == 8232 || n == 8233 || n == 8239
    || n == 8287 || n == 12288 || n == 65279
  }

  predicate AllWhitespace(s: string) {
    forall i :: 0 <= i < |s| ==> IsWhitespace(s[i])
  }

  /** How many white-space characters the string starts with. */
  function LeadingSpace(s: string): (n: nat)
    ensures n <= |s|
    ensures forall i :: 0 <= i < n ==> IsWhitespace(s[i])
    ensures n < |s| ==> !IsWhitespace(s[n])
  {
    if |s| > 0 && IsWhitespace(s[0]) then
      var n := 1 + LeadingSpace(s[1..]);
      assert forall i :: 1 <= i < n ==> s[i] == s[1..][i - 1];
      n
    else 0
  }

  /** How many white-space characters the string ends with. */
  function TrailingSpace(s: string): (n: nat)
    ensures n <= |s|
    ensures forall i :: |s| - n <= i < |s| ==> IsWhitespace(s[i])
    ensures n < |s| ==> !IsWhitespace(s[|s| - n - 1])
  {
    if |s| > 0 && IsWhitespace(s[|s| - 1]) then
      var n := 1 + TrailingSpace(s[..|s| - 1]);
      assert forall i :: |s| - n <= i < |s| - 1 ==> s[i] == s[..|s| - 1][i];
      n
    else 0
  }

  function TrimStart(s: string): string {
    s[LeadingSpace(s)..]
  }

  function TrimEnd(s: string): string {
    s[..|s| - TrailingSpace(s)]
  }

  /** `name.trim()`: white space removed from both ends. */
  function Trim(s: string): string {
    TrimEnd(TrimStart(s))
  }

  /**
   * Trimming keeps a contiguous middle piece of the name, removes only white
   * space around it, and leaves no white space at either end.
   */
  lemma TrimShape(s: string)
    ensures var t := Trim(s);
      exists i :: 0 <= i <= |s| - |t| && t == s[i..i + |t|]
        && AllWhitespace(s[..i]) && AllWhitespace(s[i + |t|..])
    ensures var t := Trim(s); |t| > 0 ==> !IsWhitespace(t[0]) && !IsWhitespace(t[|t| - 1])
  {
    var i := LeadingSpace(s);
    var a := TrimStart(s);
    var t := TrimEnd(a);
    assert t == s[i..i + |t|];
    assert AllWhitespace(s[..i]) by {
      forall k | 0 <= k < i ensures IsWhitespace(s[..i][k]) {
        assert s[..i][k] == s[k];
      }
    }
    var after := s[i + |t|..];
    assert AllWhitespace(after) by {
      forall k | 0 <= k < |after| ensures IsWhitespace(after[k]) {
        assert after[k] == a[|t| + k];
      }
    }
    if |t| > 0 {
      assert t[0] == a[0];
    }
  }

  /** A name is blank after trimming exactly when it is all white space. */
  lemma TrimBlank(s: string)
    ensures Trim(s) == "" <==> AllWhitespace(s)
  {
    var i := LeadingSpace(s);
    var a := TrimStart(s);
    assert |a| == |s| - i;
  }

  /** Trimming twice is trimming once. */
  lemma TrimIdempotent(s: string)
    ensures Trim(Trim(s)) == Trim(s)
  {
    var t := Trim(s);
    TrimShape(s);
    if |t| > 0 {
      assert LeadingSpace(t) == 0;
      assert TrimStart(t) == t;
      assert TrailingSpace(t) == 0;
    }
  }

  /** The menu's own state and the names it has handed to `onNameChange`, oldest first. */
  class Menu {
    var userName: string
    var newName: string
    var showEditDialog: bool
    var savedNames: seq<string>

    constructor (userName: string)
      ensures this.userName == userName && newName == userName
      ensures !showEditDialog && savedNames == []
    {
      this.userName := userName;
      newName := userName;
      showEditDialog := false;
      savedNames := [];
    }

    /** The save button is disabled while the typed name is blank. */
    function SaveDisabled(): (disabled: bool)
      reads this
      ensures disabled <==> AllWhitespace(newName)
    {
      TrimBlank(newName);
      Trim(newName) == ""
    }

    method OpenEditDialog()
      modifies this
      ensures showEditDialog
      ensures userName == old(userName) && newName == old(newName) && savedNames == old(savedNames)
    {
      showEditDialog := true;
    }

    method CloseEditDialog()
      modifies this
      ensures !showEditDialog
      ensures userName == old(userName) && newName == old(newName) && savedNames == old(savedNames)
    {
      showEditDialog := false;
    }

    method TypeName(text: string)
      modifies this
      ensures newName == text
      ensures userName == old(userName) && showEditDialog == old(showEditDialog) && savedNames == old(savedNames)
    {
      newName := text;
    }

    /**
     * Save (button or Enter): a name that is not blank is handed on trimmed
     * and the dialog closes; a blank one changes nothing.
     */
    method HandleSaveName()
      modifies this
      ensures old(Trim(newName)) != "" ==> savedNames == old(savedNames) + [Trim(old(newName))] && !showEditDialog
      ensures old(Trim(newName)) == "" ==> savedNames == old(savedNames) && showEditDialog == old(showEditDialog)
      ensures userName == old(userName) && newName == old(newName)
    {
      var trimmed := Trim(newName);
      if trimmed != "" {
        savedNames := savedNames + [trimmed];
        showEditDialog := false;
      }
    }

    /** The avatar text for the current user name. */
    method Initials() returns (initials: string)
      ensures initials == GetInitials(userName)
    {
      initials := GetInitials(userName);
    }
  }

  /** Every name handed on by the menu is already trimmed and not blank. */
  lemma SavedNamesAreClean(name: string)
    requires Trim(name) != ""
    ensures Trim(Trim(name)) == Trim(name)
    ensures !AllWhitespace(Trim(name))
  {
    TrimIdempotent(name);
    TrimBlank(Trim(name));
  }
}
