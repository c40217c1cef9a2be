/**
 The pieces of Python's string and text-file behaviour the notebook relies on:
 `str.strip()` with no argument, and `file.readlines()` on a file opened in
 text mode (universal newlines), together with the text a writer produces
 when it ends every line with "\n".
 */
module PyText {

  /** `str.isspace()` for one character: the characters `str.strip()` removes. */
  predicate IsSpace(c: char) {
    || ('\t' <= c <= '\r')
    || ('\U{1C}' <= c <= '\U{1F}')
    || c == ' '
    || c == '\U{85}'
    || c == '\U{A0}'
    || c == '\U{1680}'
    || ('\U{2000}' <= c <= '\U{200A}')
    || c == '\U{2028}'
    || c == '\U{2029}'
    || c == '\U{202F}'
    || c == '\U{205F}'
    || c == '\U{3000}'
  }

  /** `s.lstrip()`: `s` without its leading whitespace. */
  function StripLeft(s: string): string
    decreases |s|
  {
    if s != [] && IsSpace(s[0]) then StripLeft(s[1..]) else s
  }

  /** `s.rstrip()`: `s` without its trailing whitespace. */
  function StripRight(s: string): string
    decreases |s|
  {
    if s != [] && IsSpace(s[|s| - 1]) then StripRight(s[..|s| - 1]) else s
  }

  /** `lstrip` keeps the longest suffix of `s` that does not start with whitespace. */
  lemma {:induction false} StripLeftSpec(s: string)
    ensures var r := StripLeft(s);
      && |r| <= |s| && r == s[|s| - |r|..]
      && (forall k :: 0 <= k < |s| - |r| ==> IsSpace(s[k]))
      && (r == [] || !IsSpace(r[0]))
    decreases |s|
  {
    if s != [] && IsSpace(s[0]) {
      StripLeftSpec(s[1..]);
    }
  }

  /** `rstrip` keeps the longest prefix of `s` that does not end with whitespace. */
  lemma {:induction false} StripRightSpec(s: string)
    ensures var r := StripRight(s);
      && |r| <= |s| && r == s[..|r|]
      && (forall k :: |r| <= k < |s| ==> IsSpace(s[k]))
      && (r == [] || !IsSpace(r[|r| - 1]))
    decreases |s|
  {
    if s != [] && IsSpace(s[|s| - 1]) {
      StripRightSpec(s[..|s| - 1]);
    }
  }

  /** `s.strip()`: `s` without its leading and trailing whitespace. */
  function Strip(s: string): string {
    StripRight(StripLeft(s))
  }

  /**
   What `Strip` keeps: a stretch of `s` that neither starts nor ends with
   whitespace, with nothing but whitespace before and after it in `s`.
   */
  lemma StripSpec(s: string)
    ensures var r, i := Strip(s), |s| - |StripLeft(s)|;
      && 0 <= i && i + |r| <= |s|
      && r == s[i..i + |r|]
      && (forall k :: 0 <= k < i ==> IsSpace(s[k]))
      && (forall k :: i + |r| <= k < |s| ==> IsSpace(s[k]))
      && (r == [] || (!IsSpace(r[0]) && !IsSpace(r[|r| - 1])))
  {
    var l := StripLeft(s);
    var r := StripRight(l);
    var i := |s| - |l|;
    StripLeftSpec(s);
    StripRightSpec(l);
    assert l == s[i..];
    assert r == l[..|r|];
    assert forall k :: i + |r| <= k < |s| ==> s[k] == l[k - i];
  }

  /** A string with no whitespace at either end is its own strip. */
  lemma StripEdgeFree(s: string)
    requires s == [] || (!IsSpace(s[0]) && !IsSpace(s[|s| - 1]))
    ensures Strip(s) == s
  {
    if s != [] {
      assert StripLeft(s) == s;
      assert StripRight(s) == s;
    }
  }

  /** Stripping twice is stripping once. */
  lemma StripIdempotent(s: string)
    ensures Strip(Strip(s)) == Strip(s)
  {
    StripSpec(s);
    StripEdgeFree(Strip(s));
  }

  /** Left-stripping a concatenation only reaches into `t` when `s` is all whitespace. */
  lemma {:induction false} StripLeftAppend(s: string, t: string)
    ensures StripLeft(s + t) == if StripLeft(s) == [] then StripLeft(t) else StripLeft(s) + t
    decreases |s|
  {
    if s == [] {
      assert s + t == t;
    } else if IsSpace(s[0]) {
      assert (s + t)[0] == s[0];
      assert (s + t)[1..] == s[1..] + t;
      StripLeftAppend(s[1..], t);
    } else {
      assert (s + t)[0] == s[0];
    }
  }

  /** A whitespace character at the end (the "\n" `readlines` keeps) does not change the strip. */
  lemma StripTrailingSpace(s: string, c: char)
    requires IsSpace(c)
    ensures Strip(s + [c]) == Strip(s)
  {
    StripLeftAppend(s, [c]);
    var l := StripLeft(s);
    if l != [] {
      assert (l + [c])[..|l|] == l;
    }
  }

  /** Right-stripping ignores any whitespace appended to the string. */
  lemma {:induction false} StripRightTrailingSpaces(s: string, t: string)
    requires forall k :: 0 <= k < |t| ==> IsSpace(t[k])
    ensures StripRight(s + t) == StripRight(s)
    decreases |t|
  {
    if t == [] {
      assert s + t == s;
    } else {
      var u := s + t;
      assert u[|u| - 1] == t[|t| - 1];
      assert u[..|u| - 1] == s + t[..|t| - 1];
      StripRightTrailingSpaces(s, t[..|t| - 1]);
    }
  }

  /** A line read with its "\n" strips to its content when that has no whitespace at either end. */
  lemma StripTerminatedLine(s: string)
    requires s != [] && !IsSpace(s[0]) && !IsSpace(s[|s| - 1])
    ensures Strip(s + "\n") == s
  {
    StripTrailingSpace(s, '\n');
    StripEdgeFree(s);
  }

  /** The ways a line may end in a file read in text mode: "\n", "\r" or "\r\n". */
  predicate IsLineBreak(c: char) {
    c == '\n' || c == '\r'
  }

  /** A string that holds no line break: it reads back as a single line. */
  predicate SingleLine(s: string) {
    forall k :: 0 <= k < |s| ==> !IsLineBreak(s[k])
  }

  /**
   Universal-newline translation done by a file opened with `open(path, "r")`:
   every "\r\n" and every lone "\r" becomes "\n".
   */
  function TranslateNewlines(s: string): string
    decreases |s|
  {
    if s == [] then []
    else if s[0] == '\r' then
      if |s| > 1 && s[1] == '\n' then "\n" + TranslateNewlines(s[2..])
      else "\n" + TranslateNewlines(s[1..])
    else [s[0]] + TranslateNewlines(s[1..])
  }

  /**
   The translated text holds no "\r", and text without "\r" is left as it
   is.
   */
  lemma {:induction false} TranslateNewlinesSpec(s: string)
    ensures '\r' !in TranslateNewlines(s)
    ensures '\r' !in s ==> TranslateNewlines(s) == s
    decreases |s|
  {
    if s != [] {
      if s[0] == '\r' {
        if |s| > 1 && s[1] == '\n' {
          TranslateNewlinesSpec(s[2..]);
        } else {
          TranslateNewlinesSpec(s[1..]);
        }
      } else {
        TranslateNewlinesSpec(s[1..]);
        assert '\r' !in s ==> '\r' !in s[1..];
        assert s == [s[0]] + s[1..];
      }
    }
  }

  /**
   Length of the first line of a non-empty text, its "\n" included: the line
   runs up to and including the first "\n", or to the end when there is none.
   */
  function FirstLineLength(s: string): (k: nat)
    requires s != []
    ensures 1 <= k <= |s|
    ensures forall i :: 0 <= i < k - 1 ==> s[i] != '\n'
    ensures k < |s| ==> s[k - 1] == '\n'
    decreases |s|
  {
    if s[0] == '\n' || |s| == 1 then 1 else 1 + FirstLineLength(s[1..])
  }

  /** The concatenation of a list of strings, `"".join(ls)`. */
  function Concat(ls: seq<string>): string {
    if ls == [] then [] else ls[0] + Concat(ls[1..])
  }

  /**
   Splitting translated text into lines as `readlines` does: every line keeps
   its "\n"; a last line without one is kept as it is. No line is empty, and
   joining the lines gives the text back.
   */
  function SplitLines(s: string): (r: seq<string>)
    ensures Concat(r) == s
    ensures forall i :: 0 <= i < |r| ==> r[i] != []
    decreases |s|
  {
    if s == [] then []
    else
      var k := FirstLineLength(s);
      var rest := SplitLines(s[k..]);
      var r := [s[..k]] + rest;
      assert r[0] == s[..k] && r[1..] == rest;
      assert Concat(r) == s[..k] + Concat(rest);
      assert s[..k] + s[k..] == s;
      r
  }

  /** Splitting a non-empty text gives its first line, then the lines of the rest. */
  lemma SplitLinesFirst(s: string)
    requires s != []
    ensures SplitLines(s) == [s[..FirstLineLength(s)]] + SplitLines(s[FirstLineLength(s)..])
  {
  }

  /**
   Each line `readlines` returns is cut right after a "\n": no line holds a
   "\n" before its last character, and every line but the last ends with one.
   */
  lemma {:induction false} SplitLinesBreaks(s: string)
    ensures var r := SplitLines(s);
      && (forall i :: 0 <= i < |r| ==> '\n' !in r[i][..|r[i]| - 1])
      && (forall i :: 0 <= i < |r| - 1 ==> r[i][|r[i]| - 1] == '\n')
    decreases |s|
  {
    if s != [] {
      var k := FirstLineLength(s);
      var r, rest := SplitLines(s), SplitLines(s[k..]);
      SplitLinesFirst(s);
      SplitLinesBreaks(s[k..]);
      assert r[0] == s[..k];
      assert forall i :: 0 < i < |r| ==> r[i] == rest[i - 1];
      assert k == |s| ==> rest == [];
    }
  }

  /** `open(path, "r").readlines()` on a file whose contents are `text`. */
  function ReadLines(text: string): seq<string> {
    SplitLines(TranslateNewlines(text))
  }

  /**
   The line ends a text-mode writer may produce: "\n", "\r\n" (where the
   platform's line separator is "\r\n") or "\r".
   */
  predicate IsNewline(e: string) {
    e == "\n" || e == "\r\n" || e == "\r"
  }

  /** The text a writer produces when it writes every line of `ls` followed by `newline`. */
  function WriteLines(ls: seq<string>, newline: string): string {
    if ls == [] then [] else ls[0] + newline + WriteLines(ls[1..], newline)
  }

  /** The text a writer produces when it writes every line of `ls` followed by "\n". */
  function JoinLines(ls: seq<string>): string {
    WriteLines(ls, "\n")
  }

  /** The lines of `ls` each with its "\n" terminator, as `readlines` returns them. */
  function Terminated(ls: seq<string>): (r: seq<string>)
    ensures |r| == |ls|
  {
    seq(|ls|, i requires 0 <= i < |ls| => ls[i] + "\n")
  }

  /** The terminated lines are the first line terminated, then the rest terminated. */
  lemma TerminatedFirst(ls: seq<string>)
    requires ls != []
    ensures Terminated(ls) == [ls[0] + "\n"] + Terminated(ls[1..])
  {
  }

  /** Writing `a` then `b` gives the text of `a + b`. */
  lemma {:induction false} JoinLinesAppend(a: seq<string>, b: seq<string>)
    ensures JoinLines(a + b) == JoinLines(a) + JoinLines(b)
    decreases |a|
  {
    if a == [] {
      assert a + b == b;
    } else {
      assert (a + b)[0] == a[0];
      assert (a + b)[1..] == a[1..] + b;
      JoinLinesAppend(a[1..], b);
      var head := a[0] + "\n";
      assert JoinLines(a + b) == head + (JoinLines(a[1..]) + JoinLines(b));
      assert JoinLines(a) == head + JoinLines(a[1..]);
    }
  }

  /** Text-mode reading keeps a character that is no line break. */
  lemma TranslateOrdinary(c: char, t: string)
    requires !IsLineBreak(c)
    ensures TranslateNewlines([c] + t) == [c] + TranslateNewlines(t)
  {
    assert ([c] + t)[0] == c && ([c] + t)[1..] == t;
  }

  /** Text-mode reading turns a leading "\n", "\r\n" or "\r" into one "\n". */
  lemma TranslateNewlineHead(newline: string, rest: string)
    requires IsNewline(newline)
    requires newline == "\r" ==> rest == [] || rest[0] != '\n'
    ensures TranslateNewlines(newline + rest) == "\n" + TranslateNewlines(rest)
  {
    var s := newline + rest;
    if newline == "\n" {
      assert s[0] == '\n' && s[1..] == rest;
    } else if newline == "\r\n" {
      assert s[0] == '\r' && s[1] == '\n' && s[2..] == rest;
    } else {
      assert s[0] == '\r' && s[1..] == rest;
    }
  }

  /** Text-mode reading keeps a single line as it is. */
  lemma {:induction false} TranslateSingleLine(l: string, t: string)
    requires SingleLine(l)
    ensures TranslateNewlines(l + t) == l + TranslateNewlines(t)
    decreases |l|
  {
    if l == [] {
      assert l + t == t;
    } else {
      var tail := l[1..];
      assert l + t == [l[0]] + (tail + t);
      assert !IsLineBreak(l[0]);
      TranslateOrdinary(l[0], tail + t);
      assert SingleLine(tail) by {
        assert forall k :: 0 <= k < |tail| ==> tail[k] == l[k + 1];
      }
      TranslateSingleLine(tail, t);
      assert [l[0]] + (tail + TranslateNewlines(t)) == l + TranslateNewlines(t);
    }
  }

  /**
   Text-mode reading turns the line end after a single line into "\n",
   whichever of "\n", "\r\n" or "\r" it is, as long as a lone "\r" is not
   followed by a "\n" of the next line.
   */
  lemma TranslateLine(l: string, newline: string, rest: string)
    requires SingleLine(l) && IsNewline(newline)
    requires newline == "\r" ==> rest == [] || rest[0] != '\n'
    ensures TranslateNewlines(l + newline + rest) == l + "\n" + TranslateNewlines(rest)
  {
    var after, t := newline + rest, TranslateNewlines(rest);
    assert l + newline + rest == l + after;
    TranslateSingleLine(l, after);
    TranslateNewlineHead(newline, rest);
    assert l + ("\n" + t) == l + "\n" + t;
  }

  /**
   Text written with "\r\n" or "\r" line ends reads, after text-mode
   translation, exactly like the same lines written with "\n".
   */
  lemma {:induction false} TranslateWrittenLines(ls: seq<string>, newline: string)
    requires forall i :: 0 <= i < |ls| ==> SingleLine(ls[i])
    requires IsNewline(newline)
    ensures TranslateNewlines(WriteLines(ls, newline)) == JoinLines(ls)
    decreases |ls|
  {
    if ls != [] {
      var rest := WriteLines(ls[1..], newline);
      assert SingleLine(ls[0]);
      if newline == "\r" && rest != [] {
        assert ls[1..] != [] && rest == ls[1] + newline + WriteLines(ls[2..], newline);
        assert SingleLine(ls[1]);
        assert rest[0] == if ls[1] != [] then ls[1][0] else '\r';
      }
      TranslateLine(ls[0], newline, rest);
      TranslateWrittenLines(ls[1..], newline);
    }
  }

  /** The first line of `l + "\n" + rest` is exactly `l + "\n"` when `l` holds no "\n". */
  lemma FirstLineOfJoined(l: string, rest: string)
    requires '\n' !in l
    ensures FirstLineLength(l + "\n" + rest) == |l| + 1
  {
    var s := l + "\n" + rest;
    var k := FirstLineLength(s);
    assert s[|l|] == '\n';
    assert forall i :: 0 <= i < |l| ==> s[i] == l[i];
  }

  /** Splitting text written from lines without "\n" gives those lines back, each terminated. */
  lemma {:induction false} SplitJoinedLines(ls: seq<string>)
    requires forall i :: 0 <= i < |ls| ==> '\n' !in ls[i]
    ensures SplitLines(JoinLines(ls)) == Terminated(ls)
    decreases |ls|
  {
    if ls != [] {
      var s := JoinLines(ls);
      var tail := JoinLines(ls[1..]);
      assert s == ls[0] + "\n" + tail;
      FirstLineOfJoined(ls[0], tail);
      var k := |ls[0]| + 1;
      assert s[..k] == ls[0] + "\n";
      assert s[k..] == tail;
      SplitLinesFirst(s);
      SplitJoinedLines(ls[1..]);
      TerminatedFirst(ls);
    }
  }

  /**
   Whichever line end the writer used ("\n", "\r\n" or "\r"), `readlines`
   gives back the written single lines, each with "\n".
   */
  lemma ReadWrittenLines(ls: seq<string>, newline: string)
    requires forall i :: 0 <= i < |ls| ==> SingleLine(ls[i])
    requires IsNewline(newline)
    ensures ReadLines(WriteLines(ls, newline)) == Terminated(ls)
  {
    TranslateWrittenLines(ls, newline);
    forall i | 0 <= i < |ls|
      ensures '\n' !in ls[i]
    {
      assert SingleLine(ls[i]);
    }
    SplitJoinedLines(ls);
  }
}
