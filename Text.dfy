/** Line splitting as Python's `str.splitlines()` does it (without `keepends`),
    the library call that cuts the remarks text into source lines. */
module Text {

  /** The characters `str.splitlines` treats as line boundaries: LF, CR,
      VT, FF, FS, GS, RS, NEL, LINE SEPARATOR and PARAGRAPH SEPARATOR.
      CR followed by LF counts as one boundary (see BreakEnd). */
  predicate IsLineBreak(c: char) {
    c == '\n' || c == '\r' || c == '\U{0B}' || c == '\U{0C}' ||
    c == '\U{1C}' || c == '\U{1D}' || c == '\U{1E}' || c == '\U{85}' ||
    c == '\U{2028}' || c == '\U{2029}'
  }

  predicate NoBreaks(s: string) {
    forall j :: 0 <= j < |s| ==> !IsLineBreak(s[j])
  }

  /** Joins a sequence of strings with nothing in between. */
  function Concat(ss: seq<string>): string {
    if ss == [] then [] else ss[0] + Concat(ss[1..])
  }

  lemma {:induction false} ConcatAppend(a: seq<string>, b: seq<string>)
    ensures Concat(a + b) == Concat(a) + Concat(b)
  {
    if a == [] {
      assert a + b == b;
    } else {
      assert (a + b)[1..] == a[1..] + b;
      ConcatAppend(a[1..], b);
    }
  }

  /** Reference definition: the text with every line-break character removed. */
  function StripBreaks(s: string): string {
    if s == [] then [] else (if IsLineBreak(s[0]) then [] else [s[0]]) + StripBreaks(s[1..])
  }

  lemma {:induction false} StripBreaksAppend(a: string, b: string)
    ensures StripBreaks(a + b) == StripBreaks(a) + StripBreaks(b)
  {
    if a == [] {
      assert a + b == b;
    } else {
      assert (a + b)[1..] == a[1..] + b;
      StripBreaksAppend(a[1..], b);
    }
  }

  lemma {:induction false} StripBreaksKeeps(s: string)
    requires NoBreaks(s)
    ensures StripBreaks(s) == s
  {
    if s != [] {
      StripBreaksKeeps(s[1..]);
    }
  }

  lemma {:induction false} StripBreaksDrops(s: string)
    requires forall j :: 0 <= j < |s| ==> IsLineBreak(s[j])
    ensures StripBreaks(s) == []
  {
    if s != [] {
      StripBreaksDrops(s[1..]);
    }
  }

  /** Index of the first line-break character, or |s| when there is none. */
  function FirstBreak(s: string): (i: nat)
    ensures i <= |s|
    ensures i < |s| ==> IsLineBreak(s[i])
  {
    if s == [] then 0
    else if IsLineBreak(s[0]) then 0
    else 1 + FirstBreak(s[1..])
  }

  /** No boundary comes before the first one. */
  lemma {:induction false} FirstBreakFirst(s: string)
    ensures NoBreaks(s[..FirstBreak(s)])
  {
    if s != [] && !IsLineBreak(s[0]) {
      var k := FirstBreak(s[1..]);
      FirstBreakFirst(s[1..]);
      assert s[..k + 1] == [s[0]] + s[1..][..k];
    }
  }

  /** Where the next line starts after the boundary at index i: a CR LF pair
      is consumed as a single boundary, any other boundary character alone. */
  function BreakEnd(s: string, i: nat): (e: nat)
    requires i < |s| && IsLineBreak(s[i])
    ensures i < e <= i + 2 && e <= |s|
    ensures e == i + 2 <==> i + 2 <= |s| && s[i..i + 2] == "\r\n"
  {
    if s[i] == '\r' && i + 1 < |s| && s[i + 1] == '\n' then i + 2 else i + 1
  }

  /** Everything a boundary consumes is a boundary character. */
  lemma BreakEndBreaks(s: string, i: nat)
    requires i < |s| && IsLineBreak(s[i])
    ensures forall j :: i <= j < BreakEnd(s, i) ==> IsLineBreak(s[j])
  {
    if BreakEnd(s, i) == i + 2 {
      assert s[i + 1] == s[i..i + 2][1];
    }
  }

  /** `s.splitlines()`: the text between boundaries, with no trailing empty
      line after a final boundary, and no line at all for the empty text. */
  function SplitLines(s: string): seq<string>
    decreases |s|
  {
    if s == [] then []
    else
      var i := FirstBreak(s);
      if i == |s| then [s]
      else [s[..i]] + SplitLines(s[BreakEnd(s, i)..])
  }

  /** No split line holds a boundary character, and the text has no lines
      exactly when it is empty. */
  lemma {:induction false} SplitLinesSpec(s: string)
    ensures forall k :: 0 <= k < |SplitLines(s)| ==> NoBreaks(SplitLines(s)[k])
    ensures SplitLines(s) == [] <==> s == []
    decreases |s|
  {
    if s != [] {
      var i := FirstBreak(s);
      FirstBreakFirst(s);
      if i == |s| {
        assert s[..i] == s;
      } else {
        var rest := s[BreakEnd(s, i)..];
        SplitLinesSpec(rest);
        assert forall k :: 1 <= k < |SplitLines(s)| ==> SplitLines(s)[k] == SplitLines(rest)[k - 1];
      }
    }
  }

  /** What may end a line in a written text: CR LF, or one boundary character. */
  predicate Separator(sep: string) {
    sep == "\r\n" || (|sep| == 1 && IsLineBreak(sep[0]))
  }

  predicate StartsWithLF(s: string) {
    |s| > 0 && s[0] == '\n'
  }

  /** A text written line by line: each line followed by its separator, and
      then a last line with no separator after it (empty when the text ends
      with a separator). */
  function Joined(lines: seq<string>, seps: seq<string>, last: string): string
    requires |seps| == |lines|
  {
    if lines == [] then last else lines[0] + seps[0] + Joined(lines[1..], seps[1..], last)
  }

  /** The lines and the last line hold no boundary, every separator is one,
      and no lone CR is directly followed by a LF (that pair would be one
      CR LF separator). */
  predicate WellJoined(lines: seq<string>, seps: seq<string>, last: string)
    requires |seps| == |lines|
  {
    NoBreaks(last) &&
    (lines != [] ==>
      NoBreaks(lines[0]) && Separator(seps[0]) &&
      !(seps[0] == "\r" && StartsWithLF(Joined(lines[1..], seps[1..], last))) &&
      WellJoined(lines[1..], seps[1..], last))
  }

  /** Joining the split lines gives back every character of the text, in
      order, except the line boundaries. */
  lemma {:induction false} ConcatSplitLines(s: string)
    ensures Concat(SplitLines(s)) == StripBreaks(s)
    decreases |s|
  {
    if s != [] {
      var i := FirstBreak(s);
      FirstBreakFirst(s);
      if i == |s| {
        assert s[..i] == s;
        StripBreaksKeeps(s);
      } else {
        var e := BreakEnd(s, i);
        BreakEndBreaks(s, i);
        assert s == s[..i] + s[i..e] + s[e..];
        StripBreaksAppend(s[..i] + s[i..e], s[e..]);
        StripBreaksAppend(s[..i], s[i..e]);
        StripBreaksKeeps(s[..i]);
        StripBreaksDrops(s[i..e]);
        ConcatSplitLines(s[e..]);
      }
    }
  }

  /** The first boundary is at n when the character at n is one and none
      comes before it. */
  lemma {:induction false} FirstBreakIs(t: string, n: nat)
    requires n < |t| && IsLineBreak(t[n]) && NoBreaks(t[..n])
    ensures FirstBreak(t) == n
  {
    if n > 0 {
      assert t[..n][0] == t[0];
      assert t[1..][..n - 1] == t[..n][1..];
      FirstBreakIs(t[1..], n - 1);
    }
  }

  /** One step of `splitlines`: a boundary-free line followed by a separator
      is the first line, and splitting resumes right after the separator. */
  lemma SplitAfterBreak(l: string, sep: string, rest: string)
    requires NoBreaks(l) && Separator(sep)
    requires !(sep == "\r" && StartsWithLF(rest))
    ensures SplitLines(l + sep + rest) == [l] + SplitLines(rest)
  {
    var t := l + sep + rest;
    var n := |l|;
    assert t[..n] == l;
    assert t[n] == sep[0];
    FirstBreakIs(t, n);
    if sep == "\r\n" {
      assert t[n..n + 2] == sep;
    } else if n + 1 < |t| {
      assert t[n + 1] == rest[0];
      assert t[n..n + 2] != "\r\n";
    }
    assert BreakEnd(t, n) == n + |sep|;
    assert t[n + |sep|..] == rest;
  }

  /** One step of the round trip: a written line in front of a text whose
      split is already known. */
  lemma JoinedStep(l: string, sep: string, rest: string, more: seq<string>)
    requires NoBreaks(l) && Separator(sep) && !(sep == "\r" && StartsWithLF(rest))
    requires SplitLines(rest) == more
    ensures SplitLines(l + sep + rest) == [l] + more
  {
    SplitAfterBreak(l, sep, rest);
  }

  /** Round trip: a text written line by line with any separators splits
      back into exactly those lines, plus the last line when it is not empty. */
  lemma {:induction false} SplitJoined(lines: seq<string>, seps: seq<string>, last: string)
    requires |seps| == |lines| && WellJoined(lines, seps, last)
    ensures SplitLines(Joined(lines, seps, last)) == lines + (if last == [] then [] else [last])
  {
    if lines == [] {
      if last != [] {
        SingleLine(last);
      }
    } else {
      var lastLine := if last == [] then [] else [last];
      var rest := Joined(lines[1..], seps[1..], last);
      SplitJoined(lines[1..], seps[1..], last);
      JoinedStep(lines[0], seps[0], rest, lines[1..] + lastLine);
      assert lines + lastLine == [lines[0]] + (lines[1..] + lastLine) by {
        assert lines == [lines[0]] + lines[1..];
      }
    }
  }

  /** CR LF is one boundary, a lone CR ends a line too, and a last line
      needs no separator. */
  lemma SplitExamples()
    ensures SplitLines("a\r\nb") == ["a", "b"]
    ensures SplitLines("a\rb") == ["a", "b"]
  {
    SingleLine("b");
    assert SplitLines("a\r\nb") == ["a", "b"] by {
      SplitAfterBreak("a", "\r\n", "b");
      assert "a" + "\r\n" + "b" == "a\r\nb";
    }
    assert SplitLines("a\rb") == ["a", "b"] by {
      SplitAfterBreak("a", "\r", "b");
      assert "a" + "\r" + "b" == "a\rb";
    }
  }

  /** A non-empty text without boundaries is a single line. */
  lemma SingleLine(s: string)
    requires s != [] && NoBreaks(s)
    ensures SplitLines(s) == [s]
  {
    assert s[..|s|] == s;
  }
}
