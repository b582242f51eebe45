/** The text operations the workflow guard applies to comment bodies. */
module GuardText {

  /** The characters `str.rstrip` removes. */
  predicate IsSpace(c: char) {
    || '\U{0009}' <= c <= '\U{000D}' || '\U{001C}' <= c <= '\U{0020}'
    || c == '\U{0085}' || c == '\U{00A0}' || c == '\U{1680}' || '\U{2000}' <= c <= '\U{200A}'
    || c == '\U{2028}' || c == '\U{2029}' || c == '\U{202F}' || c == '\U{205F}' || c == '\U{3000}'
  }

  /** The characters at which `str.splitlines` ends a line. */
  predicate IsLineBreak(c: char) {
    || '\U{000A}' <= c <= '\U{000D}' || '\U{001C}' <= c <= '\U{001E}'
    || c == '\U{0085}' || c == '\U{2028}' || c == '\U{2029}'
  }

  predicate IsLowerHex(c: char) {
    '0' <= c <= '9' || 'a' <= c <= 'f'
  }

  predicate IsFullSha(s: string) {
    |s| == 40 && forall i | 0 <= i < |s| :: IsLowerHex(s[i])
  }

  predicate IsSha256(s: string) {
    |s| == 64 && forall i | 0 <= i < |s| :: IsLowerHex(s[i])
  }

  predicate IsDigits(s: string) {
    |s| > 0 && forall i | 0 <= i < |s| :: '0' <= s[i] <= '9'
  }

  /** ASCII `str.upper`. */
  function UpperChar(c: char): char {
    if 'a' <= c <= 'z' then ((c as int) - 32) as char else c
  }

  function Upper(s: string): (r: string)
    ensures |r| == |s|
    ensures forall i | 0 <= i < |s| :: r[i] == UpperChar(s[i])
  {
    seq(|s|, i requires 0 <= i < |s| => UpperChar(s[i]))
  }

  /** Carriage returns, alone or before a line feed, become one line feed. */
  function ToLf(s: string): string {
    if s == "" then ""
    else if s[0] == '\r' then "\n" + ToLf(if |s| > 1 && s[1] == '\n' then s[2..] else s[1..])
    else [s[0]] + ToLf(s[1..])
  }

  lemma ToLfClean(s: string)
    ensures '\r' !in ToLf(s)
    ensures '\r' !in s ==> ToLf(s) == s
  {
    if s != "" && s[0] != '\r' {
      ToLfClean(s[1..]);
      assert s == [s[0]] + s[1..];
    }
  }

  lemma {:induction false} ToLfAppend(a: string, b: string)
    requires '\r' !in a
    ensures ToLf(a + b) == a + ToLf(b)
  {
    if a == "" {
      assert a + b == b;
    } else {
      assert (a + b)[1..] == a[1..] + b;
      assert a[0] in a;
      ToLfAppend(a[1..], b);
      assert [a[0]] + (a[1..] + ToLf(b)) == a + ToLf(b);
    }
  }

  function RStrip(s: string): string {
    if s == "" || !IsSpace(s[|s| - 1]) then s else RStrip(s[..|s| - 1])
  }

  function SplitOn(s: string, sep: char): (lines: seq<string>)
    ensures |lines| >= 1
  {
    if s == "" then [""]
    else
      var rest := SplitOn(s[1..], sep);
      if s[0] == sep then [""] + rest else [[s[0]] + rest[0]] + rest[1..]
  }

  lemma SplitHasNoSeparator(s: string, sep: char)
    ensures forall i | 0 <= i < |SplitOn(s, sep)| :: sep !in SplitOn(s, sep)[i]
  {
  }

  function JoinOn(lines: seq<string>, sep: char): string {
    if |lines| == 0 then ""
    else if |lines| == 1 then lines[0]
    else lines[0] + [sep] + JoinOn(lines[1..], sep)
  }

  lemma JoinSplit(s: string, sep: char)
    ensures JoinOn(SplitOn(s, sep), sep) == s
  {
    if s != "" {
      JoinSplit(s[1..], sep);
      var rest := SplitOn(s[1..], sep);
      var lines := SplitOn(s, sep);
      if s[0] == sep {
        assert lines[1..] == rest;
      } else if |rest| > 1 {
        assert lines[1..] == rest[1..];
      }
    }
  }

  lemma {:induction false} SplitPrefix(line: string, tail: string, sep: char)
    requires sep !in line
    ensures SplitOn(line + tail, sep)
         == [line + SplitOn(tail, sep)[0]] + SplitOn(tail, sep)[1..]
  {
    var rest := SplitOn(tail, sep);
    if line == "" {
      assert line + tail == tail;
      assert "" + rest[0] == rest[0];
      assert [rest[0]] + rest[1..] == rest;
    } else {
      assert (line + tail)[1..] == line[1..] + tail;
      assert line[0] in line;
      SplitPrefix(line[1..], tail, sep);
      assert [line[0]] + (line[1..] + rest[0]) == line + rest[0];
    }
  }

  lemma SplitCons(line: string, tail: string, sep: char)
    requires sep !in line
    ensures SplitOn(line + [sep] + tail, sep) == [line] + SplitOn(tail, sep)
  {
    assert line + [sep] + tail == line + ([sep] + tail);
    assert ([sep] + tail)[1..] == tail;
    assert SplitOn([sep] + tail, sep) == [""] + SplitOn(tail, sep);
    SplitPrefix(line, [sep] + tail, sep);
    assert line + "" == line;
  }

  lemma JoinCons(line: string, lines: seq<string>, sep: char)
    requires |lines| > 0
    ensures JoinOn([line] + lines, sep) == line + [sep] + JoinOn(lines, sep)
  {
    assert ([line] + lines)[1..] == lines;
  }

  lemma {:induction false} SplitJoin(lines: seq<string>, tail: string, sep: char)
    requires forall i | 0 <= i < |lines| :: sep !in lines[i]
    ensures SplitOn(JoinOn(lines + [tail], sep), sep) == lines + SplitOn(tail, sep)
  {
    if |lines| == 0 {
      assert lines + [tail] == [tail];
      assert lines + SplitOn(tail, sep) == SplitOn(tail, sep);
    } else {
      assert lines + [tail] == [lines[0]] + (lines[1..] + [tail]);
      JoinCons(lines[0], lines[1..] + [tail], sep);
      SplitCons(lines[0], JoinOn(lines[1..] + [tail], sep), sep);
      SplitJoin(lines[1..], tail, sep);
      assert forall i | 0 <= i < |lines[1..]| :: lines[1..][i] == lines[i + 1];
      assert [lines[0]] + (lines[1..] + SplitOn(tail, sep)) == lines + SplitOn(tail, sep);
    }
  }

  /** The position of the first `c`, or the length of the text. */
  function IndexOf(s: string, c: char): (k: nat)
    ensures k <= |s|
  {
    if s == "" || s[0] == c then 0 else 1 + IndexOf(s[1..], c)
  }

  lemma IndexIsFirst(s: string, c: char)
    ensures forall i | 0 <= i < IndexOf(s, c) :: s[i] != c
    ensures IndexOf(s, c) < |s| ==> s[IndexOf(s, c)] == c
  {
  }

  // ----- Line normalization -----

  /** `str.splitlines` on text without carriage returns. */
  function SplitLines(s: string): seq<string> {
    if s == "" then []
    else
      var rest := SplitLines(s[1..]);
      if IsLineBreak(s[0]) then [""] + rest
      else if rest == [] then [[s[0]]]
      else [[s[0]] + rest[0]] + rest[1..]
  }

  function StripAll(lines: seq<string>): seq<string> {
    if lines == [] then [] else [RStrip(lines[0])] + StripAll(lines[1..])
  }

  /** The text normalization as a pipeline over lines. */
  function NormalizeByLines(s: string): string {
    RStrip(JoinOn(StripAll(SplitLines(ToLf(s))), '\n'))
  }

  /** The same normalization in one pass from the end of the text. */
  function NormalizeLines(s: string): string {
    StripLines(ToLf(s))
  }

  function StripLines(s: string): string {
    if s == "" then ""
    else StripCons(if IsLineBreak(s[0]) then '\n' else s[0], StripLines(s[1..]))
  }

  /** White space at the end of a line, or of the text, goes. */
  function StripCons(c: char, rest: string): string {
    if IsSpace(c) && (rest == "" || (c != '\n' && rest[0] == '\n')) then rest else [c] + rest
  }

  lemma {:induction false} RStripCons(c: char, s: string)
    ensures RStrip([c] + s) == if RStrip(s) == "" then RStrip([c]) else [c] + RStrip(s)
  {
    if s == "" {
      assert [c] + s == [c];
    } else {
      var t := [c] + s;
      assert t[|t| - 1] == s[|s| - 1];
      assert t[..|t| - 1] == [c] + s[..|s| - 1];
      RStripCons(c, s[..|s| - 1]);
    }
  }

  lemma RStripPrefix(s: string)
    ensures RStrip(s) <= s
  {
  }

  /** Only the first line sees the first character. */
  lemma JoinFirst(c: char, first: string, rest: seq<string>)
    ensures JoinOn([[c] + first] + rest, '\n') == [c] + JoinOn([first] + rest, '\n')
  {
    assert ([[c] + first] + rest)[1..] == rest && ([first] + rest)[1..] == rest;
    assert [c] + (first + ['\n'] + JoinOn(rest, '\n')) == ([c] + first) + ['\n'] + JoinOn(rest, '\n');
  }

  lemma SplitLinesFirst(s: string)
    requires SplitLines(s) != []
    ensures forall c | c in SplitLines(s)[0] :: !IsLineBreak(c)
  {
  }

  /** One pass and the pipeline agree. */
  lemma {:induction false} StripLinesIsPipeline(s: string)
    ensures StripLines(s) == RStrip(JoinOn(StripAll(SplitLines(s)), '\n'))
  {
    if s != "" {
      var c, tail := s[0], s[1..];
      StripLinesIsPipeline(tail);
      var rest := SplitLines(tail);
      var text := JoinOn(StripAll(rest), '\n');
      if IsLineBreak(c) {
        assert StripAll([""] + rest) == [""] + StripAll(rest) by {
          assert ([""] + rest)[1..] == rest;
        }
        if rest == [] {
          assert StripAll([""]) == [""];
        } else {
          JoinCons("", StripAll(rest), '\n');
          assert "" + ['\n'] + text == ['\n'] + text;
          RStripCons('\n', text);
        }
      } else if rest == [] {
        assert StripAll([[c]]) == [RStrip([c])];
        RStripIdempotent([c]);
      } else {
        StripFirst(c, tail, rest, text);
      }
    }
  }

  lemma RStripIdempotent(s: string)
    ensures RStrip(RStrip(s)) == RStrip(s)
  {
  }

  lemma StripFirst(c: char, tail: string, rest: seq<string>, text: string)
    requires !IsLineBreak(c) && rest == SplitLines(tail) && rest != []
    requires text == JoinOn(StripAll(rest), '\n') && StripLines(tail) == RStrip(text)
    ensures StripLines([c] + tail) == RStrip(JoinOn(StripAll([[c] + rest[0]] + rest[1..]), '\n'))
  {
    hide IsLineBreak, JoinOn, RStrip, StripCons, SplitLines;
    var others := StripAll(rest[1..]);
    assert ([c] + tail)[1..] == tail;
    assert StripLines([c] + tail) == StripCons(c, RStrip(text));
    assert ([[c] + rest[0]] + rest[1..])[1..] == rest[1..];
    assert StripAll([[c] + rest[0]] + rest[1..]) == [RStrip([c] + rest[0])] + others;
    assert StripAll(rest) == [RStrip(rest[0])] + others;
    SplitLinesFirst(tail);
    StripFirstLine(c, rest[0], others);
  }

  lemma StripFirstLine(c: char, line: string, others: seq<string>)
    requires !IsLineBreak(c) && forall x | x in line :: !IsLineBreak(x)
    ensures RStrip(JoinOn([RStrip([c] + line)] + others, '\n'))
         == StripCons(c, RStrip(JoinOn([RStrip(line)] + others, '\n')))
  {
    hide JoinOn;
    var first := RStrip(line);
    var text := JoinOn([first] + others, '\n');
    RStripCons(c, line);
    RStripCons(c, text);
    RStripPrefix(text);
    if first == "" {
      EmptyFirstLine(c, others);
    } else {
      FirstLineSurvives(first, others, line);
      JoinFirst(c, first, others);
    }
  }

  lemma EmptyFirstLine(c: char, others: seq<string>)
    ensures var text := JoinOn([""] + others, '\n');
            && (text == "" || text[0] == '\n')
            && JoinOn([RStrip([c])] + others, '\n') == if IsSpace(c) then text else [c] + text
  {
    if others == [] {
      assert [""] + others == [""] && [RStrip([c])] + others == [RStrip([c])];
    } else {
      JoinCons("", others, '\n');
      JoinCons(RStrip([c]), others, '\n');
    }
  }

  lemma {:induction false} FirstLineSurvives(first: string, others: seq<string>, line: string)
    requires first != "" && first == RStrip(line)
    requires forall c | c in line :: !IsLineBreak(c)
    ensures var text := RStrip(JoinOn([first] + others, '\n'));
            text != "" && !IsLineBreak(text[0])
  {
    StripEnds(line);
    RStripPrefix(line);
    assert ([first] + others)[1..] == others;
    var text := JoinOn([first] + others, '\n');
    RStripPrefix(text);
    assert text[0] == first[0] && first[0] in line;
    assert text[|first| - 1] == first[|first| - 1];
    SolidStays(text, |first| - 1);
  }

  lemma StripEnds(s: string)
    requires RStrip(s) != ""
    ensures !IsSpace(RStrip(s)[|RStrip(s)| - 1])
  {
  }

  lemma SolidStays(s: string, i: nat)
    requires i < |s| && !IsSpace(s[i])
    ensures RStrip(s) != ""
  {
  }

  /** The one-pass form does what the pipeline over lines says. */
  lemma NormalizeIsPipeline(s: string)
    ensures NormalizeLines(s) == NormalizeByLines(s)
  {
    StripLinesIsPipeline(ToLf(s));
  }

  lemma {:induction false} StripLinesFixed(s: string)
    ensures StripLines(StripLines(s)) == StripLines(s)
    ensures '\r' !in StripLines(s)
  {
    if s != "" {
      StripLinesFixed(s[1..]);
      var rest := StripLines(s[1..]);
      var c := if IsLineBreak(s[0]) then '\n' else s[0];
      assert ([c] + rest)[1..] == rest;
    }
  }

  /** Normalizing twice changes nothing more. */
  lemma NormalizeIdempotent(s: string)
    ensures NormalizeLines(NormalizeLines(s)) == NormalizeLines(s)
  {
    StripLinesFixed(ToLf(s));
    ToLfClean(NormalizeLines(s));
  }

  /** Line endings do not matter to normalization. */
  lemma NormalizeIgnoresReturns(s: string)
    ensures NormalizeLines(ToLf(s)) == NormalizeLines(s)
  {
    ToLfClean(s);
    ToLfClean(ToLf(s));
  }
}
