/** Caption wrapping for the portrait video overlay: the per-line character
    budget, the greedy word wrapper, the drawtext escaper and the display
    string that joins escaped lines with a backslash-n. */
module TextWrapping {
  import opened PyStr

  // ---------------------------------------------------------------- line budget

  /** Python's int() on a quotient: truncation toward zero. */
  function TruncDiv(a: int, b: int): (q: int)
    requires b != 0
    ensures (a >= 0) == (b > 0) || a == 0 ==> q >= 0
    ensures (a < 0) != (b < 0) ==> q <= 0
    ensures Abs(q) * Abs(b) <= Abs(a) < (Abs(q) + 1) * Abs(b)
  {
    var n := Abs(a) / Abs(b);
    QuotientBounds(Abs(a), Abs(b));
    assert Abs(n) == Abs(-n) == n;
    if (a < 0) == (b < 0) then n else -n
  }

  lemma QuotientBounds(x: nat, d: nat)
    requires d > 0
    ensures (x / d) * d <= x < (x / d + 1) * d
  {
    var q := x / d;
    assert x == q * d + x % d;
    assert (q + 1) * d == q * d + d;
  }

  function Abs(x: int): nat {
    if x < 0 then -x else x
  }

  /** Characters that fit across the frame: the available width divided by
      the estimated glyph width fontsize * 0.5, i.e. 2 * available / fontsize. */
  function GlyphsAcross(videoWidth: int, fontsize: int, margin: int): int
    requires fontsize != 0
  {
    TruncDiv(2 * (videoWidth - 2 * margin), fontsize)
  }

  /** max_chars: the glyph estimate clamped to at least 15 and then to at
      most 20 characters per line. */
  function MaxCharsPerLine(videoWidth: int, fontsize: int, margin: int): (r: int)
    requires fontsize != 0
    ensures 15 <= r <= 20
    ensures var est := GlyphsAcross(videoWidth, fontsize, margin);
      (15 <= est <= 20 ==> r == est) && (est < 15 ==> r == 15) && (est > 20 ==> r == 20)
  {
    var est := GlyphsAcross(videoWidth, fontsize, margin);
    var atLeast := if est > 15 then est else 15;
    if atLeast < 20 then atLeast else 20
  }

  /** The portrait configuration (1080 px wide, 56 px font, 50 px margins)
      estimates 35 glyphs and is clamped to 20. */
  lemma PortraitBudget()
    ensures GlyphsAcross(1080, 56, 50) == 35
    ensures MaxCharsPerLine(1080, 56, 50) == 20
  {
  }

  // ---------------------------------------------------------------- escaping

  /** The characters escape_drawtext puts a backslash in front of. */
  predicate DrawtextSpecial(c: char) {
    c == '\\' || c == '\'' || c == ':' || c == '%' || c == '[' || c == ']'
  }

  /** escape_drawtext: six replaces in sequence, the backslash first. */
  function EscapeDrawtext(s: string): string {
    var s1 := ReplaceChar(s, '\\', "\\\\");
    var s2 := ReplaceChar(s1, '\'', "\\'");
    var s3 := ReplaceChar(s2, ':', "\\:");
    var s4 := ReplaceChar(s3, '%', "\\%");
    var s5 := ReplaceChar(s4, '[', "\\[");
    ReplaceChar(s5, ']', "\\]")
  }

  /** The same escaping stated one character at a time. */
  function EscapeChar(c: char): string {
    if DrawtextSpecial(c) then ['\\', c] else [c]
  }

  function EscapeEach(s: string): string {
    if s == [] then [] else EscapeChar(s[0]) + EscapeEach(s[1..])
  }

  lemma EscapeDrawtextConcat(a: string, b: string)
    ensures EscapeDrawtext(a + b) == EscapeDrawtext(a) + EscapeDrawtext(b)
  {
    var a1, b1 := ReplaceChar(a, '\\', "\\\\"), ReplaceChar(b, '\\', "\\\\");
    ReplaceCharConcat(a, b, '\\', "\\\\");
    var a2, b2 := ReplaceChar(a1, '\'', "\\'"), ReplaceChar(b1, '\'', "\\'");
    ReplaceCharConcat(a1, b1, '\'', "\\'");
    var a3, b3 := ReplaceChar(a2, ':', "\\:"), ReplaceChar(b2, ':', "\\:");
    ReplaceCharConcat(a2, b2, ':', "\\:");
    var a4, b4 := ReplaceChar(a3, '%', "\\%"), ReplaceChar(b3, '%', "\\%");
    ReplaceCharConcat(a3, b3, '%', "\\%");
    var a5, b5 := ReplaceChar(a4, '[', "\\["), ReplaceChar(b4, '[', "\\[");
    ReplaceCharConcat(a4, b4, '[', "\\[");
    ReplaceCharConcat(a5, b5, ']', "\\]");
  }

  lemma EscapeDrawtextChar(c: char)
    ensures EscapeDrawtext([c]) == EscapeChar(c)
  {
    var s1 := ReplaceChar([c], '\\', "\\\\");
    assert s1 == (if c == '\\' then "\\\\" else [c]) by {
      assert [c][1..] == [];
    }
    var s2 := ReplaceChar(s1, '\'', "\\'");
    assert s2 == (if c == '\'' then "\\'" else s1) by {
      if c == '\'' { assert [c][1..] == []; }
    }
    var s3 := ReplaceChar(s2, ':', "\\:");
    assert s3 == (if c == ':' then "\\:" else s2) by {
      if c == ':' { assert [c][1..] == []; }
    }
    var s4 := ReplaceChar(s3, '%', "\\%");
    assert s4 == (if c == '%' then "\\%" else s3) by {
      if c == '%' { assert [c][1..] == []; }
    }
    var s5 := ReplaceChar(s4, '[', "\\[");
    assert s5 == (if c == '[' then "\\[" else s4) by {
      if c == '[' { assert [c][1..] == []; }
    }
    var s6 := ReplaceChar(s5, ']', "\\]");
    assert s6 == (if c == ']' then "\\]" else s5) by {
      if c == ']' { assert [c][1..] == []; }
    }
  }

  /** Escaping the backslash first keeps the six replaces from interfering:
      the chain equals escaping each character on its own. */
  lemma {:induction false} EscapeDrawtextIsCharwise(s: string)
    ensures EscapeDrawtext(s) == EscapeEach(s)
  {
    if s != [] {
      assert s == [s[0]] + s[1..];
      EscapeDrawtextConcat([s[0]], s[1..]);
      EscapeDrawtextChar(s[0]);
      EscapeDrawtextIsCharwise(s[1..]);
    }
  }

  function CountSpecial(s: string): nat {
    if s == [] then 0 else (if DrawtextSpecial(s[0]) then 1 else 0) + CountSpecial(s[1..])
  }

  /** The escaped text is longer by exactly one backslash per special
      character. */
  lemma {:induction false} EscapeDrawtextLength(s: string)
    ensures |EscapeDrawtext(s)| == |s| + CountSpecial(s)
  {
    EscapeDrawtextIsCharwise(s);
    EscapeEachLength(s);
  }

  lemma {:induction false} EscapeEachLength(s: string)
    ensures |EscapeEach(s)| == |s| + CountSpecial(s)
  {
    if s != [] {
      EscapeEachLength(s[1..]);
    }
  }

  // ---------------------------------------------------------------- display text

  function EscapeAll(lines: seq<string>): (r: seq<string>)
    ensures |r| == |lines|
  {
    if lines == [] then [] else [EscapeDrawtext(lines[0])] + EscapeAll(lines[1..])
  }

  /** The two characters backslash and n that separate lines in the
      drawtext text. */
  const LineBreak: string := "\\n"

  /** '\\n'.join(escape_drawtext(line) for line in lines) */
  function DisplayText(lines: seq<string>): string {
    JoinWith(LineBreak, EscapeAll(lines))
  }

  /** How the drawtext text reads back: a backslash followed by n breaks the
      line, a backslash followed by any other character stands for that
      character, anything else stands for itself. */
  function ReadDisplay(s: string, line: string): (r: seq<string>)
    ensures |r| >= 1
    decreases |s|
  {
    if s == [] then [line]
    else if s[0] == '\\' && |s| >= 2 && s[1] == 'n' then [line] + ReadDisplay(s[2..], [])
    else if s[0] == '\\' && |s| >= 2 then ReadDisplay(s[2..], line + [s[1]])
    else ReadDisplay(s[1..], line + [s[0]])
  }

  /** One escaped character reads back as itself. */
  lemma ReadEscapedChar(c: char, tail: string, line: string)
    ensures ReadDisplay(EscapeChar(c) + tail, line) == ReadDisplay(tail, line + [c])
  {
    var e := EscapeChar(c) + tail;
    if DrawtextSpecial(c) {
      assert e[0] == '\\' && e[1] == c && e[2..] == tail;
    } else {
      assert e[0] == c && e[1..] == tail;
    }
  }

  lemma {:induction false} ReadEscaped(x: string, rest: string, line: string)
    ensures ReadDisplay(EscapeEach(x) + rest, line) == ReadDisplay(rest, line + x)
  {
    if x == [] {
      assert EscapeEach(x) + rest == rest;
      assert line + x == line;
    } else {
      var c := x[0];
      var tail := EscapeEach(x[1..]) + rest;
      calc {
        ReadDisplay(EscapeEach(x) + rest, line);
      == { assert EscapeEach(x) + rest == EscapeChar(c) + tail; }
        ReadDisplay(EscapeChar(c) + tail, line);
      == { ReadEscapedChar(c, tail, line); }
        ReadDisplay(tail, line + [c]);
      == { ReadEscaped(x[1..], rest, line + [c]); }
        ReadDisplay(rest, line + [c] + x[1..]);
      == { assert line + [c] + x[1..] == line + x; }
        ReadDisplay(rest, line + x);
      }
    }
  }

  /** Removing the escapes recovers the line. */
  lemma EscapeDrawtextReadsBack(s: string)
    ensures ReadDisplay(EscapeDrawtext(s), []) == [s]
  {
    EscapeDrawtextIsCharwise(s);
    ReadEscapedLine(s);
  }

  /** The display text is unambiguous: reading it back gives the wrapped
      lines, so there is exactly one line break between consecutive lines
      and none inside a line. */
  lemma {:induction false} DisplayTextReadsBack(lines: seq<string>)
    requires lines != []
    ensures ReadDisplay(DisplayText(lines), []) == lines
  {
    var first := lines[0];
    var head := EscapeEach(first);
    EscapedHead(lines);
    ReadEscapedLine(first);
    if |lines| == 1 {
      assert DisplayText(lines) == head;
    } else {
      var rest := DisplayText(lines[1..]);
      DisplayTextUnfold(lines);
      ReadEscaped(first, LineBreak + rest, []);
      assert [] + first == first;
      ReadLineBreak(rest, first);
      DisplayTextReadsBack(lines[1..]);
      assert lines == [first] + lines[1..];
    }
  }

  lemma EscapedHead(lines: seq<string>)
    requires lines != []
    ensures EscapeAll(lines) == [EscapeEach(lines[0])] + EscapeAll(lines[1..])
  {
    EscapeDrawtextIsCharwise(lines[0]);
  }

  lemma ReadEscapedLine(line: string)
    ensures ReadDisplay(EscapeEach(line), []) == [line]
    ensures ReadDisplay(EscapeEach(line), []) == ReadDisplay([], line)
  {
    ReadEscaped(line, [], []);
    assert EscapeEach(line) + [] == EscapeEach(line);
    assert [] + line == line;
  }

  lemma DisplayTextUnfold(lines: seq<string>)
    requires |lines| >= 2
    ensures DisplayText(lines) == EscapeEach(lines[0]) + (LineBreak + DisplayText(lines[1..]))
  {
    var escaped := EscapeAll(lines);
    EscapedHead(lines);
    JoinUnfold(LineBreak, escaped);
    assert escaped[1..] == EscapeAll(lines[1..]);
  }

  lemma ReadLineBreak(rest: string, line: string)
    ensures ReadDisplay(LineBreak + rest, line) == [line] + ReadDisplay(rest, [])
  {
    var s := LineBreak + rest;
    assert s[0] == '\\' && s[1] == 'n' && s[2..] == rest;
  }

  /** The display text is the escaped lines plus one two-character break
      between each consecutive pair. */
  lemma DisplayTextLength(lines: seq<string>)
    requires lines != []
    ensures |DisplayText(lines)| == TotalLength(EscapeAll(lines)) + 2 * (|lines| - 1)
  {
    JoinLength(LineBreak, EscapeAll(lines));
  }

  // ---------------------------------------------------------------- wrapping

  /** The words of each line. */
  function LineWords(lines: seq<string>): (r: seq<seq<string>>)
    ensures |r| == |lines|
  {
    seq(|lines|, i requires 0 <= i < |lines| => Words(lines[i]))
  }

  function JoinEach(groups: seq<seq<string>>): (r: seq<string>)
    ensures |r| == |groups|
  {
    seq(|groups|, i requires 0 <= i < |groups| => JoinSpace(groups[i]))
  }

  lemma {:induction false} JoinOfJoins(groups: seq<seq<string>>)
    requires forall i :: 0 <= i < |groups| ==> groups[i] != []
    ensures JoinSpace(JoinEach(groups)) == JoinSpace(Flatten(groups))
  {
    if |groups| == 1 {
      assert Flatten(groups) == groups[0] + Flatten(groups[1..]);
      assert groups[0] + [] == groups[0];
    } else if |groups| > 1 {
      JoinOfJoins(groups[1..]);
      assert JoinEach(groups)[1..] == JoinEach(groups[1..]);
      assert Flatten(groups[1..]) != [] by {
        assert Flatten(groups[1..]) == groups[1] + Flatten(groups[2..]);
      }
      JoinConcat(" ", groups[0], Flatten(groups[1..]));
    }
  }

  /** f"{current_line} {word}".strip() of a line built from words. */
  lemma StripNextLine(cur: seq<string>, word: string)
    requires AllWords(cur) && IsWord(word)
    ensures Strip(JoinSpace(cur) + " " + word) == JoinSpace(cur + [word])
  {
    if cur == [] {
      assert JoinSpace([word]) == word;
      assert (" " + word)[1..] == word;
      assert LStrip(" " + word) == LStrip(word);
    } else {
      JoinAppend(" ", cur, word);
      JoinSpaceEnds(cur);
      StripBorders(JoinSpace(cur) + " " + word);
    }
  }

  lemma {:induction false} WordsOfBlank(s: string)
    requires IsBlank(s)
    ensures Words(s) == []
  {
    if s != [] {
      WordsOfBlank(s[1..]);
    }
  }

  /** lines[i] is groups[i] joined by spaces, every group is a non-empty run
      of words, a line overflows maxChars only when it is a single word, and
      each line was closed only because the next word did not fit on it. */
  ghost predicate Packed(lines: seq<string>, groups: seq<seq<string>>, maxChars: int) {
    && |lines| == |groups|
    && (forall i :: 0 <= i < |groups| ==>
         groups[i] != [] && AllWords(groups[i]) && lines[i] == JoinSpace(groups[i]))
    && (forall i :: 0 <= i < |groups| ==> |lines[i]| <= maxChars || |groups[i]| == 1)
    && (forall i :: 0 <= i < |groups| - 1 ==> |lines[i]| + 1 + |groups[i + 1][0]| > maxChars)
  }

  /** Closing the current line keeps the packing. */
  lemma PackedClose(lines: seq<string>, groups: seq<seq<string>>, cur: seq<string>, maxChars: int)
    requires Packed(lines, groups, maxChars)
    requires cur != [] && AllWords(cur)
    requires |JoinSpace(cur)| <= maxChars || |cur| == 1
    requires groups != [] ==> |lines[|lines| - 1]| + 1 + |cur[0]| > maxChars
    ensures Packed(lines + [JoinSpace(cur)], groups + [cur], maxChars)
  {
  }

  /** A finished packing, stated on the lines alone. */
  lemma PackedLines(lines: seq<string>, groups: seq<seq<string>>, maxChars: int)
    requires Packed(lines, groups, maxChars)
    ensures LineWords(lines) == groups
    ensures JoinSpace(lines) == JoinSpace(Flatten(groups))
    ensures forall i :: 0 <= i < |lines| ==>
      Words(lines[i]) != [] && lines[i] == JoinSpace(Words(lines[i]))
  {
    forall i | 0 <= i < |lines| ensures LineWords(lines)[i] == groups[i] {
      WordsOfJoin(groups[i]);
    }
    assert lines == JoinEach(groups);
    JoinOfJoins(groups);
  }

  /** The loop state of wrap_text_for_video after k words: the closed lines
      are packed, the current line is the words of cur joined by spaces, and
      closed lines plus cur are exactly the first k words. */
  ghost predicate WrapState(words: seq<string>, k: nat, lines: seq<string>, groups: seq<seq<string>>,
                            current: string, cur: seq<string>, maxChars: int)
  {
    && k <= |words|
    && current == JoinSpace(cur) && AllWords(cur)
    && Flatten(groups) + cur == words[..k]
    && Packed(lines, groups, maxChars)
    && (cur == [] || |current| <= maxChars || |cur| == 1)
    && (k > 0 ==> cur != [])
    && (groups != [] ==> cur != [] && |lines[|lines| - 1]| + 1 + |cur[0]| > maxChars)
  }

  /** Nothing has been read yet. */
  lemma StepStart(words: seq<string>, maxChars: int)
    ensures WrapState(words, 0, [], [], "", [], maxChars)
  {
    assert words[..0] == [];
    assert Flatten<string>([]) == [];
  }

  /** The next word fits on the current line. */
  lemma StepExtend(words: seq<string>, k: nat, lines: seq<string>, groups: seq<seq<string>>,
                   current: string, cur: seq<string>, maxChars: int)
    requires AllWords(words) && k < |words|
    requires WrapState(words, k, lines, groups, current, cur, maxChars)
    requires |Strip(current + " " + words[k])| <= maxChars
    ensures WrapState(words, k + 1, lines, groups, Strip(current + " " + words[k]), cur + [words[k]], maxChars)
  {
    var word := words[k];
    var next := cur + [word];
    StripNextLine(cur, word);
    TakeStep(words, k);
    AppendOne(Flatten(groups), cur, word);
    assert AllWords(next) by {
      forall i | 0 <= i < |next| ensures IsWord(next[i]) {
        if i < |cur| {
          assert next[i] == cur[i];
        }
      }
    }
    assert cur != [] ==> next[0] == cur[0];
  }

  /** The next word does not fit: the current line is closed and the word
      starts the next one. */
  lemma StepClose(words: seq<string>, k: nat, lines: seq<string>, groups: seq<seq<string>>,
                  current: string, cur: seq<string>, maxChars: int)
    requires AllWords(words) && k < |words|
    requires WrapState(words, k, lines, groups, current, cur, maxChars)
    requires |Strip(current + " " + words[k])| > maxChars && current != ""
    ensures WrapState(words, k + 1, lines + [current], groups + [cur], words[k], [words[k]], maxChars)
  {
    var word := words[k];
    assert cur != [];
    StripNextLine(cur, word);
    JoinAppend(" ", cur, word);
    PackedClose(lines, groups, cur, maxChars);
    FlattenAppend(groups, cur);
    TakeStep(words, k);
    assert JoinSpace([word]) == word;
    assert (lines + [current])[|lines|] == current;
  }

  /** The first word does not fit on its own: it still starts the line. */
  lemma StepLongFirst(words: seq<string>, k: nat, lines: seq<string>, groups: seq<seq<string>>,
                      current: string, cur: seq<string>, maxChars: int)
    requires AllWords(words) && k < |words|
    requires WrapState(words, k, lines, groups, current, cur, maxChars)
    requires current == ""
    ensures WrapState(words, k + 1, lines, groups, words[k], [words[k]], maxChars)
  {
    assert cur == [] by {
      if cur != [] { JoinSpaceEnds(cur); }
    }
    assert words[..k + 1] == words[..k] + [words[k]];
    assert JoinSpace([words[k]]) == words[k];
  }

  /** After the last word the current line, if any, is closed. */
  lemma Finish(words: seq<string>, lines: seq<string>, groups: seq<seq<string>>,
               current: string, cur: seq<string>, maxChars: int)
    requires WrapState(words, |words|, lines, groups, current, cur, maxChars)
    ensures current != "" ==>
      cur != [] &&
      Packed(lines + [current], groups + [cur], maxChars) && Flatten(groups + [cur]) == words
    ensures current == "" ==> Flatten(groups) == words
  {
    assert words[..|words|] == words;
    if current != "" {
      assert cur != [];
      PackedClose(lines, groups, cur, maxChars);
      FlattenAppend(groups, cur);
    } else if cur != [] {
      JoinSpaceEnds(cur);
    }
  }

  /** The greedy loop of the wrapper: words are added to the current line
      while the stripped candidate fits, and a line is closed only when the
      next word does not fit on it. */
  method PackWords(words: seq<string>, maxChars: int) returns (lines: seq<string>, ghost groups: seq<seq<string>>)
    requires AllWords(words)
    ensures Packed(lines, groups, maxChars) && Flatten(groups) == words
  {
    lines := [];
    groups := [];
    var current := "";
    ghost var cur: seq<string> := [];
    StepStart(words, maxChars);
    for k := 0 to |words|
      // compared with true so that the state is checked as one fact, as the
      // step lemmas establish it, rather than conjunct by conjunct
      invariant WrapState(words, k, lines, groups, current, cur, maxChars) == true
    {
      var word := words[k];
      var testLine := Strip(current + " " + word);
      if |testLine| <= maxChars {
        StepExtend(words, k, lines, groups, current, cur, maxChars);
        current := testLine;
        cur := cur + [word];
      } else if current != "" {
        StepClose(words, k, lines, groups, current, cur, maxChars);
        lines := lines + [current];
        groups := groups + [cur];
        current := word;
        cur := [word];
      } else {
        StepLongFirst(words, k, lines, groups, current, cur, maxChars);
        current := word;
        cur := [word];
      }
    }
    Finish(words, lines, groups, current, cur, maxChars);
    if current != "" {
      lines := lines + [current];
      groups := groups + [cur];
    }
  }

  /** What a packing of the text's words says about the lines. */
  lemma PackedOutcome(text: string, maxChars: int, lines: seq<string>, groups: seq<seq<string>>)
    requires Packed(lines, groups, maxChars) && Flatten(groups) == Words(text)
    ensures Flatten(LineWords(lines)) == Words(text)
    ensures JoinSpace(lines) == JoinSpace(Words(text))
    ensures forall i :: 0 <= i < |lines| ==>
      Words(lines[i]) != [] && lines[i] == JoinSpace(Words(lines[i]))
    ensures forall i :: 0 <= i < |lines| ==>
      |lines[i]| <= maxChars || |Words(lines[i])| == 1
    ensures forall i :: 0 <= i < |lines| - 1 ==>
      |lines[i]| + 1 + |Words(lines[i + 1])[0]| > maxChars
    ensures IsBlank(text) ==> lines == []
  {
    PackedLines(lines, groups, maxChars);
    assert forall i :: 0 <= i < |lines| ==> Words(lines[i]) == groups[i];
    if IsBlank(text) {
      WordsOfBlank(text);
    }
  }

  method WrapTextForVideo(text: string, maxChars: int) returns (lines: seq<string>)
    ensures |text| <= maxChars ==> lines == [text]
    // the words, in order, are the words of the text
    ensures |text| > maxChars ==> Flatten(LineWords(lines)) == Words(text)
    ensures |text| > maxChars ==> JoinSpace(lines) == JoinSpace(Words(text))
    // each line is its words joined by single spaces, and is not empty
    ensures |text| > maxChars ==> forall i :: 0 <= i < |lines| ==>
      Words(lines[i]) != [] && lines[i] == JoinSpace(Words(lines[i]))
    // only a single word longer than the budget may overflow it
    ensures |text| > maxChars ==> forall i :: 0 <= i < |lines| ==>
      |lines[i]| <= maxChars || |Words(lines[i])| == 1
    // greedy: a line ends only when the next word would not fit on it
    ensures |text| > maxChars ==> forall i :: 0 <= i < |lines| - 1 ==>
      |lines[i]| + 1 + |Words(lines[i + 1])[0]| > maxChars
    ensures |text| > maxChars && IsBlank(text) ==> lines == []
  {
    if |text| <= maxChars {
      return [text];
    }
    ghost var groups;
    lines, groups := PackWords(Words(text), maxChars);
    PackedOutcome(text, maxChars, lines, groups);
  }

  /** The overlay text the test builds: the wrapped caption escaped line by
      line and joined with drawtext line breaks. */
  method CaptionDisplayText(text: string, videoWidth: int, fontsize: int, margin: int)
    returns (display: string, lines: seq<string>)
    requires fontsize != 0
    ensures display == DisplayText(lines)
    ensures lines != [] ==> ReadDisplay(display, []) == lines
    ensures |text| <= MaxCharsPerLine(videoWidth, fontsize, margin) ==> lines == [text]
    ensures |text| > MaxCharsPerLine(videoWidth, fontsize, margin) ==>
      Flatten(LineWords(lines)) == Words(text)
  {
    var maxChars := MaxCharsPerLine(videoWidth, fontsize, margin);
    lines := WrapTextForVideo(text, maxChars);
    display := DisplayText(lines);
    if lines != [] {
      DisplayTextReadsBack(lines);
    }
  }
}
