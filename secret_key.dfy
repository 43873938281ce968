/** The `.env` update of the secret-key helper: the file is read as lines,
    the first `SECRET_KEY=` line is replaced by the new key, or a key line is
    appended when there is none, and the lines are written back.  Appending
    after a last line that has no newline glues the key onto that line; the
    model records that and uses the update with the newline restored.
    Generating the key and prompting the user are not modelled; the file is
    an object holding whether it exists and its text. */
module SecretKey {
  import opened PyStr
  import opened Results

  const Prefix: string := "SECRET_KEY="

  /** f"SECRET_KEY={secret_key}\n" */
  function KeyLine(key: string): (line: string)
    ensures StartsWith(line, Prefix)
  {
    Prefix + key + "\n"
  }

  /** The index of the first line that starts with `SECRET_KEY=`, if any. */
  function FirstMatch(lines: seq<string>): (r: Option<nat>)
    ensures r.Some? ==> r.value < |lines| && StartsWith(lines[r.value], Prefix)
    ensures r.Some? ==> forall j :: 0 <= j < r.value ==> !StartsWith(lines[j], Prefix)
    ensures r.None? <==> forall j :: 0 <= j < |lines| ==> !StartsWith(lines[j], Prefix)
  {
    if lines == [] then None
    else if StartsWith(lines[0], Prefix) then Some(0)
    else match FirstMatch(lines[1..])
      case None => None
      case Some(i) => Some(i + 1)
  }

  /** The lines update_env_file writes back. */
  function UpdatedLines(lines: seq<string>, key: string): seq<string> {
    match FirstMatch(lines)
    case Some(i) => lines[i := KeyLine(key)]
    case None => lines + [KeyLine(key)]
  }

  /** With a key line present, the first one is rewritten, the length is
      kept, and every other line, later key lines included, is unchanged. */
  lemma ReplacesFirstKeyLine(lines: seq<string>, key: string, i: nat)
    requires i < |lines| && StartsWith(lines[i], Prefix)
    requires forall j :: 0 <= j < i ==> !StartsWith(lines[j], Prefix)
    ensures |UpdatedLines(lines, key)| == |lines|
    ensures UpdatedLines(lines, key)[i] == KeyLine(key)
    ensures forall j :: 0 <= j < |lines| && j != i ==> UpdatedLines(lines, key)[j] == lines[j]
  {
    FirstIsUnique(lines, i);
  }

  /** Without a key line, one is appended after the unchanged lines. */
  lemma AppendsKeyLine(lines: seq<string>, key: string)
    requires forall j :: 0 <= j < |lines| ==> !StartsWith(lines[j], Prefix)
    ensures UpdatedLines(lines, key) == lines + [KeyLine(key)]
  {
  }

  /** After an update the first key line is the new one, at the index of
      the old first key line, or at the end when there was none. */
  lemma UpdatedHasKeyFirst(lines: seq<string>, key: string)
    ensures var u := UpdatedLines(lines, key);
      FirstMatch(u).Some? && u[FirstMatch(u).value] == KeyLine(key)
    ensures FirstMatch(lines).Some? ==> FirstMatch(UpdatedLines(lines, key)) == FirstMatch(lines)
    ensures FirstMatch(lines).None? ==> FirstMatch(UpdatedLines(lines, key)) == Some(|lines|)
  {
    var u := UpdatedLines(lines, key);
    match FirstMatch(lines)
    case Some(i) =>
      assert StartsWith(u[i], Prefix);
      ReplacesFirstKeyLine(u, key, i);
      FirstIsUnique(u, i);
    case None =>
      assert u[|lines|] == KeyLine(key);
      assert forall j :: 0 <= j < |lines| ==> u[j] == lines[j];
      FirstIsUnique(u, |lines|);
  }

  /** FirstMatch picks out the one index satisfying its own contract. */
  lemma FirstIsUnique(lines: seq<string>, i: nat)
    requires i < |lines| && StartsWith(lines[i], Prefix)
    requires forall j :: 0 <= j < i ==> !StartsWith(lines[j], Prefix)
    ensures FirstMatch(lines) == Some(i)
  {
  }

  /** Updating twice with the same key gives the lines of a single update. */
  lemma UpdateIdempotent(lines: seq<string>, key: string)
    ensures UpdatedLines(UpdatedLines(lines, key), key) == UpdatedLines(lines, key)
  {
    var u := UpdatedLines(lines, key);
    UpdatedHasKeyFirst(lines, key);
    var i := FirstMatch(u).value;
    assert u[i := KeyLine(key)] == u;
  }

  // ---------------------------------------------------------------- the file as text

  predicate EndsWithNewline(line: string) {
    line != [] && line[|line| - 1] == '\n'
  }

  /** What readlines() delivers: no line is empty, a newline only ends a
      line, and every line but the last has one. */
  predicate LineShaped(lines: seq<string>) {
    forall i :: 0 <= i < |lines| ==>
      && lines[i] != []
      && '\n' !in lines[i][..|lines[i]| - 1]
      && (i + 1 < |lines| ==> EndsWithNewline(lines[i]))
  }

  /** f.readlines(): the text cut after every newline, each line keeping
      its newline; a last line without one is kept as it is.  Writing the
      lines back one after the other (f.writelines) gives the text. */
  function ReadLines(text: string): (lines: seq<string>)
    ensures Flatten(lines) == text
    ensures LineShaped(lines)
    decreases |text|
  {
    if text == [] then []
    else
      var f := TakeUntil(text, '\n');
      if |f| == |text| then
        assert [text][1..] == [] && text + [] == text;
        [text]
      else
        var line := text[..|f| + 1];
        var rest := ReadLines(text[|f| + 1..]);
        assert line[..|line| - 1] == f;
        assert ([line] + rest)[1..] == rest;
        assert line + text[|f| + 1..] == text;
        [line] + rest
  }

  /** The first line of a text that starts with a newline-ended line a is a. */
  lemma TakeUntilLine(a: string, b: string)
    requires EndsWithNewline(a) && '\n' !in a[..|a| - 1]
    ensures TakeUntil(a + b, '\n') == a[..|a| - 1]
  {
    var f := TakeUntil(a + b, '\n');
    assert (a + b)[..|a|] == a;
  }

  /** Reading back what writelines wrote gives the same lines, as long as
      they are shaped as readlines delivers them. */
  lemma {:induction false} ReadBack(lines: seq<string>)
    requires LineShaped(lines)
    ensures ReadLines(Flatten(lines)) == lines
  {
    if lines != [] {
      var a := lines[0];
      var rest := lines[1..];
      var text := Flatten(lines);
      assert text == a + Flatten(rest);
      if EndsWithNewline(a) {
        TakeUntilLine(a, Flatten(rest));
        assert text[..|a|] == a && text[|a|..] == Flatten(rest);
        assert LineShaped(rest) by {
          forall i | 0 <= i < |rest| ensures rest[i] == lines[i + 1] { }
        }
        ReadBack(rest);
      } else {
        assert |lines| == 1 && rest == [] && text == a + [];
        assert '\n' !in a by {
          assert a == a[..|a| - 1] + [a[|a| - 1]];
        }
      }
    }
  }

  /** The lines with a newline added to the last one when it has none. */
  function TerminateLast(lines: seq<string>): (r: seq<string>)
    requires LineShaped(lines)
    ensures LineShaped(r) && |r| == |lines|
    ensures r != [] ==> EndsWithNewline(r[|r| - 1])
  {
    if lines == [] || EndsWithNewline(Last(lines)) then lines
    else
      var n := |lines| - 1;
      var r := lines[n := lines[n] + "\n"];
      assert r[n][..|r[n]| - 1] == lines[n];
      assert '\n' !in lines[n] by {
        assert lines[n] == lines[n][..|lines[n]| - 1] + [lines[n][|lines[n]| - 1]];
      }
      r
  }

  /** Adding the newline makes no line a key line and none stop being one. */
  lemma TerminateKeepsKeyLines(lines: seq<string>)
    requires LineShaped(lines)
    ensures var r := TerminateLast(lines);
      forall i :: 0 <= i < |r| ==> (StartsWith(r[i], Prefix) <==> StartsWith(lines[i], Prefix))
  {
    var r := TerminateLast(lines);
    if lines != [] && !EndsWithNewline(Last(lines)) {
      var n := |lines| - 1;
      assert r == lines[n := lines[n] + "\n"];
      if |lines[n]| >= |Prefix| {
        assert r[n][..|Prefix|] == lines[n][..|Prefix|];
      } else if |lines[n]| + 1 == |Prefix| {
        assert r[n][|Prefix| - 1] != Prefix[|Prefix| - 1];
      }
    }
  }

  /** The update with the newline restored: a key line is appended only
      after a last line that ends with a newline. */
  function CorrectedLines(lines: seq<string>, key: string): seq<string>
    requires LineShaped(lines)
  {
    match FirstMatch(lines)
    case Some(i) => lines[i := KeyLine(key)]
    case None => TerminateLast(lines) + [KeyLine(key)]
  }

  /** The text update_env_file writes, as written. */
  function UpdatedText(text: string, key: string): string {
    Flatten(UpdatedLines(ReadLines(text), key))
  }

  /** The text the update writes with the newline restored. */
  function CorrectedText(text: string, key: string): string {
    Flatten(CorrectedLines(ReadLines(text), key))
  }

  /** A single line without an inner newline reads back as itself. */
  lemma ReadOneLine(a: string)
    requires a != [] && '\n' !in a[..|a| - 1]
    ensures ReadLines(a) == [a]
  {
    ReadBack([a]);
    assert [a][1..] == [] && a + [] == a;
  }

  /** Without a key line, the update appends the key line to the text. */
  lemma AppendedText(a: string, key: string)
    requires a != [] && '\n' !in a[..|a| - 1] && !StartsWith(a, Prefix)
    ensures UpdatedText(a, key) == a + KeyLine(key)
  {
    ReadOneLine(a);
    assert UpdatedLines([a], key) == [a] + [KeyLine(key)];
    FlattenAppend([a], KeyLine(key));
    assert [a][1..] == [] && a + [] == a;
  }

  /** As written, the key is glued onto a last line that has no newline:
      read back, the file has no key line, and a second update appends the
      key once more. */
  lemma KeyGluedOn(a: string, key: string)
    requires a != [] && '\n' !in a && a[0] != Prefix[0] && '\n' !in key
    ensures UpdatedText(a, key) == a + KeyLine(key)
    ensures FirstMatch(ReadLines(UpdatedText(a, key))) == None
    ensures UpdatedText(UpdatedText(a, key), key) == a + KeyLine(key) + KeyLine(key)
  {
    assert a[..|a| - 1] == a[..|a| - 1];
    assert !StartsWith(a, Prefix);
    AppendedText(a, key);
    var out := a + KeyLine(key);
    assert out[..|out| - 1] == a + Prefix + key;
    assert '\n' !in Prefix;
    assert !StartsWith(out, Prefix) by {
      assert out[0] == a[0];
    }
    ReadOneLine(out);
    assert [out][1..] == [];
    AppendedText(out, key);
  }

  /** For instance, `DEBUG=1` without a newline becomes
      `DEBUG=1SECRET_KEY=k` and a newline: SECRET_KEY is still not set. */
  lemma KeyMergesOntoUnterminatedLine()
    ensures UpdatedText("DEBUG=1", "k") == "DEBUG=1" + KeyLine("k")
    ensures FirstMatch(ReadLines(UpdatedText("DEBUG=1", "k"))) == None
  {
    KeyGluedOn("DEBUG=1", "k");
  }

  /** A key line without an inner newline is a newline-ended line. */
  lemma KeyLineShaped(key: string)
    requires '\n' !in key
    ensures var k := KeyLine(key); EndsWithNewline(k) && '\n' !in k[..|k| - 1]
  {
    var k := KeyLine(key);
    assert k[..|k| - 1] == Prefix + key;
    assert '\n' !in Prefix;
  }

  /** Replacing a line by a newline-ended line keeps the shape. */
  lemma ReplacedShaped(lines: seq<string>, i: nat, line: string)
    requires LineShaped(lines) && i < |lines|
    requires EndsWithNewline(line) && '\n' !in line[..|line| - 1]
    ensures LineShaped(lines[i := line])
  {
  }

  /** Appending a line after newline-ended lines keeps the shape. */
  lemma AppendedShaped(lines: seq<string>, line: string)
    requires LineShaped(lines) && (lines != [] ==> EndsWithNewline(lines[|lines| - 1]))
    requires line != [] && '\n' !in line[..|line| - 1]
    ensures LineShaped(lines + [line])
  {
    var r := lines + [line];
    forall i | 0 <= i < |r| ensures r[i] != [] && '\n' !in r[i][..|r[i]| - 1] && (i + 1 < |r| ==> EndsWithNewline(r[i])) {
      if i < |lines| {
        assert r[i] == lines[i];
      }
    }
  }

  /** With a one-line key, the corrected update keeps the lines shaped as
      readlines delivers them, and its first key line is the new one. */
  lemma CorrectedShaped(lines: seq<string>, key: string)
    requires LineShaped(lines) && '\n' !in key
    ensures var c := CorrectedLines(lines, key);
      && LineShaped(c)
      && FirstMatch(c).Some? && c[FirstMatch(c).value] == KeyLine(key)
  {
    var k := KeyLine(key);
    KeyLineShaped(key);
    match FirstMatch(lines)
    case Some(i) =>
      var c := lines[i := k];
      ReplacedShaped(lines, i, k);
      FirstIsUnique(c, i);
    case None =>
      var t := TerminateLast(lines);
      TerminateKeepsKeyLines(lines);
      AppendedShaped(t, k);
      FirstIsUnique(t + [k], |t|);
  }

  /** After the corrected update the file, read back, has the new key as
      its first key line. */
  lemma CorrectedKeyIsSet(text: string, key: string)
    requires '\n' !in key
    ensures var ls := ReadLines(CorrectedText(text, key));
      FirstMatch(ls).Some? && ls[FirstMatch(ls).value] == KeyLine(key)
  {
    var c := CorrectedLines(ReadLines(text), key);
    CorrectedShaped(ReadLines(text), key);
    ReadBack(c);
  }

  /** Updating the file twice with the same key writes what one update
      writes. */
  lemma CorrectedIdempotent(text: string, key: string)
    requires '\n' !in key
    ensures CorrectedText(CorrectedText(text, key), key) == CorrectedText(text, key)
  {
    var c := CorrectedLines(ReadLines(text), key);
    CorrectedShaped(ReadLines(text), key);
    ReadBack(c);
    var j := FirstMatch(c).value;
    assert c[j := KeyLine(key)] == c;
  }

  /** Ending the last line with a newline adds one to the written text
      exactly when it is not empty and does not end with one. */
  lemma FlattenTerminated(lines: seq<string>, text: string)
    requires LineShaped(lines) && Flatten(lines) == text
    ensures Flatten(TerminateLast(lines)) == if text == [] || text[|text| - 1] == '\n' then text else text + "\n"
  {
    if lines != [] {
      LastOfFlatten(lines);
      if !EndsWithNewline(Last(lines)) {
        NewlineAppended(lines);
      }
    }
  }

  /** The written text ends with the last line's last character. */
  lemma LastOfFlatten(lines: seq<string>)
    requires LineShaped(lines) && lines != []
    ensures var text := Flatten(lines); text != [] && text[|text| - 1] == Last(lines)[|Last(lines)| - 1]
  {
    var n := |lines| - 1;
    assert lines == lines[..n] + [lines[n]];
    FlattenAppend(lines[..n], lines[n]);
  }

  /** Ending an open last line adds one newline to the written text. */
  lemma NewlineAppended(lines: seq<string>)
    requires LineShaped(lines) && lines != [] && !EndsWithNewline(Last(lines))
    ensures Flatten(TerminateLast(lines)) == Flatten(lines) + "\n"
  {
    var n := |lines| - 1;
    var init, last := lines[..n], lines[n];
    assert lines == init + [last];
    assert TerminateLast(lines) == init + [last + "\n"];
    FlattenAppend(init, last);
    FlattenAppend(init, last + "\n");
  }

  /** The corrected update differs from the code only where the key would
      be glued on: with a key line, or with a text that is empty or ends
      in a newline, both write the same; without a key line the text is
      kept, a newline is added only when it lacks one, and the key line
      follows. */
  lemma CorrectedAgrees(text: string, key: string)
    ensures FirstMatch(ReadLines(text)).Some? || text == [] || text[|text| - 1] == '\n' ==>
      CorrectedText(text, key) == UpdatedText(text, key)
    ensures FirstMatch(ReadLines(text)).None? ==>
      CorrectedText(text, key) == (if text == [] || text[|text| - 1] == '\n' then text else text + "\n") + KeyLine(key)
  {
    var lines := ReadLines(text);
    var k := KeyLine(key);
    if FirstMatch(lines).None? {
      var t := TerminateLast(lines);
      var fixed := if text == [] || text[|text| - 1] == '\n' then text else text + "\n";
      assert CorrectedLines(lines, key) == t + [k];
      assert UpdatedLines(lines, key) == lines + [k];
      FlattenTerminated(lines, text);
      calc {
        CorrectedText(text, key);
        Flatten(t + [k]);
      == { FlattenAppend(t, k); }
        Flatten(t) + k;
      }
      calc {
        UpdatedText(text, key);
        Flatten(lines + [k]);
      == { FlattenAppend(lines, k); }
        text + k;
      }
    } else {
      assert CorrectedLines(lines, key) == UpdatedLines(lines, key);
    }
  }

  /** The corrected update is the update as written applied to the lines
      whose last one has been ended, when there is no key line to rewrite. */
  lemma CorrectedIsUpdateOfTerminated(lines: seq<string>, key: string)
    requires LineShaped(lines)
    ensures FirstMatch(lines).Some? ==> CorrectedLines(lines, key) == UpdatedLines(lines, key)
    ensures FirstMatch(lines).None? ==> CorrectedLines(lines, key) == UpdatedLines(TerminateLast(lines), key)
  {
    if FirstMatch(lines).None? {
      TerminateKeepsKeyLines(lines);
      assert FirstMatch(TerminateLast(lines)).None?;
    }
  }

  /** The loop of update_env_file as written: it scans for the first key
      line, rewrites it and breaks; with no key line, it appends one right
      after the last line. */
  method RewriteSecretKey(original: seq<string>, secretKey: string) returns (lines: seq<string>)
    ensures lines == UpdatedLines(original, secretKey)
    ensures |lines| == |original| || lines == original + [KeyLine(secretKey)]
  {
    lines := original;
    var updated := false;
    var i := 0;
    while i < |lines|
      invariant i <= |lines| && lines == original && !updated
      invariant forall j :: 0 <= j < i ==> !StartsWith(original[j], Prefix)
    {
      if StartsWith(lines[i], Prefix) {
        lines := lines[i := KeyLine(secretKey)];
        updated := true;
        break;
      }
      i := i + 1;
    }
    if !updated {
      lines := lines + [KeyLine(secretKey)];
    } else {
      FirstIsUnique(original, i);
    }
  }

  /** The `.env` file: whether it exists, and its text. */
  class EnvFile {
    var present: bool
    var text: string

    constructor(present: bool, text: string)
      ensures this.present == present && this.text == text
    {
      this.present := present;
      this.text := text;
    }

    /** update_env_file: a missing file is reported and nothing is written;
        otherwise the file is read as lines, updated, written back, and the
        call succeeds. */
    method UpdateEnvFile(secretKey: string) returns (ok: bool)
      modifies this
      ensures present == old(present)
      ensures !present ==> !ok && text == old(text)
      ensures present ==> ok && text == CorrectedText(old(text), secretKey)
    {
      if !present {
        return false;
      }
      var lines := ReadLines(text);
      CorrectedIsUpdateOfTerminated(lines, secretKey);
      if FirstMatch(lines).None? {
        // the newline the code leaves out before an appended key line
        lines := TerminateLast(lines);
      }
      var updatedLines := RewriteSecretKey(lines, secretKey);
      text := Flatten(updatedLines);
      return true;
    }
  }
}
