/** Finding the POWER key in a key layout file: filtering the lines of a
    command's output (Commander::outputLinesHas) and reading the key code
    from the first `key` line (getKeyCodeFromKeyLayout). */
module KeyLayout {

  import opened Options
  import opened Text

  /** Whether outputLinesHas keeps a line: not a comment when comments are
      ignored, and key found at a position after the first. An empty line
      reads '\0' at index 0, so it is never a comment. */
  predicate KeepLine(line: string, key: string, ignoreComment: bool) {
    !(ignoreComment && |line| > 0 && line[0] == '#') && IndexOf(line, key) > 0
  }

  /** The lines kept, in order. */
  function KeptLines(lines: seq<string>, key: string, ignoreComment: bool): (r: seq<string>)
    ensures |r| <= |lines|
  {
    if |lines| == 0 then []
    else
      var rest := KeptLines(lines[1..], key, ignoreComment);
      if KeepLine(lines[0], key, ignoreComment) then [lines[0]] + rest else rest
  }

  /** Filtering lines[i..] keeps lines[i] exactly when it passes, then
      filters the rest. */
  lemma KeptLinesStep(lines: seq<string>, i: nat, key: string, ignoreComment: bool)
    requires i < |lines|
    ensures KeptLines(lines[i..], key, ignoreComment) ==
      (if KeepLine(lines[i], key, ignoreComment) then [lines[i]] else []) + KeptLines(lines[i + 1..], key, ignoreComment)
  {
    assert lines[i..][1..] == lines[i + 1..];
  }

  /** outputLinesHas' result for a command output: nothing for an empty
      output, otherwise the kept lines of its '\n'-separated pieces. */
  function MatchingLines(output: string, key: string, ignoreComment: bool): seq<string>
  {
    if |output| == 0 then [] else KeptLines(Split(output, '\n'), key, ignoreComment)
  }

  /** A line is kept exactly when it is one of the lines and passes the test. */
  lemma {:induction false} KeptLinesMembers(lines: seq<string>, key: string, ignoreComment: bool, x: string)
    ensures x in KeptLines(lines, key, ignoreComment) <==> x in lines && KeepLine(x, key, ignoreComment)
  {
    if |lines| > 0 {
      KeptLinesMembers(lines[1..], key, ignoreComment, x);
      assert lines == [lines[0]] + lines[1..];
    }
  }

  /** Without comment skipping every line that passes with it passes too:
      skipping comments only ever removes lines. */
  lemma {:induction false} IgnoringCommentsKeepsFewer(lines: seq<string>, key: string)
    ensures |KeptLines(lines, key, true)| <= |KeptLines(lines, key, false)|
  {
    if |lines| > 0 {
      IgnoringCommentsKeepsFewer(lines[1..], key);
    }
  }

  /** A line that starts with the key is not a match, since the key must be
      found after the start; nor is a comment line when comments are skipped. */
  lemma KeyAtStartNotKept(line: string, key: string, ignoreComment: bool)
    requires |key| <= |line| && line[..|key|] == key
    ensures !KeepLine(line, key, ignoreComment)
  {
    assert OccursAt(line, key, 0);
  }

  /** Commander::outputLinesHas(key, ignoreComment). */
  method OutputLinesHas(output: string, key: string, ignoreComment: bool) returns (matches: seq<string>)
    ensures matches == MatchingLines(output, key, ignoreComment)
  {
    matches := [];
    if |output| == 0 {
      return;
    }
    var lines := Split(output, '\n');
    var i := 0;
    while i < |lines|
      invariant 0 <= i <= |lines|
      invariant matches + KeptLines(lines[i..], key, ignoreComment) == KeptLines(lines, key, ignoreComment)
    {
      var line := lines[i];
      KeptLinesStep(lines, i, key, ignoreComment);
      if ignoreComment && |line| > 0 && line[0] == '#' {
        i := i + 1;
        continue;
      }
      if IndexOf(line, key) > 0 {
        Associative(matches, [line], KeptLines(lines[i + 1..], key, ignoreComment));
        matches := matches + [line];
      }
      i := i + 1;
    }
    assert lines[i..] == [];
  }

  // --- the key code ---

  /** A line getKeyCodeFromKeyLayout reads a code from: it starts with
      "key" and splitting it on single spaces gives more than one word. */
  predicate IsKeyLine(line: string) {
    IndexOf(line, "key") == 0 && |Split(line, ' ')| > 1
  }

  /** The index of the first key line from i on, or -1 when there is none. */
  function FirstKeyLineFrom(lines: seq<string>, i: nat): (r: int)
    requires i <= |lines|
    decreases |lines| - i
    ensures r == -1 || (i <= r < |lines| && IsKeyLine(lines[r]))
    ensures r == -1 ==> forall j :: i <= j < |lines| ==> !IsKeyLine(lines[j])
    ensures r != -1 ==> forall j :: i <= j < r ==> !IsKeyLine(lines[j])
  {
    if i == |lines| then -1
    else if IsKeyLine(lines[i]) then i
    else FirstKeyLineFrom(lines, i + 1)
  }

  /** The code of the first key line: its second space-separated word, read
      by toInt; None when no line is a key line. */
  function FirstKeyCode(lines: seq<string>): (r: Option<int>)
    ensures r.Some? <==> exists i :: 0 <= i < |lines| && IsKeyLine(lines[i])
  {
    var i := FirstKeyLineFrom(lines, 0);
    if i == -1 then None else Some(ToInt(Split(lines[i], ' ')[1]))
  }

  /** A key line in the usual form, "key", one space, the code, a space and
      the key's name, gives that code back. */
  lemma KeyLineCode(n: int, name: string)
    requires -0x8000_0000 <= n < 0x8000_0000
    ensures FirstKeyCode(["key " + NumberToString(n) + " " + name]) == Some(n)
  {
    var num := NumberToString(n);
    var line := "key " + num + " " + name;
    assert line == "key" + [' '] + (num + [' '] + name);
    SplitPiece("key", ' ', num + [' '] + name);
    assert ' ' !in num by {
      if n < 0 { assert num == "-" + Digits(-n); }
    }
    SplitPiece(num, ' ', name);
    assert OccursAt(line, "key", 0) by { assert line[..3] == "key"; }
    ToIntOfNumber(n);
  }

  /** Two spaces after "key" make the second word empty, which toInt reads
      as 0; the line still counts as found, with code 0. */
  lemma DoubleSpaceCodeZero(rest: string)
    ensures FirstKeyCode(["key  " + rest]) == Some(0)
  {
    var line := "key  " + rest;
    assert line == "key" + [' '] + ("" + [' '] + rest);
    SplitPiece("key", ' ', "" + [' '] + rest);
    SplitPiece("", ' ', rest);
    assert OccursAt(line, "key", 0) by { assert line[..3] == "key"; }
  }

  /** getKeyCodeFromKeyLayout's verdict for the layout file's contents: the
      code of the first key line among the lines that mention key. */
  function KeyCodeFromLayout(layout: string, key: string, ignoreComment: bool): Option<int>
  {
    FirstKeyCode(MatchingLines(layout, key, ignoreComment))
  }

  /** A layout file holding just the POWER line in the usual form yields
      its code, whether or not comments are skipped. */
  lemma PowerEntryFound(n: int, ignoreComment: bool)
    requires -0x8000_0000 <= n < 0x8000_0000
    ensures KeyCodeFromLayout("key " + NumberToString(n) + " POWER", "POWER", ignoreComment) == Some(n)
  {
    var head := "key " + NumberToString(n);
    assert " " + "POWER" == " POWER";
    Associative(head, " ", "POWER");
    PowerLineKept(n, ignoreComment);
    KeyLineCode(n, "POWER");
  }

  lemma PowerLineKept(n: int, ignoreComment: bool)
    ensures var line := "key " + NumberToString(n) + " POWER";
      MatchingLines(line, "POWER", ignoreComment) == [line]
  {
    var num := NumberToString(n);
    var line := "key " + num + " POWER";
    assert '\n' !in num by {
      if n < 0 { assert num == "-" + Digits(-n); }
    }
    assert '\n' !in line;
    SplitNoSeparator(line, '\n');
    PowerAfterStart(line);
    assert KeptLines([line], "POWER", ignoreComment) == [line];
  }

  lemma PowerAfterStart(line: string)
    requires |line| >= 5 && line[0] == 'k' && line[|line| - 5..] == "POWER"
    ensures IndexOf(line, "POWER") > 0
  {
    assert OccursAt(line, "POWER", |line| - 5);
    assert line[..5][0] != "POWER"[0];
  }

  /** A line that mentions the key only at its start never supplies the code. */
  lemma CodeLineMentionsKeyLater(layout: string, key: string, ignoreComment: bool)
    requires KeyCodeFromLayout(layout, key, ignoreComment).Some?
    ensures exists line :: line in Split(layout, '\n') && IsKeyLine(line) && IndexOf(line, key) > 0
  {
    var kept := MatchingLines(layout, key, ignoreComment);
    var lines := Split(layout, '\n');
    var i :| 0 <= i < |kept| && IsKeyLine(kept[i]);
    KeptLinesMembers(lines, key, ignoreComment, kept[i]);
  }

  /** getKeyCodeFromKeyLayout, given what `cat` printed for the layout file:
      on success the code is the one read, otherwise it is left as it was. */
  method GetKeyCodeFromKeyLayout(layout: string, key: string, ignoreComment: bool, code: int)
    returns (found: bool, code': int)
    ensures found <==> KeyCodeFromLayout(layout, key, ignoreComment).Some?
    ensures found ==> code' == KeyCodeFromLayout(layout, key, ignoreComment).value
    ensures !found ==> code' == code
  {
    var lines := OutputLinesHas(layout, key, ignoreComment);
    code' := code;
    var i := 0;
    while i < |lines|
      invariant 0 <= i <= |lines|
      invariant FirstKeyLineFrom(lines, 0) == FirstKeyLineFrom(lines, i)
    {
      var line := lines[i];
      if IndexOf(line, "key") == 0 {
        var words := Split(line, ' ');
        if |words| > 1 {
          code' := ToInt(words[1]);
          return true, code';
        }
      }
      i := i + 1;
    }
    return false, code';
  }
}
