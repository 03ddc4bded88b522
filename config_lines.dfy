/**
 * The configuration file as text and as the sequence of lines the program
 * works on: splitting text into lines the way a line reader does with '\n'
 * as terminator, and writing lines back with a newline after each one.
 */
module ConfigLines {

  /** A line as a line reader returns it never contains the terminator. */
  predicate NoNewline(line: string) {
    '\n' !in line
  }

  /** Index of the first '\n' in `s`, or `|s|` when there is none. */
  function FirstNewline(s: string): (i: nat)
    ensures i <= |s|
    ensures forall j :: 0 <= j < i ==> s[j] != '\n'
    ensures i < |s| ==> s[i] == '\n'
  {
    if s == [] then 0
    else if s[0] == '\n' then 0
    else 1 + FirstNewline(s[1..])
  }

  /**
   * The lines a line reader yields for `s` before it returns null: each line
   * without its terminator; a final line without a terminator is still a line;
   * the empty text has no lines.
   */
  function SplitLines(s: string): (lines: seq<string>)
    ensures forall k :: 0 <= k < |lines| ==> NoNewline(lines[k])
    decreases |s|
  {
    if s == [] then []
    else
      var i := FirstNewline(s);
      assert NoNewline(s[..i]) by {
        forall j | 0 <= j < i ensures s[..i][j] != '\n' { }
      }
      if i == |s| then [s] else [s[..i]] + SplitLines(s[i + 1..])
  }

  /** The text the write-back produces: every line followed by a newline. */
  function Serialized(lines: seq<string>): (text: string)
  {
    if lines == [] then "" else lines[0] + "\n" + Serialized(lines[1..])
  }

  lemma {:induction false} SerializedAppend(lines: seq<string>, line: string)
    ensures Serialized(lines + [line]) == Serialized(lines) + line + "\n"
  {
    if lines == [] {
      assert lines + [line] == [line];
    } else {
      assert (lines + [line])[1..] == lines[1..] + [line];
      SerializedAppend(lines[1..], line);
    }
  }

  lemma FirstNewlineAfterLine(line: string, rest: string)
    requires NoNewline(line)
    ensures FirstNewline(line + "\n" + rest) == |line|
  {
    var s := line + "\n" + rest;
    assert s[|line|] == '\n';
    assert forall j :: 0 <= j < |line| ==> s[j] == line[j];
  }

  /** Reading back what the write-back wrote gives the same lines. */
  lemma {:induction false} SplitSerialized(lines: seq<string>)
    requires forall k :: 0 <= k < |lines| ==> NoNewline(lines[k])
    ensures SplitLines(Serialized(lines)) == lines
  {
    if lines != [] {
      var line, tail := lines[0], Serialized(lines[1..]);
      var s := Serialized(lines);
      assert s == line + "\n" + tail;
      FirstNewlineAfterLine(line, tail);
      assert s[..|line|] == line;
      assert s[|line| + 1..] == tail;
      SplitSerialized(lines[1..]);
    }
  }

  /** The text with a newline added when its last line has none. */
  function Terminated(s: string): (t: string) {
    if s == [] || s[|s| - 1] == '\n' then s else s + "\n"
  }

  /** Terminating a text only touches what follows its first line. */
  lemma TerminatedAfterLine(head: string, t: string)
    ensures Terminated(head + "\n" + t) == head + "\n" + Terminated(t)
  {
    var s := head + "\n" + t;
    assert s[|s| - 1] == if t == [] then '\n' else t[|t| - 1];
  }

  /**
   * Writing back the lines read from `s` reproduces `s` when it is empty or
   * ends with a newline; otherwise the write-back adds the missing final newline.
   */
  lemma {:induction false} SerializedSplit(s: string)
    ensures Serialized(SplitLines(s)) == Terminated(s)
    decreases |s|
  {
    if s != [] {
      var i := FirstNewline(s);
      if i == |s| {
        assert SplitLines(s) == [s];
        assert Serialized([s]) == s + "\n" + Serialized([]);
        assert s[|s| - 1] != '\n';
      } else {
        var head, t := s[..i], s[i + 1..];
        assert SplitLines(s) == [head] + SplitLines(t);
        assert ([head] + SplitLines(t))[1..] == SplitLines(t);
        assert Serialized(SplitLines(s)) == head + "\n" + Serialized(SplitLines(t));
        SerializedSplit(t);
        assert s == head + "\n" + t;
        TerminatedAfterLine(head, t);
      }
    }
  }

  /** The write-back loop: each line is written and followed by a newline. */
  method WriteBack(lines: seq<string>) returns (text: string)
    ensures text == Serialized(lines)
  {
    text := "";
    var i := 0;
    while i < |lines|
      invariant i <= |lines|
      invariant text == Serialized(lines[..i])
    {
      SerializedAppend(lines[..i], lines[i]);
      assert lines[..i + 1] == lines[..i] + [lines[i]];
      text := text + lines[i] + "\n";
      i := i + 1;
    }
    assert lines[..i] == lines;
  }
}
