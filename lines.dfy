/** Go's `strings.Split(s, "\n")` and `strings.Join(lines, "\n")`, which the didChange
    handler uses to edit a document line by line. */
module Lines {

  predicate NoNewline(s: string) {
    forall i :: 0 <= i < |s| ==> s[i] != '\n'
  }

  /** The number of newlines in s. */
  function NewlineCount(s: string): nat {
    if s == [] then 0 else (if s[0] == '\n' then 1 else 0) + NewlineCount(s[1..])
  }

  lemma {:induction false} NewlineCountAppend(a: string, b: string)
    ensures NewlineCount(a + b) == NewlineCount(a) + NewlineCount(b)
    decreases |a|
  {
    if a != [] {
      assert (a + b)[0] == a[0] && (a + b)[1..] == a[1..] + b;
      NewlineCountAppend(a[1..], b);
    } else {
      assert a + b == b;
    }
  }

  lemma {:induction false} NoNewlineCount(s: string)
    ensures NoNewline(s) ==> NewlineCount(s) == 0
  {
    if s != [] && NoNewline(s) {
      NoNewlineCount(s[1..]);
    }
  }

  /** The pieces of s between newlines: never empty (Split("") is [""]), one more piece
      than s has newlines, and no piece holds a newline. */
  function Split(s: string): (lines: seq<string>)
    ensures |lines| == NewlineCount(s) + 1
    ensures forall i :: 0 <= i < |lines| ==> NoNewline(lines[i])
  {
    if s == [] then [[]]
    else
      var tail := Split(s[1..]);
      if s[0] == '\n' then [[]] + tail else [[s[0]] + tail[0]] + tail[1..]
  }

  /** The lines with a newline between each two; Join([]) is "". The first line starts the
      result, and lines without newlines of their own are joined by exactly one newline fewer
      than there are lines. */
  function Join(lines: seq<string>): (s: string)
    ensures |lines| > 0 ==> |lines[0]| <= |s| && s[..|lines[0]|] == lines[0]
    ensures |lines| > 0 && (forall i :: 0 <= i < |lines| ==> NoNewline(lines[i])) ==>
      NewlineCount(s) == |lines| - 1
  {
    if lines == [] then []
    else if |lines| == 1 then
      NoNewlineCount(lines[0]);
      lines[0]
    else
      var rest := Join(lines[1..]);
      NewlineCountAppend(lines[0], "\n" + rest);
      NoNewlineCount(lines[0]);
      assert ("\n" + rest)[1..] == rest;
      lines[0] + ("\n" + rest)
  }

  /** Joining the pieces of a split gives back the text. */
  lemma {:induction false} JoinSplit(s: string)
    ensures Join(Split(s)) == s
  {
    if s != [] {
      var tail := Split(s[1..]);
      JoinSplit(s[1..]);
      if s[0] != '\n' && |tail| > 1 {
        assert Join(tail) == tail[0] + "\n" + Join(tail[1..]);
        assert ([[s[0]] + tail[0]] + tail[1..])[1..] == tail[1..];
      }
    }
  }

  /** Text without a newline, followed by anything: the first piece grows by that text. */
  lemma {:induction false} SplitAfter(a: string, t: string)
    requires NoNewline(a)
    ensures Split(a + t) == [a + Split(t)[0]] + Split(t)[1..]
    decreases |a|
  {
    if a != [] {
      assert (a + t)[0] == a[0] && (a + t)[1..] == a[1..] + t;
      SplitAfter(a[1..], t);
      var tail := Split(a[1..] + t);
      assert tail[0] == a[1..] + Split(t)[0] && tail[1..] == Split(t)[1..];
      assert a[0] != '\n' && a + t != [];
      assert Split(a + t) == [[a[0]] + tail[0]] + tail[1..];
      assert [a[0]] + (a[1..] + Split(t)[0]) == a + Split(t)[0];
    } else {
      assert a + t == t && a + Split(t)[0] == Split(t)[0];
      assert Split(t) == [Split(t)[0]] + Split(t)[1..];
    }
  }

  /** Splitting lines joined by newlines gives back the lines, when none holds a newline. */
  lemma {:induction false} SplitJoin(lines: seq<string>)
    requires |lines| > 0 && forall i :: 0 <= i < |lines| ==> NoNewline(lines[i])
    ensures Split(Join(lines)) == lines
    decreases |lines|
  {
    if |lines| == 1 {
      SplitAfter(lines[0], []);
      assert lines[0] + [] == lines[0];
    } else {
      var rest := Join(lines[1..]);
      SplitJoin(lines[1..]);
      assert Join(lines) == lines[0] + ("\n" + rest);
      SplitAfter(lines[0], "\n" + rest);
      assert ("\n" + rest)[1..] == rest;
      assert Split("\n" + rest) == [[]] + lines[1..];
      assert lines[0] + [] == lines[0];
      assert [lines[0]] + lines[1..] == lines;
    }
  }

  /** Replacing the line at index k by text without a newline changes that line only. */
  lemma ReplaceLine(s: string, k: nat, text: string)
    requires k < |Split(s)| && NoNewline(text)
    ensures Split(Join(Split(s)[k := text])) == Split(s)[k := text]
  {
    SplitJoin(Split(s)[k := text]);
  }
}
