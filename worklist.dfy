/** The worklist file of `s3/delete.py` as text: `read_file_list` and `write_file_list` with the
    file contents passed in and returned as a string. Reading follows Python's text mode with
    universal newlines: `\r\n` and a lone `\r` both read as `\n` before the text is cut into lines. */
module Worklist {
  import opened PyText

  /** Universal-newline translation applied when a file opened with `'r'` is read. */
  function TranslateNewlines(t: string): (r: string)
    ensures '\r' !in r
    ensures '\r' !in t ==> r == t
  {
    if t == [] then []
    else if t[0] != '\r' then
      assert '\r' !in t ==> '\r' !in t[1..];
      [t[0]] + TranslateNewlines(t[1..])
    else if |t| > 1 && t[1] == '\n' then "\n" + TranslateNewlines(t[2..])
    else "\n" + TranslateNewlines(t[1..])
  }

  /** A `\r\n` pair reads as a single `\n`. */
  lemma {:induction false} TranslateCrLf(a: string, b: string)
    requires '\r' !in a
    ensures TranslateNewlines(a + "\r\n" + b) == a + "\n" + TranslateNewlines(b)
    decreases |a|
  {
    if a == [] {
      var s := "\r\n" + b;
      assert a + "\r\n" + b == s;
      TranslateCrLfHead(b);
      var u := TranslateNewlines(b);
      assert TranslateNewlines(s) == "\n" + u;
      assert a + "\n" + u == "\n" + u;
    } else {
      var r := "\r\n" + b;
      var s, s' := a + r, a[1..] + r;
      assert s == a + "\r\n" + b && s' == a[1..] + "\r\n" + b;
      TranslateStep(a, r);
      assert TranslateNewlines(s) == [a[0]] + TranslateNewlines(s');
      TranslateCrLf(a[1..], b);
      var u := TranslateNewlines(b);
      assert TranslateNewlines(s') == a[1..] + "\n" + u;
      assert [a[0]] + (a[1..] + "\n" + u) == a + "\n" + u;
    }
  }

  /** A lone `\r`, one not followed by `\n`, reads as `\n`. */
  lemma {:induction false} TranslateCr(a: string, b: string)
    requires '\r' !in a && !StartsWithLf(b)
    ensures TranslateNewlines(a + "\r" + b) == a + "\n" + TranslateNewlines(b)
    decreases |a|
  {
    if a == [] {
      var s := "\r" + b;
      assert a + "\r" + b == s;
      TranslateLoneCr(b);
      var u := TranslateNewlines(b);
      assert TranslateNewlines(s) == "\n" + u;
      assert a + "\n" + u == "\n" + u;
    } else {
      var r := "\r" + b;
      var s, s' := a + r, a[1..] + r;
      assert s == a + "\r" + b && s' == a[1..] + "\r" + b;
      TranslateStep(a, r);
      assert TranslateNewlines(s) == [a[0]] + TranslateNewlines(s');
      TranslateCr(a[1..], b);
      var u := TranslateNewlines(b);
      assert TranslateNewlines(s') == a[1..] + "\n" + u;
      assert [a[0]] + (a[1..] + "\n" + u) == a + "\n" + u;
    }
  }

  lemma TranslateCrLfHead(b: string)
    ensures TranslateNewlines("\r\n" + b) == "\n" + TranslateNewlines(b)
  {
    var s := "\r\n" + b;
    assert s[0] == '\r' && s[1] == '\n' && s[2..] == b;
  }

  predicate StartsWithLf(b: string) {
    b != [] && b[0] == '\n'
  }

  lemma TranslateLoneCr(b: string)
    requires !StartsWithLf(b)
    ensures TranslateNewlines("\r" + b) == "\n" + TranslateNewlines(b)
  {
    var s := "\r" + b;
    assert s[0] == '\r' && s[1..] == b;
    if b != [] {
      assert s[1] == b[0];
    }
  }

  /** One step of the inductions above: the first character of `a` is passed over. */
  lemma TranslateStep(a: string, rest: string)
    requires a != [] && '\r' !in a
    ensures '\r' !in a[1..]
    ensures TranslateNewlines(a + rest) == [a[0]] + TranslateNewlines(a[1..] + rest)
  {
    assert a[0] in a;
    ShiftPast(a, rest);
  }

  /** Translation passes over a first character that is not `\r`. */
  lemma ShiftPast(a: string, b: string)
    requires a != [] && '\r' !in a
    ensures TranslateNewlines(a + b) == [a[0]] + TranslateNewlines(a[1..] + b)
    ensures '\r' !in a[1..] && a == [a[0]] + a[1..]
  {
    assert a[0] in a;
    assert (a + b)[0] == a[0] && (a + b)[1..] == a[1..] + b;
  }

  function Concat(lines: seq<string>): string {
    if lines == [] then [] else lines[0] + Concat(lines[1..])
  }

  /** `file.readlines()`: cut after every `\n`, keeping it; the last line may lack one. */
  function ReadLines(t: string): (lines: seq<string>)
    ensures Concat(lines) == t
    ensures LinesCut(lines)
    ensures '\r' !in t ==> NoReturn(lines)
    decreases |t|
  {
    if t == [] then []
    else if '\n' in t then
      var i := IndexOf(t, '\n');
      var rest := ReadLines(t[i + 1..]);
      ConsLine(t, i, rest);
      [t[..i + 1]] + rest
    else [t]
  }

  /** Every line is non-empty and holds no `\n` but a last one, and every line but the last
      ends in `\n`. */
  predicate LinesCut(lines: seq<string>) {
    (forall i :: 0 <= i < |lines| ==> lines[i] != [] && '\n' !in lines[i][..|lines[i]| - 1])
    && (forall i :: 0 <= i < |lines| - 1 ==> lines[i][|lines[i]| - 1] == '\n')
  }

  predicate NoReturn(lines: seq<string>) {
    forall i :: 0 <= i < |lines| ==> '\r' !in lines[i]
  }

  /** The first line of `t` ends at its first `\n`, at index `i`. */
  lemma ConsLine(t: string, i: nat, rest: seq<string>)
    requires i < |t| && t[i] == '\n' && '\n' !in t[..i]
    requires Concat(rest) == t[i + 1..] && LinesCut(rest)
    requires '\r' !in t[i + 1..] ==> NoReturn(rest)
    ensures Concat([t[..i + 1]] + rest) == t && LinesCut([t[..i + 1]] + rest)
    ensures '\r' !in t ==> NoReturn([t[..i + 1]] + rest)
  {
    var first := t[..i + 1];
    var lines := [first] + rest;
    assert t == first + t[i + 1..];
    assert first[..i] == t[..i];
    assert lines[1..] == rest;
    assert forall j :: 1 <= j < |lines| ==> lines[j] == rest[j - 1];
    if '\r' !in t {
      assert forall k :: 0 <= k < |first| ==> first[k] == t[k];
      assert '\r' !in first && '\r' !in t[i + 1..];
    }
  }

  /** `read_file_list`: the stripped lines of the file, in order. */
  function ReadFileList(text: string): (entries: seq<string>)
    ensures forall i :: 0 <= i < |entries| ==> Stripped(entries[i]) && '\n' !in entries[i] && '\r' !in entries[i]
  {
    var lines := ReadLines(TranslateNewlines(text));
    var entries := seq(|lines|, i requires 0 <= i < |lines| => Strip(lines[i]));
    forall i | 0 <= i < |lines|
      ensures '\n' !in entries[i] && '\r' !in entries[i]
    {
      StripLine(lines[i]);
    }
    entries
  }

  /** What stripping a line as `readlines` returns it leaves: no line break at all. */
  lemma StripLine(line: string)
    requires line != [] && '\n' !in line[..|line| - 1] && '\r' !in line
    ensures '\n' !in Strip(line) && '\r' !in Strip(line)
  {
    var r := Strip(line);
    var o := StripOffset(line);
    assert IsSpace('\n');
    if r != [] && o + |r| == |line| {
      assert r[|r| - 1] == line[|line| - 1];
    }
    SliceExcludes(line, o, |r|);
  }

  /** A slice of such a line that does not end with its final `\n` holds no line break. */
  lemma SliceExcludes(line: string, o: nat, n: nat)
    requires o + n <= |line| && line != [] && '\n' !in line[..|line| - 1] && '\r' !in line
    requires n > 0 && o + n == |line| ==> line[|line| - 1] != '\n'
    ensures '\n' !in line[o..o + n] && '\r' !in line[o..o + n]
  {
    var slice := line[o..o + n];
    forall k | 0 <= k < |slice|
      ensures slice[k] != '\n' && slice[k] != '\r'
    {
      assert slice[k] == line[o + k];
      if o + k < |line| - 1 {
        assert line[o + k] == line[..|line| - 1][o + k];
      }
    }
  }

  /** `write_file_list`: the entries joined with `\n`, with no final line break. */
  function WriteFileList(entries: seq<string>): string {
    Join(entries, '\n')
  }

  /** Writing and then reading the worklist gives back the entries, as long as no entry holds a
      line break or surrounding whitespace and the last entry is not empty. */
  lemma ReadAfterWrite(entries: seq<string>)
    requires forall i :: 0 <= i < |entries| ==> Stripped(entries[i]) && '\n' !in entries[i] && '\r' !in entries[i]
    requires entries == [] || entries[|entries| - 1] != []
    ensures ReadFileList(WriteFileList(entries)) == entries
  {
    var text := WriteFileList(entries);
    if entries != [] {
      JoinExcludes(entries, '\n', '\r');
      ReadLinesOfJoin(entries);
      var lines := ReadLines(text);
      forall i | 0 <= i < |entries|
        ensures Strip(lines[i]) == entries[i]
      {
        if i < |entries| - 1 {
          StripNewline(entries[i]);
        }
      }
    }
  }

  lemma StripNewline(x: string)
    requires Stripped(x) && '\n' !in x
    ensures Strip(x + "\n") == x
  {
    var s := x + "\n";
    assert IsSpace('\n');
    if x == [] {
      assert s[1..] == [];
      assert LeadingSpace(s) == 1;
    } else {
      assert s[0] == x[0] && LeadingSpace(s) == 0;
      assert s[..|s| - 1] == x;
      assert TrailingSpace(x) == 0;
      assert TrailingSpace(s) == 1;
      assert s[0..|x|] == x;
    }
  }

  lemma {:induction false} JoinExcludes(parts: seq<string>, sep: char, c: char)
    requires c != sep
    requires forall i :: 0 <= i < |parts| ==> c !in parts[i]
    ensures c !in Join(parts, sep)
    decreases |parts|
  {
    if |parts| > 1 {
      JoinExcludes(parts[1..], sep, c);
    }
  }

  /** `lines` are the entries, each but the last followed by `\n`. */
  predicate LinesOf(lines: seq<string>, entries: seq<string>) {
    |lines| == |entries| &&
    forall i :: 0 <= i < |entries| ==> lines[i] == if i < |entries| - 1 then entries[i] + "\n" else entries[i]
  }

  /** The lines `readlines` finds in entries joined by `\n`. */
  lemma {:induction false} ReadLinesOfJoin(entries: seq<string>)
    requires entries != [] && entries[|entries| - 1] != []
    requires forall i :: 0 <= i < |entries| ==> '\n' !in entries[i]
    ensures LinesOf(ReadLines(Join(entries, '\n')), entries)
    decreases |entries|
  {
    if |entries| > 1 {
      var rest := entries[1..];
      ReadLinesOfJoin(rest);
      var t := Join(entries, '\n');
      var i := |entries[0]|;
      JoinHead(entries);
      ReadLinesStep(t, i);
      LinesOfCons(entries, ReadLines(Join(rest, '\n')));
    } else {
      assert Join(entries, '\n') == entries[0];
    }
  }

  lemma JoinHead(entries: seq<string>)
    requires |entries| > 1 && '\n' !in entries[0]
    ensures var t := Join(entries, '\n'); var i := |entries[0]|;
      i < |t| && t[i] == '\n' && t[..i] == entries[0] && '\n' !in t[..i]
      && t[..i + 1] == entries[0] + "\n" && t[i + 1..] == Join(entries[1..], '\n')
  {
    JoinCons(entries[0], entries[1..], '\n');
    assert [entries[0]] + entries[1..] == entries;
  }

  lemma LinesOfCons(entries: seq<string>, restLines: seq<string>)
    requires |entries| > 1 && LinesOf(restLines, entries[1..])
    ensures LinesOf([entries[0] + "\n"] + restLines, entries)
  {
    var lines := [entries[0] + "\n"] + restLines;
    assert forall j :: 1 <= j < |lines| ==> lines[j] == restLines[j - 1] && entries[j] == entries[1..][j - 1];
  }

  /** `readlines` cuts its first line at the first `\n`. */
  lemma ReadLinesStep(t: string, i: nat)
    requires i < |t| && t[i] == '\n' && '\n' !in t[..i]
    ensures ReadLines(t) == [t[..i + 1]] + ReadLines(t[i + 1..])
  {
  }

  /** The trailing-empty-entry case the round trip above excludes: the empty last entry is lost. */
  lemma ReadAfterWriteDropsEmptyLast(x: string)
    requires x != [] && Stripped(x) && '\n' !in x && '\r' !in x
    ensures ReadFileList(WriteFileList([x, ""])) == [x]
  {
    var t := x + "\n";
    assert WriteFileList([x, ""]) == t by {
      JoinCons(x, [""], '\n');
    }
    assert TranslateNewlines(t) == t;
    ReadLinesTerminated(x);
    StripNewline(x);
  }

  lemma ReadLinesTerminated(x: string)
    requires '\n' !in x
    ensures ReadLines(x + "\n") == [x + "\n"]
  {
    var t := x + "\n";
    IndexOfAfter(x, '\n', "");
    assert x + ['\n'] + "" == t;
    assert t[..|x| + 1] == t && t[|x| + 1..] == [];
  }

  /** The rewrite at the end of a completed run leaves an empty file, which reads as no entries. */
  lemma EmptyRewrite()
    ensures WriteFileList([]) == "" && ReadFileList(WriteFileList([])) == []
  {
  }
}
