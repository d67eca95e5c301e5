/** How the lines `s3/list.py` prints read back through `s3/delete.py`: the path parse, and
    `read_file_list` when the printed text is saved as the worklist. */
module ListToDelete {
  import opened Wrappers
  import opened PyText
  import opened TargetPath
  import opened Worklist
  import opened S3Delete
  import opened S3List
  import opened DeletionProperties

  /** An object line names its bucket and key, whenever the bucket name has no `/`. */
  lemma ObjectLineParses(bucket: string, key: string)
    requires '/' !in bucket
    ensures ParseTarget(ObjectLine(bucket, key)) == Some(Target(bucket, key))
  {
    ParseSchemeLine(bucket, key);
  }

  /** A bucket line names its bucket and the empty key. */
  lemma BucketLineParses(name: string)
    requires '/' !in name
    ensures ParseTarget(BucketLine(name)) == Some(Target(name, ""))
  {
    ObjectLineParses(name, "");
  }

  /** An object line is a valid worklist entry when the bucket and key hold no line break and
      the key does not end in whitespace. */
  predicate StorableKey(key: string) {
    '\n' !in key && '\r' !in key && (key == [] || !IsSpace(key[|key| - 1]))
  }

  lemma ObjectLineStorable(bucket: string, key: string)
    requires '\n' !in bucket && '\r' !in bucket && StorableKey(key)
    ensures var line := ObjectLine(bucket, key);
      Stripped(line) && '\n' !in line && '\r' !in line && line != []
  {
    var line := ObjectLine(bucket, key);
    assert line == "s3://" + bucket + "/" + key;
    assert line[0] == 's';
    if key == [] {
      assert line[|line| - 1] == '/';
    } else {
      assert line[|line| - 1] == key[|key| - 1];
    }
    forall c | c == '\n' || c == '\r'
      ensures c !in line
    {
      assert c !in "s3://" && c !in "/";
    }
  }

  lemma {:induction false} PrintedExcludes(lines: seq<string>, c: char)
    requires c != '\n'
    requires forall i :: 0 <= i < |lines| ==> c !in lines[i]
    ensures c !in Printed(lines)
    decreases |lines|
  {
    if lines != [] {
      PrintedExcludes(lines[1..], c);
    }
  }

  /** `r` holds the lines `lines`, each followed by `\n`. */
  predicate PrintedLines(r: seq<string>, lines: seq<string>) {
    |r| == |lines| && forall i :: 0 <= i < |lines| ==> r[i] == lines[i] + "\n"
  }

  /** `readlines` finds the printed lines again, each with its `\n`. */
  lemma {:induction false} ReadLinesOfPrinted(lines: seq<string>)
    requires forall i :: 0 <= i < |lines| ==> '\n' !in lines[i]
    ensures PrintedLines(ReadLines(Printed(lines)), lines)
    decreases |lines|
  {
    if lines != [] {
      var rest := lines[1..];
      assert forall i :: 0 <= i < |rest| ==> rest[i] == lines[i + 1];
      ReadLinesOfPrinted(rest);
      PrintedHead(lines);
      ReadLinesStep(Printed(lines), |lines[0]|);
      PrintedLinesCons(lines, ReadLines(Printed(rest)));
    }
  }

  lemma PrintedHead(lines: seq<string>)
    requires lines != [] && '\n' !in lines[0]
    ensures var t := Printed(lines); var i := |lines[0]|;
      i < |t| && t[i] == '\n' && '\n' !in t[..i]
      && t[..i + 1] == lines[0] + "\n" && t[i + 1..] == Printed(lines[1..])
  {
    var t := Printed(lines);
    assert t == lines[0] + "\n" + Printed(lines[1..]);
    assert t[..|lines[0]|] == lines[0];
  }

  lemma PrintedLinesCons(lines: seq<string>, restLines: seq<string>)
    requires lines != [] && PrintedLines(restLines, lines[1..])
    ensures PrintedLines([lines[0] + "\n"] + restLines, lines)
  {
    var r := [lines[0] + "\n"] + restLines;
    assert forall i :: 1 <= i < |r| ==> r[i] == restLines[i - 1] && lines[i] == lines[1..][i - 1];
  }

  /** Lines printed one per `print` and read back as a worklist give one entry per line, in
      order: the line with its `\n`, stripped. */
  lemma ReadPrinted(lines: seq<string>)
    requires forall i :: 0 <= i < |lines| ==> '\n' !in lines[i] && '\r' !in lines[i]
    ensures var entries := ReadFileList(Printed(lines));
      |entries| == |lines| && forall i :: 0 <= i < |lines| ==> entries[i] == Strip(lines[i] + "\n")
  {
    PrintedExcludes(lines, '\r');
    ReadLinesOfPrinted(lines);
  }

  /** Object mode's output without its header line, as `print` writes it and read back as a
      worklist, gives one entry per listed object, in listing order, and each entry parses to
      that object. */
  lemma ListingAsWorklist(bucket: string, pages: seq<Page>)
    requires '/' !in bucket && '\n' !in bucket && '\r' !in bucket
    requires forall o :: o in Objects(pages) ==> StorableKey(o.key)
    ensures var entries := ReadFileList(Printed(ObjectListing(bucket, pages)));
      entries == ObjectListing(bucket, pages) && |entries| == |Objects(pages)|
      && forall i :: 0 <= i < |entries| ==>
           ParseTarget(entries[i]) == Some(Target(bucket, Objects(pages)[i].key))
  {
    var lines := ObjectListing(bucket, pages);
    var objs := Objects(pages);
    ObjectListingLines(bucket, pages);
    forall i | 0 <= i < |lines|
      ensures Stripped(lines[i]) && '\n' !in lines[i] && '\r' !in lines[i]
      ensures ParseTarget(lines[i]) == Some(Target(bucket, objs[i].key))
    {
      assert objs[i] in objs;
      ObjectLineStorable(bucket, objs[i].key);
      ObjectLineParses(bucket, objs[i].key);
    }
    ReadPrinted(lines);
    forall i | 0 <= i < |lines|
      ensures Strip(lines[i] + "\n") == lines[i]
    {
      StripNewline(lines[i]);
    }
  }

  /** `main`'s header line holds no `/` when the bucket name holds none. */
  lemma HeaderHasNoSlash(argv: seq<string>)
    requires |argv| > 1 ==> '/' !in argv[1]
    ensures '/' !in Header(argv) && '/' !in Strip(Header(argv))
  {
    var header := Header(argv);
    if |argv| > 1 {
      var prefix := "Listing objects in bucket: ";
      assert '/' !in prefix;
      assert header == prefix + argv[1];
    } else {
      assert '/' !in "Listing all buckets:";
    }
    StripExcludes(header, '/');
  }

  lemma StripExcludes(s: string, c: char)
    requires c !in s
    ensures c !in Strip(s)
  {
    var r := Strip(s);
    assert r == s[StripOffset(s)..StripOffset(s) + |r|];
  }

  /** `main`'s header line, read back as a worklist entry, does not parse: a saved listing with
      its header ends a deletion run at once with `ValueError`, before any call and before the
      worklist is rewritten. */
  lemma HeaderAbortsDeletion(argv: seq<string>, rest: seq<string>, h: seq<Event>, st: Storage)
    requires |argv| > 1 ==> '/' !in argv[1]
    ensures ParseTarget(Strip(Header(argv))).None?
    ensures Loop(h, [Strip(Header(argv))] + rest, st) == Outcome(h, ValueError)
  {
    var s := Strip(Header(argv));
    HeaderHasNoSlash(argv);
    CountAbsent(s, '/');
    LoopStep(h, [s] + rest, st);
    assert ([s] + rest)[0] == s;
  }

  /** `main`'s whole output, as `print` writes it and read back as a worklist, ends a deletion
      run at once with `ValueError`, in either mode: its first entry is the header. */
  lemma PrintedOutputAborts(argv: seq<string>, listing: seq<string>, h: seq<Event>, st: Storage)
    requires |argv| > 1 ==> '/' !in argv[1] && '\n' !in argv[1] && '\r' !in argv[1]
    requires forall i :: 0 <= i < |listing| ==> '\n' !in listing[i] && '\r' !in listing[i]
    ensures Loop(h, ReadFileList(Printed([Header(argv)] + listing)), st) == Outcome(h, ValueError)
  {
    var out := [Header(argv)] + listing;
    OutputNoBreak(argv, listing);
    ReadPrinted(out);
    var entries := ReadFileList(Printed(out));
    var first := Strip(Header(argv) + "\n");
    FirstAndRest(entries, first);
    HeaderHasNoSlash(argv);
    assert '/' !in Header(argv) + "\n";
    StripExcludes(Header(argv) + "\n", '/');
    CountAbsent(first, '/');
    LoopStep(h, entries, st);
  }

  lemma FirstAndRest(entries: seq<string>, x: string)
    requires entries != [] && entries[0] == x
    ensures entries == [x] + entries[1..]
  {
  }

  lemma OutputNoBreak(argv: seq<string>, listing: seq<string>)
    requires |argv| > 1 ==> '\n' !in argv[1] && '\r' !in argv[1]
    requires forall i :: 0 <= i < |listing| ==> '\n' !in listing[i] && '\r' !in listing[i]
    ensures var out := [Header(argv)] + listing;
      forall i :: 0 <= i < |out| ==> '\n' !in out[i] && '\r' !in out[i]
  {
    var out := [Header(argv)] + listing;
    HeaderNoBreak(argv);
    assert forall i :: 1 <= i < |out| ==> out[i] == listing[i - 1];
  }

  lemma HeaderNoBreak(argv: seq<string>)
    requires |argv| > 1 ==> '\n' !in argv[1] && '\r' !in argv[1]
    ensures '\n' !in Header(argv) && '\r' !in Header(argv)
  {
    var prefix := "Listing objects in bucket: ";
    assert '\n' !in prefix && '\r' !in prefix;
    assert '\n' !in "Listing all buckets:" && '\r' !in "Listing all buckets:";
  }

  /** A key that ends in whitespace does not survive: `read_file_list` strips its printed line,
      and the entry names a different object. */
  lemma TrailingSpaceKeyLost()
    ensures ReadFileList(Printed([ObjectLine("b", "k ")])) == ["s3://b/k"]
    ensures ParseTarget("s3://b/k") == Some(Target("b", "k"))
  {
    assert ObjectLine("b", "k ") == "s3://b/k ";
    SpacedLineRead();
    ObjectLineParses("b", "k");
    assert ObjectLine("b", "k") == "s3://b/k";
  }

  /** The worklist read from that one printed line. */
  lemma SpacedLineRead()
    ensures ReadFileList(Printed(["s3://b/k "])) == ["s3://b/k"]
  {
    var line := "s3://b/k ";
    assert '\n' !in line && '\r' !in line;
    ReadPrinted([line]);
    var entries := ReadFileList(Printed([line]));
    assert |entries| == 1 && entries[0] == Strip(line + "\n");
    SpacedLineStrips();
  }

  /** `strip` on that line with its `\n` drops the trailing space too. */
  lemma SpacedLineStrips()
    ensures Strip("s3://b/k " + "\n") == "s3://b/k"
  {
    var line := "s3://b/k ";
    var s := line + "\n";
    assert LeadingSpace(s) == 0 by { assert s[0] == 's'; }
    assert TrailingSpace(s) == 2 by {
      assert s[..|s| - 1] == line;
      assert TrailingSpace(line) == 1 by { assert line[|line| - 2] == 'k'; }
    }
    assert Strip(s) == s[0..8] == "s3://b/k";
  }

  /** A bucket argument holding three `/` makes the header line itself parse as a target. */
  lemma SlashedArgumentHeaderParses()
    ensures ParseTarget(Strip(Header(["list.py", "x/y/z/w"]))) == Some(Target("z", "w"))
  {
    var header := Header(["list.py", "x/y/z/w"]);
    assert Stripped(header) by { assert header[0] == 'L' && header[|header| - 1] == 'w'; }
    var p0 := "Listing objects in bucket: x";
    assert header == p0 + "/" + "y" + "/" + "z" + "/" + "w";
    ParseComposed(p0, "y", "z", "w");
  }
}
