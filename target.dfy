/** The path rule of `s3/delete.py`: `bucket_name, key = file_path.split('/', 2)[-1].split('/', 1)`.
    The first two `/` are consumed as the scheme (`s3:` and the empty part between `//`),
    whatever precedes them; the unpacking raises `ValueError` when what is left holds no `/`. */
module TargetPath {
  import opened Wrappers
  import opened PyText

  datatype Target = Target(bucket: string, key: string)

  /** The parsed target, or None where the unpacking raises `ValueError`. It succeeds exactly
      when the line holds at least three `/`, and the bucket never holds one. */
  function ParseTarget(line: string): (r: Option<Target>)
    ensures r.Some? <==> Count(line, '/') >= 3
    ensures r.Some? ==> '/' !in r.value.bucket
  {
    SplitFacts(line, '/', 2);
    var outer := Split(line, '/', 2);
    SplitFacts(outer[|outer| - 1], '/', 1);
    var parts := Split(outer[|outer| - 1], '/', 1);
    if |parts| == 2 then Some(Target(parts[0], parts[1])) else None
  }

  /** A line of the form `p0/p1/bucket/key`, whose first three parts hold no `/`, parses to
      `bucket` and `key`; slashes inside `key` are kept. */
  lemma ParseComposed(p0: string, p1: string, bucket: string, key: string)
    requires '/' !in p0 && '/' !in p1 && '/' !in bucket
    ensures ParseTarget(p0 + "/" + p1 + "/" + bucket + "/" + key) == Some(Target(bucket, key))
  {
    var tail := bucket + "/" + key;
    var middle := p1 + "/" + tail;
    var line := p0 + "/" + middle;
    Regroup(p0, p1, bucket, key);
    assert Split(line, '/', 2) == [p0, p1, tail] by {
      SplitCons(p0, '/', middle, 1);
      SplitCons(p1, '/', tail, 0);
    }
    assert Split(tail, '/', 1) == [bucket, key] by {
      SplitCons(bucket, '/', key, 0);
    }
    ParseOfParts(line, tail, bucket, key);
  }

  lemma Regroup(p0: string, p1: string, bucket: string, key: string)
    ensures p0 + "/" + p1 + "/" + bucket + "/" + key == p0 + "/" + (p1 + "/" + (bucket + "/" + key))
  {
  }

  lemma ParseOfParts(line: string, tail: string, bucket: string, key: string)
    requires var outer := Split(line, '/', 2); outer[|outer| - 1] == tail
    requires Split(tail, '/', 1) == [bucket, key]
    ensures ParseTarget(line) == Some(Target(bucket, key))
  {
  }

  /** Conversely, a parsed line is `head + bucket + "/" + key` where `head` holds exactly two `/`
      and ends in one: the parse is the unique such decomposition. */
  lemma ParseDecomposes(line: string)
    requires ParseTarget(line).Some?
    ensures var t := ParseTarget(line).value;
      var n := |line| - |t.bucket| - 1 - |t.key|;
      0 < n && line == line[..n] + t.bucket + "/" + t.key
      && Count(line[..n], '/') == 2 && line[n - 1] == '/'
  {
    SplitFacts(line, '/', 2);
    var outer := Split(line, '/', 2);
    SplitFacts(outer[2], '/', 1);
    var parts := Split(outer[2], '/', 1);
    var t := ParseTarget(line).value;
    assert t == Target(parts[0], parts[1]);
    var head := outer[0] + "/" + outer[1] + "/";
    assert line == head + t.bucket + "/" + t.key by {
      JoinThree(outer, '/');
      JoinTwo(parts, '/');
      Regroup(outer[0], outer[1], t.bucket, t.key);
    }
    CountHead(outer[0], outer[1]);
    assert line[..|head|] == head;
  }

  lemma CountHead(a: string, b: string)
    requires '/' !in a && '/' !in b
    ensures Count(a + "/" + b + "/", '/') == 2
  {
    CountAbsent(a, '/');
    CountAbsent(b, '/');
    CountAppend(a + "/" + b, "/", '/');
    CountAppend(a + "/", b, '/');
    CountAppend(a, "/", '/');
  }

  lemma JoinThree(parts: seq<string>, sep: char)
    requires |parts| == 3
    ensures Join(parts, sep) == parts[0] + [sep] + (parts[1] + [sep] + parts[2])
  {
    var rest := parts[1..];
    assert rest[1..] == [parts[2]];
    assert Join(rest, sep) == parts[1] + [sep] + parts[2];
  }

  lemma JoinTwo(parts: seq<string>, sep: char)
    requires |parts| == 2
    ensures Join(parts, sep) == parts[0] + [sep] + parts[1]
  {
    assert parts[1..] == [parts[1]];
  }

  /** Lines the rule rejects, each raising `ValueError`: no `/` at all (`""`, `bucket`),
      a scheme and a bucket but no key separator (`s3://bucket`), and the scheme-less forms
      `bucket/key` and `bucket/a/b`. */
  lemma ParseRejects(a: string, b: string, c: string)
    requires '/' !in a && '/' !in b && '/' !in c
    ensures ParseTarget(a) == None
    ensures ParseTarget("s3://" + a) == None
    ensures ParseTarget(a + "/" + b) == None
    ensures ParseTarget(a + "/" + b + "/" + c) == None
  {
    CountAbsent(a, '/');
    CountAbsent(b, '/');
    CountAbsent(c, '/');
    assert Count("s3://" + a, '/') == 2 by {
      assert "s3://" == "s3:" + "/" + "/";
      CountAppend("s3:" + "/" + "/", a, '/');
      CountAppend("s3:" + "/", "/", '/');
      CountAppend("s3:", "/", '/');
      CountAbsent("s3:", '/');
    }
    assert Count(a + "/" + b, '/') == 1 by {
      CountAppend(a + "/", b, '/');
      CountAppend(a, "/", '/');
    }
    assert Count(a + "/" + b + "/" + c, '/') == 2 by {
      CountAppend(a + "/" + b + "/", c, '/');
      CountAppend(a + "/" + b, "/", '/');
      CountAppend(a + "/", b, '/');
      CountAppend(a, "/", '/');
    }
  }

  /** A line in the form the listing prints, `s3://bucket/key`, parses to `bucket` and `key`;
      with an empty key it is a bucket line and gives the empty key. */
  lemma ParseSchemeLine(bucket: string, key: string)
    requires '/' !in bucket
    ensures ParseTarget("s3://" + bucket + "/" + key) == Some(Target(bucket, key))
  {
    assert "s3:" + "/" + "" + "/" + bucket + "/" + key == "s3://" + bucket + "/" + key;
    ParseComposed("s3:", "", bucket, key);
  }
}
