/** The few pieces of Python's `str` that the two scripts rely on, stated over `seq<char>`:
    `str.split(sep, maxsplit)` for a one-character separator, `sep.join(parts)`,
    `str.isspace()` and `str.strip()`. */
module PyText {

  function Min(a: nat, b: nat): nat {
    if a <= b then a else b
  }

  /** Python's `str.isspace()` on one character: the code points Python treats as whitespace. */
  predicate IsSpace(c: char) {
    var n := c as int;
    (9 <= n <= 13) || (0x1C <= n <= 0x20) || n == 0x85 || n == 0xA0 || n == 0x1680
    || (0x2000 <= n <= 0x200A) || n == 0x2028 || n == 0x2029 || n == 0x202F
    || n == 0x205F || n == 0x3000
  }

  /** Number of occurrences of `c` in `s`. */
  function Count(s: string, c: char): nat {
    if s == [] then 0 else (if s[0] == c then 1 else 0) + Count(s[1..], c)
  }

  lemma {:induction false} CountAppend(a: string, b: string, c: char)
    ensures Count(a + b, c) == Count(a, c) + Count(b, c)
  {
    if a == [] {
      assert a + b == b;
    } else {
      assert (a + b)[1..] == a[1..] + b;
      CountAppend(a[1..], b, c);
    }
  }

  lemma {:induction false} CountAbsent(s: string, c: char)
    ensures c !in s <==> Count(s, c) == 0
  {
    if s != [] {
      CountAbsent(s[1..], c);
      assert s == [s[0]] + s[1..];
    }
  }

  /** Index of the first occurrence of `c` in `s`. */
  function IndexOf(s: string, c: char): (i: nat)
    requires c in s
    ensures i < |s| && s[i] == c && c !in s[..i]
  {
    if s[0] == c then 0 else
      var j := IndexOf(s[1..], c);
      assert s[..j + 1] == [s[0]] + s[1..][..j];
      1 + j
  }

  lemma IndexOfAfter(a: string, c: char, b: string)
    requires c !in a
    ensures IndexOf(a + [c] + b, c) == |a|
  {
    var s := a + [c] + b;
    assert s[|a|] == c && s[..|a|] == a;
  }

  /** Python's `sep.join(parts)`. */
  function Join(parts: seq<string>, sep: char): string
    decreases |parts|
  {
    if parts == [] then []
    else if |parts| == 1 then parts[0]
    else parts[0] + [sep] + Join(parts[1..], sep)
  }

  /** Python's `s.split(sep, maxsplit)`: cut at the first `maxsplit` occurrences of `sep`,
      leaving any further ones inside the last part. */
  function Split(s: string, sep: char, maxsplit: nat): seq<string>
    decreases |s|
  {
    if maxsplit == 0 || sep !in s then [s]
    else
      var i := IndexOf(s, sep);
      [s[..i]] + Split(s[i + 1..], sep, maxsplit - 1)
  }

  /** A split has one part more than the cuts it makes, at most `maxsplit`; joining the parts
      gives back the input; only the last part can hold `sep`, and it holds every occurrence
      left uncut. */
  lemma {:induction false} SplitFacts(s: string, sep: char, maxsplit: nat)
    ensures SplitShape(s, sep, maxsplit, Split(s, sep, maxsplit))
    decreases |s|, 1
  {
    if maxsplit == 0 || sep !in s {
      CountAbsent(s, sep);
    } else {
      SplitAtFirst(s, sep, maxsplit);
    }
  }

  predicate SplitShape(s: string, sep: char, maxsplit: nat, parts: seq<string>) {
    |parts| == 1 + Min(maxsplit, Count(s, sep))
    && Join(parts, sep) == s
    && (forall i :: 0 <= i < |parts| - 1 ==> sep !in parts[i])
    && Count(s, sep) == |parts| - 1 + Count(parts[|parts| - 1], sep)
  }

  lemma {:induction false} SplitAtFirst(s: string, sep: char, maxsplit: nat)
    requires maxsplit > 0 && sep in s
    ensures SplitShape(s, sep, maxsplit, Split(s, sep, maxsplit))
    decreases |s|, 0
  {
    var i := IndexOf(s, sep);
    var rest := Split(s[i + 1..], sep, maxsplit - 1);
    assert Split(s, sep, maxsplit) == [s[..i]] + rest;
    SplitFacts(s[i + 1..], sep, maxsplit - 1);
    SplitStep(s, sep, maxsplit, i, rest);
  }

  /** The first part of a split ends at the first separator, at index `i`. */
  lemma SplitStep(s: string, sep: char, maxsplit: nat, i: nat, rest: seq<string>)
    requires maxsplit > 0 && i < |s| && s[i] == sep && sep !in s[..i]
    requires SplitShape(s[i + 1..], sep, maxsplit - 1, rest)
    ensures SplitShape(s, sep, maxsplit, [s[..i]] + rest)
  {
    var parts := [s[..i]] + rest;
    CountAtFirst(s, sep, i);
    JoinCons(s[..i], rest, sep);
    assert s == s[..i] + [sep] + s[i + 1..];
    assert parts[1..] == rest && parts[|parts| - 1] == rest[|rest| - 1];
    assert forall j :: 1 <= j < |parts| ==> parts[j] == rest[j - 1];
  }

  lemma CountAtFirst(s: string, sep: char, i: nat)
    requires i < |s| && s[i] == sep && sep !in s[..i]
    ensures Count(s, sep) == 1 + Count(s[i + 1..], sep)
  {
    assert s == s[..i] + ([sep] + s[i + 1..]);
    CountAppend(s[..i], [sep] + s[i + 1..], sep);
    CountAppend([sep], s[i + 1..], sep);
    CountAbsent(s[..i], sep);
  }

  lemma JoinCons(a: string, rest: seq<string>, sep: char)
    requires |rest| >= 1
    ensures Join([a] + rest, sep) == a + [sep] + Join(rest, sep)
  {
    assert ([a] + rest)[1..] == rest;
  }

  lemma SplitCons(a: string, sep: char, b: string, maxsplit: nat)
    requires sep !in a
    ensures Split(a + [sep] + b, sep, maxsplit + 1) == [a] + Split(b, sep, maxsplit)
  {
    var s := a + [sep] + b;
    assert s[|a|] == sep;
    IndexOfAfter(a, sep, b);
    assert s[..|a|] == a;
    assert s[|a| + 1..] == b;
  }

  /** Python's `s.strip()`: remove leading and trailing whitespace. The result is a slice of
      `s` starting at `StripOffset(s)`, everything cut off on either side is whitespace, and
      the result neither starts nor ends with whitespace. */
  function Strip(s: string): (r: string)
    ensures Stripped(r)
    ensures Stripped(s) ==> r == s
    ensures StripOffset(s) + |r| <= |s| && r == s[StripOffset(s)..StripOffset(s) + |r|]
    ensures forall i :: 0 <= i < StripOffset(s) ==> IsSpace(s[i])
    ensures forall i :: StripOffset(s) + |r| <= i < |s| ==> IsSpace(s[i])
  {
    var a := LeadingSpace(s);
    if a == |s| then [] else
    var b := |s| - TrailingSpace(s);
    s[a..b]
  }

  /** Number of leading whitespace characters `Strip` removes. */
  function StripOffset(s: string): nat {
    LeadingSpace(s)
  }

  /** `s` starts and ends with a non-whitespace character, or is empty. */
  predicate Stripped(s: string) {
    s == [] || (!IsSpace(s[0]) && !IsSpace(s[|s| - 1]))
  }

  /** The length of the longest all-whitespace prefix. */
  function LeadingSpace(s: string): (n: nat)
    ensures n <= |s|
    ensures forall i :: 0 <= i < n ==> IsSpace(s[i])
    ensures n < |s| ==> !IsSpace(s[n])
    decreases |s|
  {
    if s != [] && IsSpace(s[0]) then 1 + LeadingSpace(s[1..]) else 0
  }

  /** The length of the longest all-whitespace suffix. */
  function TrailingSpace(s: string): (n: nat)
    ensures n <= |s|
    ensures forall i :: |s| - n <= i < |s| ==> IsSpace(s[i])
    ensures n < |s| ==> !IsSpace(s[|s| - n - 1])
    decreases |s|
  {
    if s != [] && IsSpace(s[|s| - 1]) then 1 + TrailingSpace(s[..|s| - 1]) else 0
  }
}
