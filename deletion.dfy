/** What `delete_files_from_s3` promises, proved about the model in `S3Delete`: the shape of the
    calls each entry makes, the order in which entries are processed, where the run stops, and
    that every recorded outcome is the storage service's answer. */
module DeletionProperties {
  import opened Wrappers
  import opened PyText
  import opened TargetPath
  import opened Worklist
  import opened S3Delete

  /** Every version in `vs` carries the target key. */
  ghost predicate KeysMatch(vs: seq<Version>, key: string) {
    forall i :: 0 <= i < |vs| ==> vs[i].key == key
  }

  /** One successful versioned delete per listed version, in listing order. */
  function Deletes(t: Target, vs: seq<Version>): (evs: seq<Event>)
    ensures |evs| == |vs|
  {
    seq(|vs|, i requires 0 <= i < |vs| => DeleteObjectVersion(t.bucket, t.key, vs[i].versionId, false))
  }

  /** `head_object` succeeded, then `list_object_versions` with the key as prefix returned `l`. */
  function Opening(t: Target, l: Listing): seq<Event> {
    [HeadObject(t.bucket, t.key, false), ListObjectVersions(t.bucket, t.key, Listed(l))]
  }

  /** The calls an entry makes when none raises and the listing is `l`: `head_object`, one
      `list_object_versions` with the key as prefix, the versioned deletes, the plain delete. */
  function Calls(t: Target, l: Listing): (evs: seq<Event>)
    ensures |evs| == |Versions(l)| + 3
  {
    Opening(t, l) + Deletes(t, Versions(l))
    + [DeleteObject(t.bucket, t.key, false)]
  }

  /** The same call, answered by an exception. */
  function Raising(e: Event): Event {
    match e
    case HeadObject(b, k, _) => HeadObject(b, k, true)
    case ListObjectVersions(b, p, _) => ListObjectVersions(b, p, ListRaised)
    case DeleteObjectVersion(b, k, v, _) => DeleteObjectVersion(b, k, v, true)
    case DeleteObject(b, k, _) => DeleteObject(b, k, true)
    case _ => e
  }

  /** All calls made and succeeded, then the success line. */
  ghost predicate DeletedShape(t: Target, path: string, l: Listing, evs: seq<Event>) {
    KeysMatch(Versions(l), t.key) && evs == Calls(t, l) + [LogDeleted(path)]
  }

  /** Call `m` raised: the calls before it succeeded (and passed the key check), none after it
      was made, and one error line was logged. */
  ghost predicate FailedShape(t: Target, path: string, l: Listing, evs: seq<Event>) {
    var m := |evs| - 2;
    var vs := Versions(l);
    0 <= m < |Calls(t, l)|
    && (m >= 2 ==> KeysMatch(vs[..Min(m - 1, |vs|)], t.key))
    && evs == Calls(t, l)[..m] + [Raising(Calls(t, l)[m]), LogFailed(path)]
  }

  /** Listed version `n` has another key: the versions before it were deleted, then the run
      exits with nothing further called or logged. */
  ghost predicate ExitedShape(t: Target, l: Listing, evs: seq<Event>) {
    var n := |evs| - 2;
    var vs := Versions(l);
    0 <= n < |vs| && KeysMatch(vs[..n], t.key) && vs[n].key != t.key
    && evs == Calls(t, l)[..n + 2]
  }

  /** How the versions loop ends, and what it appended to `h`. */
  ghost predicate VersionShape(h: seq<Event>, t: Target, vs: seq<Version>, b: Block) {
    var n := |b.trace| - |h|;
    0 <= n <= |vs|
    && (b.flow == Normal ==> KeysMatch(vs, t.key) && b.trace == h + Deletes(t, vs))
    && (b.flow == Exited ==>
          n < |vs| && KeysMatch(vs[..n], t.key) && vs[n].key != t.key && b.trace == h + Deletes(t, vs[..n]))
    && (b.flow == Raised ==>
          0 < n && KeysMatch(vs[..n], t.key)
          && b.trace == h + Deletes(t, vs[..n - 1]) + [DeleteObjectVersion(t.bucket, t.key, vs[n - 1].versionId, true)])
  }

  lemma {:induction false} VersionLoopShape(h: seq<Event>, t: Target, vs: seq<Version>, st: Storage)
    ensures VersionShape(h, t, vs, VersionLoop(h, t, vs, st))
    decreases |vs|
  {
    if vs != [] && vs[0].key == t.key {
      var raised := st.deleteRaises(h, t.bucket, t.key, Some(vs[0].versionId));
      var e := DeleteObjectVersion(t.bucket, t.key, vs[0].versionId, raised);
      if !raised {
        VersionLoopShape(h + [e], t, vs[1..], st);
        VersionShapeCons(h, t, vs, VersionLoop(h + [e], t, vs[1..], st));
      } else {
        assert vs[..1] == [vs[0]] && vs[..0] == [];
      }
    }
  }

  /** A successful versioned delete of the first listed version, followed by the loop over the
      rest. */
  lemma VersionShapeCons(h: seq<Event>, t: Target, vs: seq<Version>, b: Block)
    requires vs != [] && vs[0].key == t.key
    requires VersionShape(h + [DeleteObjectVersion(t.bucket, t.key, vs[0].versionId, false)], t, vs[1..], b)
    ensures VersionShape(h, t, vs, b)
  {
    var e := DeleteObjectVersion(t.bucket, t.key, vs[0].versionId, false);
    var n := |b.trace| - |h + [e]|;
    DeletesCons(t, vs, n);
    KeysCons(vs, n, t.key);
    if b.flow == Raised {
      DeletesCons(t, vs, n - 1);
      assert h + [e] + Deletes(t, vs[1..][..n - 1]) == h + Deletes(t, vs[..n]);
      assert vs[1..][n - 1] == vs[n];
    }
    if b.flow == Exited {
      assert vs[1..][n] == vs[n + 1];
    }
    if b.flow == Normal {
      assert vs[..|vs|] == vs;
      assert vs[1..][..|vs| - 1] == vs[1..];
    }
  }

  lemma DeletesCons(t: Target, vs: seq<Version>, n: nat)
    requires n < |vs|
    ensures Deletes(t, vs[..n + 1])
      == [DeleteObjectVersion(t.bucket, t.key, vs[0].versionId, false)] + Deletes(t, vs[1..][..n])
  {
  }

  lemma KeysCons(vs: seq<Version>, n: nat, key: string)
    requires n < |vs| && vs[0].key == key
    ensures KeysMatch(vs[..n + 1], key) <==> KeysMatch(vs[1..][..n], key)
  {
    var a, r := vs[..n + 1], vs[1..][..n];
    assert a == [vs[0]] + r;
    if KeysMatch(a, key) {
      forall i | 0 <= i < |r| ensures r[i].key == key {
        assert r[i] == a[i + 1];
      }
    }
    if KeysMatch(r, key) {
      forall i | 0 <= i < |a| ensures a[i].key == key {
        if i > 0 { assert a[i] == r[i - 1]; }
      }
    }
  }

  /** The first `j + 2` calls of a successful entry, and the one that follows them. */
  lemma CallsPrefix(t: Target, l: Listing, j: nat)
    requires j <= |Versions(l)|
    ensures Calls(t, l)[..j + 2] == Opening(t, l) + Deletes(t, Versions(l)[..j])
    ensures Calls(t, l)[j + 2] == if j < |Versions(l)|
      then DeleteObjectVersion(t.bucket, t.key, Versions(l)[j].versionId, false)
      else DeleteObject(t.bucket, t.key, false)
  {
    var vs := Versions(l);
    var c := Calls(t, l);
    var p := Opening(t, l) + Deletes(t, vs[..j]);
    assert |c[..j + 2]| == |p|;
    forall i | 0 <= i < |p| ensures c[..j + 2][i] == p[i] {
      if i >= 2 {
        assert c[i] == Deletes(t, vs)[i - 2];
      }
    }
  }

  /** What the `try` block appends, by how it ends. */
  ghost predicate TryShape(t: Target, path: string, b: Block, evs: seq<Event>) {
    (b.flow == Normal ==> exists l :: DeletedShape(t, path, l, evs))
    && (b.flow == Raised ==> exists l :: FailedShape(t, path, l, evs + [LogFailed(path)]))
    && (b.flow == Exited ==> exists l :: ExitedShape(t, l, evs))
  }

  lemma AfterListingShape(h: seq<Event>, t: Target, path: string, l: Listing, st: Storage)
    ensures var b := AfterListing(h, t, path, l, st);
      |h| <= |b.trace| && b.trace[..|h|] == h && TryShape(t, path, b, Opening(t, l) + b.trace[|h|..])
  {
    VersionLoopShape(h, t, Versions(l), st);
    var loop := VersionLoop(h, t, Versions(l), st);
    match loop.flow
    case Exited => LoopExitedShape(h, t, l, st);
    case Raised => LoopRaisedShape(h, t, path, l, st);
    case Normal => LoopNormalShape(h, t, path, l, st);
  }

  lemma LoopExitedShape(h: seq<Event>, t: Target, l: Listing, st: Storage)
    requires VersionLoop(h, t, Versions(l), st).flow == Exited
    ensures var loop := VersionLoop(h, t, Versions(l), st);
      |h| <= |loop.trace| && loop.trace[..|h|] == h && ExitedShape(t, l, Opening(t, l) + loop.trace[|h|..])
  {
    VersionLoopShape(h, t, Versions(l), st);
    var loop := VersionLoop(h, t, Versions(l), st);
    var n := |loop.trace| - |h|;
    CallsPrefix(t, l, n);
    assert loop.trace[|h|..] == Deletes(t, Versions(l)[..n]);
  }

  lemma LoopRaisedShape(h: seq<Event>, t: Target, path: string, l: Listing, st: Storage)
    requires VersionLoop(h, t, Versions(l), st).flow == Raised
    ensures var loop := VersionLoop(h, t, Versions(l), st);
      |h| <= |loop.trace| && loop.trace[..|h|] == h
      && FailedShape(t, path, l, Opening(t, l) + loop.trace[|h|..] + [LogFailed(path)])
  {
    var vs := Versions(l);
    VersionLoopShape(h, t, vs, st);
    var loop := VersionLoop(h, t, vs, st);
    var n := |loop.trace| - |h|;
    CallsPrefix(t, l, n - 1);
    var evs := Deletes(t, vs[..n - 1]) + [DeleteObjectVersion(t.bucket, t.key, vs[n - 1].versionId, true)];
    assert loop.trace[|h|..] == evs;
    assert Opening(t, l) + evs + [LogFailed(path)]
      == Calls(t, l)[..n + 1] + [Raising(Calls(t, l)[n + 1]), LogFailed(path)];
  }

  lemma LoopNormalShape(h: seq<Event>, t: Target, path: string, l: Listing, st: Storage)
    requires VersionLoop(h, t, Versions(l), st).flow == Normal
    ensures var b := AfterListing(h, t, path, l, st);
      |h| <= |b.trace| && b.trace[..|h|] == h && TryShape(t, path, b, Opening(t, l) + b.trace[|h|..])
  {
    var vs := Versions(l);
    VersionLoopShape(h, t, vs, st);
    var loop := VersionLoop(h, t, vs, st);
    var b := AfterListing(h, t, path, l, st);
    CallsPrefix(t, l, |vs|);
    assert vs[..|vs|] == vs;
    var deleteRaised := st.deleteRaises(loop.trace, t.bucket, t.key, None);
    if deleteRaised {
      var evs := Deletes(t, vs) + [DeleteObject(t.bucket, t.key, true)];
      assert b.trace[|h|..] == evs;
      assert Opening(t, l) + evs + [LogFailed(path)]
        == Calls(t, l)[..|vs| + 2] + [Raising(Calls(t, l)[|vs| + 2]), LogFailed(path)];
      assert FailedShape(t, path, l, Opening(t, l) + evs + [LogFailed(path)]);
    } else {
      var evs := Deletes(t, vs) + [DeleteObject(t.bucket, t.key, false), LogDeleted(path)];
      assert b.trace[|h|..] == evs;
      assert Opening(t, l) + evs == Calls(t, l) + [LogDeleted(path)];
      assert DeletedShape(t, path, l, Opening(t, l) + evs);
    }
  }

  lemma TryBlockShape(h: seq<Event>, t: Target, path: string, st: Storage)
    ensures var b := TryBlock(h, t, path, st);
      |h| <= |b.trace| && b.trace[..|h|] == h && TryShape(t, path, b, b.trace[|h|..])
  {
    var h1 := h + [HeadObject(t.bucket, t.key, false)];
    if st.headRaises(h, t.bucket, t.key) || st.listVersions(h1, t.bucket, t.key).ListRaised? {
      TryRaisedEarlyShape(h, t, path, st);
    } else {
      TryListedShape(h, t, path, st);
    }
  }

  /** The `try` body when `head_object` or `list_object_versions` raises. */
  lemma TryRaisedEarlyShape(h: seq<Event>, t: Target, path: string, st: Storage)
    requires st.headRaises(h, t.bucket, t.key)
      || st.listVersions(h + [HeadObject(t.bucket, t.key, false)], t.bucket, t.key).ListRaised?
    ensures var b := TryBlock(h, t, path, st);
      |h| <= |b.trace| && b.trace[..|h|] == h && TryShape(t, path, b, b.trace[|h|..])
  {
    var b := TryBlock(h, t, path, st);
    var none := Listing(None, []);
    if st.headRaises(h, t.bucket, t.key) {
      var evs := [HeadObject(t.bucket, t.key, true)];
      assert b.trace[|h|..] == evs;
      HeadFailedShape(t, path);
      assert FailedShape(t, path, none, evs + [LogFailed(path)]);
    } else {
      var evs := [HeadObject(t.bucket, t.key, false), ListObjectVersions(t.bucket, t.key, ListRaised)];
      assert b.trace[|h|..] == evs;
      ListFailedShape(t, path);
      assert FailedShape(t, path, none, evs + [LogFailed(path)]);
    }
  }

  /** The `try` body once the listing has come back. */
  lemma TryListedShape(h: seq<Event>, t: Target, path: string, st: Storage)
    requires !st.headRaises(h, t.bucket, t.key)
    requires st.listVersions(h + [HeadObject(t.bucket, t.key, false)], t.bucket, t.key).Listed?
    ensures var b := TryBlock(h, t, path, st);
      |h| <= |b.trace| && b.trace[..|h|] == h && TryShape(t, path, b, b.trace[|h|..])
  {
    var b := TryBlock(h, t, path, st);
    var h1 := h + [HeadObject(t.bucket, t.key, false)];
    var reply := st.listVersions(h1, t.bucket, t.key);
    var h2 := h1 + [ListObjectVersions(t.bucket, t.key, reply)];
    AfterListingShape(h2, t, path, reply.listing, st);
    assert h2 == h + Opening(t, reply.listing);
    assert b.trace[|h|..] == Opening(t, reply.listing) + b.trace[|h2|..];
  }

  /** `head_object` raised: nothing else was called. */
  lemma HeadFailedShape(t: Target, path: string)
    ensures FailedShape(t, path, Listing(None, []), [HeadObject(t.bucket, t.key, true), LogFailed(path)])
  {
    assert Calls(t, Listing(None, []))[0] == HeadObject(t.bucket, t.key, false);
  }

  /** `list_object_versions` raised after `head_object` succeeded. */
  lemma ListFailedShape(t: Target, path: string)
    ensures FailedShape(t, path, Listing(None, []),
      [HeadObject(t.bucket, t.key, false), ListObjectVersions(t.bucket, t.key, ListRaised), LogFailed(path)])
  {
    var calls := Calls(t, Listing(None, []));
    assert calls[..1] == [HeadObject(t.bucket, t.key, false)];
    assert calls[1] == ListObjectVersions(t.bucket, t.key, Listed(Listing(None, [])));
  }

  /** Every entry takes exactly one of the shapes above: a line that does not parse raises
      `ValueError` before any call; otherwise the entry ends deleted or failed, and the run goes
      on, or it ends by `SystemExit`. */
  lemma EntryShape(h: seq<Event>, path: string, st: Storage)
    ensures var r := Entry(h, path, st);
      |h| <= |r.trace| && r.trace[..|h|] == h
      && (r.stop == ValueError <==> ParseTarget(path).None?)
      && (r.stop == ValueError ==> r.trace == h)
      && (ParseTarget(path).Some? ==>
            var t := ParseTarget(path).value;
            var evs := r.trace[|h|..];
            (r.stop == Finished ==> exists l :: DeletedShape(t, path, l, evs) || FailedShape(t, path, l, evs))
            && (r.stop == SystemExit ==> exists l :: ExitedShape(t, l, evs)))
  {
    if ParseTarget(path).Some? {
      var t := ParseTarget(path).value;
      TryBlockShape(h, t, path, st);
      var b := TryBlock(h, t, path, st);
      if b.flow == Raised {
        assert Entry(h, path, st).trace[|h|..] == b.trace[|h|..] + [LogFailed(path)];
      }
    }
  }

  /** The path a log line names, if the event is one. */
  /** After the listing comes back, the calls depend on it only through its `Versions`: the
      delete markers it carries, and anything else in it, change nothing. */
  lemma AfterListingReadsVersionsOnly(h: seq<Event>, t: Target, path: string, l1: Listing, l2: Listing, st: Storage)
    requires Versions(l1) == Versions(l2)
    ensures AfterListing(h, t, path, l1, st) == AfterListing(h, t, path, l2, st)
  {
  }

  /** A listing without a `Versions` field makes no versioned delete: the plain delete follows
      at once, then the success line unless it raised. */
  lemma NoVersionsFieldDeletesNothing(h: seq<Event>, t: Target, path: string, markers: seq<Version>, st: Storage)
    ensures var raised := st.deleteRaises(h, t.bucket, t.key, None);
      AfterListing(h, t, path, Listing(None, markers), st)
      == if raised then Block(h + [DeleteObject(t.bucket, t.key, true)], Raised)
         else Block(h + [DeleteObject(t.bucket, t.key, false), LogDeleted(path)], Normal)
  {
    assert Versions(Listing(None, markers)) == [];
  }

  function LogLine(e: Event): seq<string> {
    match e
    case LogDeleted(p) => [p]
    case LogFailed(p) => [p]
    case _ => []
  }

  /** The paths named by the success and error log lines of a trace, in order. */
  function Logged(tr: seq<Event>): seq<string>
    decreases |tr|
  {
    if tr == [] then [] else Logged(tr[..|tr| - 1]) + LogLine(tr[|tr| - 1])
  }

  lemma {:induction false} LoggedAppend(a: seq<Event>, b: seq<Event>)
    ensures Logged(a + b) == Logged(a) + Logged(b)
    decreases |b|
  {
    if b == [] {
      assert a + b == a;
    } else {
      assert (a + b)[..|a + b| - 1] == a + b[..|b| - 1];
      LoggedAppend(a, b[..|b| - 1]);
    }
  }

  lemma {:induction false} VersionLoopLogs(h: seq<Event>, t: Target, vs: seq<Version>, st: Storage)
    ensures Logged(VersionLoop(h, t, vs, st).trace) == Logged(h)
    decreases |vs|
  {
    if vs != [] && vs[0].key == t.key {
      var raised := st.deleteRaises(h, t.bucket, t.key, Some(vs[0].versionId));
      var h' := h + [DeleteObjectVersion(t.bucket, t.key, vs[0].versionId, raised)];
      LoggedAppend(h, [DeleteObjectVersion(t.bucket, t.key, vs[0].versionId, raised)]);
      assert Logged([DeleteObjectVersion(t.bucket, t.key, vs[0].versionId, raised)]) == [];
      VersionLoopLogs(h', t, vs[1..], st);
    }
  }

  lemma LoggedNoLine(h: seq<Event>, e: Event)
    requires LogLine(e) == []
    ensures Logged(h + [e]) == Logged(h)
  {
    assert (h + [e])[..|h|] == h;
  }

  lemma LoggedLine(h: seq<Event>, e: Event, path: string)
    requires e == LogDeleted(path) || e == LogFailed(path)
    ensures Logged(h + [e]) == Logged(h) + [path]
  {
    assert (h + [e])[..|h|] == h;
    assert LogLine(e) == [path];
  }

  lemma AfterListingLogs(h: seq<Event>, t: Target, path: string, l: Listing, st: Storage)
    ensures var b := AfterListing(h, t, path, l, st);
      Logged(b.trace) == Logged(h) + if b.flow == Normal then [path] else []
  {
    VersionLoopLogs(h, t, Versions(l), st);
    var loop := VersionLoop(h, t, Versions(l), st);
    if loop.flow == Normal {
      var deleteRaised := st.deleteRaises(loop.trace, t.bucket, t.key, None);
      var e := DeleteObject(t.bucket, t.key, deleteRaised);
      LoggedNoLine(loop.trace, e);
      if !deleteRaised {
        LoggedLine(loop.trace + [e], LogDeleted(path), path);
      }
    }
  }

  lemma TryBlockLogs(h: seq<Event>, t: Target, path: string, st: Storage)
    ensures var b := TryBlock(h, t, path, st);
      Logged(b.trace) == Logged(h) + if b.flow == Normal then [path] else []
  {
    var headRaised := st.headRaises(h, t.bucket, t.key);
    var h1 := h + [HeadObject(t.bucket, t.key, headRaised)];
    LoggedNoLine(h, HeadObject(t.bucket, t.key, headRaised));
    if !headRaised {
      var reply := st.listVersions(h1, t.bucket, t.key);
      LoggedNoLine(h1, ListObjectVersions(t.bucket, t.key, reply));
      if reply.Listed? {
        AfterListingLogs(h1 + [ListObjectVersions(t.bucket, t.key, reply)], t, path, reply.listing, st);
      }
    }
  }

  /** Each entry that does not end the run writes exactly one log line, naming it; one that
      ends the run writes none. */
  lemma EntryLogs(h: seq<Event>, path: string, st: Storage)
    ensures var r := Entry(h, path, st);
      Logged(r.trace) == Logged(h) + if r.stop == Finished then [path] else []
  {
    if ParseTarget(path).Some? {
      var t := ParseTarget(path).value;
      TryBlockLogs(h, t, path, st);
      var b := TryBlock(h, t, path, st);
      var r := Entry(h, path, st);
      match b.flow
      case Normal => assert r == Outcome(b.trace, Finished);
      case Exited => assert r == Outcome(b.trace, SystemExit);
      case Raised =>
        assert r == Outcome(b.trace + [LogFailed(path)], Finished);
        LoggedLine(b.trace, LogFailed(path), path);
    }
  }

  /** One step of the outer loop. */
  lemma LoopStep(h: seq<Event>, paths: seq<string>, st: Storage)
    requires paths != []
    ensures var r0 := Entry(h, paths[0], st);
      Loop(h, paths, st) == if r0.stop == Finished then Loop(r0.trace, paths[1..], st) else r0
  {
  }

  /** The log after the first entry, extended by the next `i` entries. */
  lemma ShiftPrefix(a: seq<string>, paths: seq<string>, i: nat)
    requires i <= |paths| - 1
    ensures (a + [paths[0]]) + paths[1..][..i] == a + paths[..i + 1]
  {
    assert [paths[0]] + paths[1..][..i] == paths[..i + 1];
  }

  /** An entry raises `ValueError` exactly when its line does not parse: the first conjunct of
      `EntryShape` on its own, the light form the run-level proofs use. */
  lemma EntryStops(h: seq<Event>, path: string, st: Storage)
    ensures Entry(h, path, st).stop == ValueError <==> ParseTarget(path).None?
  {
    if ParseTarget(path).Some? {
      var b := TryBlock(h, ParseTarget(path).value, path, st);
      assert b.flow == Normal || b.flow == Raised || b.flow == Exited;
    }
  }

  /** What the log says about a run over `paths` that wrote `after` to a log that held `before`:
      it names, in order, the first `n` entries, all of which parse, and when the run stopped
      early the `n`-th entry is the one that stopped it. */
  ghost predicate LogReport(before: seq<string>, paths: seq<string>, after: seq<string>, stop: Stop) {
    var n := |after| - |before|;
    0 <= n <= |paths| && after == before + paths[..n]
    && (stop == Finished <==> n == |paths|)
    && (forall i :: 0 <= i < n ==> ParseTarget(paths[i]).Some?)
    && (stop == ValueError ==> ParseTarget(paths[n]).None?)
    && (stop == SystemExit ==> ParseTarget(paths[n]).Some?)
  }

  /** A report on the rest of a worklist, after a first entry that parsed and was logged, is a
      report on the whole worklist. */
  lemma LogReportCons(before: seq<string>, paths: seq<string>, after: seq<string>, stop: Stop)
    requires paths != [] && ParseTarget(paths[0]).Some?
    requires LogReport(before + [paths[0]], paths[1..], after, stop)
    ensures LogReport(before, paths, after, stop)
  {
    var rest := paths[1..];
    var m := |after| - |before + [paths[0]]|;
    assert 0 <= m <= |rest| && after == (before + [paths[0]]) + rest[..m];
    ShiftPrefix(before, paths, m);
    assert |after| - |before| == m + 1;
    forall i | 0 <= i < m + 1
      ensures ParseTarget(paths[i]).Some?
    {
      if i > 0 {
        assert paths[i] == rest[i - 1];
      }
    }
    if m < |rest| {
      assert paths[m + 1] == rest[m];
    }
  }

  /** Entries are processed once each, in worklist order, and each processed entry is logged
      once; the run stops early only at an entry that raises `ValueError` (it does not parse)
      or `SystemExit` (it parses). */
  lemma {:induction false} RunInOrder(h: seq<Event>, paths: seq<string>, st: Storage)
    ensures var r := Loop(h, paths, st);
      LogReport(Logged(h), paths, Logged(r.trace), r.stop)
    decreases |paths|
  {
    if paths != [] {
      LoopStep(h, paths, st);
      EntryLogs(h, paths[0], st);
      EntryStops(h, paths[0], st);
      var r0 := Entry(h, paths[0], st);
      if r0.stop == Finished {
        RunInOrder(r0.trace, paths[1..], st);
        assert Logged(r0.trace) == Logged(h) + [paths[0]];
        var r := Loop(r0.trace, paths[1..], st);
        LogReportCons(Logged(h), paths, Logged(r.trace), r.stop);
      } else {
        assert paths[..0] == [];
      }
    }
  }

  /** A run that stops early ends with the events of the entry that stopped it: nothing of a
      later entry, and no log line after it. */
  lemma {:induction false} RunEndsAtAbort(h: seq<Event>, paths: seq<string>, st: Storage)
    requires Loop(h, paths, st).stop != Finished
    ensures exists i, h' ::
      0 <= i < |paths| && Loop(h, paths, st) == Entry(h', paths[i], st) && Logged(h') == Logged(h) + paths[..i]
    decreases |paths|
  {
    LoopStep(h, paths, st);
    var r0 := Entry(h, paths[0], st);
    if r0.stop == Finished {
      EntryLogs(h, paths[0], st);
      var rest := paths[1..];
      RunEndsAtAbort(r0.trace, rest, st);
      var i, h' :| 0 <= i < |rest| && Loop(r0.trace, rest, st) == Entry(h', rest[i], st)
        && Logged(h') == Logged(r0.trace) + rest[..i];
      assert Logged(r0.trace) == Logged(h) + [paths[0]];
      ShiftPrefix(Logged(h), paths, i);
      assert rest[i] == paths[i + 1];
    } else {
      assert paths[..0] == [];
      assert Logged(h) == Logged(h) + paths[..0];
      assert Loop(h, paths, st) == Entry(h, paths[0], st);
    }
  }

  /** The storage service's answer to the call `e` makes after history `h`. */
  ghost predicate Answers(st: Storage, h: seq<Event>, e: Event) {
    match e
    case HeadObject(b, k, raised) => raised == st.headRaises(h, b, k)
    case ListObjectVersions(b, p, reply) => reply == st.listVersions(h, b, p)
    case DeleteObjectVersion(b, k, v, raised) => raised == st.deleteRaises(h, b, k, Some(v))
    case DeleteObject(b, k, raised) => raised == st.deleteRaises(h, b, k, None)
    case _ => true
  }

  /** Every outcome recorded in `tr` is what the service answered at that point of the run. */
  ghost predicate Consistent(st: Storage, tr: seq<Event>) {
    forall i :: 0 <= i < |tr| ==> Answers(st, tr[..i], tr[i])
  }

  lemma Extend(st: Storage, h: seq<Event>, e: Event)
    requires Consistent(st, h) && Answers(st, h, e)
    ensures Consistent(st, h + [e])
  {
    var h' := h + [e];
    forall i | 0 <= i < |h'| ensures Answers(st, h'[..i], h'[i]) {
      if i < |h| {
        assert h'[..i] == h[..i];
      } else {
        assert h'[..i] == h;
      }
    }
  }

  lemma {:induction false} VersionLoopAnswers(h: seq<Event>, t: Target, vs: seq<Version>, st: Storage)
    requires Consistent(st, h)
    ensures Consistent(st, VersionLoop(h, t, vs, st).trace)
    decreases |vs|
  {
    if vs != [] && vs[0].key == t.key {
      var raised := st.deleteRaises(h, t.bucket, t.key, Some(vs[0].versionId));
      var e := DeleteObjectVersion(t.bucket, t.key, vs[0].versionId, raised);
      Extend(st, h, e);
      VersionLoopAnswers(h + [e], t, vs[1..], st);
    }
  }

  lemma EntryAnswers(h: seq<Event>, path: string, st: Storage)
    requires Consistent(st, h)
    ensures Consistent(st, Entry(h, path, st).trace)
  {
    if ParseTarget(path).Some? {
      var t := ParseTarget(path).value;
      var headRaised := st.headRaises(h, t.bucket, t.key);
      var h1 := h + [HeadObject(t.bucket, t.key, headRaised)];
      Extend(st, h, HeadObject(t.bucket, t.key, headRaised));
      var b := TryBlock(h, t, path, st);
      if !headRaised {
        var reply := st.listVersions(h1, t.bucket, t.key);
        var h2 := h1 + [ListObjectVersions(t.bucket, t.key, reply)];
        Extend(st, h1, ListObjectVersions(t.bucket, t.key, reply));
        if reply.Listed? {
          VersionLoopAnswers(h2, t, Versions(reply.listing), st);
          var loop := VersionLoop(h2, t, Versions(reply.listing), st);
          if loop.flow == Normal {
            var deleteRaised := st.deleteRaises(loop.trace, t.bucket, t.key, None);
            var e := DeleteObject(t.bucket, t.key, deleteRaised);
            Extend(st, loop.trace, e);
            Extend(st, loop.trace + [e], LogDeleted(path));
          }
        }
      }
      assert Consistent(st, b.trace);
      Extend(st, b.trace, LogFailed(path));
    }
  }

  /** The oracle invariant: every call outcome the run records is the service's answer to that
      call, given what happened before it. */
  lemma {:induction false} RunAnswers(h: seq<Event>, paths: seq<string>, st: Storage)
    requires Consistent(st, h)
    ensures Consistent(st, Loop(h, paths, st).trace)
    decreases |paths|
  {
    if paths != [] {
      EntryAnswers(h, paths[0], st);
      var r0 := Entry(h, paths[0], st);
      if r0.stop == Finished {
        RunAnswers(r0.trace, paths[1..], st);
      }
    }
  }

  /** The service only ever lists versions of exactly the key given as prefix. */
  ghost predicate ListsExactKey(st: Storage) {
    forall h, b, p :: st.listVersions(h, b, p).Listed? ==> KeysMatch(Versions(st.listVersions(h, b, p).listing), p)
  }

  lemma TryNeverExits(h: seq<Event>, t: Target, path: string, st: Storage)
    requires ListsExactKey(st)
    ensures TryBlock(h, t, path, st).flow != Exited
  {
    var headRaised := st.headRaises(h, t.bucket, t.key);
    var h1 := h + [HeadObject(t.bucket, t.key, headRaised)];
    var reply := st.listVersions(h1, t.bucket, t.key);
    var h2 := h1 + [ListObjectVersions(t.bucket, t.key, reply)];
    if !headRaised && reply.Listed? {
      VersionLoopShape(h2, t, Versions(reply.listing), st);
    }
  }

  /** When every line parses and no listing names another key, the run completes whatever the
      individual calls raise, so `main` goes on to rewrite the worklist. */
  lemma {:induction false} RunFinishes(h: seq<Event>, paths: seq<string>, st: Storage)
    requires forall i :: 0 <= i < |paths| ==> ParseTarget(paths[i]).Some?
    requires ListsExactKey(st)
    ensures Loop(h, paths, st).stop == Finished
    decreases |paths|
  {
    if paths != [] {
      TryNeverExits(h, ParseTarget(paths[0]).value, paths[0], st);
      var r0 := Entry(h, paths[0], st);
      RunFinishes(r0.trace, paths[1..], st);
    }
  }

  /** The service never raises for target `t` and always lists `l`. */
  ghost predicate Healthy(st: Storage, t: Target, l: Listing) {
    (forall h :: !st.headRaises(h, t.bucket, t.key))
    && (forall h :: st.listVersions(h, t.bucket, t.key) == Listed(l))
    && (forall h, v :: !st.deleteRaises(h, t.bucket, t.key, v))
  }

  lemma {:induction false} VersionLoopHealthy(h: seq<Event>, t: Target, l: Listing, vs: seq<Version>, st: Storage)
    requires Healthy(st, t, l) && KeysMatch(vs, t.key)
    ensures VersionLoop(h, t, vs, st) == Block(h + Deletes(t, vs), Normal)
    decreases |vs|
  {
    if vs != [] {
      var e := DeleteObjectVersion(t.bucket, t.key, vs[0].versionId, false);
      assert !st.deleteRaises(h, t.bucket, t.key, Some(vs[0].versionId));
      assert KeysMatch(vs[1..], t.key) by {
        forall i | 0 <= i < |vs[1..]| ensures vs[1..][i].key == t.key {
          assert vs[1..][i] == vs[i + 1];
        }
      }
      VersionLoopHealthy(h + [e], t, l, vs[1..], st);
      assert Deletes(t, vs) == [e] + Deletes(t, vs[1..]);
    }
  }

  /** An entry on a service that raises nothing and lists only the target key makes exactly
      the full call sequence and then logs success. */
  lemma HealthyEntryDeletes(h: seq<Event>, path: string, t: Target, l: Listing, st: Storage)
    requires ParseTarget(path) == Some(t)
    requires Healthy(st, t, l) && KeysMatch(Versions(l), t.key)
    ensures Entry(h, path, st) == Outcome(h + Calls(t, l) + [LogDeleted(path)], Finished)
  {
    var h2 := h + Opening(t, l);
    assert !st.headRaises(h, t.bucket, t.key);
    assert st.listVersions(h + [HeadObject(t.bucket, t.key, false)], t.bucket, t.key) == Listed(l);
    assert h + [HeadObject(t.bucket, t.key, false)] + [ListObjectVersions(t.bucket, t.key, Listed(l))] == h2;
    VersionLoopHealthy(h2, t, l, Versions(l), st);
    assert !st.deleteRaises(h2 + Deletes(t, Versions(l)), t.bucket, t.key, None);
    assert h2 + Deletes(t, Versions(l)) + [DeleteObject(t.bucket, t.key, false)] == h + Calls(t, l);
  }
}
