/** `s3/delete.py`: for every worklist entry, parse the path, then inside one `try` check the
    object exists, list its versions, delete each listed version, delete the object itself and
    log success; an ordinary exception logs an error line and moves on to the next entry.
    `sys.exit()` on a listed key that is not the target key, and the `ValueError` of a line that
    does not parse, both end the whole run, so the worklist is not rewritten.

    The storage service is an oracle: each answer may depend on everything that happened before
    the call. The run is recorded as a trace of calls with their outcomes and of log lines. */
module S3Delete {
  import opened Wrappers
  import opened PyText
  import opened TargetPath
  import opened Worklist

  /** One element of the `Versions` array of a `list_object_versions` response. */
  datatype Version = Version(key: string, versionId: string)

  /** A `list_object_versions` response: `versions` is None when the response has no
      `Versions` field; the delete markers it also carries are never read. */
  datatype Listing = Listing(versions: Option<seq<Version>>, deleteMarkers: seq<Version>)

  datatype ListReply = ListRaised | Listed(listing: Listing)

  /** A call to the storage service with its outcome, or a line written to a log. */
  datatype Event =
    | HeadObject(bucket: string, key: string, raised: bool)
    | ListObjectVersions(bucket: string, prefix: string, reply: ListReply)
    | DeleteObjectVersion(bucket: string, key: string, versionId: string, raised: bool)
    | DeleteObject(bucket: string, key: string, raised: bool)
    | LogDeleted(path: string)
    | LogFailed(path: string)

  /** The storage service: whether `head_object` raises, what `list_object_versions` returns,
      and whether `delete_object` (with or without a version id) raises, each given the
      history of the run so far. */
  datatype Storage = Storage(
    headRaises: (seq<Event>, string, string) -> bool,
    listVersions: (seq<Event>, string, string) -> ListReply,
    deleteRaises: (seq<Event>, string, string, Option<string>) -> bool)

  /** How the `try` block ends: normally, by an ordinary exception, or by `sys.exit()`. */
  datatype Flow = Normal | Raised | Exited
  datatype Block = Block(trace: seq<Event>, flow: Flow)

  /** How the run ends: the loop completes, `SystemExit` from `sys.exit()`, or the `ValueError`
      of a line that does not parse. */
  datatype Stop = Finished | SystemExit | ValueError
  datatype Outcome = Outcome(trace: seq<Event>, stop: Stop)

  /** `response.get('Versions', [])`. */
  function Versions(l: Listing): seq<Version> {
    l.versions.GetOr([])
  }

  /** The inner `for version in ...` loop, from history `h`. */
  function VersionLoop(h: seq<Event>, t: Target, vs: seq<Version>, st: Storage): Block
    decreases |vs|
  {
    if vs == [] then Block(h, Normal)
    else if vs[0].key != t.key then Block(h, Exited)
    else
      var raised := st.deleteRaises(h, t.bucket, t.key, Some(vs[0].versionId));
      var h' := h + [DeleteObjectVersion(t.bucket, t.key, vs[0].versionId, raised)];
      if raised then Block(h', Raised) else VersionLoop(h', t, vs[1..], st)
  }

  /** The body of the `try`, from history `h`. */
  function TryBlock(h: seq<Event>, t: Target, path: string, st: Storage): Block {
    var headRaised := st.headRaises(h, t.bucket, t.key);
    var h1 := h + [HeadObject(t.bucket, t.key, headRaised)];
    if headRaised then Block(h1, Raised) else
    var reply := st.listVersions(h1, t.bucket, t.key);
    var h2 := h1 + [ListObjectVersions(t.bucket, t.key, reply)];
    if reply.ListRaised? then Block(h2, Raised) else
    AfterListing(h2, t, path, reply.listing, st)
  }

  /** The rest of the `try` once the listing `l` has come back: the versions loop, the plain
      delete and the success line. */
  function AfterListing(h: seq<Event>, t: Target, path: string, l: Listing, st: Storage): Block {
    var loop := VersionLoop(h, t, Versions(l), st);
    if loop.flow != Normal then loop else
    var deleteRaised := st.deleteRaises(loop.trace, t.bucket, t.key, None);
    var h' := loop.trace + [DeleteObject(t.bucket, t.key, deleteRaised)];
    if deleteRaised then Block(h', Raised) else Block(h' + [LogDeleted(path)], Normal)
  }

  /** One iteration of the outer loop: the parse outside the `try`, then the `try` and its
      `except Exception`, which `SystemExit` passes through. */
  function Entry(h: seq<Event>, path: string, st: Storage): Outcome {
    match ParseTarget(path)
    case None => Outcome(h, ValueError)
    case Some(t) =>
      var b := TryBlock(h, t, path, st);
      match b.flow
      case Normal => Outcome(b.trace, Finished)
      case Raised => Outcome(b.trace + [LogFailed(path)], Finished)
      case Exited => Outcome(b.trace, SystemExit)
  }

  /** The outer `for file_path in file_paths` loop, from history `h`. */
  function Loop(h: seq<Event>, paths: seq<string>, st: Storage): Outcome
    decreases |paths|
  {
    if paths == [] then Outcome(h, Finished)
    else
      var r := Entry(h, paths[0], st);
      if r.stop == Finished then Loop(r.trace, paths[1..], st) else r
  }

  /** `delete_files_from_s3`. */
  method DeleteFilesFromS3(paths: seq<string>, st: Storage) returns (trace: seq<Event>, stop: Stop)
    ensures Outcome(trace, stop) == Loop([], paths, st)
  {
    trace, stop := [], Finished;
    for i := 0 to |paths|
      invariant Loop([], paths, st) == Loop(trace, paths[i..], st)
    {
      assert paths[i..][0] == paths[i] && paths[i..][1..] == paths[i + 1..];
      var path := paths[i];
      var parsed := ParseTarget(path);
      if parsed.None? {
        stop := ValueError;
        return;
      }
      var flow;
      trace, flow := TryDelete(trace, parsed.value, path, st);
      if flow == Exited {
        stop := SystemExit;
        return;
      } else if flow == Raised {
        trace := trace + [LogFailed(path)];
      }
    }
  }

  /** The body of the `try` for the target `t` of the line `path`. */
  method TryDelete(h: seq<Event>, t: Target, path: string, st: Storage) returns (trace: seq<Event>, flow: Flow)
    ensures Block(trace, flow) == TryBlock(h, t, path, st)
  {
    var headRaised := st.headRaises(h, t.bucket, t.key);
    trace := h + [HeadObject(t.bucket, t.key, headRaised)];
    if headRaised {
      return trace, Raised;
    }
    var reply := st.listVersions(trace, t.bucket, t.key);
    trace := trace + [ListObjectVersions(t.bucket, t.key, reply)];
    if reply.ListRaised? {
      return trace, Raised;
    }
    trace, flow := DeleteVersions(trace, t, Versions(reply.listing), st);
    if flow != Normal {
      return;
    }
    var deleteRaised := st.deleteRaises(trace, t.bucket, t.key, None);
    trace := trace + [DeleteObject(t.bucket, t.key, deleteRaised)];
    if deleteRaised {
      return trace, Raised;
    }
    trace := trace + [LogDeleted(path)];
  }

  /** The `for version in versions` loop: check each listed key, then delete that version. */
  method DeleteVersions(h: seq<Event>, t: Target, versions: seq<Version>, st: Storage)
    returns (trace: seq<Event>, flow: Flow)
    ensures Block(trace, flow) == VersionLoop(h, t, versions, st)
  {
    trace, flow := h, Normal;
    for j := 0 to |versions|
      invariant VersionLoop(h, t, versions, st) == VersionLoop(trace, t, versions[j..], st)
    {
      assert versions[j..][0] == versions[j] && versions[j..][1..] == versions[j + 1..];
      if versions[j].key != t.key {
        return trace, Exited;
      }
      var raised := st.deleteRaises(trace, t.bucket, t.key, Some(versions[j].versionId));
      trace := trace + [DeleteObjectVersion(t.bucket, t.key, versions[j].versionId, raised)];
      if raised {
        return trace, Raised;
      }
    }
  }

  /** `main`: read the worklist, process it, and rewrite the worklist as empty. A run that ends
      by `SystemExit` or `ValueError` never reaches the rewrite, so the file keeps its text. */
  method DeleteMain(worklist: string, st: Storage) returns (trace: seq<Event>, stop: Stop, worklistAfter: string)
    ensures Outcome(trace, stop) == Loop([], ReadFileList(worklist), st)
    ensures worklistAfter == if stop == Finished then WriteFileList([]) else worklist
  {
    var fileList := ReadFileList(worklist);
    trace, stop := DeleteFilesFromS3(fileList, st);
    worklistAfter := worklist;
    if stop == Finished {
      worklistAfter := WriteFileList([]);
    }
  }
}
