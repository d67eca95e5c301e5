# aws-tools S3 delete and list, modelled in Dafny

This project models two small command-line tools for Amazon S3 and proves properties of them.

- `s3/delete.py` reads a worklist file, `files-to-remove.txt`, with one `s3://bucket/key` path
  per line. For each path it parses out the bucket and the key. Then, inside one `try`, it:
  - checks with `head_object` that the object exists;
  - lists the object's versions with `list_object_versions`, using the key as prefix;
  - exits the whole process with `sys.exit()` if a listed version belongs to a different key;
  - otherwise deletes each listed version;
  - deletes the object itself;
  - logs a success line.

  Any ordinary exception logs an error line and moves on to the next path. When the loop
  completes, `main` rewrites the worklist as an empty file.
- `s3/list.py` prints a header line, then a listing:
  - given a bucket name, one `s3://bucket/key` line per object on every page of
    `list_objects_v2`;
  - given none, one `s3://name/` line per bucket.

The storage service is an oracle: a `Storage` value of functions. Each function answers a call
given the history of the run so far, so every scenario of exceptions and listings is covered.
A run of the delete tool is recorded as a trace of `Event`s: each call with its outcome, plus
the success and error log lines. The loops of the source are methods with loop invariants.
They are proved equal to specification functions (`VersionLoop`, `TryBlock`,
`Entry`, `Loop`, `ObjectListing`, `BucketListing`). Lemmas then state what those functions
guarantee.

The Python text operations the tools depend on are modelled as the language defines them:
- `str.split` with a `maxsplit`;
- `str.strip`, using the code points `str.isspace` accepts;
- `readlines`;
- text-mode universal newlines on read;
- `'\n'.join`.

What the two tools do and do not do:
- The deletion tool does no batching, no pagination of version listings and has no dry-run
  mode. It never rewrites the worklist with only the failed entries. After a completed run it
  always writes an empty worklist, failed entries included. After a `SystemExit` or a
  `ValueError` it leaves the worklist untouched.
- The path rule is `file_path.split('/', 2)[-1].split('/', 1)`. It always drops everything up
  to the second `/`, whatever that is. A line with fewer than three `/`, such as `bucket` or
  `bucket/key`, does not fall back to a whole-bucket target. It raises `ValueError` outside
  the `try`, which ends the run. A bucket line `s3://name/` parses to the bucket and the empty
  key.
- Delete markers are never read or deleted. A listed version whose key differs from the
  target ends the process; it is not filtered out.
- A listing is not always a faithful worklist. A key that ends in whitespace loses it when the
  line is stripped on reading, so the entry names a different key. A key holding a line break
  splits into several entries. A bucket argument holding three `/` makes the header line parse
  as a target, so the header no longer stops the run.
- In `s3/list.py`, `main` passes `sys.argv[1]` whenever there is one. `list_s3_objects` tests
  `if bucket_name:`, so an empty-string argument lists the buckets even though the header says
  it is listing objects in a bucket.

## Model

| member | source | states |
|---|---|---|
| PyText.SplitFacts | s3/delete.py:17 | `str.split(sep, maxsplit)` yields `1 + min(maxsplit, count of sep)` parts, joining them with `sep` gives the input back, no part but the last holds `sep`, and every separator not split on is in the last part |
| PyText.Strip | s3/delete.py:45 | `str.strip` gives a contiguous slice of its input that neither starts nor ends with whitespace; everything cut off on either side is whitespace; an already stripped string is unchanged |
| PyText.IndexOf | s3/delete.py:17 | the first occurrence of a character actually in the string: it is there, and nothing before it is that character |
| Worklist.TranslateNewlines | s3/delete.py:43 | reading in text mode leaves no `\r`, and text without `\r` is unchanged |
| Worklist.TranslateCrLf | s3/delete.py:43 | the first `\r\n` pair, after text free of `\r`, reads as a single `\n`; the text before it is kept and the rest is read on from the character after the pair |
| Worklist.TranslateCr | s3/delete.py:43 | the first `\r`, after text free of `\r` and not followed by `\n`, reads as `\n`; the text before it is kept and the rest is read on from the next character |
| Worklist.ReadLines | s3/delete.py:44 | `readlines` cuts the text into non-empty lines that concatenate back to it; every line but the last ends in `\n` and no line holds another `\n` |
| Worklist.ReadFileList | s3/delete.py:39-45 | every entry read from the worklist is stripped and holds no `\n` or `\r` |
| Worklist.WriteFileList | s3/delete.py:47-52 | definition of the text `write_file_list` writes; its properties are proved by `ReadAfterWrite`, `ReadAfterWriteDropsEmptyLast` and `EmptyRewrite` |
| Worklist.ReadAfterWrite | s3/delete.py:39-52 | writing entries and reading them back gives the same entries, when each is stripped with no line break and the last is not empty |
| Worklist.ReadLinesOfJoin | s3/delete.py:44-52 | for a written worklist whose entries hold no `\n` and whose last entry is not empty, `readlines` returns the entries, each but the last followed by its `\n` |
| Worklist.ReadAfterWriteDropsEmptyLast | s3/delete.py:43-52 | an empty last entry is lost: writing `[x, ""]` reads back as `[x]` |
| Worklist.EmptyRewrite | s3/delete.py:47-52 | the rewrite `main` makes after a completed run is the empty file, which reads back as no entries |
| TargetPath.ParseTarget | s3/delete.py:17 | the parse succeeds exactly when the line holds at least three `/`; the bucket never holds a `/` |
| TargetPath.ParseComposed | s3/delete.py:17 | `p0/p1/bucket/key` with no `/` in the first three parts parses to `bucket` and `key`, keeping slashes inside the key |
| TargetPath.ParseDecomposes | s3/delete.py:17 | every parsed line is a head with exactly two `/`, ending in one, followed by `bucket/key`; with ParseComposed this makes the parse the unique such split |
| TargetPath.ParseRejects | s3/delete.py:17 | `bucket`, `s3://bucket`, `bucket/key` and `bucket/a/b` all fail to parse |
| TargetPath.ParseSchemeLine | s3/delete.py:17 | `s3://bucket/key` parses to `bucket` and `key` |
| S3Delete.Versions | s3/delete.py:24 | definition of `response.get('Versions', [])`: the listed versions, or none when the field is missing; `NoVersionsFieldDeletesNothing` is proved about it |
| S3Delete.VersionLoop | s3/delete.py:24-30 | definition of the versions loop; its properties are proved by `VersionLoopShape` and `VersionLoopHealthy` |
| S3Delete.AfterListing | s3/delete.py:24-34 | definition of the `try` body after the listing; its properties are proved by `AfterListingReadsVersionsOnly` and `NoVersionsFieldDeletesNothing` |
| S3Delete.TryBlock | s3/delete.py:18-37 | definition of the `try` statement; its properties are proved by `TryBlockShape` and `TryNeverExits` |
| S3Delete.Entry | s3/delete.py:16-37 | definition of one iteration of the outer loop; its properties are proved by `EntryShape`, `EntryStops`, `EntryLogs` and `HealthyEntryDeletes` |
| S3Delete.Loop | s3/delete.py:16-37 | definition of the outer loop over the paths; its properties are proved by `RunInOrder`, `RunEndsAtAbort`, `RunAnswers` and `RunFinishes` |
| S3Delete.DeleteVersions | s3/delete.py:24-30 | the inner loop's trace and how it ends equal the specification `VersionLoop` |
| S3Delete.TryDelete | s3/delete.py:18-35 | the `try` body's trace and how it ends equal the specification `TryBlock` |
| S3Delete.DeleteFilesFromS3 | s3/delete.py:11-37 | the outer loop's trace and stop reason equal the specification `Loop` over the paths |
| S3Delete.DeleteMain | s3/delete.py:54-62 | `main` processes the entries read from the worklist; the worklist becomes empty exactly when the run was not ended by `SystemExit` or `ValueError`, and otherwise keeps its text |
| DeletionProperties.VersionLoopShape | s3/delete.py:24-30 | the versions loop deletes the listed versions in order while their key matches; it stops at the first mismatch (exit) or at the first delete that raises |
| DeletionProperties.TryBlockShape | s3/delete.py:18-35 | the `try` body extends the history; it either makes the full call sequence and logs success, or stops at the first raising call, or exits at a mismatching key, with no call after that point |
| DeletionProperties.AfterListingReadsVersionsOnly | s3/delete.py:21-34 | the `try` body depends on the listing only through its `Versions` field: two listings with the same versions give the same trace and flow |
| DeletionProperties.NoVersionsFieldDeletesNothing | s3/delete.py:24-34 | a listing without a `Versions` field makes no versioned delete: only the plain delete follows, then the success line, or nothing after it when it raises |
| DeletionProperties.EntryShape | s3/delete.py:16-37 | one path ends the run with `ValueError` exactly when it does not parse, with no call made; otherwise it logs success, or fails at one call and logs one error line, or exits on a foreign key |
| DeletionProperties.EntryStops | s3/delete.py:17 | an entry stops with `ValueError` if and only if its path does not parse (the first conjunct of `EntryShape`, stated alone for the run-level proofs) |
| DeletionProperties.EntryLogs | s3/delete.py:34-37 | an entry adds its path to the log exactly when the run goes on after it |
| DeletionProperties.RunInOrder | s3/delete.py:16-37 | the paths logged are a prefix of the worklist, in order, one line per path; the run completes exactly when every path is logged; every logged path parsed; the first unlogged path is unparseable after `ValueError` and parsed after `SystemExit` |
| DeletionProperties.RunEndsAtAbort | s3/delete.py:16-28 | a run that does not complete ends in the entry of some path `i`, after the paths before `i` were logged |
| DeletionProperties.RunAnswers | s3/delete.py:19-32 | every call recorded for a run carries the answer the service gives for the history before it |
| DeletionProperties.TryNeverExits | s3/delete.py:21-28 | when the service lists only versions of exactly the requested key, the `try` body never reaches `sys.exit()` |
| DeletionProperties.RunFinishes | s3/delete.py:16-37 | when every path parses and the service lists only the exact key, the run completes whatever the calls raise |
| DeletionProperties.VersionLoopHealthy | s3/delete.py:24-30 | on a service that never raises, the versions loop deletes every listed version of the key, in order |
| DeletionProperties.HealthyEntryDeletes | s3/delete.py:18-34 | on a service that never raises and lists only the key, an entry makes `head_object`, the listing, one versioned delete per version, the plain delete, then logs success |
| S3List.ObjectLine | s3/list.py:12 | an object line is `s3://`, then the bucket, then `/`, then the key |
| S3List.BucketLine | s3/list.py:17 | a bucket line is the object line of that bucket with the empty key |
| S3List.Truthy | s3/list.py:7 | definition of `if bucket_name:`: a name given and not empty; `ListS3Objects` is proved against it |
| S3List.Header | s3/list.py:20-25 | definition of the header line `main` prints; `HeaderHasNoSlash`, `HeaderAbortsDeletion` and `SlashedArgumentHeaderParses` are proved about it |
| S3List.ObjectListing | s3/list.py:10-12 | definition of object mode's lines; its properties are proved by `ObjectListingPages`, `ObjectListingPage`, `EmptyPageSilent` and `ObjectListingLines` |
| S3List.BucketListing | s3/list.py:16-17 | definition of bucket mode's lines, one `BucketLine` per bucket; `ListS3Objects` is proved against it |
| S3List.Printed | s3/list.py:12 | definition of the text the `print` calls write, each line followed by `\n`; `ReadLinesOfPrinted` and `ReadPrinted` are proved about it |
| S3List.ObjectListingPages | s3/list.py:10-12 | the lines for earlier pages come before those for later pages |
| S3List.ObjectListingPage | s3/list.py:11-12 | a page prints one line per entry of its `Contents`, in order |
| S3List.EmptyPageSilent | s3/list.py:11 | a page without `Contents` prints nothing |
| S3List.ObjectListingLines | s3/list.py:10-12 | object mode prints exactly one line per listed object, and line `i` names object `i` |
| S3List.ListS3Objects | s3/list.py:4-17 | a non-empty bucket name prints the object listing of its pages; `None` or the empty name prints the bucket listing |
| S3List.ListMain | s3/list.py:19-26 | the output is the header, then the object listing for a non-empty argument, else the bucket listing |
| ListToDelete.ObjectLineParses | s3/list.py:12 | a printed object line, used as a worklist path, parses back to its bucket and key |
| ListToDelete.BucketLineParses | s3/list.py:17 | a printed bucket line parses to the bucket with the empty key |
| ListToDelete.ObjectLineStorable | s3/list.py:12 | an object line whose key has no line break and no trailing whitespace is a valid worklist entry |
| ListToDelete.ReadLinesOfPrinted | s3/list.py:12 | `readlines` on the text the `print` calls write gives back each printed line with its `\n` |
| ListToDelete.ReadPrinted | s3/list.py:12 | printed lines read back as a worklist give one entry per line, in order: the line with its `\n`, stripped |
| ListToDelete.ListingAsWorklist | s3/list.py:10-12 | when the bucket name holds no `/`, `\n` or `\r` and no key holds a line break or ends in whitespace: object mode's lines as `print` writes them, read back as a worklist, come back unchanged, one per object, and entry `i` parses to object `i` of the bucket |
| ListToDelete.PrintedOutputAborts | s3/list.py:19-26 | when the bucket argument, if any, holds no `/`, `\n` or `\r` and no listed line holds a line break: `main`'s whole printed output, in either mode, read back as a worklist, ends a deletion run at once with `ValueError`, before any call |
| ListToDelete.HeaderHasNoSlash | s3/list.py:20-25 | the header line holds no `/` when the bucket argument holds none |
| ListToDelete.HeaderAbortsDeletion | s3/list.py:20-25 | when the bucket argument, if any, holds no `/`: a saved listing that keeps its header line ends a deletion run at once with `ValueError`, before any call |
| ListToDelete.TrailingSpaceKeyLost | s3/list.py:12 | the key `k ` is printed as `s3://b/k `, but read back as a worklist it becomes `s3://b/k`, which names the key `k` |
| ListToDelete.SlashedArgumentHeaderParses | s3/list.py:22 | for the bucket argument `x/y/z/w` the stripped header line parses, to bucket `z` and key `w` |

## Left out

- Client construction, credentials and region (`boto3.client('s3')`): the service is the `Storage` oracle for deletion and the page and bucket sequences for listing.
- What S3 does with a call: the oracle may answer arbitrarily, so nothing about the real effect of a delete on a bucket is claimed.
- The console output of `s3/delete.py` (lines 25 and 33): it has no effect on the run.
- The logging configuration, the log file names and the message text, including the exception text `{e}`: each log line is an event that names its path.
- `KeyError` when a listed version lacks `Key` or `VersionId`: every modelled version has both.
- Exceptions from `print` or from logging itself.
- File system access: the worklist's file name is fixed in the source, and its contents are a string passed in and returned. Failures to open or read it are not modelled.
- Text decoding: the worklist is a `seq<char>`. The newline translation Python makes when writing is not modelled; only `\n` is written, as on POSIX.
- The process exit status after `SystemExit` or `ValueError`: only how the run stops is recorded.
- Errors from `list_objects_v2`, the paginator or `list_buckets` in `s3/list.py`: they are uncaught and end the program. The model takes the pages and the buckets as given. A missing `Buckets` field, or an object without `Key`, is not modelled.
- The paginator's continuation mechanics: the pages are an input sequence produced by a function of the bucket name.
