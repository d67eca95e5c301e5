/** `s3/list.py`: print one `s3://bucket/key` line per object on every page of a bucket's
    listing, or one `s3://name/` line per bucket, after a header line chosen by `main`.
    The console is modelled as the sequence of lines printed; the paginator and the bucket
    list are inputs. */
module S3List {
  import opened Wrappers

  /** An entry of a page's `Contents`; only its `Key` is read. */
  datatype ObjectSummary = ObjectSummary(key: string)

  /** One page of `list_objects_v2`; `Contents` is absent on an empty page. */
  datatype Page = Page(contents: Option<seq<ObjectSummary>>)

  /** An entry of `list_buckets`' `Buckets`; only its `Name` is read. */
  datatype BucketSummary = BucketSummary(name: string)

  /** The line printed for an object of bucket `bucket`. */
  function ObjectLine(bucket: string, key: string): (line: string)
    ensures |line| == 6 + |bucket| + |key|
    ensures line[..5] == "s3://" && line[5..5 + |bucket|] == bucket
    ensures line[5 + |bucket|] == '/' && line[6 + |bucket|..] == key
  {
    "s3://" + bucket + "/" + key
  }

  /** The line printed for a bucket. */
  function BucketLine(name: string): (line: string)
    ensures line == ObjectLine(name, "")
  {
    "s3://" + name + "/"
  }

  /** `page.get('Contents', [])`. */
  function Contents(page: Page): seq<ObjectSummary> {
    page.contents.GetOr([])
  }

  /** The objects of all pages, in page order and then in order within a page. */
  function Objects(pages: seq<Page>): seq<ObjectSummary>
    decreases |pages|
  {
    if pages == [] then [] else Contents(pages[0]) + Objects(pages[1..])
  }

  /** The lines printed for the objects `objs` of bucket `bucket`. */
  function KeyLines(bucket: string, objs: seq<ObjectSummary>): seq<string> {
    seq(|objs|, i requires 0 <= i < |objs| => ObjectLine(bucket, objs[i].key))
  }

  /** Everything object mode prints for the pages `pages`. */
  function ObjectListing(bucket: string, pages: seq<Page>): seq<string> {
    KeyLines(bucket, Objects(pages))
  }

  /** Everything bucket mode prints. */
  function BucketListing(buckets: seq<BucketSummary>): seq<string> {
    seq(|buckets|, i requires 0 <= i < |buckets| => BucketLine(buckets[i].name))
  }

  /** `if bucket_name:` — the default `None` and the empty string both select bucket mode. */
  predicate Truthy(bucketName: Option<string>) {
    bucketName.Some? && bucketName.value != ""
  }

  /** The header `main` prints before the listing. */
  function Header(argv: seq<string>): string {
    if |argv| > 1 then "Listing objects in bucket: " + argv[1] else "Listing all buckets:"
  }

  /** The text the `print` calls write for `lines`: each line followed by `\n`. */
  function Printed(lines: seq<string>): string
    decreases |lines|
  {
    if lines == [] then [] else lines[0] + "\n" + Printed(lines[1..])
  }

  lemma {:induction false} ObjectsAppend(p: seq<Page>, q: seq<Page>)
    ensures Objects(p + q) == Objects(p) + Objects(q)
    decreases |p|
  {
    if p == [] {
      assert p + q == q;
    } else {
      assert (p + q)[1..] == p[1..] + q;
      ObjectsAppend(p[1..], q);
    }
  }

  lemma KeyLinesAppend(bucket: string, a: seq<ObjectSummary>, b: seq<ObjectSummary>)
    ensures KeyLines(bucket, a + b) == KeyLines(bucket, a) + KeyLines(bucket, b)
  {
  }

  /** Object mode prints the lines of earlier pages before those of later pages. */
  lemma ObjectListingPages(bucket: string, p: seq<Page>, q: seq<Page>)
    ensures ObjectListing(bucket, p + q) == ObjectListing(bucket, p) + ObjectListing(bucket, q)
  {
    ObjectsAppend(p, q);
    KeyLinesAppend(bucket, Objects(p), Objects(q));
  }

  /** A single page prints one line per entry of its `Contents`, in order. */
  lemma ObjectListingPage(bucket: string, page: Page)
    ensures ObjectListing(bucket, [page]) == KeyLines(bucket, Contents(page))
  {
    assert [page][1..] == [];
    assert Objects([page]) == Contents(page) + [];
  }

  /** A page without `Contents` prints nothing. */
  lemma EmptyPageSilent(bucket: string, p: seq<Page>, q: seq<Page>)
    ensures ObjectListing(bucket, p + [Page(None)] + q) == ObjectListing(bucket, p + q)
  {
    ObjectListingPages(bucket, p + [Page(None)], q);
    ObjectListingPages(bucket, p, [Page(None)]);
    ObjectListingPage(bucket, Page(None));
    ObjectListingPages(bucket, p, q);
  }

  /** Object mode prints exactly one line per listed object, and the `i`-th line names the
      `i`-th object across all pages. */
  lemma ObjectListingLines(bucket: string, pages: seq<Page>)
    ensures |ObjectListing(bucket, pages)| == |Objects(pages)|
    ensures forall i :: 0 <= i < |Objects(pages)| ==>
      ObjectListing(bucket, pages)[i] == ObjectLine(bucket, Objects(pages)[i].key)
  {
  }

  /** `list_s3_objects`: nested loops over the pages and their `Contents`, or one loop over
      the buckets, each printing one line per item. */
  method ListS3Objects(bucketName: Option<string>, paginate: string -> seq<Page>, buckets: seq<BucketSummary>)
    returns (lines: seq<string>)
    ensures Truthy(bucketName) ==> lines == ObjectListing(bucketName.value, paginate(bucketName.value))
    ensures !Truthy(bucketName) ==> lines == BucketListing(buckets)
  {
    lines := [];
    if Truthy(bucketName) {
      var name := bucketName.value;
      var pages := paginate(name);
      for i := 0 to |pages|
        invariant lines == ObjectListing(name, pages[..i])
      {
        var objs := Contents(pages[i]);
        for j := 0 to |objs|
          invariant lines == ObjectListing(name, pages[..i]) + KeyLines(name, objs[..j])
        {
          assert objs[..j + 1] == objs[..j] + [objs[j]];
          KeyLinesAppend(name, objs[..j], [objs[j]]);
          lines := lines + [ObjectLine(name, objs[j].key)];
        }
        assert objs[..|objs|] == objs;
        assert pages[..i + 1] == pages[..i] + [pages[i]];
        ObjectListingPages(name, pages[..i], [pages[i]]);
        ObjectListingPage(name, pages[i]);
      }
      assert pages[..|pages|] == pages;
    } else {
      for i := 0 to |buckets|
        invariant lines == BucketListing(buckets[..i])
      {
        lines := lines + [BucketLine(buckets[i].name)];
      }
      assert buckets[..|buckets|] == buckets;
    }
  }

  /** `main`: the header, then the listing for `sys.argv[1]` when an argument is given and
      the bucket listing otherwise. */
  method ListMain(argv: seq<string>, paginate: string -> seq<Page>, buckets: seq<BucketSummary>)
    returns (output: seq<string>)
    ensures |output| >= 1 && output[0] == Header(argv)
    ensures output[1..] == if |argv| > 1 && argv[1] != "" then ObjectListing(argv[1], paginate(argv[1]))
                           else BucketListing(buckets)
  {
    var lines: seq<string>;
    if |argv| > 1 {
      var bucketName := argv[1];
      output := ["Listing objects in bucket: " + bucketName];
      lines := ListS3Objects(Some(bucketName), paginate, buckets);
    } else {
      output := ["Listing all buckets:"];
      lines := ListS3Objects(None, paginate, buckets);
    }
    output := output + lines;
  }
}
