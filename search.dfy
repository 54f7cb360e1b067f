/** src/search.rs: the sequential scan. Every bucket directory under the Scoop
    root is listed, every manifest in it is read and decoded, and the apps whose
    name or description contains the query (both lower-cased) are collected in
    listing order. The first failure of any step ends the scan with an error. */
module Search {
  import opened Strings
  import opened Json
  import opened Manifest
  import opened Tree

  /** `struct AppInfo` of src/search.rs. */
  datatype AppInfo = AppInfo(
    name: string,
    bucket: string,
    version: string,
    description: string,
    homepage: string,
    license: string,
    notes: Option<string>)

  /** The `context` each failing step attaches. */
  datatype SearchError =
    | BucketsDirUnreadable              // "Failed to read scoop buckets dir"
    | BadDirEntry                       // an `ele?` on a directory entry
    | BucketDirUnreadable(bucket: string) // "Failed to read bucket `..`"
    | ReadFailed(app: string)           // "Failed to read manifest `..`"
    | DeserializeFailed(app: string)    // "Failed to deserialize `..`"

  datatype Result<T> = Ok(value: T) | Err(error: SearchError)

  /** `impl From<(String, String, AppManifest)> for AppInfo`. */
  function FromManifest(name: string, bucket: string, m: AppManifest): (r: AppInfo)
    ensures r.name == name && r.bucket == bucket
    ensures r.version == m.version && r.description == m.description && r.homepage == m.homepage
    ensures r.license == LicenseText(m.license)
    ensures r.notes.Some? <==> m.notes.Some?
    ensures m.notes.Some? ==> r.notes.value == NotesText(m.notes.value)
  {
    AppInfo(name, bucket, m.version, m.description, m.homepage, LicenseText(m.license),
            if m.notes.Some? then Some(NotesText(m.notes.value)) else None)
  }

  // ---------------------------------------------------------------------
  // File stems

  /** The index of the last '.' in `s`, if any. */
  function LastDot(s: string): (r: Option<nat>)
    ensures r.Some? ==> r.value < |s| && s[r.value] == '.'
    ensures r.Some? ==> forall m :: r.value < m < |s| ==> s[m] != '.'
    ensures r.None? ==> forall m :: 0 <= m < |s| ==> s[m] != '.'
  {
    if |s| == 0 then None
    else if s[|s| - 1] == '.' then Some(|s| - 1)
    else LastDot(s[..|s| - 1])
  }

  /** `Path::file_stem` of a directory entry's name: the name up to its last
      '.', except that a name with no '.' or whose only dots lead it (".git")
      is its own stem, and ".." has no stem. */
  function FileStem(name: string): (r: Option<string>)
    ensures r.Some? <==> name != ".."
    ensures r.Some? ==> |r.value| <= |name| && r.value == name[..|r.value|]
    ensures r.Some? && |r.value| < |name| ==>
      && |r.value| > 0 && name[|r.value|] == '.'
      && forall m :: |r.value| < m < |name| ==> name[m] != '.'
    ensures r.Some? && |r.value| == |name| ==>
      forall m :: 0 < m < |name| ==> name[m] != '.'
  {
    if name == ".." then None
    else match LastDot(name)
      case None => Some(name)
      case Some(k) => if k == 0 then Some(name) else Some(name[..k])
  }

  /** A "<stem>.json" file, the usual manifest name, has stem `<stem>`. */
  lemma JsonFileStem(stem: string)
    requires stem != ""
    ensures FileStem(stem + ".json") == Some(stem)
  {
    var name := stem + ".json";
    assert name[|stem|] == '.';
    assert forall m :: |stem| < m < |name| ==> name[m] == ".json"[m - |stem|];
    var k := LastDot(name);
    assert k.Some?;
    assert k.value == |stem|;
    assert name[..|stem|] == stem;
  }

  // ---------------------------------------------------------------------
  // The scan, as a specification

  /** The filter of lines 36-41: either the name or the description contains the
      query, all three lower-cased. */
  predicate Matches(name: string, description: string, query: string) {
    Contains(Lower(name), Lower(query)) || Contains(Lower(description), Lower(query))
  }

  /** One fallible step of a loop contributes a run of results. */
  type Step<-T> = T -> Result<seq<AppInfo>>

  /** The results of running `step` on every element in order, stopping at the
      first error, which is then the result. */
  function Collect<T>(step: Step<T>, xs: seq<T>): Result<seq<AppInfo>> {
    if |xs| == 0 then Ok([])
    else match Collect(step, xs[..|xs| - 1])
      case Err(e) => Err(e)
      case Ok(acc) =>
        match step(xs[|xs| - 1])
        case Err(e) => Err(e)
        case Ok(found) => Ok(acc + found)
  }

  /** The body of the inner loop for one directory entry of bucket `bucket`. */
  function ExamineEntry(bucket: string, query: string, e: DirEntry<ManifestFile>): Result<seq<AppInfo>> {
    match e
    case BadEntry => Err(BadDirEntry)
    case Entry(file) =>
      match FileStem(file.name)
      case None => Ok([])
      case Some(appname) =>
        match file.contents
        case Unreadable => Err(ReadFailed(appname))
        case Unparsable => Err(DeserializeFailed(appname))
        case Parsed(json) =>
          match DecodeManifest(json)
          case None => Err(DeserializeFailed(appname))
          case Some(m) =>
            if Matches(appname, m.description, query)
            then Ok([FromManifest(appname, bucket, m)])
            else Ok([])
  }

  function FileStep(bucket: string, query: string): Step<DirEntry<ManifestFile>> {
    e => ExamineEntry(bucket, query, e)
  }

  /** The body of the outer loop for one entry of the buckets directory. */
  function ExamineBucket(query: string, b: DirEntry<Bucket>): Result<seq<AppInfo>> {
    match b
    case BadEntry => Err(BadDirEntry)
    case Entry(bucket) =>
      match bucket.manifests
      case Unlistable => Err(BucketDirUnreadable(bucket.name))
      case Listed(files) => Collect(FileStep(bucket.name, query), files)
  }

  function BucketStep(query: string): Step<DirEntry<Bucket>> {
    b => ExamineBucket(query, b)
  }

  /** What `search` returns for a Scoop root. */
  function SearchSpec(root: Root, query: string): Result<seq<AppInfo>> {
    match root
    case Unlistable => Err(BucketsDirUnreadable)
    case Listed(buckets) => Collect(BucketStep(query), buckets)
  }

  // ---------------------------------------------------------------------
  // The scan, as the two nested loops of `search`

  method Search(root: Root, query: string) returns (r: Result<seq<AppInfo>>)
    ensures r == SearchSpec(root, query)
  {
    if root.Unlistable? {
      return Err(BucketsDirUnreadable);
    }
    var buckets := root.entries;
    var apps: seq<AppInfo> := [];
    var k := 0;
    while k < |buckets|
      invariant 0 <= k <= |buckets|
      invariant Collect(BucketStep(query), buckets[..k]) == Ok(apps)
    {
      if buckets[k].BadEntry? {
        CollectStops(BucketStep(query), buckets, k);
        return Err(BadDirEntry);
      }
      var bucket := buckets[k].value;
      var bucketName := bucket.name;
      if bucket.manifests.Unlistable? {
        CollectStops(BucketStep(query), buckets, k);
        return Err(BucketDirUnreadable(bucketName));
      }
      var files := bucket.manifests.entries;
      ghost var before := apps;
      var j := 0;
      while j < |files|
        invariant 0 <= j <= |files|
        invariant Collect(FileStep(bucketName, query), files[..j]).Ok?
        invariant apps == before + Collect(FileStep(bucketName, query), files[..j]).value
      {
        var step := ExamineFile(bucketName, query, files[j]);
        if step.Err? {
          CollectStops(FileStep(bucketName, query), files, j);
          CollectStops(BucketStep(query), buckets, k);
          return Err(step.error);
        }
        CollectExtends(FileStep(bucketName, query), files, j);
        apps := apps + step.value;
        j := j + 1;
      }
      assert files[..j] == files;
      CollectExtends(BucketStep(query), buckets, k);
      k := k + 1;
    }
    assert buckets[..k] == buckets;
    return Ok(apps);
  }

  /** The inner loop's body for one entry: `ele?`, `file_stem`, `fs::read`,
      `serde_json::from_slice` and the filter, each failure returned at once.
      The method keeps the statement order and early returns of the loop body;
      `ExamineEntry` is the same step as a value, which the folds and the
      lemmas about the whole scan need, since they cannot call a method. */
  method ExamineFile(bucket: string, query: string, e: DirEntry<ManifestFile>) returns (r: Result<seq<AppInfo>>)
    ensures r == FileStep(bucket, query)(e)
  {
    if e.BadEntry? {
      return Err(BadDirEntry);
    }
    var file := e.value;
    var stem := FileStem(file.name);
    if stem.None? {
      return Ok([]);
    }
    var appname := stem.value;
    if file.contents.Unreadable? {
      return Err(ReadFailed(appname));
    }
    if file.contents.Unparsable? {
      return Err(DeserializeFailed(appname));
    }
    var decoded := DecodeManifest(file.contents.value);
    if decoded.None? {
      return Err(DeserializeFailed(appname));
    }
    var manifest := decoded.value;
    if Matches(appname, manifest.description, query) {
      return Ok([FromManifest(appname, bucket, manifest)]);
    }
    return Ok([]);
  }

  /** A step that fails after a clean prefix is the result of the whole loop. */
  lemma CollectStops<T>(step: Step<T>, xs: seq<T>, i: nat)
    requires i < |xs|
    requires Collect(step, xs[..i]).Ok? && step(xs[i]).Err?
    ensures Collect(step, xs) == step(xs[i])
  {
    assert xs[..i + 1][..i] == xs[..i];
    CollectSticky(step, xs, i + 1);
  }

  lemma {:induction false} CollectSticky<T>(step: Step<T>, xs: seq<T>, n: nat)
    requires n <= |xs| && Collect(step, xs[..n]).Err?
    ensures Collect(step, xs) == Collect(step, xs[..n])
    decreases |xs| - n
  {
    if n < |xs| {
      assert xs[..n + 1][..n] == xs[..n];
      CollectSticky(step, xs, n + 1);
    } else {
      assert xs[..n] == xs;
    }
  }

  /** A step that succeeds after a clean prefix appends its results. */
  lemma CollectExtends<T>(step: Step<T>, xs: seq<T>, i: nat)
    requires i < |xs|
    requires Collect(step, xs[..i]).Ok? && step(xs[i]).Ok?
    ensures Collect(step, xs[..i + 1]) == Ok(Collect(step, xs[..i]).value + step(xs[i]).value)
  {
    assert xs[..i + 1][..i] == xs[..i];
  }

  /** The loop succeeds exactly when every step does. */
  lemma {:induction false} CollectOk<T>(step: Step<T>, xs: seq<T>)
    ensures Collect(step, xs).Ok? <==> forall i :: 0 <= i < |xs| ==> step(xs[i]).Ok?
    decreases |xs|
  {
    if |xs| > 0 {
      var init := xs[..|xs| - 1];
      CollectOk(step, init);
      assert forall i :: 0 <= i < |init| ==> init[i] == xs[i];
    }
  }

  /** A failing run reports the failure of its first failing step. */
  lemma {:induction false} CollectFirstError<T>(step: Step<T>, xs: seq<T>, i: nat)
    requires i < |xs| && step(xs[i]).Err?
    requires forall k :: 0 <= k < i ==> step(xs[k]).Ok?
    ensures Collect(step, xs) == step(xs[i])
  {
    CollectOk(step, xs[..i]);
    assert forall k :: 0 <= k < i ==> xs[..i][k] == xs[k];
    CollectStops(step, xs, i);
  }

  // ---------------------------------------------------------------------
  // An independent description of the successful scan

  /** A manifest that was found, read and decoded. */
  datatype Found = Found(bucket: string, name: string, manifest: AppManifest)

  /** The manifest a directory entry yields, if it has a stem and decodes. */
  function FoundIn(bucket: string, e: DirEntry<ManifestFile>): seq<Found> {
    if e.Entry? && FileStem(e.value.name).Some? && e.value.contents.Parsed?
       && DecodeManifest(e.value.contents.value).Some?
    then [Found(bucket, FileStem(e.value.name).value, DecodeManifest(e.value.contents.value).value)]
    else []
  }

  function FoundFn(bucket: string): DirEntry<ManifestFile> -> seq<Found> {
    e => FoundIn(bucket, e)
  }

  function BucketFound(b: DirEntry<Bucket>): seq<Found> {
    if b.Entry? && b.value.manifests.Listed?
    then ConcatMap(FoundFn(b.value.name), b.value.manifests.entries)
    else []
  }

  function BucketFoundFn(): DirEntry<Bucket> -> seq<Found> {
    b => BucketFound(b)
  }

  /** Every decoded manifest of the tree, bucket by bucket, in listing order. */
  function Candidates(root: Root): seq<Found> {
    if root.Listed? then ConcatMap(BucketFoundFn(), root.entries) else []
  }

  function ToAppInfo(f: Found): AppInfo {
    FromManifest(f.name, f.bucket, f.manifest)
  }

  /** The candidates that pass the filter, in order. */
  function Filter(fs: seq<Found>, query: string): seq<AppInfo> {
    if |fs| == 0 then []
    else (if Matches(fs[0].name, fs[0].manifest.description, query) then [ToAppInfo(fs[0])] else [])
         + Filter(fs[1..], query)
  }

  /** A manifest entry on which no step of the scan fails. */
  predicate HealthyFile(e: DirEntry<ManifestFile>) {
    e.Entry? &&
    (FileStem(e.value.name).Some? ==>
       e.value.contents.Parsed? && DecodeManifest(e.value.contents.value).Some?)
  }

  predicate HealthyBucket(b: DirEntry<Bucket>) {
    && b.Entry? && b.value.manifests.Listed?
    && forall i :: 0 <= i < |b.value.manifests.entries| ==> HealthyFile(b.value.manifests.entries[i])
  }

  /** Every directory lists, every entry is readable, every manifest decodes. */
  predicate Healthy(root: Root) {
    root.Listed? && forall i :: 0 <= i < |root.entries| ==> HealthyBucket(root.entries[i])
  }

  // ---------------------------------------------------------------------
  // Properties

  lemma {:induction false} FilterAppend(a: seq<Found>, b: seq<Found>, query: string)
    ensures Filter(a + b, query) == Filter(a, query) + Filter(b, query)
    decreases |a|
  {
    if |a| == 0 {
      assert a + b == b;
    } else {
      assert (a + b)[1..] == a[1..] + b;
      FilterAppend(a[1..], b, query);
    }
  }

  lemma FileStepHealthy(bucket: string, query: string, e: DirEntry<ManifestFile>)
    ensures FileStep(bucket, query)(e).Ok? <==> HealthyFile(e)
    ensures HealthyFile(e) ==>
      FileStep(bucket, query)(e).value == Filter(FoundIn(bucket, e), query)
  {
    if HealthyFile(e) && FileStem(e.value.name).Some? {
      var f := FoundIn(bucket, e);
      assert f[1..] == [];
    }
  }

  lemma {:induction false} FilesHealthy(bucket: string, query: string, es: seq<DirEntry<ManifestFile>>)
    requires forall i :: 0 <= i < |es| ==> HealthyFile(es[i])
    ensures Collect(FileStep(bucket, query), es) == Ok(Filter(ConcatMap(FoundFn(bucket), es), query))
    decreases |es|
  {
    if |es| > 0 {
      var init := es[..|es| - 1];
      var last := es[|es| - 1];
      assert forall i :: 0 <= i < |init| ==> init[i] == es[i];
      FilesHealthy(bucket, query, init);
      FileStepHealthy(bucket, query, last);
      FilterAppend(ConcatMap(FoundFn(bucket), init), FoundIn(bucket, last), query);
    }
  }

  lemma BucketStepHealthy(query: string, b: DirEntry<Bucket>)
    ensures BucketStep(query)(b).Ok? <==> HealthyBucket(b)
    ensures HealthyBucket(b) ==> BucketStep(query)(b).value == Filter(BucketFound(b), query)
  {
    if b.Entry? && b.value.manifests.Listed? {
      var es := b.value.manifests.entries;
      var step := FileStep(b.value.name, query);
      CollectOk(step, es);
      forall i | 0 <= i < |es|
        ensures step(es[i]).Ok? <==> HealthyFile(es[i])
      {
        FileStepHealthy(b.value.name, query, es[i]);
      }
      if HealthyBucket(b) {
        FilesHealthy(b.value.name, query, es);
      }
    }
  }

  lemma {:induction false} BucketsHealthy(query: string, bs: seq<DirEntry<Bucket>>)
    ensures Collect(BucketStep(query), bs).Ok? <==> forall i :: 0 <= i < |bs| ==> HealthyBucket(bs[i])
    ensures Collect(BucketStep(query), bs).Ok? ==>
      Collect(BucketStep(query), bs).value == Filter(ConcatMap(BucketFoundFn(), bs), query)
    decreases |bs|
  {
    if |bs| > 0 {
      var init := bs[..|bs| - 1];
      var last := bs[|bs| - 1];
      assert forall i :: 0 <= i < |init| ==> init[i] == bs[i];
      BucketsHealthy(query, init);
      BucketStepHealthy(query, last);
      FilterAppend(ConcatMap(BucketFoundFn(), init), BucketFound(last), query);
    }
  }

  /** The scan succeeds exactly on a healthy tree, and then returns the
      candidates that pass the filter, in bucket-then-file listing order. */
  lemma SearchCorrect(root: Root, query: string)
    ensures SearchSpec(root, query).Ok? <==> Healthy(root)
    ensures Healthy(root) ==> SearchSpec(root, query) == Ok(Filter(Candidates(root), query))
  {
    if root.Listed? {
      BucketsHealthy(query, root.entries);
    }
  }

  /** Two loops whose steps fail on the same elements, with the same errors,
      fail alike. */
  lemma {:induction false} CollectSameErrors<T>(s1: Step<T>, s2: Step<T>, xs: seq<T>)
    requires forall i :: 0 <= i < |xs| ==> (s1(xs[i]).Err? <==> s2(xs[i]).Err?)
    requires forall i :: 0 <= i < |xs| && s1(xs[i]).Err? ==> s1(xs[i]) == s2(xs[i])
    ensures Collect(s1, xs).Err? <==> Collect(s2, xs).Err?
    ensures Collect(s1, xs).Err? ==> Collect(s1, xs) == Collect(s2, xs)
    decreases |xs|
  {
    if |xs| > 0 {
      var init := xs[..|xs| - 1];
      assert forall i :: 0 <= i < |init| ==> init[i] == xs[i];
      CollectSameErrors(s1, s2, init);
    }
  }

  lemma BucketErrorIgnoresQuery(q1: string, q2: string, b: DirEntry<Bucket>)
    ensures BucketStep(q1)(b).Err? <==> BucketStep(q2)(b).Err?
    ensures BucketStep(q1)(b).Err? ==> BucketStep(q1)(b) == BucketStep(q2)(b)
  {
    if b.Entry? && b.value.manifests.Listed? {
      CollectSameErrors(FileStep(b.value.name, q1), FileStep(b.value.name, q2), b.value.manifests.entries);
    }
  }

  /** Whether the scan fails, and with which error, does not depend on the
      query: every manifest is read and decoded before the filter looks at it. */
  lemma ErrorIgnoresQuery(root: Root, q1: string, q2: string)
    ensures SearchSpec(root, q1).Err? <==> SearchSpec(root, q2).Err?
    ensures SearchSpec(root, q1).Err? ==> SearchSpec(root, q1) == SearchSpec(root, q2)
  {
    if root.Listed? {
      forall i | 0 <= i < |root.entries|
        ensures BucketStep(q1)(root.entries[i]).Err? <==> BucketStep(q2)(root.entries[i]).Err?
        ensures BucketStep(q1)(root.entries[i]).Err? ==> BucketStep(q1)(root.entries[i]) == BucketStep(q2)(root.entries[i])
      {
        BucketErrorIgnoresQuery(q1, q2, root.entries[i]);
      }
      CollectSameErrors(BucketStep(q1), BucketStep(q2), root.entries);
    }
  }

  /** An app is reported exactly when some candidate matches and converts to it. */
  lemma {:induction false} FilterMember(fs: seq<Found>, query: string, a: AppInfo)
    ensures a in Filter(fs, query) <==>
      exists i :: 0 <= i < |fs| && Matches(fs[i].name, fs[i].manifest.description, query) && a == ToAppInfo(fs[i])
    decreases |fs|
  {
    if |fs| > 0 {
      FilterMember(fs[1..], query, a);
      assert forall i :: 1 <= i < |fs| ==> fs[1..][i - 1] == fs[i];
      if a in Filter(fs[1..], query) {
        var i :| 0 <= i < |fs[1..]| && Matches(fs[1..][i].name, fs[1..][i].manifest.description, query)
                 && a == ToAppInfo(fs[1..][i]);
        assert fs[i + 1] == fs[1..][i];
      }
    }
  }

  lemma {:induction false} FilterShorter(fs: seq<Found>, query: string)
    ensures |Filter(fs, query)| <= |fs|
    decreases |fs|
  {
    if |fs| > 0 {
      FilterShorter(fs[1..], query);
    }
  }

  /** The empty query matches everything. */
  lemma {:induction false} EmptyQueryKeepsAll(fs: seq<Found>)
    ensures |Filter(fs, "")| == |fs|
    ensures forall i :: 0 <= i < |fs| ==> Filter(fs, "")[i] == ToAppInfo(fs[i])
    decreases |fs|
  {
    if |fs| > 0 {
      EmptyQueryKeepsAll(fs[1..]);
      assert OccursAt(Lower(fs[0].name), Lower(""), 0);
      assert forall i :: 1 <= i < |fs| ==> fs[1..][i - 1] == fs[i];
    }
  }

  /** Every entry of a bucket's listing, in order. */
  function EntriesOf(b: DirEntry<Bucket>): seq<DirEntry<ManifestFile>> {
    if b.Entry? && b.value.manifests.Listed? then b.value.manifests.entries else []
  }

  function EntriesFn(): DirEntry<Bucket> -> seq<DirEntry<ManifestFile>> {
    b => EntriesOf(b)
  }

  /** Every manifest entry examined by the scan. */
  function Examined(root: Root): seq<DirEntry<ManifestFile>> {
    if root.Listed? then ConcatMap(EntriesFn(), root.entries) else []
  }

  /** A successful scan reports at most one app per manifest entry. */
  lemma ResultsBounded(root: Root, query: string)
    requires SearchSpec(root, query).Ok?
    ensures |SearchSpec(root, query).value| <= |Candidates(root)| <= |Examined(root)|
  {
    SearchCorrect(root, query);
    FilterShorter(Candidates(root), query);
    var bs := root.entries;
    forall i | 0 <= i < |bs|
      ensures |BucketFoundFn()(bs[i])| <= |EntriesFn()(bs[i])|
    {
      if bs[i].Entry? && bs[i].value.manifests.Listed? {
        ConcatMapShorter(FoundFn(bs[i].value.name), OneFn(), bs[i].value.manifests.entries);
        ConcatMapSingles(bs[i].value.manifests.entries);
      }
    }
    ConcatMapShorter(BucketFoundFn(), EntriesFn(), bs);
  }

  function OneFn(): DirEntry<ManifestFile> -> seq<DirEntry<ManifestFile>> {
    e => [e]
  }

  lemma {:induction false} ConcatMapSingles(es: seq<DirEntry<ManifestFile>>)
    ensures ConcatMap(OneFn(), es) == es
    decreases |es|
  {
    if |es| > 0 {
      ConcatMapSingles(es[..|es| - 1]);
      assert es[..|es| - 1] + [es[|es| - 1]] == es;
    }
  }

  /** Entry `j` of bucket entry `b` is where `f` was read. */
  predicate FoundAt(b: DirEntry<Bucket>, j: int, f: Found) {
    && b.Entry? && b.value.name == f.bucket && b.value.manifests.Listed?
    && 0 <= j < |b.value.manifests.entries|
    && b.value.manifests.entries[j].Entry?
    && FileStem(b.value.manifests.entries[j].value.name) == Some(f.name)
  }

  /** Each candidate carries the name of the bucket directory it was found in
      and the stem of the entry it was read from. */
  lemma CandidateOrigin(root: Root, f: Found)
    requires f in Candidates(root)
    ensures exists i, j :: 0 <= i < |root.entries| && FoundAt(root.entries[i], j, f)
  {
    ConcatMapMember(BucketFoundFn(), root.entries, f);
    var i :| 0 <= i < |root.entries| && f in BucketFound(root.entries[i]);
    var b := root.entries[i].value;
    ConcatMapMember(FoundFn(b.name), b.manifests.entries, f);
    var j :| 0 <= j < |b.manifests.entries| && f in FoundIn(b.name, b.manifests.entries[j]);
    FoundInOrigin(root.entries[i], j, f);
  }

  lemma FoundInOrigin(b: DirEntry<Bucket>, j: int, f: Found)
    requires b.Entry? && b.value.manifests.Listed? && 0 <= j < |b.value.manifests.entries|
    requires f in FoundIn(b.value.name, b.value.manifests.entries[j])
    ensures FoundAt(b, j, f)
  {
  }

  /** A license written as `"MIT"` or as `{"identifier": "MIT"}` makes no
      difference to the reported app. */
  lemma LicenseShapeIrrelevant(name: string, bucket: string, fields: map<string, Value>, s: string)
    ensures var m1 := DecodeManifest(Object(fields["license" := Str(s)]));
      var m2 := DecodeManifest(Object(fields["license" := Object(map["identifier" := Str(s)])]));
      && (m1.Some? <==> m2.Some?)
      && (m1.Some? ==> FromManifest(name, bucket, m1.value) == FromManifest(name, bucket, m2.value)
                       && FromManifest(name, bucket, m1.value).license == s)
  {
  }
}
