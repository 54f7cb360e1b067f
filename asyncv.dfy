/** src/asyncv.rs: the channel variant of the search. For every bucket the
    directory is listed (every entry unwrapped first), the name of each app is
    its file name less the last five characters, apps whose name contains the
    query are loaded by `more` and sent as `Info`, and a final `Close` is sent.
    Every `unwrap` that fails is a panic, which ends the scan: the outcome
    records the messages sent before it and that it happened. The parallel
    iteration over one bucket's apps is taken in listing order. */
module Asyncv {
  import opened Strings
  import opened Manifest
  import opened Tree
  import opened Render
  import opened Output
  import Search

  // ---------------------------------------------------------------------
  // Names and manifests

  /** `&appname[..appname.len() - ".json".len()]`: the last five characters
      go, whatever they are. A shorter name underflows and panics (`None`). */
  function AppName(fileName: string): (r: Option<string>)
    ensures r.Some? <==> |fileName| >= 5
    ensures r.Some? ==> |r.value| == |fileName| - 5 && fileName == r.value + fileName[|r.value|..]
  {
    if |fileName| < 5 then None else Some(fileName[..|fileName| - 5])
  }

  /** The separator of a notes array: a newline and nine spaces, which puts
      every element under the first one after the "  notes: " label. */
  const NotesSeparator: string := "\n         "

  /** The body of `more` after decoding: both license shapes give their string,
      string notes stay as they are and array notes are joined by
      `NotesSeparator`. */
  function Flatten(m: AppManifest): (r: Details)
    ensures r.version == m.version && r.description == m.description && r.homepage == m.homepage
    ensures r.license == LicenseText(m.license)
    ensures r.notes.Some? <==> m.notes.Some?
    ensures m.notes.Some? && m.notes.value.NotesString? ==> r.notes.value == m.notes.value.s
    ensures m.notes.Some? && m.notes.value.NotesArray? ==>
      r.notes.value == Join(m.notes.value.items, NotesSeparator)
  {
    var notes :=
      match m.notes
      case None => None
      case Some(NotesString(s)) => Some(s)
      case Some(NotesArray(v)) => Some(Join(v, NotesSeparator));
    Details(m.version, m.description, m.homepage,
            match m.license case LicenseString(s) => s case LicenseObject(s) => s,
            notes)
  }

  /** `more`: read and decode a manifest; a failure of either is a panic (`None`). */
  function More(c: Contents): (r: Option<Details>)
    ensures r.Some? <==> c.Parsed? && DecodeManifest(c.value).Some?
    ensures r.Some? ==> r.value == Flatten(DecodeManifest(c.value).value)
  {
    match c
    case Parsed(json) =>
      (match DecodeManifest(json)
       case Some(m) => Some(Flatten(m))
       case None => None)
    case _ => None
  }

  // ---------------------------------------------------------------------
  // Steps that may panic

  /** What a run of steps produced, and whether it ended in a panic. */
  datatype Outcome<U> = Outcome(out: seq<U>, panicked: bool)

  /** The steps run in order, each adding its output, until one panics. */
  function Fold<T, U>(step: T -> Outcome<U>, xs: seq<T>): Outcome<U> {
    if |xs| == 0 then Outcome([], false)
    else
      var before := Fold(step, xs[..|xs| - 1]);
      if before.panicked then before
      else
        var last := step(xs[|xs| - 1]);
        Outcome(before.out + last.out, last.panicked)
  }

  lemma {:induction false} FoldSticky<T, U>(step: T -> Outcome<U>, xs: seq<T>, n: nat)
    requires n <= |xs| && Fold(step, xs[..n]).panicked
    ensures Fold(step, xs) == Fold(step, xs[..n])
    decreases |xs| - n
  {
    if n < |xs| {
      assert xs[..n + 1][..n] == xs[..n];
      FoldSticky(step, xs, n + 1);
    } else {
      assert xs[..n] == xs;
    }
  }

  /** A panicking step after a clean prefix ends the run with what it output. */
  lemma FoldStops<T, U>(step: T -> Outcome<U>, xs: seq<T>, i: nat)
    requires i < |xs| && !Fold(step, xs[..i]).panicked && step(xs[i]).panicked
    ensures Fold(step, xs) == Outcome(Fold(step, xs[..i]).out + step(xs[i]).out, true)
  {
    assert xs[..i + 1][..i] == xs[..i];
    FoldSticky(step, xs, i + 1);
  }

  /** A clean step after a clean prefix appends its output. */
  lemma FoldExtends<T, U>(step: T -> Outcome<U>, xs: seq<T>, i: nat)
    requires i < |xs| && !Fold(step, xs[..i]).panicked && !step(xs[i]).panicked
    ensures Fold(step, xs[..i + 1]) == Outcome(Fold(step, xs[..i]).out + step(xs[i]).out, false)
  {
    assert xs[..i + 1][..i] == xs[..i];
  }

  /** Whatever every step outputs satisfies `p`, so does everything the run outputs. */
  lemma {:induction false} FoldKeeps<T, U>(step: T -> Outcome<U>, xs: seq<T>, p: U -> bool)
    requires forall i, k :: 0 <= i < |xs| && 0 <= k < |step(xs[i]).out| ==> p(step(xs[i]).out[k])
    ensures forall k :: 0 <= k < |Fold(step, xs).out| ==> p(Fold(step, xs).out[k])
    decreases |xs|
  {
    if |xs| > 0 {
      var init := xs[..|xs| - 1];
      assert forall i :: 0 <= i < |init| ==> init[i] == xs[i];
      FoldKeeps(step, init, p);
    }
  }

  /** A run's output begins with the output of any of its prefixes. */
  lemma {:induction false} FoldPrefix<T, U>(step: T -> Outcome<U>, xs: seq<T>, n: nat)
    requires n <= |xs|
    ensures |Fold(step, xs[..n]).out| <= |Fold(step, xs).out|
    ensures Fold(step, xs).out[..|Fold(step, xs[..n]).out|] == Fold(step, xs[..n]).out
    decreases |xs| - n
  {
    if n == |xs| {
      assert xs[..n] == xs;
    } else {
      FoldPrefix(step, xs, n + 1);
      assert xs[..n + 1][..n] == xs[..n];
      var a := Fold(step, xs[..n]).out;
      var b := Fold(step, xs[..n + 1]).out;
      assert b[..|a|] == a;
      var c := Fold(step, xs).out;
      assert c[..|b|] == b;
      assert c[..|a|] == b[..|a|];
    }
  }

  // ---------------------------------------------------------------------
  // The scan, as a specification

  /** The closure given to `for_each_with` for one app of bucket `bucketName`. */
  function AppTask(bucketName: string, query: string, app: ManifestFile): Outcome<Message> {
    match AppName(app.name)
    case None => Outcome([], true)
    case Some(appname) =>
      if !Contains(appname, query) then Outcome([], false)
      else match More(app.contents)
        case None => Outcome([], true)
        case Some(d) => Outcome([Info(appname, bucketName, d)], false)
  }

  function AppFn(bucketName: string, query: string): ManifestFile -> Outcome<Message> {
    app => AppTask(bucketName, query, app)
  }

  /** `.map(|entry| entry.unwrap()).collect()`: the whole listing, or a panic
      (`None`) when any entry is bad. */
  function Unwrapped(es: seq<DirEntry<ManifestFile>>): (r: Option<seq<ManifestFile>>)
    ensures r.Some? <==> forall i :: 0 <= i < |es| ==> es[i].Entry?
    ensures r.Some? ==> |r.value| == |es| && forall i :: 0 <= i < |es| ==> r.value[i] == es[i].value
  {
    if |es| == 0 then Some([])
    else match Unwrapped(es[..|es| - 1])
      case None => None
      case Some(init) =>
        if es[|es| - 1].BadEntry? then None else Some(init + [es[|es| - 1].value])
  }

  /** One round of the bucket loop: unwrap the entry, list and unwrap its apps,
      then run the app closure on each. */
  function BucketTask(query: string, b: DirEntry<Bucket>): Outcome<Message> {
    if b.BadEntry? || b.value.manifests.Unlistable? then Outcome([], true)
    else match Unwrapped(b.value.manifests.entries)
      case None => Outcome([], true)
      case Some(apps) => Fold(AppFn(b.value.name, query), apps)
  }

  function BucketFn(query: string): DirEntry<Bucket> -> Outcome<Message> {
    b => BucketTask(query, b)
  }

  /** Everything `asyncv` sends down the channel: the `Info` of every matching
      app, then `Close` unless a panic came first. */
  function Sends(root: Root, query: string): Outcome<Message> {
    match root
    case Unlistable => Outcome([], true)
    case Listed(buckets) =>
      var sent := Fold(BucketFn(query), buckets);
      if sent.panicked then sent else Outcome(sent.out + [Close], false)
  }

  // ---------------------------------------------------------------------
  // The scan, as the loops of `asyncv`

  method Scan(root: Root, query: string) returns (sent: seq<Message>, panicked: bool)
    ensures Outcome(sent, panicked) == Sends(root, query)
  {
    if root.Unlistable? {
      return [], true;
    }
    var buckets := root.entries;
    sent := [];
    var k := 0;
    while k < |buckets|
      invariant 0 <= k <= |buckets|
      invariant Fold(BucketFn(query), buckets[..k]) == Outcome(sent, false)
    {
      if buckets[k].BadEntry? || buckets[k].value.manifests.Unlistable? {
        FoldStops(BucketFn(query), buckets, k);
        return sent, true;
      }
      var bucketName := buckets[k].value.name;
      var apps, ok := UnwrapAll(buckets[k].value.manifests.entries);
      if !ok {
        FoldStops(BucketFn(query), buckets, k);
        return sent, true;
      }
      ghost var before := sent;
      var j := 0;
      while j < |apps|
        invariant 0 <= j <= |apps|
        invariant !Fold(AppFn(bucketName, query), apps[..j]).panicked
        invariant sent == before + Fold(AppFn(bucketName, query), apps[..j]).out
      {
        var msgs, p := SendApp(bucketName, query, apps[j]);
        if p {
          FoldStops(AppFn(bucketName, query), apps, j);
          FoldStops(BucketFn(query), buckets, k);
          return sent + msgs, true;
        }
        FoldExtends(AppFn(bucketName, query), apps, j);
        sent := sent + msgs;
        j := j + 1;
      }
      assert apps[..j] == apps;
      FoldExtends(BucketFn(query), buckets, k);
      k := k + 1;
    }
    assert buckets[..k] == buckets;
    sent := sent + [Close];
    panicked := false;
  }

  /** The collecting loop over one bucket's listing. */
  method UnwrapAll(es: seq<DirEntry<ManifestFile>>) returns (apps: seq<ManifestFile>, ok: bool)
    ensures ok <==> Unwrapped(es).Some?
    ensures ok ==> apps == Unwrapped(es).value
  {
    apps := [];
    var i := 0;
    while i < |es|
      invariant 0 <= i <= |es|
      invariant Unwrapped(es[..i]) == Some(apps)
    {
      assert es[..i + 1][..i] == es[..i];
      if es[i].BadEntry? {
        assert !Unwrapped(es[..i + 1]).Some?;
        assert !es[i].Entry?;
        return [], false;
      }
      apps := apps + [es[i].value];
      i := i + 1;
    }
    assert es[..i] == es;
    return apps, true;
  }

  /** The closure body for one app: the name strip, the filter, `more` and the
      send, as the statements and early exits of the closure. `AppTask` is the
      same step as a value, for `Fold` and the lemmas, which cannot call a
      method. */
  method SendApp(bucketName: string, query: string, app: ManifestFile) returns (msgs: seq<Message>, panicked: bool)
    ensures Outcome(msgs, panicked) == AppTask(bucketName, query, app)
  {
    var name := AppName(app.name);
    if name.None? {
      return [], true;
    }
    var appname := name.value;
    if !Contains(appname, query) {
      return [], false;
    }
    var info := More(app.contents);
    if info.None? {
      return [], true;
    }
    return [Info(appname, bucketName, info.value)], false;
  }

  /** The whole of `asyncv`: the scan feeds the output loop. On a panic the
      lines are those the output loop would render from what was sent. */
  method Run(root: Root, query: string) returns (lines: seq<Line>, panicked: bool)
    ensures lines == Rendered(query, Sends(root, query).out)
    ensures panicked == Sends(root, query).panicked
  {
    var sent;
    sent, panicked := Scan(root, query);
    lines := Worker(query, sent);
  }

  // ---------------------------------------------------------------------
  // Properties

  predicate InfoMatches(query: string, m: Message) {
    m.Info? ==> Contains(m.appname, query)
  }

  predicate IsInfo(m: Message) {
    m.Info?
  }

  lemma BucketTaskKeeps(query: string, b: DirEntry<Bucket>, p: Message -> bool)
    requires forall name, app, k :: 0 <= k < |AppTask(name, query, app).out| ==> p(AppTask(name, query, app).out[k])
    ensures forall k :: 0 <= k < |BucketTask(query, b).out| ==> p(BucketTask(query, b).out[k])
  {
    if !(b.BadEntry? || b.value.manifests.Unlistable?) && Unwrapped(b.value.manifests.entries).Some? {
      FoldKeeps(AppFn(b.value.name, query), Unwrapped(b.value.manifests.entries).value, p);
    }
  }

  lemma FoldBucketsKeeps(query: string, bs: seq<DirEntry<Bucket>>, p: Message -> bool)
    requires forall name, app, k :: 0 <= k < |AppTask(name, query, app).out| ==> p(AppTask(name, query, app).out[k])
    ensures forall k :: 0 <= k < |Fold(BucketFn(query), bs).out| ==> p(Fold(BucketFn(query), bs).out[k])
  {
    forall i | 0 <= i < |bs|
      ensures forall k :: 0 <= k < |BucketFn(query)(bs[i]).out| ==> p(BucketFn(query)(bs[i]).out[k])
    {
      BucketTaskKeeps(query, bs[i], p);
    }
    FoldKeeps(BucketFn(query), bs, p);
  }

  /** Every app sent has a name that contains the query, case included, and
      only `Info` messages come before the end: a clean scan ends with exactly
      one `Close`, a panicking one sends none. */
  lemma SendsShape(root: Root, query: string)
    ensures forall k :: 0 <= k < |Sends(root, query).out| ==> InfoMatches(query, Sends(root, query).out[k])
    ensures var s := Sends(root, query);
      if s.panicked then forall k :: 0 <= k < |s.out| ==> s.out[k].Info?
      else |s.out| > 0 && s.out[|s.out| - 1] == Close && forall k :: 0 <= k < |s.out| - 1 ==> s.out[k].Info?
  {
    if root.Listed? {
      var p := (m: Message) => InfoMatches(query, m);
      var q := (m: Message) => IsInfo(m);
      FoldBucketsKeeps(query, root.entries, p);
      FoldBucketsKeeps(query, root.entries, q);
    }
  }

  /** A file whose name does not match is never loaded: its contents make no
      difference, even when they would not decode. */
  lemma UnmatchedNeverLoaded(bucketName: string, query: string, name: string, c1: Contents, c2: Contents)
    requires |name| >= 5 && !Contains(name[..|name| - 5], query)
    ensures AppTask(bucketName, query, ManifestFile(name, c1)) == Outcome([], false)
    ensures AppTask(bucketName, query, ManifestFile(name, c1)) == AppTask(bucketName, query, ManifestFile(name, c2))
  {
  }

  /** A file name shorter than ".json" panics the scan, whatever the query. */
  lemma ShortNamePanics(bucketName: string, query: string, app: ManifestFile)
    requires |app.name| < 5
    ensures AppTask(bucketName, query, app) == Outcome([], true)
  {
  }

  /** A matching app is sent with its name, its bucket and its flattened manifest,
      and a manifest that does not decode panics. */
  lemma MatchedIsLoaded(bucketName: string, query: string, app: ManifestFile)
    requires |app.name| >= 5 && Contains(app.name[..|app.name| - 5], query)
    ensures var t := AppTask(bucketName, query, app);
      if app.contents.Parsed? && DecodeManifest(app.contents.value).Some?
      then t == Outcome([Info(app.name[..|app.name| - 5], bucketName, Flatten(DecodeManifest(app.contents.value).value))], false)
      else t == Outcome([], true)
  {
  }

  /** The notes of `more` are the elements with one separator between each pair:
      ten characters more per gap than the display of the same notes in
      src/manifest.rs, which joins them with nothing. */
  lemma NotesJoinLonger(m: AppManifest)
    requires m.notes.Some? && m.notes.value.NotesArray?
    ensures |m.notes.value.items| == 0 ==> Flatten(m).notes.value == NotesText(m.notes.value) == ""
    ensures |m.notes.value.items| > 0 ==>
      |Flatten(m).notes.value| == |NotesText(m.notes.value)| + 10 * (|m.notes.value.items| - 1)
  {
    var v := m.notes.value.items;
    JoinLength(v, NotesSeparator);
    JoinLength(v, "");
  }

  /** The two displays of a two-element notes array. */
  lemma TwoNotes(m: AppManifest, a: string, b: string)
    requires m.notes == Some(NotesArray([a, b]))
    ensures Flatten(m).notes == Some(a + NotesSeparator + b)
    ensures NotesText(m.notes.value) == a + b
  {
    JoinPair(a, b, NotesSeparator);
    JoinPair(a, b, "");
  }

  /** On a clean scan the output loop draws one block per app sent. */
  lemma OneBlockPerApp(root: Root, query: string)
    requires !Sends(root, query).panicked
    ensures Opened(Rendered(query, Sends(root, query).out)) == |Sends(root, query).out| - 1
  {
    SendsShape(root, query);
    var out := Sends(root, query).out;
    var infos := out[..|out| - 1];
    assert out == infos + [Close];
    ClosedStreamBlocks(query, infos);
  }

  /** For a "<stem>.json" file the five-character strip and the file stem of
      src/search.rs agree. */
  lemma JsonNamesAgree(stem: string)
    requires stem != ""
    ensures AppName(stem + ".json") == Some(stem) == Search.FileStem(stem + ".json")
  {
    Search.JsonFileStem(stem);
    assert (stem + ".json")[..|stem|] == stem;
  }

  /** For any other extension they differ: "git.yml" is named "gi" here and
      "git" by src/search.rs. */
  lemma OtherExtensionsDiffer()
    ensures AppName("git.yml") == Some("gi")
    ensures Search.FileStem("git.yml") == Some("git")
  {
    var name := "git.yml";
    assert name[..2] == "gi";
    assert name[3] == '.';
    assert forall m :: 3 < m < |name| ==> name[m] != '.';
    assert name[..3] == "git";
  }

  /** The strip and `file_stem` give the same name exactly when the last '.' of
      the file name is five characters from its end and is not its first
      character; on every other name they differ. */
  lemma NamesAgreeExactly(fileName: string)
    ensures (AppName(fileName).Some? && AppName(fileName) == Search.FileStem(fileName))
      <==> |fileName| > 5 && Search.LastDot(fileName) == Some(|fileName| - 5)
  {
    var d := Search.LastDot(fileName);
    var n := |fileName| - 5;
    if |fileName| > 5 && d == Some(n) {
      assert fileName != "..";
    }
    if AppName(fileName).Some? && AppName(fileName) == Search.FileStem(fileName) {
      var r := Search.FileStem(fileName).value;
      assert |r| == n < |fileName|;
      assert fileName[n] == '.';
    }
  }

  /** A query with an upper-case ASCII letter keeps no name without one here,
      whatever the manifest; the filter of src/search.rs keeps that name
      whenever it contains the lower-cased query. */
  lemma UpperQueryMissesLowerName(bucketName: string, query: string, i: nat, app: ManifestFile, description: string)
    requires AppName(app.name).Some?
    requires forall k :: 0 <= k < |AppName(app.name).value| ==> !IsUpper(AppName(app.name).value[k])
    requires i < |query| && IsUpper(query[i])
    ensures AppTask(bucketName, query, app) == Outcome([], false)
    ensures Contains(AppName(app.name).value, Lower(query)) ==>
      Search.Matches(AppName(app.name).value, description, query)
  {
    var name := AppName(app.name).value;
    NoUpperNotContained(name, query, i);
    assert Lower(name) == name;
  }

  /** The filter here is case-sensitive and reads the name only: an upper-case
      query misses a lower-case name that the filter of src/search.rs keeps. */
  lemma CaseSensitiveFilter(bucketName: string, description: string, c: Contents)
    ensures AppTask(bucketName, "Git", ManifestFile("git.json", c)) == Outcome([], false)
    ensures Search.Matches("git", description, "Git")
  {
    var name := "git.json";
    assert name[..|name| - 5] == "git";
    assert Lower("Git") == "git";
    assert OccursAt(Lower("git"), Lower("Git"), 0);
    var g: string := "git";
    assert g[0..3] == g;
    assert g[0] != "Git"[0];
    assert !OccursAt(g, "Git", 0);
  }
}
