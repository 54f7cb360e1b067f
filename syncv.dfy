/** src/syncv.rs: the sequential variant. The same walk as src/asyncv.rs, with
    the same name strip, filter and manifest flattening (`appinfo` is `more`
    under another name), except that each matching app's block is printed as
    soon as it is found. A panic ends the walk; the lines printed before it
    stay printed. */
module Syncv {
  import opened Strings
  import opened Tree
  import opened Render
  import opened Output
  import opened Asyncv

  /** Everything `syncv` prints for a Scoop root, and whether it panicked: it
      walks the tree as `asyncv` does, with the same name strip, filter and
      `appinfo`, and prints the block of each app at the point where `asyncv`
      sends its `Info`. */
  function Prints(root: Root, query: string): Outcome<Line> {
    match root
    case Unlistable => Outcome([], true)
    case Listed(buckets) =>
      var walk := Fold(BucketFn(query), buckets);
      Outcome(Blocks(query, walk.out), walk.panicked)
  }

  /** The bucket loop of `syncv`. The ghost `sent` is the run of apps found so
      far, each of which has had its block printed. */
  method Run(root: Root, query: string) returns (lines: seq<Line>, panicked: bool)
    ensures Outcome(lines, panicked) == Prints(root, query)
  {
    if root.Unlistable? {
      return [], true;
    }
    var buckets := root.entries;
    lines := [];
    ghost var sent: seq<Message> := [];
    var k := 0;
    while k < |buckets|
      invariant 0 <= k <= |buckets|
      invariant Fold(BucketFn(query), buckets[..k]) == Outcome(sent, false)
      invariant lines == Blocks(query, sent)
    {
      if buckets[k].BadEntry? || buckets[k].value.manifests.Unlistable? {
        FoldStops(BucketFn(query), buckets, k);
        assert sent + [] == sent;
        return lines, true;
      }
      var bucketName := buckets[k].value.name;
      var apps, ok := UnwrapAll(buckets[k].value.manifests.entries);
      if !ok {
        FoldStops(BucketFn(query), buckets, k);
        assert sent + [] == sent;
        return lines, true;
      }
      var printed, p := PrintApps(bucketName, query, apps);
      ghost var msgs := Fold(AppFn(bucketName, query), apps).out;
      BlocksAppend(query, sent, msgs);
      if p {
        FoldStops(BucketFn(query), buckets, k);
        return lines + printed, true;
      }
      FoldExtends(BucketFn(query), buckets, k);
      lines := lines + printed;
      sent := sent + msgs;
      k := k + 1;
    }
    assert buckets[..k] == buckets;
    panicked := false;
  }

  /** The `for_each` over the apps of one bucket. */
  method PrintApps(bucketName: string, query: string, apps: seq<ManifestFile>) returns (printed: seq<Line>, panicked: bool)
    ensures printed == Blocks(query, Fold(AppFn(bucketName, query), apps).out)
    ensures panicked == Fold(AppFn(bucketName, query), apps).panicked
  {
    printed := [];
    ghost var sent: seq<Message> := [];
    var j := 0;
    while j < |apps|
      invariant 0 <= j <= |apps|
      invariant Fold(AppFn(bucketName, query), apps[..j]) == Outcome(sent, false)
      invariant printed == Blocks(query, sent)
    {
      ghost var msgs := AppTask(bucketName, query, apps[j]).out;
      var block, p := PrintOne(bucketName, query, apps[j]);
      BlocksAppend(query, sent, msgs);
      if p {
        FoldStops(AppFn(bucketName, query), apps, j);
        return printed + block, true;
      }
      FoldExtends(AppFn(bucketName, query), apps, j);
      printed := printed + block;
      sent := sent + msgs;
      j := j + 1;
    }
    assert apps[..j] == apps;
    panicked := false;
  }

  /** The closure body for one app: the name strip, the filter, `appinfo` and
      the `println!` calls, which print the block of the app found. It prints
      the block directly where `AppTask` would send a message; its contract ties
      the two, so the walk of `syncv` is specified by that of `asyncv`. */
  method PrintOne(bucketName: string, query: string, app: ManifestFile) returns (block: seq<Line>, panicked: bool)
    ensures block == Blocks(query, AppTask(bucketName, query, app).out)
    ensures panicked == AppTask(bucketName, query, app).panicked
  {
    var name := AppName(app.name);
    if name.None? {
      return [], true;
    }
    var appname := name.value;
    if !Contains(appname, query) {
      return [], false;
    }
    var info := More(app.contents);
    if info.None? {
      return [], true;
    }
    block := Block(query, appname, bucketName, info.value);
    BlocksOfOne(query, Info(appname, bucketName, info.value));
    return block, false;
  }

  // ---------------------------------------------------------------------
  // Properties

  /** `syncv` prints exactly what the output loop of src/asyncv.rs renders from
      the messages `asyncv` sends, block for block in the same order, and the
      two panic on the same trees. */
  lemma SameAsChannel(root: Root, query: string)
    ensures Prints(root, query).out == Rendered(query, Sends(root, query).out)
    ensures Prints(root, query).panicked == Sends(root, query).panicked
  {
    if root.Listed? {
      var sent := Fold(BucketFn(query), root.entries);
      SendsShape(root, query);
      if sent.panicked {
        EndOfStreamRendersAll(query, sent.out);
      } else {
        assert Sends(root, query).out == sent.out + [Close] + [];
        CloseEndsConsumption(query, sent.out, []);
        assert forall k :: 0 <= k < |sent.out| ==> sent.out[k] == Sends(root, query).out[k];
        EndOfStreamRendersAll(query, sent.out);
      }
    }
  }

  /** Everything printed stays printed: whatever happens later, a panic
      included, the output begins with the blocks of the apps of every bucket
      walked so far. */
  lemma PrintedStaysPrinted(root: Root, query: string, n: nat)
    requires root.Listed? && n <= |root.entries|
    ensures var early := Blocks(query, Fold(BucketFn(query), root.entries[..n]).out);
      |early| <= |Prints(root, query).out| && Prints(root, query).out[..|early|] == early
  {
    var pre := Fold(BucketFn(query), root.entries[..n]).out;
    var whole := Fold(BucketFn(query), root.entries).out;
    FoldPrefix(BucketFn(query), root.entries, n);
    assert whole == pre + whole[|pre|..];
    BlocksAppend(query, pre, whole[|pre|..]);
  }
}
