/** src/output.rs: the consumer end of the channel. `worker` takes messages in
    arrival order, writes one block per `Info` and stops at the first `Close`
    or when the channel is disconnected (the end of the sequence here). The
    `output` function of src/asyncv.rs is the same loop over the same message
    shape. */
module Output {
  import opened Strings
  import opened Render

  datatype Message = Info(appname: string, bucketName: string, details: Details) | Close

  /** The messages consumed: all of them up to, not including, the first `Close`. */
  function BeforeClose(ms: seq<Message>): (r: seq<Message>)
    ensures |r| <= |ms| && r == ms[..|r|]
    ensures forall i :: 0 <= i < |r| ==> r[i].Info?
    ensures |r| < |ms| ==> ms[|r|].Close?
  {
    if |ms| == 0 || ms[0].Close? then []
    else [ms[0]] + BeforeClose(ms[1..])
  }

  function BlockOf(query: string, m: Message): seq<Line> {
    match m
    case Info(appname, bucketName, details) => Block(query, appname, bucketName, details)
    case Close => []
  }

  function BlockFn(query: string): Message -> seq<Line> {
    m => BlockOf(query, m)
  }

  /** The blocks of a run of messages, in order. */
  function Blocks(query: string, ms: seq<Message>): seq<Line> {
    ConcatMap(BlockFn(query), ms)
  }

  /** What `worker` writes for a message stream. */
  function Rendered(query: string, ms: seq<Message>): seq<Line> {
    Blocks(query, BeforeClose(ms))
  }

  /** The `while let Ok(message) = receiver.recv()` loop. */
  method Worker(query: string, messages: seq<Message>) returns (lines: seq<Line>)
    ensures lines == Rendered(query, messages)
  {
    lines := [];
    var i := 0;
    while i < |messages|
      invariant 0 <= i <= |messages|
      invariant forall k :: 0 <= k < i ==> messages[k].Info?
      invariant lines == Blocks(query, messages[..i])
    {
      match messages[i]
      case Close =>
        break;
      case Info(appname, bucketName, details) =>
        WorkerStep(query, messages, i, lines);
        lines := lines + Block(query, appname, bucketName, details);
      i := i + 1;
    }
    BeforeCloseUnique(messages, i);
  }

  lemma WorkerStep(query: string, ms: seq<Message>, i: nat, lines: seq<Line>)
    requires i < |ms| && ms[i].Info?
    requires forall k :: 0 <= k < i ==> ms[k].Info?
    requires lines == Blocks(query, ms[..i])
    ensures forall k :: 0 <= k < i + 1 ==> ms[k].Info?
    ensures lines + Block(query, ms[i].appname, ms[i].bucketName, ms[i].details) == Blocks(query, ms[..i + 1])
  {
    BlocksSnoc(query, ms, i);
  }

  lemma BlocksSnoc(query: string, ms: seq<Message>, i: nat)
    requires i < |ms| && ms[i].Info?
    ensures Blocks(query, ms[..i + 1])
         == Blocks(query, ms[..i]) + Block(query, ms[i].appname, ms[i].bucketName, ms[i].details)
  {
    assert ms[..i + 1][..i] == ms[..i];
  }

  /** `BeforeClose` is determined by where the first `Close` is. */
  lemma BeforeCloseUnique(ms: seq<Message>, n: nat)
    requires n <= |ms|
    requires forall k :: 0 <= k < n ==> ms[k].Info?
    requires n == |ms| || ms[n].Close?
    ensures BeforeClose(ms) == ms[..n]
  {
  }

  lemma BlocksOfOne(query: string, m: Message)
    requires m.Info?
    ensures Blocks(query, [m]) == Block(query, m.appname, m.bucketName, m.details)
  {
    assert [m][..0] == [];
    assert Blocks(query, [m]) == Blocks(query, []) + BlockFn(query)(m);
  }

  lemma BlocksAppend(query: string, a: seq<Message>, b: seq<Message>)
    ensures Blocks(query, a + b) == Blocks(query, a) + Blocks(query, b)
  {
    ConcatMapAppend(BlockFn(query), a, b);
  }

  /** A `Close` ends consumption: nothing after it is ever rendered. */
  lemma CloseEndsConsumption(query: string, a: seq<Message>, b: seq<Message>)
    ensures Rendered(query, a + [Close] + b) == Rendered(query, a)
  {
    var ms := a + [Close] + b;
    var p := BeforeClose(a);
    assert forall k :: 0 <= k < |p| ==> ms[k] == a[k];
    BeforeCloseUnique(ms, |p|);
    assert ms[..|p|] == p;
  }

  /** Without a `Close`, the end of the stream ends consumption and every message
      is rendered, one block each, in arrival order. */
  lemma EndOfStreamRendersAll(query: string, ms: seq<Message>)
    requires forall k :: 0 <= k < |ms| ==> ms[k].Info?
    ensures Rendered(query, ms) == Blocks(query, ms)
  {
    BeforeCloseUnique(ms, |ms|);
    assert ms[..|ms|] == ms;
  }

  /** Rendering a stream that begins with `Info` messages renders their blocks
      first, then the rest of the stream. */
  lemma RenderedAfterInfos(query: string, a: seq<Message>, b: seq<Message>)
    requires forall k :: 0 <= k < |a| ==> a[k].Info?
    ensures Rendered(query, a + b) == Blocks(query, a) + Rendered(query, b)
  {
    var ms := a + b;
    var p := BeforeClose(b);
    var n := |a| + |p|;
    forall k | 0 <= k < n
      ensures ms[k].Info?
    {
      if k >= |a| {
        assert ms[k] == b[k - |a|] == p[k - |a|];
      }
    }
    if n < |ms| {
      assert ms[n] == b[|p|];
    }
    BeforeCloseUnique(ms, n);
    assert ms[..n] == a + p;
    BlocksAppend(query, a, p);
  }

  /** The number of top borders written. */
  function Opened(lines: seq<Line>): nat {
    multiset(lines)[TopRule]
  }

  lemma {:induction false} OpenedBlocks(query: string, ms: seq<Message>)
    requires forall k :: 0 <= k < |ms| ==> ms[k].Info?
    ensures Opened(Blocks(query, ms)) == |ms|
    decreases |ms|
  {
    if |ms| > 0 {
      var m := ms[|ms| - 1];
      var b := Block(query, m.appname, m.bucketName, m.details);
      assert b == [b[0]] + b[1..];
      assert TopRule !in b[1..];
      OpenedBlocks(query, ms[..|ms| - 1]);
    }
  }

  /** Exactly one block is written per `Info` that arrives before the first
      `Close`. */
  lemma OneBlockPerInfo(query: string, ms: seq<Message>)
    ensures Opened(Rendered(query, ms)) == |BeforeClose(ms)|
  {
    OpenedBlocks(query, BeforeClose(ms));
  }

  /** A stream of `Info` messages closed by `Close` draws one block per `Info`. */
  lemma ClosedStreamBlocks(query: string, infos: seq<Message>)
    requires forall k :: 0 <= k < |infos| ==> infos[k].Info?
    ensures Opened(Rendered(query, infos + [Close])) == |infos|
  {
    BeforeCloseUnique(infos + [Close], |infos|);
    assert (infos + [Close])[..|infos|] == infos;
    OpenedBlocks(query, infos);
  }
}
