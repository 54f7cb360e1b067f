/** String and sequence helpers shared by the model: ASCII lower-casing,
    substring occurrence and search, the `join` of a list of strings, and the
    in-order concatenation of per-element results. */
module Strings {

  datatype Option<T> = None | Some(value: T)

  predicate IsUpper(c: char) {
    'A' <= c <= 'Z'
  }

  /** ASCII lower-casing of one character; every other character is kept. */
  function LowerChar(c: char): (r: char)
    ensures !IsUpper(r)
  {
    if IsUpper(c) then (c as int + 32) as char else c
  }

  /** `str::to_lowercase` restricted to ASCII letters. */
  function Lower(s: string): (r: string)
    ensures |r| == |s|
    ensures forall i :: 0 <= i < |s| ==> r[i] == LowerChar(s[i])
  {
    seq(|s|, i requires 0 <= i < |s| => LowerChar(s[i]))
  }

  lemma LowerSlice(s: string, i: nat, j: nat)
    requires i <= j <= |s|
    ensures Lower(s[i..j]) == Lower(s)[i..j]
  {
  }

  /** `t` occurs in `s` starting at offset `k`. */
  predicate OccursAt(s: string, t: string, k: nat) {
    k + |t| <= |s| && s[k..k + |t|] == t
  }

  /** `s.contains(t)`. */
  predicate Contains(s: string, t: string) {
    exists k: nat | k <= |s| :: OccursAt(s, t, k)
  }

  /** `k` is the leftmost occurrence of `t` in `s`. */
  predicate IsLeftmost(s: string, t: string, k: nat) {
    OccursAt(s, t, k) && forall m: nat :: m < k ==> !OccursAt(s, t, m)
  }

  function FindFrom(s: string, t: string, k: nat): (r: Option<nat>)
    decreases |s| - k
    ensures r.Some? ==> k <= r.value && OccursAt(s, t, r.value)
    ensures r.Some? ==> forall m: nat :: k <= m < r.value ==> !OccursAt(s, t, m)
    ensures r.None? ==> forall m: nat :: k <= m ==> !OccursAt(s, t, m)
  {
    if k + |t| > |s| then None
    else if s[k..k + |t|] == t then Some(k)
    else FindFrom(s, t, k + 1)
  }

  /** `str::find`: the byte offset of the leftmost occurrence (ASCII, so
      also the character offset), or nothing when `t` does not occur. */
  function Find(s: string, t: string): (r: Option<nat>)
    ensures r.Some? <==> Contains(s, t)
    ensures r.Some? ==> IsLeftmost(s, t, r.value)
  {
    FindFrom(s, t, 0)
  }

  lemma EmptyOccursFirst(s: string)
    ensures Find(s, "") == Some(0)
  {
    assert OccursAt(s, "", 0);
  }

  /** A string without upper-case ASCII letters contains no string that has one. */
  lemma NoUpperNotContained(s: string, t: string, i: nat)
    requires forall k :: 0 <= k < |s| ==> !IsUpper(s[k])
    requires i < |t| && IsUpper(t[i])
    ensures !Contains(s, t)
  {
  }

  /** Total length of a list of strings. */
  function SumLengths(v: seq<string>): nat {
    if |v| == 0 then 0 else |v[0]| + SumLengths(v[1..])
  }

  /** In-order concatenation of a list of strings. */
  function Concat(v: seq<string>): string {
    if |v| == 0 then "" else v[0] + Concat(v[1..])
  }

  /** `[String]::join(sep)`: the elements in order with `sep` between neighbours. */
  function Join(v: seq<string>, sep: string): string {
    if |v| == 0 then ""
    else if |v| == 1 then v[0]
    else v[0] + sep + Join(v[1..], sep)
  }

  /** Where element `i` starts inside `Join(v, sep)`. */
  function Offset(v: seq<string>, sep: string, i: nat): nat
    requires i <= |v|
  {
    if i == 0 then 0 else |v[0]| + |sep| + Offset(v[1..], sep, i - 1)
  }

  lemma {:induction false} ConcatLength(v: seq<string>)
    ensures |Concat(v)| == SumLengths(v)
  {
    if |v| > 0 {
      ConcatLength(v[1..]);
    }
  }

  /** Joining with the empty separator is plain concatenation. */
  lemma {:induction false} JoinEmptySeparator(v: seq<string>)
    ensures Join(v, "") == Concat(v)
  {
    if |v| == 1 {
      assert Concat(v[1..]) == "";
    } else if |v| > 1 {
      JoinEmptySeparator(v[1..]);
    }
  }

  lemma OccursShift(a: string, s: string, t: string, k: nat)
    requires OccursAt(s, t, k)
    ensures OccursAt(a + s, t, |a| + k)
  {
    assert (a + s)[|a| + k..|a| + k + |t|] == s[k..k + |t|];
  }

  /** The layout of `Join(v, sep)`: element `i` sits at `Offset(v, sep, i)`, a
      separator follows it unless it is the last, the next element starts right
      after that separator, and the last element ends the string. */
  lemma {:induction false} JoinLayout(v: seq<string>, sep: string, i: nat)
    requires i < |v|
    ensures OccursAt(Join(v, sep), v[i], Offset(v, sep, i))
    ensures i + 1 < |v| ==> OccursAt(Join(v, sep), sep, Offset(v, sep, i) + |v[i]|)
    ensures i + 1 < |v| ==> Offset(v, sep, i + 1) == Offset(v, sep, i) + |v[i]| + |sep|
    ensures i + 1 == |v| ==> |Join(v, sep)| == Offset(v, sep, i) + |v[i]|
  {
    var j := Join(v, sep);
    if |v| == 1 {
      assert j == v[0];
      assert j[0..|v[0]|] == v[0];
    } else if i == 0 {
      assert j == v[0] + sep + Join(v[1..], sep);
      assert j[0..|v[0]|] == v[0];
      assert j[|v[0]|..|v[0]| + |sep|] == sep;
      assert Offset(v, sep, 1) == |v[0]| + |sep| + Offset(v[1..], sep, 0);
    } else {
      JoinLayout(v[1..], sep, i - 1);
      var rest := Join(v[1..], sep);
      assert j == (v[0] + sep) + rest;
      OccursShift(v[0] + sep, rest, v[i], Offset(v[1..], sep, i - 1));
      if i + 1 < |v| {
        OccursShift(v[0] + sep, rest, sep, Offset(v[1..], sep, i - 1) + |v[i]|);
      }
    }
  }

  /** A join is as long as its elements plus one separator between each pair
      of neighbours. */
  lemma {:induction false} JoinLength(v: seq<string>, sep: string)
    ensures |v| == 0 ==> Join(v, sep) == ""
    ensures |v| > 0 ==> |Join(v, sep)| == SumLengths(v) + |sep| * (|v| - 1)
  {
    if |v| == 0 {
    } else if |v| == 1 {
      assert SumLengths(v[1..]) == 0;
    } else {
      JoinLength(v[1..], sep);
    }
  }

  /** `Join` of a two-element list is the first, the separator, the second. */
  lemma JoinPair(a: string, b: string, sep: string)
    ensures Join([a, b], sep) == a + sep + b
  {
    assert Join([a, b][1..], sep) == b;
  }

  /** `f` applied to each element, the results joined in order. */
  function ConcatMap<T, U>(f: T -> seq<U>, xs: seq<T>): seq<U> {
    if |xs| == 0 then []
    else ConcatMap(f, xs[..|xs| - 1]) + f(xs[|xs| - 1])
  }

  lemma {:induction false} ConcatMapAppend<T, U>(f: T -> seq<U>, a: seq<T>, b: seq<T>)
    ensures ConcatMap(f, a + b) == ConcatMap(f, a) + ConcatMap(f, b)
    decreases |b|
  {
    if |b| == 0 {
      assert a + b == a;
    } else {
      var ab := a + b;
      var init := b[..|b| - 1];
      assert ab[..|ab| - 1] == a + init;
      ConcatMapAppend(f, a, init);
    }
  }

  lemma {:induction false} ConcatMapMember<T, U>(f: T -> seq<U>, xs: seq<T>, y: U)
    requires y in ConcatMap(f, xs)
    ensures exists i :: 0 <= i < |xs| && y in f(xs[i])
    decreases |xs|
  {
    var init := xs[..|xs| - 1];
    if y in ConcatMap(f, init) {
      ConcatMapMember(f, init, y);
      var i :| 0 <= i < |init| && y in f(init[i]);
      assert xs[i] == init[i];
    } else {
      assert y in f(xs[|xs| - 1]);
    }
  }

  /** Pointwise shorter results give a shorter concatenation. */
  lemma {:induction false} ConcatMapShorter<T, U, V>(f: T -> seq<U>, g: T -> seq<V>, xs: seq<T>)
    requires forall i :: 0 <= i < |xs| ==> |f(xs[i])| <= |g(xs[i])|
    ensures |ConcatMap(f, xs)| <= |ConcatMap(g, xs)|
    decreases |xs|
  {
    if |xs| > 0 {
      var init := xs[..|xs| - 1];
      assert forall i :: 0 <= i < |init| ==> init[i] == xs[i];
      ConcatMapShorter(f, g, init);
    }
  }
}
