/** The block printed for one match. src/output.rs, src/asyncv.rs and
    src/syncv.rs carry the same code for it: the `backcolor` (or `background`)
    highlight closure and the run of `writeln!`/`println!` calls. Colours and
    styles are abstracted to tags on the pieces of a line, and the two border
    lines (whose width comes from the terminal) to `TopRule` and `BottomRule`. */
module Render {
  import opened Strings

  /** The five fields shown for an app: `AppInfo` of src/asyncv.rs and src/syncv.rs
      and the `details` of src/output.rs's `Message::Info`. */
  datatype Details = Details(
    version: string,
    description: string,
    homepage: string,
    license: string,
    notes: Option<string>)

  datatype Colour = Blue | Cyan | Purple | Green

  /** A run of text: unstyled, highlighted (bold, black on yellow), or coloured. */
  datatype Piece = Plain(text: string) | Highlight(text: string) | Coloured(colour: Colour, text: string)

  datatype Line = TopRule | BottomRule | Row(pieces: seq<Piece>)

  /** The characters a line of pieces shows, styles dropped. */
  function Text(ps: seq<Piece>): string {
    if |ps| == 0 then "" else ps[0].text + Text(ps[1..])
  }

  lemma {:induction false} TextAppend(a: seq<Piece>, b: seq<Piece>)
    ensures Text(a + b) == Text(a) + Text(b)
  {
    if |a| == 0 {
      assert a + b == b;
    } else {
      assert (a + b)[1..] == a[1..] + b;
      TextAppend(a[1..], b);
    }
  }

  lemma TextPair(p: Piece, q: Piece)
    ensures Text([p, q]) == p.text + q.text
  {
    assert [p, q][1..] == [q];
    assert [q][1..] == [];
    assert Text([q]) == q.text + Text([]);
    assert Text([q]) == q.text;
  }

  lemma TextTriple(p: Piece, q: Piece, u: Piece)
    ensures Text([p, q, u]) == p.text + q.text + u.text
  {
    assert [p, q, u][1..] == [q, u];
    TextPair(q, u);
  }

  predicate HasHighlight(l: Line) {
    l.Row? && exists k :: 0 <= k < |l.pieces| && l.pieces[k].Highlight?
  }

  predicate IsNotesLine(l: Line) {
    l.Row? && |l.pieces| > 0 && l.pieces[0] == Plain("  notes: ")
  }

  /** The highlight closure: find the leftmost occurrence `i` of `query` in the
      lower-cased `s`, and cut `s` itself at `i` and `i + |query|`. */
  function Backcolor(s: string, query: string): (r: seq<Piece>)
    ensures Text(r) == s
    ensures !Contains(Lower(s), query) ==> r == [Plain(s)]
    ensures Contains(Lower(s), query) ==>
      && |r| == 3 && r[0].Plain? && r[1].Highlight? && r[2].Plain?
      && |r[1].text| == |query|
      && IsLeftmost(Lower(s), query, |r[0].text|)
      && Lower(r[1].text) == query
    ensures (exists k :: 0 <= k < |r| && r[k].Highlight?) <==> Contains(Lower(s), query)
  {
    match Find(Lower(s), query)
    case None =>
      assert Text([Plain(s)]) == s by { assert [Plain(s)][1..] == []; }
      [Plain(s)]
    case Some(i) =>
      SpliceFacts(s, query, i);
      [Plain(s[..i]), Highlight(s[i..i + |query|]), Plain(s[i + |query|..])]
  }

  lemma SpliceFacts(s: string, query: string, i: nat)
    requires IsLeftmost(Lower(s), query, i)
    ensures i + |query| <= |s|
    ensures var r := [Plain(s[..i]), Highlight(s[i..i + |query|]), Plain(s[i + |query|..])];
      Text(r) == s && Lower(r[1].text) == query
  {
    var j := i + |query|;
    LowerSlice(s, i, j);
    TextTriple(Plain(s[..i]), Highlight(s[i..j]), Plain(s[j..]));
    assert s[..i] + s[i..j] + s[j..] == s;
  }

  /** Only `s` is lower-cased, so a query with an upper-case letter is never found
      and never highlighted. */
  lemma UpperQueryNeverHighlights(s: string, query: string, i: nat)
    requires i < |query| && IsUpper(query[i])
    ensures Backcolor(s, query) == [Plain(s)]
  {
    NoUpperNotContained(Lower(s), query, i);
  }

  /** The empty query is found at offset 0: the highlight is empty and the
      whole text follows it. */
  lemma EmptyQueryHighlightsNothing(s: string)
    ensures Backcolor(s, "") == [Plain(""), Highlight(""), Plain(s)]
  {
    EmptyOccursFirst(Lower(s));
  }

  /** The name line: the name goes through the highlight, the bucket does not. */
  function TitleRow(query: string, appname: string, bucket: string): (r: seq<Piece>)
    ensures |r| >= 3 && r[0] == Plain("  ")
    ensures r[1..|r| - 2] == Backcolor(appname, query)
    ensures r[|r| - 2..] == [Plain(" in "), Coloured(Blue, bucket)]
    ensures Text(r) == "  " + appname + " in " + bucket
    ensures (exists k :: 0 <= k < |r| && r[k].Highlight?) <==> Contains(Lower(appname), query)
  {
    var hl := Backcolor(appname, query);
    TextAppend([Plain("  ")] + hl, [Plain(" in "), Coloured(Blue, bucket)]);
    TextAppend([Plain("  ")], hl);
    TextPair(Plain(" in "), Coloured(Blue, bucket));
    assert Text([Plain("  ")]) == "  " by { assert [Plain("  ")][1..] == []; }
    var r := [Plain("  ")] + hl + [Plain(" in "), Coloured(Blue, bucket)];
    assert forall k :: 0 <= k < |hl| ==> r[k + 1] == hl[k];
    assert r[1..|r| - 2] == hl;
    r
  }

  /** The description line: the label, then the description through the highlight. */
  function DescriptionRow(query: string, description: string): (r: seq<Piece>)
    ensures |r| > 0 && r[0] == Plain("  description: ")
    ensures r[1..] == Backcolor(description, query)
    ensures Text(r) == "  description: " + description
    ensures (exists k :: 0 <= k < |r| && r[k].Highlight?) <==> Contains(Lower(description), query)
  {
    var hl := Backcolor(description, query);
    TextAppend([Plain("  description: ")], hl);
    assert Text([Plain("  description: ")]) == "  description: " by { assert [Plain("  description: ")][1..] == []; }
    var r := [Plain("  description: ")] + hl;
    assert forall k :: 0 <= k < |hl| ==> r[k + 1] == hl[k];
    assert r[1..] == hl;
    r
  }

  /** The lines written for one app: the top border, the name and bucket, the
      description, version, homepage and license, the notes when there are any,
      and the bottom border. */
  function Block(query: string, appname: string, bucket: string, d: Details): (r: seq<Line>)
    ensures |r| == (if d.notes.Some? then 8 else 7)
    ensures r[0] == TopRule && r[|r| - 1] == BottomRule
    ensures forall i :: 0 < i < |r| - 1 ==> r[i].Row?
  {
    [ TopRule,
      Row(TitleRow(query, appname, bucket)),
      Row(DescriptionRow(query, d.description)),
      Row([Plain("  version: "), Coloured(Cyan, d.version)]),
      Row([Plain("  homepage: "), Coloured(Purple, d.homepage)]),
      Row([Plain("  license: "), Coloured(Green, d.license)])]
    + (if d.notes.Some? then [Row([Plain("  notes: "), Plain(d.notes.value)])] else [])
    + [BottomRule]
  }

  /** The block shows every field as it is: highlighting changes no character. */
  lemma BlockText(query: string, appname: string, bucket: string, d: Details)
    ensures var r := Block(query, appname, bucket, d);
      && Text(r[1].pieces) == "  " + appname + " in " + bucket
      && Text(r[2].pieces) == "  description: " + d.description
      && Text(r[3].pieces) == "  version: " + d.version
      && Text(r[4].pieces) == "  homepage: " + d.homepage
      && Text(r[5].pieces) == "  license: " + d.license
      && (d.notes.Some? ==> Text(r[6].pieces) == "  notes: " + d.notes.value)
  {
    TextPair(Plain("  version: "), Coloured(Cyan, d.version));
    TextPair(Plain("  homepage: "), Coloured(Purple, d.homepage));
    TextPair(Plain("  license: "), Coloured(Green, d.license));
    if d.notes.Some? {
      TextPair(Plain("  notes: "), Plain(d.notes.value));
    }
  }

  /** Only the name and the description go through the highlight, each exactly
      when its lower-cased text contains the query; the highlighted pieces of
      the two lines are those `Backcolor` cuts from the name and the
      description. */
  lemma BlockHighlights(query: string, appname: string, bucket: string, d: Details)
    ensures var r := Block(query, appname, bucket, d);
      && |r[1].pieces| >= 3
      && r[1].pieces[1..|r[1].pieces| - 2] == Backcolor(appname, query)
      && r[2].pieces[1..] == Backcolor(d.description, query)
      && (HasHighlight(r[1]) <==> Contains(Lower(appname), query))
      && (HasHighlight(r[2]) <==> Contains(Lower(d.description), query))
      && forall i :: 0 <= i < |r| && i != 1 && i != 2 ==> !HasHighlight(r[i])
  {
    var r := Block(query, appname, bucket, d);
    assert r[1].pieces == TitleRow(query, appname, bucket);
    assert r[2].pieces == DescriptionRow(query, d.description);
  }

  /** A notes line is printed exactly when the app has notes, and it is the
      seventh line. */
  lemma BlockNotesLine(query: string, appname: string, bucket: string, d: Details)
    ensures var r := Block(query, appname, bucket, d);
      (exists i :: 0 <= i < |r| && IsNotesLine(r[i])) <==> d.notes.Some?
    ensures d.notes.Some? ==> IsNotesLine(Block(query, appname, bucket, d)[6])
  {
    var r := Block(query, appname, bucket, d);
    assert |"  notes: "| == 9;
    assert r[1].pieces[0] == Plain("  ");
    assert r[2].pieces[0] == Plain("  description: ");
    if d.notes.Some? {
      assert IsNotesLine(r[6]);
    }
  }
}
