/** The post-extraction logic of `internal/utils/fetcher.go`: course-type blocks
    built from the catalog's "Course type" cell, and the Markdown text produced
    for one labelled table cell. Documents are given as abstract node lists;
    selector matching is not modelled. */
module Fetcher {
  import opened Wrappers
  import opened Strings
  import opened Lists

  // ---------------------------------------------------------------------------
  // Course-type blocks

  /** One top-level course type plus the hidden lines that expand it. */
  datatype CourseTypeBlock = CourseTypeBlock(title: string, expansions: seq<string>)

  /** A child element of the studiebox `<div>`: an `expander` span, or any other
      child (normally a hidden span), each with its raw text content. */
  datatype Child = Expander(text: string) | Hidden(text: string)

  /** A `<div>` found in the course-type cell, in document order. */
  datatype Div = StudieboxDiv(children: seq<Child>) | PlainDiv(text: string)

  /** `GetSectionName` of a block: the fixed header followed by the title. */
  function GetSectionName(b: CourseTypeBlock): (r: string)
    ensures HasPrefix(r, "Course Type: ")
    ensures r[13..] == b.title
  {
    "Course Type: " + b.title
  }

  /** `GetSectionValue` of a block: its expansions joined by ", ". */
  function GetSectionValue(b: CourseTypeBlock): (r: string)
    ensures |b.expansions| == 0 ==> r == ""
    ensures |b.expansions| > 0 ==> r == Join(b.expansions, ", ")
    ensures |b.expansions| > 0 && b.expansions[0] != "" ==> r != ""
  {
    if |b.expansions| == 0 then "" else Join(b.expansions, ", ")
  }

  /** For a block the parser can produce, the value is empty exactly when the
      block has no expansions. */
  lemma SectionValueEmptyIff(b: CourseTypeBlock)
    requires WellFormed(b)
    ensures GetSectionValue(b) == "" <==> |b.expansions| == 0
  {
    if |b.expansions| > 0 {
      assert b.expansions[0] != "";
    }
  }

  /** `GetSectionInline` of a block: never inline. */
  function GetSectionInline(b: CourseTypeBlock): (r: bool)
    ensures !r
  {
    false
  }

  /** The message Go's `SetInLine` panics with. */
  const InlineUnsupported := "CourseTypeBlock does not support inline formatting"

  /** `SetInLine` of a block always fails; the panic becomes an error value. */
  function SetInLine(b: CourseTypeBlock, isInline: bool): (r: Result<CourseTypeBlock, string>)
    ensures r == Failure(InlineUnsupported)
  {
    Failure(InlineUnsupported)
  }

  /** The text of a hidden child is dropped when it mentions "see more" in any letter case. */
  predicate IsSeeMore(t: string) {
    Contains(ToLower(t), "see more")
  }

  /** The child starts a new block. */
  predicate Opens(c: Child) {
    c.Expander? && TrimSpace(c.text) != ""
  }

  /** The child contributes an expansion when a block is open. */
  predicate Kept(c: Child) {
    c.Hidden? && TrimSpace(c.text) != "" && !IsSeeMore(TrimSpace(c.text))
  }

  /** A block as the parser can produce it: a non-empty title and expansions that
      are non-empty and free of "see more". */
  predicate WellFormed(b: CourseTypeBlock) {
    && b.title != ""
    && forall j :: 0 <= j < |b.expansions| ==>
         b.expansions[j] != "" && !IsSeeMore(b.expansions[j])
  }

  predicate AllWellFormed(bs: seq<CourseTypeBlock>) {
    forall b :: b in bs ==> WellFormed(b)
  }

  function Titles(bs: seq<CourseTypeBlock>): (ts: seq<string>)
    ensures |ts| == |bs|
    ensures forall i :: 0 <= i < |bs| ==> ts[i] == bs[i].title
  {
    seq(|bs|, i requires 0 <= i < |bs| => bs[i].title)
  }

  /** The trimmed texts of the opening expanders, in order. */
  function OpenerTitles(cs: seq<Child>): seq<string> {
    if |cs| == 0 then []
    else OpenerTitles(cs[..|cs| - 1])
         + (if Opens(cs[|cs| - 1]) then [TrimSpace(cs[|cs| - 1].text)] else [])
  }

  /** One iteration of the loop over the studiebox children. The Go pointer
      `currentBlock` always designates the block appended last, and is nil
      exactly while no block has been appended. */
  function Step(blocks: seq<CourseTypeBlock>, c: Child): (r: seq<CourseTypeBlock>)
    ensures |r| == |blocks| + (if Opens(c) then 1 else 0)
    ensures Titles(r) == Titles(blocks) + (if Opens(c) then [TrimSpace(c.text)] else [])
    ensures AllWellFormed(blocks) ==> AllWellFormed(r)
  {
    var text := TrimSpace(c.text);
    if c.Expander? then
      if text != "" then blocks + [CourseTypeBlock(text, [])] else blocks
    else if |blocks| > 0 && text != "" then
      if !IsSeeMore(text) then
        var current := blocks[|blocks| - 1];
        var updated := current.(expansions := current.expansions + [text]);
        assert AllWellFormed(blocks) ==> AllWellFormed(blocks[..|blocks| - 1] + [updated]) by {
          if AllWellFormed(blocks) {
            assert current in blocks;
            assert forall b :: b in blocks[..|blocks| - 1] ==> b in blocks;
          }
        }
        blocks[..|blocks| - 1] + [updated]
      else blocks
    else blocks
  }

  /** The loop, started from the blocks `acc`. */
  function Fold(acc: seq<CourseTypeBlock>, cs: seq<Child>): (r: seq<CourseTypeBlock>)
    ensures Titles(r) == Titles(acc) + OpenerTitles(cs)
    ensures AllWellFormed(acc) ==> AllWellFormed(r)
  {
    if |cs| == 0 then acc else Step(Fold(acc, cs[..|cs| - 1]), cs[|cs| - 1])
  }

  /** Go's `parseStudiebox`. */
  function ParseStudiebox(cs: seq<Child>): (r: seq<CourseTypeBlock>)
    ensures Titles(r) == OpenerTitles(cs)
    ensures AllWellFormed(r)
  {
    Fold([], cs)
  }

  /** Running the loop over `p + q` is running it over `p`, then over `q`. */
  lemma {:induction false} FoldConcat(acc: seq<CourseTypeBlock>, p: seq<Child>, q: seq<Child>)
    ensures Fold(acc, p + q) == Fold(Fold(acc, p), q)
    decreases |q|
  {
    if |q| == 0 {
      assert p + q == p;
    } else {
      var q' := q[..|q| - 1];
      assert (p + q)[..|p + q| - 1] == p + q';
      assert (p + q)[|p + q| - 1] == q[|q| - 1];
      FoldConcat(acc, p, q');
    }
  }

  predicate HasOpener(cs: seq<Child>) {
    exists i :: 0 <= i < |cs| && Opens(cs[i])
  }

  lemma HasOpenerCons(cs: seq<Child>)
    requires |cs| > 0
    ensures HasOpener(cs) <==> Opens(cs[0]) || HasOpener(cs[1..])
  {
  }

  /** Without an opening expander the loop produces no block. */
  lemma {:induction false} FoldNoOpener(cs: seq<Child>)
    requires !HasOpener(cs)
    ensures Fold([], cs) == []
    decreases |cs|
  {
    if |cs| > 0 {
      var front := cs[..|cs| - 1];
      assert !HasOpener(front) by {
        forall i | 0 <= i < |front| ensures !Opens(front[i]) {
          assert front[i] == cs[i];
        }
      }
      FoldNoOpener(front);
      assert !Opens(cs[|cs| - 1]);
    }
  }

  /** Children before the first opening expander are dropped: hidden lines there
      have no block to attach to. */
  lemma LeadingChildrenDropped(p: seq<Child>, q: seq<Child>)
    requires !HasOpener(p)
    ensures ParseStudiebox(p + q) == ParseStudiebox(q)
  {
    FoldConcat([], p, q);
    FoldNoOpener(p);
  }

  /** A child that neither opens a block nor is kept (a blank expander, a blank
      or "see more" hidden line) changes nothing, wherever it stands. */
  lemma IgnoredChildIsNoOp(p: seq<Child>, c: Child, q: seq<Child>)
    requires !Opens(c) && !Kept(c)
    ensures ParseStudiebox(p + [c] + q) == ParseStudiebox(p + q)
  {
    FoldConcat([], p + [c], q);
    FoldConcat([], p, [c]);
    assert [c][..0] == [];
    assert Fold(Fold([], p), [c]) == Step(Fold(Fold([], p), []), c);
    FoldConcat([], p, q);
  }

  // Reference definition: each opening expander makes a block whose expansions
  // are the kept children after it, up to the next opening expander.

  /** The kept texts at the front of `cs`, up to the first opening expander. */
  function KeptUntilOpener(cs: seq<Child>): seq<string>
    decreases |cs|
  {
    if |cs| == 0 || Opens(cs[0]) then []
    else (if Kept(cs[0]) then [TrimSpace(cs[0].text)] else []) + KeptUntilOpener(cs[1..])
  }

  function ReferenceBlocks(cs: seq<Child>): seq<CourseTypeBlock>
    decreases |cs|
  {
    if |cs| == 0 then []
    else if Opens(cs[0]) then
      [CourseTypeBlock(TrimSpace(cs[0].text), KeptUntilOpener(cs[1..]))] + ReferenceBlocks(cs[1..])
    else ReferenceBlocks(cs[1..])
  }

  lemma {:induction false} ReferenceEmptyIff(cs: seq<Child>)
    ensures ReferenceBlocks(cs) == [] <==> !HasOpener(cs)
    decreases |cs|
  {
    if |cs| > 0 {
      ReferenceEmptyIff(cs[1..]);
      HasOpenerCons(cs);
    }
  }

  lemma {:induction false} KeptAppend(cs: seq<Child>, c: Child)
    ensures KeptUntilOpener(cs + [c]) ==
      if HasOpener(cs) || !Kept(c) then KeptUntilOpener(cs)
      else KeptUntilOpener(cs) + [TrimSpace(c.text)]
    decreases |cs|
  {
    if |cs| == 0 {
      assert [c][1..] == [];
    } else {
      var whole := cs + [c];
      assert whole[0] == cs[0];
      assert whole[1..] == cs[1..] + [c];
      KeptAppend(cs[1..], c);
      HasOpenerCons(cs);
    }
  }

  /** A step only touches the last block, or appends one. */
  lemma StepCons(h: CourseTypeBlock, rest: seq<CourseTypeBlock>, c: Child)
    ensures Step([h] + rest, c) ==
      if |rest| > 0 || Opens(c) then [h] + Step(rest, c)
      else if Kept(c) then [h.(expansions := h.expansions + [TrimSpace(c.text)])]
      else [h]
  {
    if |rest| > 0 {
      StepConsLonger(h, rest, c);
    } else {
      assert [h] + rest == [h];
      StepOne(h, c);
    }
  }

  lemma StepConsLonger(h: CourseTypeBlock, rest: seq<CourseTypeBlock>, c: Child)
    requires |rest| > 0
    ensures Step([h] + rest, c) == [h] + Step(rest, c)
  {
    var blocks := [h] + rest;
    assert blocks[..|blocks| - 1] == [h] + rest[..|rest| - 1];
    assert blocks[|blocks| - 1] == rest[|rest| - 1];
    if c.Hidden? && TrimSpace(c.text) != "" && !IsSeeMore(TrimSpace(c.text)) {
      var current := rest[|rest| - 1];
      var updated := current.(expansions := current.expansions + [TrimSpace(c.text)]);
      assert Step(blocks, c) == blocks[..|blocks| - 1] + [updated];
      assert Step(rest, c) == rest[..|rest| - 1] + [updated];
    }
  }

  lemma StepOne(h: CourseTypeBlock, c: Child)
    ensures Step([h], c) ==
      if Opens(c) then [h] + Step([], c)
      else if Kept(c) then [h.(expansions := h.expansions + [TrimSpace(c.text)])]
      else [h]
  {
    assert [h][..0] == [];
  }

  lemma StepEmpty(c: Child)
    requires !Opens(c)
    ensures Step([], c) == []
  {
  }

  /** The reference definition satisfies the loop's step equation. */
  lemma {:induction false} ReferenceAppend(cs: seq<Child>, c: Child)
    ensures ReferenceBlocks(cs + [c]) == Step(ReferenceBlocks(cs), c)
    decreases |cs|
  {
    var whole := cs + [c];
    if |cs| == 0 {
      assert whole == [c];
      assert [c][1..] == [];
    } else {
      var x := cs[0];
      var xs := cs[1..];
      assert whole[0] == x;
      assert whole[1..] == xs + [c];
      ReferenceAppend(xs, c);
      if Opens(x) {
        var rest := ReferenceBlocks(xs);
        var head := CourseTypeBlock(TrimSpace(x.text), KeptUntilOpener(xs));
        assert ReferenceBlocks(cs) == [head] + rest;
        assert ReferenceBlocks(whole) ==
          [CourseTypeBlock(TrimSpace(x.text), KeptUntilOpener(xs + [c]))] + Step(rest, c);
        KeptAppend(xs, c);
        ReferenceEmptyIff(xs);
        StepCons(head, rest, c);
        if |rest| == 0 && !Opens(c) {
          StepEmpty(c);
        }
      }
    }
  }

  /** The studiebox parser agrees with the reference definition: one block per
      opening expander, in order, holding exactly the kept children that follow
      it up to the next opening expander. */
  lemma {:induction false} ParseMatchesReference(cs: seq<Child>)
    ensures ParseStudiebox(cs) == ReferenceBlocks(cs)
    decreases |cs|
  {
    if |cs| > 0 {
      var front := cs[..|cs| - 1];
      ParseMatchesReference(front);
      ReferenceAppend(front, cs[|cs| - 1]);
      assert front + [cs[|cs| - 1]] == cs;
    }
  }

  /** The blocks one `<div>` of the course-type cell contributes. */
  function DivBlocks(d: Div): (r: seq<CourseTypeBlock>)
    ensures AllWellFormed(r)
  {
    match d
    case StudieboxDiv(children) => ParseStudiebox(children)
    case PlainDiv(text) =>
      var txt := TrimSpace(text);
      if txt != "" then [CourseTypeBlock(txt, [])] else []
  }

  /** The block assembly of Go's `ExtractCourseTypeAdvanced`: each `<div>`'s
      blocks, in document order. */
  function ExtractCourseTypeAdvanced(divs: seq<Div>): (r: seq<CourseTypeBlock>)
    ensures AllWellFormed(r)
  {
    FlatMapAll(divs, DivBlocks, WellFormed);
    FlatMap(divs, DivBlocks)
  }

  /** Document order is kept: the blocks of `a + b` are those of `a`, then those of `b`. */
  lemma ExtractConcat(a: seq<Div>, b: seq<Div>)
    ensures ExtractCourseTypeAdvanced(a + b) == ExtractCourseTypeAdvanced(a) + ExtractCourseTypeAdvanced(b)
  {
    FlatMapConcat(a, b, DivBlocks);
  }

  /** A plain `<div>` gives one block without expansions exactly when its text is not blank. */
  lemma PlainDivBlock(text: string)
    ensures ExtractCourseTypeAdvanced([PlainDiv(text)]) ==
      if IsBlank(text) then [] else [CourseTypeBlock(TrimSpace(text), [])]
  {
    assert [PlainDiv(text)][..0] == [];
    assert FlatMap([PlainDiv(text)], DivBlocks) == FlatMap([PlainDiv(text)][..0], DivBlocks) + DivBlocks(PlainDiv(text));
  }

  /** A studiebox `<div>` contributes exactly the blocks its parser builds. */
  lemma StudieboxDivBlocks(children: seq<Child>)
    ensures ExtractCourseTypeAdvanced([StudieboxDiv(children)]) == ParseStudiebox(children)
  {
    var d := StudieboxDiv(children);
    assert [d][..0] == [];
    assert FlatMap([d], DivBlocks) == FlatMap([d][..0], DivBlocks) + DivBlocks(d);
  }

  // ---------------------------------------------------------------------------
  // Text of one labelled cell

  /** An `<a>` element: its `href` attribute, if present, and its text. */
  datatype Anchor = Anchor(href: Option<string>, text: string)

  /** A child node of the selected cell. */
  datatype Node = TextNode(text: string) | AnchorNode(anchor: Anchor) | ElementNode(text: string)

  /** The anchor has a non-empty `href` and non-blank text, so it renders as a link. */
  predicate Linkable(a: Anchor) {
    a.href.Some? && a.href.value != "" && TrimSpace(a.text) != ""
  }

  const HomePage := "Home page"

  /** How an anchor inside the cell is written into the plain text. */
  function RenderAnchor(a: Anchor, fieldName: string): (r: string)
    ensures !Linkable(a) ==> r == TrimSpace(a.text)
    ensures Linkable(a) && HasPrefix(a.href.value, "mailto:") ==> r == "(" + a.href.value + ")"
    ensures Linkable(a) && !HasPrefix(a.href.value, "mailto:") ==>
      r == "[" + (if fieldName == HomePage then HomePage else TrimSpace(a.text)) + "](" + a.href.value + ")"
  {
    var text := TrimSpace(a.text);
    if a.href.Some? && a.href.value != "" && text != "" then
      var href := a.href.value;
      if HasPrefix(href, "mailto:") then "(" + href + ")"
      else if fieldName == HomePage then "[" + HomePage + "](" + href + ")"
      else "[" + text + "](" + href + ")"
    else text
  }

  /** For the "Home page" field, and for mail links, the anchor text is not shown:
      two linkable anchors with the same `href` render alike. */
  lemma LinkTextIgnored(href: string, t1: string, t2: string, fieldName: string)
    requires Linkable(Anchor(Some(href), t1)) && Linkable(Anchor(Some(href), t2))
    requires fieldName == HomePage || HasPrefix(href, "mailto:")
    ensures RenderAnchor(Anchor(Some(href), t1), fieldName) == RenderAnchor(Anchor(Some(href), t2), fieldName)
  {
  }

  /** What one child node adds to the builder: text and other elements their
      text, anchors their rendering. */
  function RenderNode(n: Node, fieldName: string): (r: string)
    ensures n.AnchorNode? ==> r == RenderAnchor(n.anchor, fieldName)
    ensures !n.AnchorNode? ==> r == n.text
  {
    match n
    case TextNode(text) => text
    case AnchorNode(a) => RenderAnchor(a, fieldName)
    case ElementNode(text) => text
  }

  /** The builder contents after visiting `nodes` in order. */
  function RenderContents(nodes: seq<Node>, fieldName: string): (r: string)
    ensures |nodes| == 0 ==> r == ""
    ensures |nodes| == 1 ==> r == RenderNode(nodes[0], fieldName)
    ensures |nodes| > 0 ==> HasPrefix(r, RenderNode(nodes[0], fieldName))
    ensures |nodes| > 0 ==> HasSuffix(r, RenderNode(nodes[|nodes| - 1], fieldName))
  {
    var f := n => RenderNode(n, fieldName);
    FlatMapEnds(nodes, f);
    FlatMap(nodes, f)
  }

  lemma RenderContentsConcat(a: seq<Node>, b: seq<Node>, fieldName: string)
    ensures RenderContents(a + b, fieldName) == RenderContents(a, fieldName) + RenderContents(b, fieldName)
  {
    FlatMapConcat(a, b, n => RenderNode(n, fieldName));
  }

  const LinkPrefix := "([Link to "

  /** A link found in the adjacent label cell. */
  function FormatLink(a: Anchor): (r: string)
    requires Linkable(a)
    ensures HasPrefix(r, LinkPrefix) && HasSuffix(r, "(" + a.href.value + "))")
    ensures |r| == |TrimSpace(a.text)| + |a.href.value| + 14
    ensures r[|LinkPrefix|..|r| - |a.href.value| - 3] == TrimSpace(a.text) + "]"
  {
    LinkPrefix + TrimSpace(a.text) + "](" + a.href.value + "))"
  }

  /** The links of the adjacent label cell, skipping anchors that are not linkable. */
  function CollectLinks(anchors: seq<Anchor>): (links: seq<string>)
    ensures |links| <= |anchors|
    ensures forall i :: 0 <= i < |links| ==> HasPrefix(links[i], LinkPrefix)
    ensures |links| == 0 <==> forall i :: 0 <= i < |anchors| ==> !Linkable(anchors[i])
  {
    if |anchors| == 0 then []
    else
      var front := anchors[..|anchors| - 1];
      var last := anchors[|anchors| - 1];
      var r := CollectLinks(front) + (if Linkable(last) then [FormatLink(last)] else []);
      assert forall i :: 0 <= i < |front| ==> front[i] == anchors[i];
      r
  }

  /** One anchor yields its link when it is linkable, and nothing otherwise. */
  lemma CollectLinksOne(a: Anchor)
    ensures CollectLinks([a]) == if Linkable(a) then [FormatLink(a)] else []
  {
    assert [a][..0] == [];
  }

  /** The link, if any, that one anchor contributes. */
  function LinkOf(a: Anchor): seq<string> {
    if Linkable(a) then [FormatLink(a)] else []
  }

  /** `CollectLinks` is the flat map of `LinkOf` over the anchors. */
  lemma {:induction false} CollectLinksIsFlatMap(anchors: seq<Anchor>)
    ensures CollectLinks(anchors) == FlatMap(anchors, LinkOf)
    decreases |anchors|
  {
    if |anchors| > 0 {
      CollectLinksIsFlatMap(anchors[..|anchors| - 1]);
    }
  }

  lemma CollectLinksConcat(a: seq<Anchor>, b: seq<Anchor>)
    ensures CollectLinks(a + b) == CollectLinks(a) + CollectLinks(b)
  {
    CollectLinksIsFlatMap(a + b);
    CollectLinksIsFlatMap(a);
    CollectLinksIsFlatMap(b);
    FlatMapConcat(a, b, LinkOf);
  }

  /** The tail of Go's `ExtractText`: the plain text, then the joined links. */
  function AssembleText(plainText: string, links: seq<string>): (r: string)
    ensures |links| == 0 ==> r == plainText
    ensures |links| > 0 ==> HasSuffix(r, Join(links, ", "))
    ensures |links| > 0 && plainText != "" ==>
      HasPrefix(r, plainText + " ") && |r| == |plainText| + 1 + |Join(links, ", ")|
    ensures |links| > 0 && plainText == "" ==> r == Join(links, ", ")
  {
    if |links| > 0 then
      var joined := Join(links, ", ");
      if plainText == "" then joined else plainText + " " + joined
    else plainText
  }

  /** Go's `ExtractText` once the cell's child nodes and the anchors of the
      adjacent label cell (empty when no adjacent selector is given) are known. */
  function ExtractText(nodes: seq<Node>, fieldName: string, adjacent: seq<Anchor>): (r: string)
    ensures CollectLinks(adjacent) == [] ==> r == TrimSpace(RenderContents(nodes, fieldName))
    ensures CollectLinks(adjacent) != [] ==> HasSuffix(r, Join(CollectLinks(adjacent), ", "))
    ensures CollectLinks(adjacent) != [] && TrimSpace(RenderContents(nodes, fieldName)) == "" ==>
      r == Join(CollectLinks(adjacent), ", ")
    ensures CollectLinks(adjacent) != [] && TrimSpace(RenderContents(nodes, fieldName)) != "" ==>
      && HasPrefix(r, TrimSpace(RenderContents(nodes, fieldName)) + " ")
      && |r| == |TrimSpace(RenderContents(nodes, fieldName))| + 1 + |Join(CollectLinks(adjacent), ", ")|
  {
    AssembleText(TrimSpace(RenderContents(nodes, fieldName)), CollectLinks(adjacent))
  }

  /** With no usable adjacent link the result carries no surrounding white space. */
  lemma ExtractTextTrimmed(nodes: seq<Node>, fieldName: string, adjacent: seq<Anchor>)
    requires forall i :: 0 <= i < |adjacent| ==> !Linkable(adjacent[i])
    ensures var r := ExtractText(nodes, fieldName, adjacent);
      r == TrimSpace(r)
  {
    TrimSpaceIdempotent(RenderContents(nodes, fieldName));
  }
}
