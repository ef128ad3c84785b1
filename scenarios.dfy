/** Small pages worked through both walks: how nesting and the list-item
    policy of each version play out on concrete trees. */
module Scenarios {
  import opened Wrappers
  import opened Html
  import opened Colour
  import opened Docx
  import CurrentTranscriber
  import LegacyTranscriber

  /** A page whose `mainbody` holds one element. */
  function Body(content: Node): Node
  {
    Elem("div", map["id" := "mainbody"], [content])
  }

  function Page(content: Node): Node
  {
    Elem("html", map[], [Body(content)])
  }

  /** An element with one child finds that child, then what the child finds. */
  lemma FindAllOneChild(name: string, attrs: map<string, string>, c: Node, names: set<string>)
    ensures FindAll(Elem(name, attrs, [c]), names) == (if Named(c, names) then [c] else []) + FindAll(c, names)
  {
    assert [c][1..] == [];
    assert FindAllIn([], names) == [];
    assert FindAllIn([c], names) == (if Named(c, names) then [c] else []) + FindAll(c, names) + [];
  }

  lemma TextOneChild(name: string, attrs: map<string, string>, c: Node)
    ensures GetText(Elem(name, attrs, [c])) == GetText(c)
  {
    assert [c][1..] == [];
    assert ChildrenText([]) == "";
    assert ChildrenText([c]) == GetText(c) + ChildrenText([]);
    assert GetText(c) + "" == GetText(c);
  }

  /** The page's `mainbody` is its body, and the walk starts at its content. */
  lemma {:induction false} PageWalk(content: Node, names: set<string>)
    requires Attr(content, "id") != Some("mainbody")
    ensures FindById(Page(content), "mainbody") == Some(Body(content))
    ensures FindAll(Body(content), names) == (if Named(content, names) then [content] else []) + FindAll(content, names)
  {
    assert Attr(Body(content), "id") == Some("mainbody");
    FindAllOneChild("div", map["id" := "mainbody"], content, names);
  }

  lemma ChainOfTwo(ts: seq<Transcript>)
    requires |ts| == 2 && ts[0].failure.None?
    ensures Chain(ts) == Transcript(ts[0].ops + ts[1].ops, ts[1].failure)
  {
    ChainSnoc(ts, 0);
    ChainSnoc(ts, 1);
    assert ts[..2] == ts;
  }

  lemma ChainOfThree(ts: seq<Transcript>)
    requires |ts| == 3 && ts[0].failure.None? && ts[1].failure.None?
    ensures Chain(ts) == Transcript(ts[0].ops + ts[1].ops + ts[2].ops, ts[2].failure)
  {
    ChainSnoc(ts, 0);
    ChainSnoc(ts, 1);
    ChainSnoc(ts, 2);
    assert ts[..3] == ts;
  }

  const Bold: Node := Elem("b", map[], [Text("x")])
  const SpanOfBold: Node := Elem("span", map[], [Bold])

  lemma SpanOfBoldWalk(names: set<string>)
    requires "b" in names && "span" in names
    ensures FindById(Page(SpanOfBold), "mainbody") == Some(Body(SpanOfBold))
    ensures FindAll(Body(SpanOfBold), names) == [SpanOfBold, Bold]
  {
    assert FindAllIn([Text("x")], names) == [];
    FindAllOneChild("span", map[], Bold, names);
    PageWalk(SpanOfBold, names);
  }

  /** A `<b>` inside a `<span>` is written twice: once as the span's plain
      paragraph, once as its own bold paragraph. */
  lemma BoldInsideSpan(imageExists: string -> bool)
    ensures CurrentTranscriber.FileOps(Page(SpanOfBold), imageExists)
      == Emit([Paragraph("x", false, false, None), Paragraph("x", true, false, None)])
  {
    SpanOfBoldWalk(CurrentTranscriber.Tags);
    assert StyleColour(map[]) == Ok(None);
    TextOneChild("b", map[], Text("x"));
    TextOneChild("span", map[], Bold);
    var ts := CurrentTranscriber.ElementTranscripts([SpanOfBold, Bold], imageExists);
    ChainOfTwo(ts);
  }

  const Anchor: Node := Elem("a", map["href" := "u"], [Text("x")])
  const LinkItem: Node := Elem("li", map[], [Anchor])
  const LinkList: Node := Elem("ul", map[], [LinkItem])

  lemma LinkListWalk(names: set<string>)
    requires "ul" in names && "li" in names && "a" in names
    ensures FindById(Page(LinkList), "mainbody") == Some(Body(LinkList))
    ensures FindAll(Body(LinkList), names) == [LinkList, LinkItem, Anchor]
  {
    assert FindAllIn([Text("x")], names) == [];
    FindAllOneChild("li", map[], Anchor, names);
    FindAllOneChild("ul", map[], LinkItem, names);
    PageWalk(LinkList, names);
  }

  /** `main.py` writes a link-only item as an empty bullet holding the link,
      and nothing more for the `li` and the `a` themselves. */
  lemma CurrentLinkItem(imageExists: string -> bool)
    ensures CurrentTranscriber.FileOps(Page(LinkList), imageExists)
      == Emit([ListItem("", ListBullet, None), Hyperlink("x", "u", None)])
  {
    LinkListWalk(CurrentTranscriber.Tags);
    assert StyleColour(map[]) == Ok(None);
    assert FindFirst(LinkItem, "a") == Some(Anchor);
    TextOneChild("a", map["href" := "u"], Text("x"));
    TextOneChild("li", map[], Anchor);
    assert CurrentTranscriber.LinkOnly(LinkItem);
    CurrentTranscriber.LinkOnlyList([LinkItem], None);
    assert ChildrenNamed(LinkList, "li") == [LinkItem];
    var ts := CurrentTranscriber.ElementTranscripts([LinkList, LinkItem, Anchor], imageExists);
    ChainOfThree(ts);
  }

  /** gethtmlcontent01.py writes the same list as a bullet with the link's
      text, and then, for the `a` reached by the walk, an empty paragraph
      holding the link. */
  lemma LegacyLinkItem(imageExists: string -> bool)
    ensures LegacyTranscriber.FileOps(Page(LinkList), imageExists)
      == Emit([ListItem("x", ListBullet, None), Paragraph("", false, false, None), Hyperlink("x", "u", None)])
  {
    LinkListWalk(LegacyTranscriber.Tags);
    assert StyleColour(map[]) == Ok(None);
    assert StyleColour(map["href" := "u"]) == Ok(None);
    TextOneChild("a", map["href" := "u"], Text("x"));
    TextOneChild("li", map[], Anchor);
    assert ChildrenNamed(LinkList, "li") == [LinkItem];
    LegacyTranscriber.ListShape([LinkItem], ListBullet, None);
    var ts := LegacyTranscriber.ElementTranscripts([LinkList, LinkItem, Anchor], imageExists);
    ChainOfThree(ts);
  }

  const Para: Node := Elem("p", map[], [Text("x")])

  /** A page whose `mainbody` holds only a paragraph: main.py writes it as
      one plain paragraph. */
  lemma CurrentParagraphPage(imageExists: string -> bool)
    ensures CurrentTranscriber.FileOps(Page(Para), imageExists) == Emit([Paragraph("x", false, false, None)])
  {
    assert FindAllIn([Text("x")], CurrentTranscriber.Tags) == [];
    PageWalk(Para, CurrentTranscriber.Tags);
    assert StyleColour(map[]) == Ok(None);
    assert !HasElementChild(Para);
    TextOneChild("p", map[], Text("x"));
    var ts := CurrentTranscriber.ElementTranscripts([Para], imageExists);
    ChainSnoc(ts, 0);
    assert ts[..1] == ts;
  }

  /** gethtmlcontent01.py, whose walk does not look for `p`, writes nothing
      for the same page. */
  lemma LegacyParagraphPage(imageExists: string -> bool)
    ensures LegacyTranscriber.FileOps(Page(Para), imageExists) == Emit([])
  {
    assert FindAllIn([Text("x")], LegacyTranscriber.Tags) == [];
    PageWalk(Para, LegacyTranscriber.Tags);
    assert LegacyTranscriber.ElementTranscripts([], imageExists) == [];
  }
}
