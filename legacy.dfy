/** `extract_content_from_html` of gethtmlcontent01.py, the earlier rules:
    no `<p>` in the walk, bulleted and numbered lists, standalone links. */
module LegacyTranscriber {
  import opened Wrappers
  import opened PyStrings
  import opened Html
  import opened Colour
  import opened Docx
  import opened Rules

  /** The names `find_all` collects under `mainbody` (gethtmlcontent01.py:46). */
  const Tags: set<string> := {"h1", "h2", "h3", "h4", "h5", "h6", "b", "strong", "i", "em",
                              "ul", "ol", "li", "a", "span", "img"}

  /** `ul` is bulleted, `ol` numbered. */
  function StyleOf(name: string): ListStyle
  {
    if name == "ul" then ListBullet else ListNumber
  }

  /** One direct `li`: `add_paragraph(li.get_text(), style=...)`, then the
      list's colour on its first run. */
  function ItemOps(li: Node, style: ListStyle, colour: Option<Rgb>): Transcript
  {
    Coloured(ListItem(GetText(li), style, None), colour)
  }

  function ItemTranscripts(items: seq<Node>, style: ListStyle, colour: Option<Rgb>): seq<Transcript>
  {
    seq(|items|, k requires 0 <= k < |items| => ItemOps(items[k], style, colour))
  }

  function ListOps(list: Node, style: ListStyle, colour: Option<Rgb>): Transcript
  {
    Chain(ItemTranscripts(ChildrenNamed(list, "li"), style, colour))
  }

  /** A standalone `<a>`: an empty paragraph holding one uncoloured hyperlink
      run, when both its text and its `href` are non-empty. */
  function AnchorOps(a: Node): Transcript
  {
    if GetText(a) != "" && HasHref(a) then
      Emit([Paragraph("", false, false, None), Hyperlink(GetText(a), Attr(a, "href").value, None)])
    else Emit([])
  }

  /** What one element reached by the walk appends (gethtmlcontent01.py:48-105). */
  function ElementOps(e: Node, imageExists: string -> bool): Transcript
    requires Named(e, Tags)
  {
    match StyleColour(e.attrs)
    case Err(f) => Transcript([], Some(f))
    case Ok(colour) =>
      HeadingTest(e.name);
      if StartsWith(e.name, "h") then HeadingOps(e, colour)
      else if e.name in {"b", "strong"} then RunParagraphOps(e, true, false, colour)
      else if e.name in {"i", "em"} then RunParagraphOps(e, false, true, colour)
      else if e.name in {"ul", "ol"} then ListOps(e, StyleOf(e.name), colour)
      else if e.name == "a" then AnchorOps(e)
      else if e.name == "span" then RunParagraphOps(e, false, false, colour)
      else if e.name == "img" then ImageOps(e, imageExists)
      else Emit([])
  }

  function ElementTranscripts(elems: seq<Node>, imageExists: string -> bool): seq<Transcript>
    requires forall k :: 0 <= k < |elems| ==> Named(elems[k], Tags)
  {
    seq(|elems|, k requires 0 <= k < |elems| => ElementOps(elems[k], imageExists))
  }

  /** The whole file: nothing without a `mainbody` element, otherwise every
      tagged descendant of it in document order. */
  function FileOps(page: Node, imageExists: string -> bool): Transcript
  {
    match FindById(page, "mainbody")
    case None => Emit([])
    case Some(body) => Chain(ElementTranscripts(FindAll(body, Tags), imageExists))
  }

  /** The list items a list emits when no item fails to take the colour. */
  function ItemParagraphs(items: seq<Node>, style: ListStyle, colour: Option<Rgb>): (ops: seq<Op>)
    ensures |ops| == |items|
  {
    seq(|items|, k requires 0 <= k < |items| => ListItem(GetText(items[k]), style, colour))
  }

  /** A list emits one item per direct `li`, in order, in the list's style
      and colour, with the whole `li` text; it raises exactly when it is
      coloured and some item has no text, and then stops at the first such. */
  lemma {:induction false} ListShape(items: seq<Node>, style: ListStyle, colour: Option<Rgb>)
    ensures var t := Chain(ItemTranscripts(items, style, colour));
      && (t.failure.None? <==> colour.None? || forall k :: 0 <= k < |items| ==> GetText(items[k]) != "")
      && (t.failure.None? ==> t.ops == ItemParagraphs(items, style, colour))
    decreases |items|
  {
    var ts := ItemTranscripts(items, style, colour);
    if items != [] {
      var init := items[..|items| - 1];
      ListShape(init, style, colour);
      assert ts[..|ts| - 1] == ItemTranscripts(init, style, colour);
      var t0 := Chain(ItemTranscripts(init, style, colour));
      var last := items[|items| - 1];
      if t0.failure.None? {
        assert ItemParagraphs(items, style, colour)
          == ItemParagraphs(init, style, colour) + [ListItem(GetText(last), style, colour)];
      } else {
        var k :| 0 <= k < |init| && GetText(init[k]) == "";
        assert GetText(items[k]) == "";
      }
    }
  }

  /** `ul` lists are bulleted and `ol` lists numbered, item for item. */
  lemma ListStyles(list: Node, colour: Option<Rgb>)
    requires list.Elem? && list.name in {"ul", "ol"}
    ensures var t := ListOps(list, StyleOf(list.name), colour);
      forall j :: 0 <= j < |t.ops| ==>
        (t.ops[j].ListItem? && (t.ops[j].style == ListBullet <==> list.name == "ul"))
  {
    var items := ChildrenNamed(list, "li");
    var style := StyleOf(list.name);
    var ts := ItemTranscripts(items, style, colour);
    ChainOpsFromPieces(ts, (op: Op) => op.ListItem? && op.style == style);
  }

  /** Once the element's colour is resolved, a heading is handled by the
      shared heading rule (gethtmlcontent01.py:57-61). */
  lemma HeadingRule(e: Node, colour: Option<Rgb>, imageExists: string -> bool)
    requires Named(e, Tags) && e.name in HeadingNames && StyleColour(e.attrs) == Ok(colour)
    ensures ElementOps(e, imageExists) == HeadingOps(e, colour)
  {
    HeadingTest(e.name);
  }

  /** `b`/`strong` and `i`/`em` write one paragraph with the element's text,
      bold or italic and never both, in the element's colour
      (gethtmlcontent01.py:62-73). */
  lemma EmphasisRule(e: Node, colour: Option<Rgb>, imageExists: string -> bool)
    requires Named(e, Tags) && e.name in {"b", "strong", "i", "em"} && StyleColour(e.attrs) == Ok(colour)
    ensures ElementOps(e, imageExists) == Emit([Paragraph(GetText(e), e.name in {"b", "strong"}, e.name in {"i", "em"}, colour)])
  {
    HeadingTest(e.name);
    assert e.name[0] != 'h';
  }

  /** `span` writes one plain paragraph with its text in its colour, and
      never raises (gethtmlcontent01.py:94-98). */
  lemma SpanRule(e: Node, colour: Option<Rgb>, imageExists: string -> bool)
    requires Named(e, Tags) && e.name == "span" && StyleColour(e.attrs) == Ok(colour)
    ensures ElementOps(e, imageExists) == Emit([Paragraph(GetText(e), false, false, colour)])
  {
    HeadingTest(e.name);
    assert e.name[0] != 'h';
  }

  /** A standalone link is an empty paragraph and an uncoloured hyperlink
      run, whatever its `style`, and only when its text and `href` are both
      non-empty (gethtmlcontent01.py:88-93). */
  lemma AnchorRule(e: Node, imageExists: string -> bool)
    requires Named(e, Tags) && e.name == "a" && StyleColour(e.attrs).Ok?
    ensures var t := ElementOps(e, imageExists);
      && t.failure.None?
      && (t.ops != [] <==> GetText(e) != "" && HasHref(e))
      && (t.ops != [] ==> t.ops == [Paragraph("", false, false, None), Hyperlink(GetText(e), Attr(e, "href").value, None)])
  {
    HeadingTest(e.name);
    assert e.name[0] != 'h';
  }

  method TranscribeItem(doc: Document, li: Node, style: ListStyle, colour: Option<Rgb>) returns (failure: Option<Failure>)
    requires doc.Valid()
    modifies doc
    ensures doc.Valid()
    ensures doc.ops == old(doc.ops) + ItemOps(li, style, colour).ops && failure == ItemOps(li, style, colour).failure
  {
    doc.AddListItem(GetText(li), style);
    failure := ApplyColour(doc, colour);
  }

  method TranscribeList(doc: Document, list: Node, style: ListStyle, colour: Option<Rgb>) returns (failure: Option<Failure>)
    requires doc.Valid()
    modifies doc
    ensures doc.Valid()
    ensures doc.ops == old(doc.ops) + ListOps(list, style, colour).ops && failure == ListOps(list, style, colour).failure
  {
    var items := ChildrenNamed(list, "li");
    ghost var ts := ItemTranscripts(items, style, colour);
    var i := 0;
    while i < |items|
      invariant 0 <= i <= |items| && doc.Valid()
      invariant doc.ops == old(doc.ops) + Chain(ts[..i]).ops && Chain(ts[..i]).failure.None?
    {
      failure := TranscribeItem(doc, items[i], style, colour);
      ChainStep(old(doc.ops), ts, i, doc.ops);
      if failure.Some? {
        return;
      }
      i := i + 1;
    }
    assert ts[..|items|] == ts;
    failure := None;
  }

  method TranscribeElement(doc: Document, e: Node, imageExists: string -> bool) returns (failure: Option<Failure>)
    requires doc.Valid() && Named(e, Tags)
    modifies doc
    ensures doc.Valid()
    ensures doc.ops == old(doc.ops) + ElementOps(e, imageExists).ops
    ensures failure == ElementOps(e, imageExists).failure
  {
    failure := None;
    var resolved := ResolveStyleColour(e.attrs);
    if resolved.Err? {
      return Some(resolved.failure);
    }
    var colour := resolved.value;
    HeadingTest(e.name);
    if StartsWith(e.name, "h") {
      failure := EmitHeading(doc, e, colour);
    } else if e.name in {"b", "strong"} {
      doc.AddRunParagraph(GetText(e), true, false, colour);
    } else if e.name in {"i", "em"} {
      doc.AddRunParagraph(GetText(e), false, true, colour);
    } else if e.name in {"ul", "ol"} {
      failure := TranscribeList(doc, e, StyleOf(e.name), colour);
    } else if e.name == "a" {
      var text, href := GetText(e), Attr(e, "href");
      if text != "" && href.Some? && href.value != "" {
        doc.AddParagraph("");
        doc.AddHyperlink(text, href.value, None);
      }
    } else if e.name == "span" {
      doc.AddRunParagraph(GetText(e), false, false, colour);
    } else if e.name == "img" {
      EmitImage(doc, e, imageExists);
    }
  }

  /** The loop over `mainbody.find_all(...)`. */
  method TranscribeElements(doc: Document, elems: seq<Node>, imageExists: string -> bool) returns (failure: Option<Failure>)
    requires doc.Valid() && forall k :: 0 <= k < |elems| ==> Named(elems[k], Tags)
    modifies doc
    ensures doc.Valid()
    ensures doc.ops == old(doc.ops) + Chain(ElementTranscripts(elems, imageExists)).ops
    ensures failure == Chain(ElementTranscripts(elems, imageExists)).failure
  {
    ghost var ts := ElementTranscripts(elems, imageExists);
    var i := 0;
    while i < |elems|
      invariant 0 <= i <= |elems| && doc.Valid()
      invariant doc.ops == old(doc.ops) + Chain(ts[..i]).ops && Chain(ts[..i]).failure.None?
    {
      failure := TranscribeElement(doc, elems[i], imageExists);
      ChainStep(old(doc.ops), ts, i, doc.ops);
      if failure.Some? {
        return;
      }
      i := i + 1;
    }
    assert ts[..|elems|] == ts;
    failure := None;
  }

  /** `extract_content_from_html(file_path, doc)` on the parsed page: `found`
      is false where the source prints its missing-`mainbody` warning. */
  method ExtractContent(doc: Document, page: Node, imageExists: string -> bool) returns (found: bool, failure: Option<Failure>)
    requires doc.Valid()
    modifies doc
    ensures doc.Valid()
    ensures found == FindById(page, "mainbody").Some?
    ensures doc.ops == old(doc.ops) + FileOps(page, imageExists).ops
    ensures failure == FileOps(page, imageExists).failure
  {
    var body := FindById(page, "mainbody");
    if body.None? {
      return false, None;
    }
    found := true;
    failure := TranscribeElements(doc, FindAll(body.value, Tags), imageExists);
  }
}
