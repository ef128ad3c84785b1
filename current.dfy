/** `extract_content_from_html` of main.py: the walk over the `mainbody`
    element and what each tagged element appends to the document. */
module CurrentTranscriber {
  import opened Wrappers
  import opened PyStrings
  import opened Html
  import opened Colour
  import opened Docx
  import opened Rules

  /** The names `find_all` collects under `mainbody` (main.py:51). */
  const Tags: set<string> := {"h1", "h2", "h3", "h4", "h5", "h6", "p", "b", "strong", "i", "em",
                              "ul", "ol", "li", "a", "span", "img"}

  /** The first `a` inside an item, as its text and `href`. */
  datatype Link = Link(text: string, href: Option<string>)

  function FirstLink(li: Node): Option<Link>
  {
    match FindFirst(li, "a")
    case Some(a) => Some(Link(GetText(a), Attr(a, "href")))
    case None => None
  }

  /** One direct `li` of a list, with the list's colour (main.py:93-114).
      Every item is styled `ListBullet`, under `ol` too. */
  function ItemOps(li: Node, colour: Option<Rgb>): Transcript
  {
    ItemRule(GetText(li), FirstLink(li), colour)
  }

  /** The three-way policy on the item's text and its first link. */
  function ItemRule(itemText: string, link: Option<Link>, colour: Option<Rgb>): Transcript
  {
    match link
    case Some(a) =>
      if Strip(itemText) != Strip(a.text) then
        Emit([ListItem(itemText, ListBullet, None)])
      else if a.text != "" && a.href.Some? && a.href.value != "" then
        Emit([ListItem("", ListBullet, None), Hyperlink(a.text, a.href.value, ColourVal(colour))])
      else Emit([])
    case None => Coloured(ListItem(itemText, ListBullet, None), colour)
  }

  function ItemTranscripts(items: seq<Node>, colour: Option<Rgb>): seq<Transcript>
  {
    seq(|items|, k requires 0 <= k < |items| => ItemOps(items[k], colour))
  }

  function ListOps(list: Node, colour: Option<Rgb>): Transcript
  {
    Chain(ItemTranscripts(ChildrenNamed(list, "li"), colour))
  }

  /** What one element reached by the walk appends (main.py:53-138): its own
      `style` colour is resolved first, then the element is handled by name. */
  function ElementOps(e: Node, imageExists: string -> bool): Transcript
    requires Named(e, Tags)
  {
    match StyleColour(e.attrs)
    case Err(f) => Transcript([], Some(f))
    case Ok(colour) => NamedOps(e, colour, imageExists)
  }

  /** The handling by name, once the colour is known. */
  function NamedOps(e: Node, colour: Option<Rgb>, imageExists: string -> bool): Transcript
    requires Named(e, Tags)
  {
    HeadingTest(e.name);
    if StartsWith(e.name, "h") then HeadingOps(e, colour)
    else if e.name in {"b", "strong"} then RunParagraphOps(e, true, false, colour)
    else if e.name in {"i", "em"} then RunParagraphOps(e, false, true, colour)
    else if e.name == "p" then
      if HasElementChild(e) then Emit([])
      else Coloured(Paragraph(GetText(e), false, false, None), colour)
    else if e.name in {"ul", "ol"} then ListOps(e, colour)
    else if e.name == "span" then RunParagraphOps(e, false, false, colour)
    else if e.name == "img" then ImageOps(e, imageExists)
    else Emit([])
  }

  function ElementTranscripts(elems: seq<Node>, imageExists: string -> bool): seq<Transcript>
    requires forall k :: 0 <= k < |elems| ==> Named(elems[k], Tags)
  {
    seq(|elems|, k requires 0 <= k < |elems| => ElementOps(elems[k], imageExists))
  }

  /** The whole file: nothing without a `mainbody` element, otherwise every
      tagged descendant of it in document order. */
  function FileOps(page: Node, imageExists: string -> bool): Transcript
  {
    match FindById(page, "mainbody")
    case None => Emit([])
    case Some(body) => Chain(ElementTranscripts(FindAll(body, Tags), imageExists))
  }

  method TranscribeItem(doc: Document, li: Node, colour: Option<Rgb>) returns (failure: Option<Failure>)
    requires doc.Valid()
    modifies doc
    ensures doc.Valid()
    ensures doc.ops == old(doc.ops) + ItemOps(li, colour).ops && failure == ItemOps(li, colour).failure
  {
    failure := None;
    var itemText := GetText(li);
    var link := FirstLink(li);
    if link.Some? && Strip(itemText) != Strip(link.value.text) {
      doc.AddListItem(itemText, ListBullet);
    } else if link.Some? {
      var linkText, linkHref := link.value.text, link.value.href;
      if linkText != "" && linkHref.Some? && linkHref.value != "" {
        doc.AddListItem("", ListBullet);
        doc.AddHyperlink(linkText, linkHref.value, colour);
      }
    } else {
      doc.AddListItem(itemText, ListBullet);
      failure := ApplyColour(doc, colour);
    }
  }

  /** The loop over `element.find_all("li", recursive=False)` (main.py:93). */
  method TranscribeList(doc: Document, list: Node, colour: Option<Rgb>) returns (failure: Option<Failure>)
    requires doc.Valid()
    modifies doc
    ensures doc.Valid()
    ensures doc.ops == old(doc.ops) + ListOps(list, colour).ops && failure == ListOps(list, colour).failure
  {
    var items := ChildrenNamed(list, "li");
    ghost var ts := ItemTranscripts(items, colour);
    var i := 0;
    while i < |items|
      invariant 0 <= i <= |items| && doc.Valid()
      invariant doc.ops == old(doc.ops) + Chain(ts[..i]).ops && Chain(ts[..i]).failure.None?
    {
      failure := TranscribeItem(doc, items[i], colour);
      ChainStep(old(doc.ops), ts, i, doc.ops);
      if failure.Some? {
        return;
      }
      i := i + 1;
    }
    assert ts[..|items|] == ts;
    failure := None;
  }

  method TranscribeElement(doc: Document, e: Node, imageExists: string -> bool) returns (failure: Option<Failure>)
    requires doc.Valid() && Named(e, Tags)
    modifies doc
    ensures doc.Valid()
    ensures doc.ops == old(doc.ops) + ElementOps(e, imageExists).ops
    ensures failure == ElementOps(e, imageExists).failure
  {
    failure := None;
    var resolved := ResolveStyleColour(e.attrs);
    if resolved.Err? {
      return Some(resolved.failure);
    }
    var colour := resolved.value;
    HeadingTest(e.name);
    if StartsWith(e.name, "h") {
      failure := EmitHeading(doc, e, colour);
    } else if e.name in {"b", "strong"} {
      doc.AddRunParagraph(GetText(e), true, false, colour);
    } else if e.name in {"i", "em"} {
      doc.AddRunParagraph(GetText(e), false, true, colour);
    } else if e.name == "p" {
      if !HasElementChild(e) {
        doc.AddParagraph(GetText(e));
        failure := ApplyColour(doc, colour);
      }
    } else if e.name in {"ul", "ol"} {
      failure := TranscribeList(doc, e, colour);
    } else if e.name == "span" {
      doc.AddRunParagraph(GetText(e), false, false, colour);
    } else if e.name == "img" {
      EmitImage(doc, e, imageExists);
    }
  }

  /** The loop over `content_div.find_all(tags_to_extract)`. */
  method TranscribeElements(doc: Document, elems: seq<Node>, imageExists: string -> bool) returns (failure: Option<Failure>)
    requires doc.Valid() && forall k :: 0 <= k < |elems| ==> Named(elems[k], Tags)
    modifies doc
    ensures doc.Valid()
    ensures doc.ops == old(doc.ops) + Chain(ElementTranscripts(elems, imageExists)).ops
    ensures failure == Chain(ElementTranscripts(elems, imageExists)).failure
  {
    ghost var ts := ElementTranscripts(elems, imageExists);
    var i := 0;
    while i < |elems|
      invariant 0 <= i <= |elems| && doc.Valid()
      invariant doc.ops == old(doc.ops) + Chain(ts[..i]).ops && Chain(ts[..i]).failure.None?
    {
      failure := TranscribeElement(doc, elems[i], imageExists);
      ChainStep(old(doc.ops), ts, i, doc.ops);
      if failure.Some? {
        return;
      }
      i := i + 1;
    }
    assert ts[..|elems|] == ts;
    failure := None;
  }

  /** `extract_content_from_html(file_path, doc)` on the parsed page: `found`
      is false where the source prints its missing-`mainbody` warning. */
  method ExtractContent(doc: Document, page: Node, imageExists: string -> bool) returns (found: bool, failure: Option<Failure>)
    requires doc.Valid()
    modifies doc
    ensures doc.Valid()
    ensures found == FindById(page, "mainbody").Some?
    ensures doc.ops == old(doc.ops) + FileOps(page, imageExists).ops
    ensures failure == FileOps(page, imageExists).failure
  {
    var body := FindById(page, "mainbody");
    if body.None? {
      return false, None;
    }
    found := true;
    failure := TranscribeElements(doc, FindAll(body.value, Tags), imageExists);
  }

  /** What a list may append: items styled `ListBullet` (under `ol` too) that
      carry no colour or the list element's own, and hyperlink runs in the
      list element's colour. */
  predicate ListPieceOp(op: Op, colour: Option<Rgb>)
  {
    || (op.ListItem? && op.style == ListBullet && (op.colour.None? || op.colour == colour))
    || (op.Hyperlink? && op.colourVal == ColourVal(colour))
  }

  lemma ListOpsShape(list: Node, colour: Option<Rgb>)
    ensures var t := ListOps(list, colour);
      forall j :: 0 <= j < |t.ops| ==> ListPieceOp(t.ops[j], colour)
  {
    var ts := ItemTranscripts(ChildrenNamed(list, "li"), colour);
    ChainOpsFromPieces(ts, op => ListPieceOp(op, colour));
  }

  /** An item whose first link carries all of its text, the link's text and
      `href` being non-empty. */
  predicate LinkOnly(li: Node)
  {
    var l := FirstLink(li);
    l.Some? && Strip(GetText(li)) == Strip(l.value.text)
    && l.value.text != "" && l.value.href.Some? && l.value.href.value != ""
  }

  /** What a link-only item becomes: an empty bullet, then its link. */
  function LinkPair(li: Node, colour: Option<Rgb>): seq<Op>
    requires LinkOnly(li)
  {
    var l := FirstLink(li).value;
    [ListItem("", ListBullet, None), Hyperlink(l.text, l.href.value, ColourVal(colour))]
  }

  /** Link-only items, one pair after the other. */
  function LinkPairs(items: seq<Node>, colour: Option<Rgb>): (ops: seq<Op>)
    requires forall k :: 0 <= k < |items| ==> LinkOnly(items[k])
    ensures |ops| == 2 * |items|
  {
    if items == [] then [] else LinkPairs(items[..|items| - 1], colour) + LinkPair(items[|items| - 1], colour)
  }

  lemma LinkOnlyItem(li: Node, colour: Option<Rgb>)
    requires LinkOnly(li)
    ensures ItemOps(li, colour) == Emit(LinkPair(li, colour))
  {
  }

  /** A list of link-only items never raises and yields two ops per item:
      an empty bullet and the item's link, in the list element's colour. */
  lemma {:induction false} LinkOnlyList(items: seq<Node>, colour: Option<Rgb>)
    requires forall k :: 0 <= k < |items| ==> LinkOnly(items[k])
    ensures Chain(ItemTranscripts(items, colour)) == Emit(LinkPairs(items, colour))
    decreases |items|
  {
    if items != [] {
      var init, last := items[..|items| - 1], items[|items| - 1];
      LinkOnlyList(init, colour);
      LinkOnlyItem(last, colour);
      var ts := ItemTranscripts(items, colour);
      assert ts[..|items| - 1] == ItemTranscripts(init, colour);
      ChainEmitSnoc(ts, LinkPairs(init, colour), LinkPair(last, colour));
    }
  }

  /** An item whose first link does not carry all of its text: one
      uncoloured bullet with the whole item text, which never raises. */
  predicate Mixed(li: Node)
  {
    FirstLink(li).Some? && Strip(GetText(li)) != Strip(FirstLink(li).value.text)
  }

  lemma MixedItem(li: Node, colour: Option<Rgb>)
    requires Mixed(li)
    ensures ItemOps(li, colour) == Emit([ListItem(GetText(li), ListBullet, None)])
  {
  }

  /** A link-only item whose link text or `href` is empty writes nothing. */
  lemma EmptyLinkItem(li: Node, colour: Option<Rgb>)
    requires FirstLink(li).Some? && !Mixed(li) && !LinkOnly(li)
    ensures ItemOps(li, colour) == Emit([])
  {
  }

  /** An item without a link: one bullet with its text in the list's colour,
      raising exactly when the list is coloured and the text is empty. */
  lemma PlainItem(li: Node, colour: Option<Rgb>)
    requires FirstLink(li).None?
    ensures var t := ItemOps(li, colour);
      && (t.failure.Some? <==> colour.Some? && GetText(li) == "")
      && t.ops == [ListItem(GetText(li), ListBullet, if t.failure.None? then colour else None)]
  {
  }

  /** The bullets a list of items without links writes when none raises. */
  function PlainBullets(items: seq<Node>, colour: Option<Rgb>): (ops: seq<Op>)
    ensures |ops| == |items|
  {
    seq(|items|, k requires 0 <= k < |items| => ListItem(GetText(items[k]), ListBullet, colour))
  }

  /** A list of items without links writes one bullet per item in order, in
      the list's colour; it raises exactly when it is coloured and some
      item has no text. */
  lemma {:induction false} PlainList(items: seq<Node>, colour: Option<Rgb>)
    requires forall k :: 0 <= k < |items| ==> FirstLink(items[k]).None?
    ensures var t := Chain(ItemTranscripts(items, colour));
      && (t.failure.None? <==> colour.None? || forall k :: 0 <= k < |items| ==> GetText(items[k]) != "")
      && (t.failure.None? ==> t.ops == PlainBullets(items, colour))
    decreases |items|
  {
    var ts := ItemTranscripts(items, colour);
    if items != [] {
      var init := items[..|items| - 1];
      PlainList(init, colour);
      assert ts[..|ts| - 1] == ItemTranscripts(init, colour);
      var t0 := Chain(ItemTranscripts(init, colour));
      var last := items[|items| - 1];
      PlainItem(last, colour);
      if t0.failure.None? {
        assert PlainBullets(items, colour) == PlainBullets(init, colour) + [ListItem(GetText(last), ListBullet, colour)];
      } else {
        var k :| 0 <= k < |init| && GetText(init[k]) == "";
        assert GetText(items[k]) == "";
      }
    }
  }

  /** A list whose items all mix a link with other text writes one
      uncoloured bullet per item, with the item's text, and never raises. */
  lemma {:induction false} MixedList(items: seq<Node>, colour: Option<Rgb>)
    requires forall k :: 0 <= k < |items| ==> Mixed(items[k])
    ensures Chain(ItemTranscripts(items, colour)) == Emit(PlainBullets(items, None))
    decreases |items|
  {
    if items != [] {
      var init, last := items[..|items| - 1], items[|items| - 1];
      MixedList(init, colour);
      MixedItem(last, colour);
      BulletSnoc(items, colour);
    }
  }

  /** The last item's bullet after those of the items before it. */
  lemma BulletSnoc(items: seq<Node>, colour: Option<Rgb>)
    requires items != []
    requires Chain(ItemTranscripts(items[..|items| - 1], colour)) == Emit(PlainBullets(items[..|items| - 1], None))
    requires ItemOps(items[|items| - 1], colour) == Emit([ListItem(GetText(items[|items| - 1]), ListBullet, None)])
    ensures Chain(ItemTranscripts(items, colour)) == Emit(PlainBullets(items, None))
  {
    var init, last := items[..|items| - 1], items[|items| - 1];
    var ts := ItemTranscripts(items, colour);
    assert ts[..|items| - 1] == ItemTranscripts(init, colour);
    assert PlainBullets(items, None) == PlainBullets(init, None) + [ListItem(GetText(last), ListBullet, None)];
    ChainEmitSnoc(ts, PlainBullets(init, None), [ListItem(GetText(last), ListBullet, None)]);
  }

  /** Every list item `main.py` writes is bulleted. */
  lemma ElementItemsBulleted(e: Node, imageExists: string -> bool)
    requires Named(e, Tags)
    ensures var t := ElementOps(e, imageExists);
      forall j :: 0 <= j < |t.ops| ==> (t.ops[j].ListItem? ==> t.ops[j].style == ListBullet)
  {
    match StyleColour(e.attrs)
    case Err(_) =>
    case Ok(colour) => NamedItemsBulleted(e, colour, imageExists);
  }

  lemma NamedItemsBulleted(e: Node, colour: Option<Rgb>, imageExists: string -> bool)
    requires Named(e, Tags)
    ensures var t := NamedOps(e, colour, imageExists);
      forall j :: 0 <= j < |t.ops| ==> (t.ops[j].ListItem? ==> t.ops[j].style == ListBullet)
  {
    var t := NamedOps(e, colour, imageExists);
    if e.name in {"ul", "ol"} {
      ListsWriteListOps(e, colour, imageExists);
      ListOpsShape(e, colour);
    } else {
      OthersWriteNoItems(e, colour, imageExists);
      forall j | 0 <= j < |t.ops|
        ensures !t.ops[j].ListItem?
      {
        assert t.ops[j] in t.ops;
      }
    }
  }

  lemma ListsWriteListOps(e: Node, colour: Option<Rgb>, imageExists: string -> bool)
    requires Named(e, Tags) && e.name in {"ul", "ol"}
    ensures NamedOps(e, colour, imageExists) == ListOps(e, colour)
  {
    HeadingTest(e.name);
    assert e.name[0] != 'h';
  }

  /** Only lists write list items. */
  lemma OthersWriteNoItems(e: Node, colour: Option<Rgb>, imageExists: string -> bool)
    requires Named(e, Tags) && e.name !in {"ul", "ol"}
    ensures forall op :: op in NamedOps(e, colour, imageExists).ops ==> !op.ListItem?
  {
    HeadingTest(e.name);
  }

  lemma FileItemsBulleted(page: Node, imageExists: string -> bool)
    ensures var t := FileOps(page, imageExists);
      forall j :: 0 <= j < |t.ops| ==> (t.ops[j].ListItem? ==> t.ops[j].style == ListBullet)
  {
    match FindById(page, "mainbody")
    case None =>
    case Some(body) =>
      var elems := FindAll(body, Tags);
      forall k | 0 <= k < |elems|
        ensures var ops := ElementOps(elems[k], imageExists).ops;
          forall j :: 0 <= j < |ops| ==> (ops[j].ListItem? ==> ops[j].style == ListBullet)
      {
        ElementItemsBulleted(elems[k], imageExists);
      }
      ChainOpsFromPieces(ElementTranscripts(elems, imageExists), (op: Op) => op.ListItem? ==> op.style == ListBullet);
  }

  /** `hN` writes one heading of level N with the element's text; the
      colour raises only on an empty heading (main.py:62-66). */
  lemma HeadingRule(e: Node, colour: Option<Rgb>, imageExists: string -> bool)
    requires Named(e, Tags) && e.name in HeadingNames
    ensures NamedOps(e, colour, imageExists) == HeadingOps(e, colour)
  {
    HeadingTest(e.name);
  }

  /** `b`/`strong` and `i`/`em` write one paragraph with the element's text,
      bold or italic and never both, in the element's colour (main.py:69-82). */
  lemma EmphasisRule(e: Node, colour: Option<Rgb>, imageExists: string -> bool)
    requires Named(e, Tags) && e.name in {"b", "strong", "i", "em"}
    ensures var t := NamedOps(e, colour, imageExists);
      && t.failure.None?
      && t.ops == [Paragraph(GetText(e), e.name in {"b", "strong"}, e.name in {"i", "em"}, colour)]
  {
    HeadingTest(e.name);
    assert e.name[0] != 'h';
  }

  /** `p` writes its text as one plain paragraph when it has no child
      element, and nothing otherwise (main.py:85-89). */
  lemma ParagraphRule(e: Node, colour: Option<Rgb>, imageExists: string -> bool)
    requires Named(e, Tags) && e.name == "p"
    ensures var t := NamedOps(e, colour, imageExists);
      && (HasElementChild(e) ==> t == Emit([]))
      && (!HasElementChild(e) ==>
            && |t.ops| == 1 && t.ops[0].Paragraph? && t.ops[0].text == GetText(e)
            && !t.ops[0].bold && !t.ops[0].italic
            && (t.failure.Some? <==> colour.Some? && GetText(e) == "")
            && (t.failure.None? ==> t.ops[0].colour == colour))
  {
    HeadingTest(e.name);
    assert e.name[0] != 'h';
  }

  /** `span` writes one plain paragraph with its text in its colour, and
      never raises (main.py:125-129). */
  lemma SpanRule(e: Node, colour: Option<Rgb>, imageExists: string -> bool)
    requires Named(e, Tags) && e.name == "span"
    ensures NamedOps(e, colour, imageExists) == Emit([Paragraph(GetText(e), false, false, colour)])
  {
    HeadingTest(e.name);
    assert e.name[0] != 'h';
  }

  /** The walk reaches `li` and `a` elements but writes nothing for them. */
  lemma ItemsAndLinksAddNothing(e: Node, imageExists: string -> bool)
    requires Named(e, Tags) && e.name in {"li", "a"}
    ensures ElementOps(e, imageExists).ops == []
  {
  }
}
