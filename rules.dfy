/** The per-element rules that main.py and gethtmlcontent01.py share word for
    word: headings, bold, italic and span runs, and images. */
module Rules {
  import opened Wrappers
  import opened PyStrings
  import opened Html
  import opened Colour
  import opened Docx

  const HeadingNames: set<string> := {"h1", "h2", "h3", "h4", "h5", "h6"}

  /** The names other than headings that either walk looks for. */
  const OtherNames: set<string> := {"p", "b", "strong", "i", "em", "ul", "ol", "li", "a", "span", "img"}

  /** `element.name.startswith("h")` singles out exactly the heading names
      among the names the walks look for. */
  lemma HeadingTest(name: string)
    requires name in HeadingNames || name in OtherNames
    ensures StartsWith(name, "h") <==> name in HeadingNames
  {
    if name in HeadingNames {
      assert name[0] == 'h';
    } else {
      assert name[0] != 'h';
    }
  }

  /** `a.get("href")` when it is truthy: present and non-empty. */
  predicate HasHref(a: Node)
  {
    Attr(a, "href").Some? && Attr(a, "href").value != ""
  }

  /** `int(element.name[1])` for a heading tag. */
  function HeadingLevel(name: string): (level: nat)
    requires name in HeadingNames
    ensures 1 <= level <= 6 && name == ['h', ('0' as int + level) as char]
  {
    name[1] as int - '0' as int
  }

  /** `add_heading(element.get_text(), level)`, then the colour on its run. */
  function HeadingOps(e: Node, colour: Option<Rgb>): Transcript
    requires e.Elem? && e.name in HeadingNames
  {
    Coloured(Heading(GetText(e), HeadingLevel(e.name), None), colour)
  }

  /** A heading element writes one heading with its whole text, at the
      level its name gives, in its colour; it raises exactly when it is
      coloured and its text is empty, the heading then having no run. */
  lemma HeadingShape(e: Node, colour: Option<Rgb>)
    requires e.Elem? && e.name in HeadingNames
    ensures var t := HeadingOps(e, colour);
      && |t.ops| == 1 && t.ops[0].Heading? && t.ops[0].text == GetText(e)
      && 1 <= t.ops[0].level <= 6 && e.name == ['h', ('0' as int + t.ops[0].level) as char]
      && (t.failure.Some? <==> colour.Some? && GetText(e) == "")
      && (t.failure.None? ==> t.ops[0].colour == colour)
  {
  }

  /** `add_paragraph()` and one `add_run(element.get_text())` with the given
      flags and colour: never raises, whatever the text. */
  function RunParagraphOps(e: Node, bold: bool, italic: bool, colour: Option<Rgb>): Transcript
  {
    Emit([Paragraph(GetText(e), bold, italic, colour)])
  }

  const CaptionPrefix: string := "Image: "

  /** `<img>`: with a non-empty `src` whose basename is a file of the image
      folder, that picture and then its caption paragraph; otherwise nothing. */
  function ImageOps(e: Node, imageExists: string -> bool): (t: Transcript)
    ensures t.failure.None?
  {
    match Attr(e, "src")
    case Some(src) =>
      if src != "" && imageExists(Basename(src)) then
        Emit([Picture(Basename(src), PictureWidthInches), Paragraph(CaptionPrefix + Basename(src), false, false, None)])
      else Emit([])
    case None => Emit([])
  }

  /** An image writes its picture, at three inches, and its caption exactly
      when its `src` is non-empty and names by its basename a file of the
      image folder; otherwise it writes nothing, and it never raises. */
  lemma ImageRule(e: Node, imageExists: string -> bool)
    ensures var t := ImageOps(e, imageExists);
      && t.failure.None?
      && (t.ops != [] <==> Attr(e, "src").Some? && Attr(e, "src").value != ""
                           && imageExists(Basename(Attr(e, "src").value)))
      && (t.ops != [] ==>
            var file := Basename(Attr(e, "src").value);
            && t.ops == [Picture(file, PictureWidthInches), Paragraph(CaptionPrefix + file, false, false, None)]
            && EndsWith(Attr(e, "src").value, file)
            && (forall k :: 0 <= k < |file| ==> !IsSeparator(file[k])))
  {
  }

  /** `if color: p.runs[0].font.color.rgb = RGBColor(*color)` on the paragraph
      just added. */
  method ApplyColour(doc: Document, colour: Option<Rgb>) returns (failure: Option<Failure>)
    requires doc.Valid() && doc.ops != []
    requires IsTextParagraph(doc.ops[|doc.ops| - 1]) && doc.ops[|doc.ops| - 1].colour.None?
    modifies doc
    ensures doc.Valid()
    ensures var last := old(doc.ops)[|old(doc.ops)| - 1];
      && doc.ops == old(doc.ops)[..|old(doc.ops)| - 1] + Coloured(last, colour).ops
      && failure == Coloured(last, colour).failure
  {
    failure := None;
    if colour.Some? {
      var ok := doc.ColourFirstRun(colour.value);
      if !ok {
        failure := Some(NoRunToColour);
      }
    }
  }

  /** Lines 62-66 of main.py (57-61 of gethtmlcontent01.py). */
  method EmitHeading(doc: Document, e: Node, colour: Option<Rgb>) returns (failure: Option<Failure>)
    requires doc.Valid() && e.Elem? && e.name in HeadingNames
    modifies doc
    ensures doc.Valid()
    ensures doc.ops == old(doc.ops) + HeadingOps(e, colour).ops && failure == HeadingOps(e, colour).failure
  {
    doc.AddHeading(GetText(e), HeadingLevel(e.name));
    failure := ApplyColour(doc, colour);
  }

  /** Lines 132-138 of main.py (99-105 of gethtmlcontent01.py). */
  method EmitImage(doc: Document, e: Node, imageExists: string -> bool)
    requires doc.Valid()
    modifies doc
    ensures doc.Valid() && doc.ops == old(doc.ops) + ImageOps(e, imageExists).ops
  {
    var src := Attr(e, "src");
    if src.Some? && src.value != "" {
      var name := Basename(src.value);
      if imageExists(name) {
        doc.AddPicture(name);
        doc.AddParagraph(CaptionPrefix + name);
      }
    }
  }
}
