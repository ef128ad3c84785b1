/** The Word document as the converter builds it: an append-only list of
    operations, each one a python-docx call (`add_heading`, `add_paragraph`,
    `add_run`, `add_picture`, `add_page_break`, and the hand-built hyperlink of
    `add_hyperlink`). */
module Docx {
  import opened Wrappers
  import opened Colour

  datatype ListStyle = ListBullet | ListNumber

  /** `Inches(3)`, the width every picture is inserted at. */
  const PictureWidthInches: nat := 3

  datatype Op =
    | Heading(text: string, level: nat, colour: Option<Rgb>)
    | Paragraph(text: string, bold: bool, italic: bool, colour: Option<Rgb>)
    | ListItem(text: string, style: ListStyle, colour: Option<Rgb>)
      /** A `w:hyperlink` run appended to the paragraph just added; `colourVal`
          is the `w:val` of its `w:color`, when it has one. */
    | Hyperlink(text: string, url: string, colourVal: Option<string>)
    | Picture(file: string, widthInches: nat)
    | PageBreak

  /** The `w:val` written for an optional colour. */
  function ColourVal(colour: Option<Rgb>): (v: Option<string>)
    ensures v.Some? <==> colour.Some?
    ensures v.Some? ==> |v.value| == 6 && HtmlColorToRgb("#" + v.value) == Ok(Some(colour.value))
  {
    match colour
    case None => None
    case Some(c) => RgbRoundTrip(c); Some(FormatHex(c))
  }

  /** A paragraph that carries text of its own. */
  predicate IsTextParagraph(op: Op)
  {
    op.Heading? || op.Paragraph? || op.ListItem?
  }

  /** A paragraph made by `add_heading(text)` or `add_paragraph(text)` has a
      first run only when `text` is not empty. */
  predicate HasFirstRun(op: Op)
  {
    IsTextParagraph(op) && op.text != ""
  }

  /** Every hyperlink sits in a text paragraph: the op before it is one, or is
      another hyperlink of the same paragraph. */
  ghost predicate LinksInParagraphs(ops: seq<Op>)
  {
    forall i :: 0 <= i < |ops| ==> LinkInParagraph(ops, i)
  }

  ghost predicate LinkInParagraph(ops: seq<Op>, i: nat)
    requires i < |ops|
  {
    ops[i].Hyperlink? ==> 0 < i && (IsTextParagraph(ops[i - 1]) || ops[i - 1].Hyperlink?)
  }

  lemma LinksInParagraphsAppend(a: seq<Op>, b: seq<Op>)
    requires LinksInParagraphs(a) && LinksInParagraphs(b)
    ensures LinksInParagraphs(a + b)
  {
    forall i | 0 <= i < |a + b|
      ensures LinkInParagraph(a + b, i)
    {
      if i < |a| {
        assert LinkInParagraph(a, i);
        if i > 0 {
          assert (a + b)[i - 1] == a[i - 1];
        }
      } else {
        assert LinkInParagraph(b, i - |a|);
        if i > |a| {
          assert (a + b)[i - 1] == b[i - |a| - 1];
        }
      }
    }
  }

  /** Appending an op keeps every link in a paragraph when the op is not a
      link, or follows a text paragraph or a link. */
  lemma LinksInParagraphsSnoc(ops: seq<Op>, op: Op)
    requires LinksInParagraphs(ops)
    requires op.Hyperlink? ==> ops != [] && (IsTextParagraph(ops[|ops| - 1]) || ops[|ops| - 1].Hyperlink?)
    ensures LinksInParagraphs(ops + [op])
  {
    forall i | 0 <= i < |ops + [op]|
      ensures LinkInParagraph(ops + [op], i)
    {
      if i < |ops| {
        assert LinkInParagraph(ops, i);
        if i > 0 {
          assert (ops + [op])[i - 1] == ops[i - 1];
        }
      }
    }
  }

  /** Recolouring the last op, a text paragraph, keeps every link in a paragraph. */
  lemma LinksInParagraphsRecolour(ops: seq<Op>, c: Rgb)
    requires LinksInParagraphs(ops) && ops != [] && IsTextParagraph(ops[|ops| - 1])
    ensures LinksInParagraphs(ops[..|ops| - 1] + [ops[|ops| - 1].(colour := Some(c))])
  {
    var init := ops[..|ops| - 1];
    forall i | 0 <= i < |init|
      ensures LinkInParagraph(init, i)
    {
      assert LinkInParagraph(ops, i);
      if i > 0 {
        assert init[i - 1] == ops[i - 1];
      }
    }
    LinksInParagraphsSnoc(init, ops[|ops| - 1].(colour := Some(c)));
  }

  /** The ops one piece of the transcription appends, and the exception that
      stopped the run, if any (ops appended before the exception stay). */
  datatype Transcript = Transcript(ops: seq<Op>, failure: Option<Failure>)

  function Emit(ops: seq<Op>): Transcript
  {
    Transcript(ops, None)
  }

  /** `t`, then `u` unless `t` raised. */
  function Then(t: Transcript, u: Transcript): (r: Transcript)
    ensures t.failure.Some? ==> r == t
    ensures t.failure.None? ==> r.ops == t.ops + u.ops && r.failure == u.failure
  {
    if t.failure.Some? then t else Transcript(t.ops + u.ops, u.failure)
  }

  /** Regrouping a concatenation, as the loops that emit pieces need it. */
  lemma ConcatAssoc(a: seq<Op>, b: seq<Op>, c: seq<Op>)
    ensures a + b + c == a + (b + c)
  {
  }

  /** The pieces one after the other, stopping at the first that raises. */
  function Chain(ts: seq<Transcript>): Transcript
  {
    if ts == [] then Emit([]) else Then(Chain(ts[..|ts| - 1]), ts[|ts| - 1])
  }

  lemma ThenAssociative(a: Transcript, b: Transcript, c: Transcript)
    ensures Then(Then(a, b), c) == Then(a, Then(b, c))
  {
    if a.failure.None? && b.failure.None? {
      assert a.ops + b.ops + c.ops == a.ops + (b.ops + c.ops);
    }
  }

  /** Chaining two runs of pieces is chaining their two chains. */
  lemma {:induction false} ChainAppend(a: seq<Transcript>, b: seq<Transcript>)
    ensures Chain(a + b) == Then(Chain(a), Chain(b))
    decreases |b|
  {
    if b == [] {
      assert a + b == a;
      assert Chain(a).failure.None? ==> Chain(a).ops + [] == Chain(a).ops;
    } else {
      var b' := b[..|b| - 1];
      assert (a + b)[..|a + b| - 1] == a + b';
      ChainAppend(a, b');
      ThenAssociative(Chain(a), Chain(b'), b[|b| - 1]);
    }
  }

  /** Chaining one more piece. */
  lemma ChainSnoc(ts: seq<Transcript>, i: nat)
    requires i < |ts|
    ensures Chain(ts[..i + 1]) == Then(Chain(ts[..i]), ts[i])
  {
    assert ts[..i + 1][..i] == ts[..i];
  }

  /** A run of pieces that emitted `ops` without raising, then one that
      emits `more`. */
  lemma ChainEmitSnoc(ts: seq<Transcript>, ops: seq<Op>, more: seq<Op>)
    requires ts != [] && Chain(ts[..|ts| - 1]) == Emit(ops) && ts[|ts| - 1] == Emit(more)
    ensures Chain(ts) == Emit(ops + more)
  {
  }

  /** Leading pieces that emit nothing and do not raise can be dropped. */
  lemma {:induction false} ChainSkipsEmpty(ts: seq<Transcript>, k: nat)
    requires k <= |ts| && forall j :: 0 <= j < k ==> ts[j] == Emit([])
    ensures Chain(ts) == Chain(ts[k..])
    decreases k
  {
    if k > 0 {
      ChainSkipsEmpty(ts[1..], k - 1);
      assert ts[1..][k - 1..] == ts[k..];
      assert ts == [ts[0]] + ts[1..];
      ChainAppend([ts[0]], ts[1..]);
      ChainSnoc([ts[0]], 0);
      assert [ts[0]][..1] == [ts[0]];
      assert Chain([ts[0]]) == Emit([]);
      assert [] + Chain(ts[1..]).ops == Chain(ts[1..]).ops;
    }
  }

  /** Once a piece raises, nothing after it is emitted. */
  lemma ChainStopsAtFailure(ts: seq<Transcript>, i: nat)
    requires i <= |ts| && Chain(ts[..i]).failure.Some?
    ensures Chain(ts) == Chain(ts[..i])
  {
    assert ts == ts[..i] + ts[i..];
    ChainAppend(ts[..i], ts[i..]);
  }

  /** One step of a loop that runs the pieces in turn on a document whose
      ops started as `base`: after piece `i` the document holds the chain of
      the first `i + 1` pieces, and a piece that raises ends the whole chain. */
  lemma ChainStep(base: seq<Op>, ts: seq<Transcript>, i: nat, now: seq<Op>)
    requires i < |ts| && Chain(ts[..i]).failure.None?
    requires now == base + Chain(ts[..i]).ops + ts[i].ops
    ensures now == base + Chain(ts[..i + 1]).ops
    ensures Chain(ts[..i + 1]).failure == ts[i].failure
    ensures ts[i].failure.Some? ==> Chain(ts) == Chain(ts[..i + 1])
  {
    ChainSnoc(ts, i);
    ConcatAssoc(base, Chain(ts[..i]).ops, ts[i].ops);
    if ts[i].failure.Some? {
      ChainStopsAtFailure(ts, i + 1);
    }
  }

  /** A chain begins with its first piece's ops. */
  lemma ChainStartsWithFirst(ts: seq<Transcript>)
    requires ts != []
    ensures |Chain(ts).ops| >= |ts[0].ops| && Chain(ts).ops[..|ts[0].ops|] == ts[0].ops
  {
    ChainSnoc(ts, 0);
    assert Chain(ts[..0]) == Emit([]);
    assert ts == ts[..1] + ts[1..];
    ChainAppend(ts[..1], ts[1..]);
  }

  /** Each op of a chain that did not raise comes from one of the pieces. */
  lemma {:induction false} ChainOpsFromPieces(ts: seq<Transcript>, P: Op -> bool)
    requires forall k :: 0 <= k < |ts| ==> forall j :: 0 <= j < |ts[k].ops| ==> P(ts[k].ops[j])
    ensures forall j :: 0 <= j < |Chain(ts).ops| ==> P(Chain(ts).ops[j])
    decreases |ts|
  {
    if ts != [] {
      ChainOpsFromPieces(ts[..|ts| - 1], P);
    }
  }

  /** Each link of a chain sits in a paragraph when each piece's links do. */
  lemma {:induction false} ChainKeepsLinksInParagraphs(ts: seq<Transcript>)
    requires forall k :: 0 <= k < |ts| ==> LinksInParagraphs(ts[k].ops)
    ensures LinksInParagraphs(Chain(ts).ops)
    decreases |ts|
  {
    if ts != [] {
      ChainKeepsLinksInParagraphs(ts[..|ts| - 1]);
      if Chain(ts[..|ts| - 1]).failure.None? {
        LinksInParagraphsAppend(Chain(ts[..|ts| - 1]).ops, ts[|ts| - 1].ops);
      }
    }
  }

  /** `add_heading(text)` or `add_paragraph(text)` followed by
      `if color: p.runs[0].font.color.rgb = ...`: the colour lands on the
      paragraph's only run, and with an empty text there is no run to colour. */
  function Coloured(op: Op, colour: Option<Rgb>): (t: Transcript)
    requires IsTextParagraph(op) && op.colour.None?
    ensures t.failure.Some? <==> colour.Some? && op.text == ""
    ensures t.ops == [if t.failure.Some? then op else op.(colour := colour)]
  {
    match colour
    case None => Emit([op])
    case Some(c) => if HasFirstRun(op) then Emit([op.(colour := Some(c))]) else Transcript([op], Some(NoRunToColour))
  }

  /** The document python-docx builds, one call at a time. */
  class Document {
    var ops: seq<Op>

    ghost predicate Valid()
      reads this
    {
      LinksInParagraphs(ops)
    }

    /** `Document()` */
    constructor ()
      ensures Valid() && ops == []
    {
      ops := [];
    }

    /** `doc.add_heading(text, level=level)` */
    method AddHeading(text: string, level: nat)
      requires Valid()
      modifies this
      ensures Valid() && ops == old(ops) + [Heading(text, level, None)]
    {
      LinksInParagraphsSnoc(ops, Heading(text, level, None));
      ops := ops + [Heading(text, level, None)];
    }

    /** `doc.add_paragraph(text)`, with no style. */
    method AddParagraph(text: string)
      requires Valid()
      modifies this
      ensures Valid() && ops == old(ops) + [Paragraph(text, false, false, None)]
    {
      LinksInParagraphsSnoc(ops, Paragraph(text, false, false, None));
      ops := ops + [Paragraph(text, false, false, None)];
    }

    /** `doc.add_paragraph()` then `add_run(text)` with its bold and italic flags
        and colour set. */
    method AddRunParagraph(text: string, bold: bool, italic: bool, colour: Option<Rgb>)
      requires Valid()
      modifies this
      ensures Valid() && ops == old(ops) + [Paragraph(text, bold, italic, colour)]
    {
      LinksInParagraphsSnoc(ops, Paragraph(text, bold, italic, colour));
      ops := ops + [Paragraph(text, bold, italic, colour)];
    }

    /** `doc.add_paragraph(text, style=style)` */
    method AddListItem(text: string, style: ListStyle)
      requires Valid()
      modifies this
      ensures Valid() && ops == old(ops) + [ListItem(text, style, None)]
    {
      LinksInParagraphsSnoc(ops, ListItem(text, style, None));
      ops := ops + [ListItem(text, style, None)];
    }

    /** `p.runs[0].font.color.rgb = RGBColor(*c)` on the paragraph just added;
        false when it has no run, where Python raises IndexError. */
    method ColourFirstRun(c: Rgb) returns (ok: bool)
      requires Valid() && ops != [] && IsTextParagraph(ops[|ops| - 1]) && ops[|ops| - 1].colour.None?
      modifies this
      ensures Valid()
      ensures ok == HasFirstRun(old(ops)[|old(ops)| - 1])
      ensures ops == if ok then old(ops)[..|old(ops)| - 1] + [old(ops)[|old(ops)| - 1].(colour := Some(c))] else old(ops)
    {
      var last := ops[|ops| - 1];
      ok := HasFirstRun(last);
      if ok {
        LinksInParagraphsRecolour(ops, c);
        ops := ops[..|ops| - 1] + [last.(colour := Some(c))];
      }
    }

    /** `add_hyperlink(p, text, url, color)` on the paragraph just added. */
    method AddHyperlink(text: string, url: string, colour: Option<Rgb>)
      requires Valid() && ops != [] && IsTextParagraph(ops[|ops| - 1])
      modifies this
      ensures Valid()
      ensures ops == old(ops) + [Hyperlink(text, url, ColourVal(colour))]
    {
      LinksInParagraphsSnoc(ops, Hyperlink(text, url, ColourVal(colour)));
      ops := ops + [Hyperlink(text, url, ColourVal(colour))];
    }

    /** `doc.add_picture(path, width=Inches(3))` */
    method AddPicture(file: string)
      requires Valid()
      modifies this
      ensures Valid() && ops == old(ops) + [Picture(file, PictureWidthInches)]
    {
      LinksInParagraphsSnoc(ops, Picture(file, PictureWidthInches));
      ops := ops + [Picture(file, PictureWidthInches)];
    }

    /** `doc.add_page_break()` */
    method AddPageBreak()
      requires Valid()
      modifies this
      ensures Valid() && ops == old(ops) + [PageBreak]
    {
      LinksInParagraphsSnoc(ops, PageBreak);
      ops := ops + [PageBreak];
    }
  }
}
