# ExtractInfoNGenerateDocument in Dafny

A model of the HTML-to-Word converter of ExtractInfoNGenerateDocument, with
proofs about it. The converter walks the `id="mainbody"` element of every
`.html` page of a help folder and writes a Word document. The index page
`frmPAVIS.html` comes first. Every other page follows in sorted order as a
chapter with a page break and a title. Inside a page, headings, bold and
italic runs, paragraphs, lists, links, coloured spans and images each become
python-docx calls. The model covers three scripts:

- `main.py`, the current converter: module `CurrentTranscriber`, and
  `Assembly` with `Version.Current`;
- `gethtmlcontent01.py`, the earlier converter: no `<p>`, numbered lists,
  and standalone links. This is module `LegacyTranscriber`, and `Assembly`
  with `Version.Legacy`;
- `gethtmlcontent.py`, the plain-text extractor: module `PlainText`.

The modules, in dependency order:

- `Wrappers` (`wrappers.dfy`): `Option`, `Result`, and `Failure`, the two
  exceptions the converter can die of.
  - `InvalidHexDigits`: `int(pair, 16)` on a `#` code that is not hex.
  - `NoRunToColour`: `runs[0]` of a coloured paragraph with empty text.
- `PyStrings`: the Python `str` operations used: `strip`, `split`, `join`,
  `replace`, `startswith`, `endswith`, `in`, and `split()` with no argument.
- `Html`: the parsed page as a `Node` tree, and the BeautifulSoup queries
  `get_text`, `find_all`, `find`, `find(id=…)`, `get`, and the
  `os.path.basename` of an image source.
- `Colour`: `html_color_to_rgb`, the `w:val` hex text `add_hyperlink` writes
  (section 17.3.2.6 of ECMA-376 Part 1), and the scan of an element's
  `style` attribute. The last matching declaration wins.
- `Docx`: the document as an append-only list of `Op`s in class `Document`,
  one method per python-docx call.
  - A `Transcript` is the ops a piece of the run appends, plus the exception
    that stopped it, if any. `Chain` runs pieces in turn and stops at the
    first exception.
  - The class invariant `Valid()` says every hyperlink run sits in a text
    paragraph.
- `Rules`: the rules both converters share word for word: headings,
  emphasis and span paragraphs, images, and colouring a paragraph's first
  run.
- `CurrentTranscriber` and `LegacyTranscriber`: `extract_content_from_html`
  of each script.
  - Each has a specification function (`FileOps`, `ElementOps`, `ListOps`).
  - Each has imperative methods with the source's loops, proved to append
    exactly what the function says.
- `Scenarios`: small pages worked through both walks.
- `Assembly`: `generate_docx`. It includes Python's string ordering, the
  `sorted` of the listing, chapter titles, and the whole run's outcome.
- `PlainText`: `extract_text_from_html` and `process_html_files`.

The two Python exceptions do not stop at the element that raises them. They
end the whole script before `doc.save`. The model carries them as a
`Failure`, and the run's outcome is `Crashed`. They are not preconditions.

## Model

| member | source | states |
|---|---|---|
| PyStrings.StripSpec | main.py:58 | `strip()` keeps one infix of the string: everything dropped before and after it is whitespace, and the infix neither starts nor ends with whitespace |
| PyStrings.JoinSplit | main.py:55 | joining the pieces of `split(sep)` with `sep` gives the string back |
| PyStrings.SplitJoin | main.py:58 | splitting pieces that are free of the separator, once joined with it, gives the same pieces back |
| PyStrings.Split | main.py:55 | `split(sep)` returns at least one piece, and no piece contains the separator |
| PyStrings.WordsSpan | gethtmlcontent.py:17 | `split()` loses only whitespace: the string is its words, in order, with whitespace runs around them, the runs between two words non-empty; every word is non-empty and free of whitespace, so the words are exactly the maximal non-whitespace runs |
| PyStrings.ReplaceSuffix | main.py:160 | when the pattern occurs only as the suffix, `replace` swaps that suffix and leaves the stem alone |
| PyStrings.ReplaceAbsent | gethtmlcontent.py:32 | `replace` leaves a string without the pattern unchanged |
| Html.FindAllSelectsDescendants | main.py:51 | `find_all(names)` is exactly the descendants whose names are among `names`, in document order |
| Html.SelectAppend | main.py:51 | selecting by name keeps order: the selection of a concatenation is the concatenation of the selections |
| Html.FindFirstIsFirstFound | main.py:94 | `find("a")` is the first element of `find_all("a")`, and None exactly when that is empty |
| Html.FindByIdIsFirst | main.py:45 | `find(id="mainbody")` is the first descendant in document order with that `id`, and None exactly when no descendant has it |
| Html.ChildrenNamedCounts | main.py:93 | `find_all("li", recursive=False)` keeps every direct `li` child, as often as it occurs, and nothing else; it keeps their order (`SelectAppend`) |
| Html.Basename | main.py:135 | the basename is a suffix of the path with no separator in it, and it starts right after the path's last separator |
| Colour.HtmlColorToRgbAccepts | main.py:12-16 | None exactly when the code is not 7 characters starting with `#`; a colour exactly when the six characters after `#` are hex digits; otherwise the `int(…, 16)` error (gethtmlcontent01.py:12-16 is the same function) |
| Colour.ParsePair | main.py:15 | `int(pair, 16)` of two characters succeeds exactly when both are hex digits, and otherwise names the pair it rejects |
| Colour.FormatHex | main.py:29 | the `w:val` text is six upper-case hex digits |
| Colour.RgbRoundTrip | main.py:15-29 | printing a colour as `w:val` and parsing it back after a `#` gives the same colour |
| Colour.HexCodeRoundTrip | main.py:14-29 | a code that parses prints back as its own six digits, in upper case |
| Colour.BackgroundColourDeclares | main.py:57 | a `background-color:` declaration passes the `"color:" in style` test too |
| Colour.DeclValueAfterLastColon | main.py:58 | the value taken is the text after the segment's last colon, stripped |
| Colour.StyleColour | main.py:54 | an element without a `style` attribute has no colour |
| Colour.ScanIsLastWins | main.py:55-59 | the scan equals last-match-wins: the first raising declaration raises; otherwise the last matching declaration alone decides |
| Colour.LaterMalformedClears | main.py:56-59 | a later matching declaration that is not a `#` code resets an earlier valid colour to None |
| Colour.ResolveStyleColour | main.py:53-59 | the imperative loop over `split(";")` computes the last-match-wins colour, or the first error (gethtmlcontent01.py:48-54 is the same loop) |
| Docx.ColourVal | main.py:27-29 | a hyperlink run gets a `w:val` exactly when a colour is given; it is six characters, and read back after a `#` it is that colour |
| Docx.Coloured | main.py:65-66 | colouring `runs[0]` raises exactly when a colour is given and the text is empty; otherwise the paragraph takes the colour |
| Docx.ThenAssociative | main.py:51 | running pieces in turn does not depend on how they are grouped |
| Docx.ChainStopsAtFailure | main.py:51 | once a piece raises, the chain of all pieces is the chain up to that piece |
| Docx.ChainStep | main.py:51 | one turn of a loop over the pieces: the document holds the chain of the pieces run so far |
| Docx.ChainKeepsLinksInParagraphs | main.py:104-107 | every hyperlink of a chain sits in a paragraph when that holds for every piece |
| Docx.Document.AddHyperlink | main.py:18-37 | appends one hyperlink run with the colour's `w:val` to the paragraph just added, keeping every link in a paragraph |
| Docx.Document.ColourFirstRun | main.py:66 | colours the last paragraph's run exactly when it has one, and reports false where Python raises IndexError |
| Rules.HeadingTest | main.py:62 | `name.startswith("h")` is true exactly of `h1`…`h6` among the names either walk looks for |
| Rules.HeadingLevel | main.py:63 | `int(name[1])` is the level N of `hN`, between 1 and 6 |
| Rules.ImageRule | main.py:132-138 | with a non-empty `src` whose basename is in the image folder: a picture of exactly that basename, 3 inches wide, then the paragraph `"Image: "` + basename; otherwise nothing. The model never raises here (see Left out) (gethtmlcontent01.py:99-105 is the same rule) |
| Rules.ApplyColour | main.py:88-89 | the paragraph just added takes the colour, or the run ends with `NoRunToColour` |
| Rules.EmitHeading | main.py:62-66 | appends what `HeadingOps` specifies and raises when it does |
| Rules.HeadingShape | main.py:62-66 | a heading element writes one heading with its whole text at the level its name gives, in its colour; it raises exactly when coloured with empty text (gethtmlcontent01.py:57-61 is the same rule) |
| Rules.EmitImage | main.py:132-138 | appends what `ImageOps` specifies |
| CurrentTranscriber.HeadingRule | main.py:62-66 | once the colour is resolved, `h1`…`h6` are handled by the shared heading rule (`Rules.HeadingShape`) |
| CurrentTranscriber.EmphasisRule | main.py:68-82 | `b`/`strong` and `i`/`em` write one paragraph with the element's text, bold or italic and never both, in the element's colour; they never raise |
| CurrentTranscriber.ParagraphRule | main.py:85-89 | `p` with a child element writes nothing; otherwise it writes one plain paragraph of its text in its colour, raising exactly when coloured with empty text |
| CurrentTranscriber.SpanRule | main.py:125-129 | `span` writes one plain paragraph of its text in its colour and never raises |
| CurrentTranscriber.ListOpsShape | main.py:92-114 | a list writes only `ListBullet` items, uncoloured or in the list's colour, and hyperlinks in the list's colour |
| CurrentTranscriber.LinkOnlyList | main.py:98-107 | when every item is link-only, the list writes an empty bullet followed by its link for each item, in order, and never raises |
| CurrentTranscriber.LinkPairs | main.py:98-107 | a run of link-only items writes two ops per item |
| CurrentTranscriber.MixedItem | main.py:94-97 | an item whose first link does not carry all its text writes one uncoloured bullet with the whole item text, and never raises |
| CurrentTranscriber.EmptyLinkItem | main.py:98-107 | a link-only item whose link text or `href` is empty writes nothing |
| CurrentTranscriber.PlainItem | main.py:109-114 | an item without a link writes one bullet with its text in the list's colour, raising exactly when coloured with empty text |
| CurrentTranscriber.PlainList | main.py:92-114 | a list of items without links writes one bullet per item, in order, in the list's colour; it raises exactly when coloured with an empty item |
| CurrentTranscriber.MixedList | main.py:92-97 | a list whose items all mix a link with other text writes one uncoloured bullet per item, in order, and never raises |
| CurrentTranscriber.FileItemsBulleted | main.py:92-114 | every list item of a page is `ListBullet`, under `<ol>` too |
| CurrentTranscriber.ElementItemsBulleted | main.py:92-114 | every list item one element writes is `ListBullet` |
| CurrentTranscriber.OthersWriteNoItems | main.py:61-138 | only `ul` and `ol` write list items |
| CurrentTranscriber.ItemsAndLinksAddNothing | main.py:116-122 | `li` and `a` elements reached by the walk write nothing of their own |
| CurrentTranscriber.TranscribeItem | main.py:94-114 | the three-way item rule appends what `ItemOps` specifies |
| CurrentTranscriber.TranscribeList | main.py:92-114 | the loop over the direct `li` children appends the list's chain and stops at the first exception |
| CurrentTranscriber.TranscribeElement | main.py:53-138 | resolves the colour, then appends what `ElementOps` specifies for the element |
| CurrentTranscriber.TranscribeElements | main.py:51-138 | the walk over `find_all(tags)` appends the chain of the elements' transcripts |
| CurrentTranscriber.ExtractContent | main.py:39-138 | without `mainbody` nothing is appended; otherwise the page's transcript is appended |
| LegacyTranscriber.ListShape | gethtmlcontent01.py:78-87 | a list writes one item per direct `li`, in order, with the whole `li` text in the list's colour; it raises exactly when coloured with an empty item |
| LegacyTranscriber.ListStyles | gethtmlcontent01.py:78-87 | every item of a `ul` is `ListBullet`, and every item of an `ol` is `ListNumber` |
| LegacyTranscriber.HeadingRule | gethtmlcontent01.py:57-61 | once the colour is resolved, headings are handled by the shared heading rule (`Rules.HeadingShape`) |
| LegacyTranscriber.EmphasisRule | gethtmlcontent01.py:62-73 | `b`/`strong` and `i`/`em` write one paragraph with the element's text, bold or italic and never both, in its colour |
| LegacyTranscriber.SpanRule | gethtmlcontent01.py:94-98 | `span` writes one plain paragraph of its text in its colour |
| LegacyTranscriber.AnchorRule | gethtmlcontent01.py:88-93 | a standalone link writes an empty paragraph and an uncoloured hyperlink exactly when its text and `href` are non-empty |
| LegacyTranscriber.TranscribeItem | gethtmlcontent01.py:80-82 | appends the item paragraph with its style, then colours it |
| LegacyTranscriber.TranscribeList | gethtmlcontent01.py:78-87 | the loop over the direct `li` children appends the list's chain |
| LegacyTranscriber.TranscribeElement | gethtmlcontent01.py:47-105 | resolves the colour, then appends what `ElementOps` specifies |
| LegacyTranscriber.TranscribeElements | gethtmlcontent01.py:46-105 | the walk appends the chain of the elements' transcripts |
| LegacyTranscriber.ExtractContent | gethtmlcontent01.py:34-105 | without `mainbody` nothing is appended; otherwise the page's transcript is appended |
| Scenarios.BoldInsideSpan | main.py:51 | a `<b>` inside a `<span>` is written twice: first as the span's plain paragraph, then as a bold one |
| Scenarios.CurrentLinkItem | main.py:98-107 | a `<ul>` whose item is one link becomes an empty bullet holding the link; the walk's own `li` and `a` add nothing |
| Scenarios.LegacyLinkItem | gethtmlcontent01.py:78-93 | the same list becomes a bullet with the link's text, then the link again as its own paragraph |
| Scenarios.CurrentParagraphPage | main.py:51-89 | a page whose `mainbody` holds only `<p>x</p>` is written as one plain paragraph |
| Scenarios.LegacyParagraphPage | gethtmlcontent01.py:46-77 | the same page writes nothing, as `p` is not among the names the walk looks for |
| Assembly.LexLeTotal | main.py:157 | Python's string order relates any two names |
| Assembly.LexLeTransitive | main.py:157 | Python's string order is transitive |
| Assembly.LexLeAntisymmetric | main.py:157 | names ordered both ways are equal |
| Assembly.Sort | main.py:157 | `sorted` is a permutation of the listing |
| Assembly.SortSorted | main.py:157 | `sorted` returns the names in ascending order |
| Assembly.SortedUnique | main.py:157 | two sorted lists holding the same names are the same list |
| Assembly.SortIgnoresListingOrder | main.py:157 | the chapters and their order depend only on the folder's names, not on the order `os.listdir` returns them |
| Assembly.TitleIsStem | main.py:160 | the title of `stem.html` is `stem` when `.html` occurs only as its extension |
| Assembly.ChapterOps | main.py:164-166 | every chapter starts with a page break and a level-1 heading of its title, and raises exactly when its page does |
| Assembly.NonChapterAddsNothing | main.py:158 | names that are not `.html`, and the index file itself, add nothing to the sorted pass |
| Assembly.ChapterWithoutMainbody | main.py:45-48 | a chapter whose page has no `mainbody` is its page break and title, and nothing else |
| Assembly.IndexComesFirst | main.py:148-154 | the index page's content opens the document with no page break or title; a missing index file changes nothing else |
| Assembly.FirstChapterFollowsIndex | main.py:149-166 | the first chapter of the sorted listing, whatever non-chapter names sort before it, starts with its page break and title right after the index content, unless the index content raised |
| Assembly.EmitChapter | main.py:164-166 | appends the page break, the title and the page's content |
| Assembly.EmitName | main.py:158-166 | appends a chapter for a chapter name, and nothing for any other name |
| Assembly.TranscribeChapters | main.py:157-166 | the loop over the sorted names appends their chain and stops at the first exception |
| Assembly.GenerateDocx | main.py:140-170 | the run's outcome: nothing when the folder is missing; a crash with the first exception; otherwise the saved document holds the index content, then the chapters in sorted order (gethtmlcontent01.py:107-137 is the same function, run with `Version.Legacy`) |
| PlainText.PruneClean | gethtmlcontent.py:11-12 | after the extraction loop, no `script`, `style`, `meta`, `noscript`, `header`, `footer`, `nav` or `aside` element is left anywhere in the tree |
| PlainText.PruneKeepsClean | gethtmlcontent.py:11-12 | a tree with nothing to remove is left as it is |
| PlainText.PruneIdempotent | gethtmlcontent.py:11-12 | removing the excluded elements twice is the same as removing them once |
| PlainText.ExcludedContentIgnored | gethtmlcontent.py:11-18 | two pages that differ only inside excluded elements, at any depth, give the same text |
| PlainText.CollapseShape | gethtmlcontent.py:15-17 | `' '.join(text.split())` has no leading or trailing whitespace, no whitespace but `' '`, and no two spaces in a row |
| PlainText.WordsOfJoin | gethtmlcontent.py:17 | splitting words joined by single spaces gives the same words back |
| PlainText.CollapseIdempotent | gethtmlcontent.py:17 | collapsing whitespace twice is the same as collapsing it once |
| PlainText.RemoveBomLeavesNone | gethtmlcontent.py:32 | no U+FEFF is left after `replace("\ufeff", "")` |
| PlainText.RemoveBomKeepsPrefix | gethtmlcontent.py:32 | removal passes over a prefix that holds no mark |
| PlainText.BomLeavesDoubleSpace | gethtmlcontent.py:32 | the mark is removed after whitespace is collapsed, so `"a \ufeff b"` ends up as `"a  b"` with two spaces |
| PlainText.TxtNameOfStem | gethtmlcontent.py:38 | `stem.html` is written as `stem.txt` when `.html` occurs only as its extension |
| PlainText.EveryHtmlWritten | gethtmlcontent.py:26-40 | every `.html` name of the listing gets its `.txt` file with that page's content |
| PlainText.OnlyHtmlWritten | gethtmlcontent.py:26-40 | every file written comes from an `.html` name of the listing |
| PlainText.WritesHaveNoBom | gethtmlcontent.py:31-40 | no written text holds a U+FEFF |
| PlainText.ProcessHtmlFiles | gethtmlcontent.py:20-41 | nothing when the folder is missing; otherwise the loop writes the `.txt` files of the `.html` names, in listing order |

## Left out

- File I/O is not modelled. The folder's existence and its listing are
  inputs. Each file's parsed page is a function `pages` from names to trees.
  The existence of an image file is the predicate `imageExists` on its
  basename.
- The existence of `frmPAVIS.html` is its presence in the listing.
- `doc.save` is the `Saved` outcome. The `.txt` files are the `Written`
  records.
- HTML parsing by BeautifulSoup is not modelled. The page is given as a
  `Node` tree with lower-case names. Comments, doctype and other non-element
  strings are not distinguished from text.
- python-docx internals are not modelled: `relate_to` ids, `OxmlElement`,
  runs and styles, and `Inches(3)`. Each call becomes one `Op`. A picture
  records the file's basename, not the joined `IMAGE_FOLDER` path.
- Colour.HtmlColorToRgb: `int(x, 16)` accepts a sign, surrounding
  whitespace, underscores and non-ASCII digits. The model treats every
  character that is not an ASCII hex digit as the `ValueError` it raises on
  `#GGGGGG`.
- Rules.ImageOps: never raises. In Python a `src` ending in a separator has
  an empty basename, so the joined path is the image folder itself; it
  exists, and `add_picture` on a directory raises. The model asks
  `imageExists` about the empty name and, if it holds, writes a picture
  instead of raising. Image files are outside the model.
- Html.Basename: takes the text after the last `/` or `\`, without
  `ntpath`'s drive handling.
- Html.HasElementChild: `element.find()` is modelled by the element having
  an element child. Any descendant element implies an element child.
- PyStrings.IsWs: is Python's `str.isspace()` set written out. It is not
  derived from the Unicode database.
- PlainText.Prune: the loop of `tag.extract()` calls that mutate the tree in
  place is modelled on values. The model keeps its outcome (the tree
  without the excluded subtrees), but not the update in place and not the
  order of the extractions.
- Console output is not modelled, including `content[:500]` and the
  warnings. The model keeps only the outcome that `print` reports, such as
  `found` from `ExtractContent` and `FolderMissing`.
- The hard-coded Windows paths and the module-level calls at the end of each
  script are not modelled.
- A `Crashed` run keeps no ops. The Python process dies before `doc.save`,
  so the partial document is never written.
