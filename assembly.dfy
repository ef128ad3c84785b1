/** `generate_docx` (main.py:140-170, gethtmlcontent01.py:107-137): the index
    page first, then every other `.html` file of the folder in sorted order,
    each after a page break and a level-1 heading naming it. Both versions
    share this procedure word for word and differ only in the transcriber. */
module Assembly {
  import opened Wrappers
  import opened PyStrings
  import opened Html
  import opened Docx
  import CurrentTranscriber
  import LegacyTranscriber

  /** The index page, transcribed first and never as a chapter. */
  const IndexFile: string := "frmPAVIS.html"

  const HtmlSuffix: string := ".html"

  /** Which `extract_content_from_html` the run uses. */
  datatype Version = Current | Legacy

  function FileOps(version: Version, page: Node, imageExists: string -> bool): Transcript
  {
    match version
    case Current => CurrentTranscriber.FileOps(page, imageExists)
    case Legacy => LegacyTranscriber.FileOps(page, imageExists)
  }

  /** Python's `<=` on `str`: code point by code point, a prefix first. */
  predicate LexLe(a: string, b: string)
    decreases |a|
  {
    a == [] || (b != [] && (a[0] < b[0] || (a[0] == b[0] && LexLe(a[1..], b[1..]))))
  }

  lemma {:induction false} LexLeTotal(a: string, b: string)
    ensures LexLe(a, b) || LexLe(b, a)
    decreases |a|
  {
    if a != [] && b != [] && a[0] == b[0] {
      LexLeTotal(a[1..], b[1..]);
    }
  }

  lemma {:induction false} LexLeTransitive(a: string, b: string, c: string)
    requires LexLe(a, b) && LexLe(b, c)
    ensures LexLe(a, c)
    decreases |a|
  {
    if a != [] && a[0] == b[0] && b[0] == c[0] {
      LexLeTransitive(a[1..], b[1..], c[1..]);
    }
  }

  lemma {:induction false} LexLeAntisymmetric(a: string, b: string)
    requires LexLe(a, b) && LexLe(b, a)
    ensures a == b
    decreases |a|
  {
    if a != [] {
      LexLeAntisymmetric(a[1..], b[1..]);
      assert a == [a[0]] + a[1..] && b == [b[0]] + b[1..];
    }
  }

  predicate SortedNames(s: seq<string>)
  {
    forall i, j :: 0 <= i < j < |s| ==> LexLe(s[i], s[j])
  }

  /** `name` put into its place in a sorted list. */
  function Insert(name: string, s: seq<string>): (r: seq<string>)
    ensures multiset(r) == multiset(s) + multiset{name}
  {
    if s == [] || LexLe(name, s[0]) then [name] + s
    else
      assert s == [s[0]] + s[1..];
      [s[0]] + Insert(name, s[1..])
  }

  /** `sorted(os.listdir(folder_path))`. */
  function Sort(names: seq<string>): (r: seq<string>)
    ensures multiset(r) == multiset(names)
  {
    if names == [] then []
    else
      assert names == [names[0]] + names[1..];
      Insert(names[0], Sort(names[1..]))
  }

  lemma {:induction false} InsertSorted(name: string, s: seq<string>)
    requires SortedNames(s)
    ensures SortedNames(Insert(name, s))
    decreases |s|
  {
    if s == [] || LexLe(name, s[0]) {
      forall j | 0 <= j < |s|
        ensures LexLe(name, s[j])
      {
        if j > 0 {
          LexLeTransitive(name, s[0], s[j]);
        }
      }
      assert SortedNames([name] + s);
    } else {
      LexLeTotal(name, s[0]);
      InsertSorted(name, s[1..]);
      var r := Insert(name, s[1..]);
      forall j | 0 <= j < |r|
        ensures LexLe(s[0], r[j])
      {
        assert r[j] in multiset(r);
        if r[j] != name {
          assert r[j] in multiset(s[1..]);
          var k :| 0 <= k < |s[1..]| && s[1..][k] == r[j];
          assert s[k + 1] == r[j];
        }
      }
      assert SortedNames([s[0]] + r);
    }
  }

  lemma {:induction false} SortSorted(names: seq<string>)
    ensures SortedNames(Sort(names))
    decreases |names|
  {
    if names != [] {
      SortSorted(names[1..]);
      InsertSorted(names[0], Sort(names[1..]));
    }
  }

  /** The head of a sorted list comes first among all its names. */
  lemma SortedHeadLeast(a: seq<string>, x: string)
    requires SortedNames(a) && x in multiset(a)
    ensures LexLe(a[0], x)
  {
    var i :| 0 <= i < |a| && a[i] == x;
    if i == 0 {
      LexLeTotal(x, x);
    }
  }

  /** Two sorted lists with the same names are the same list. */
  lemma {:induction false} SortedUnique(a: seq<string>, b: seq<string>)
    requires SortedNames(a) && SortedNames(b) && multiset(a) == multiset(b)
    ensures a == b
    decreases |a|
  {
    if a != [] {
      assert b != [] by {
        assert |b| == |multiset(b)| == |a|;
      }
      SortedHeads(a, b);
      SameTails(a, b);
      SortedTail(a);
      SortedTail(b);
      SortedUnique(a[1..], b[1..]);
      assert a == [a[0]] + a[1..] && b == [b[0]] + b[1..];
    }
  }

  lemma SortedHeads(a: seq<string>, b: seq<string>)
    requires SortedNames(a) && SortedNames(b) && multiset(a) == multiset(b) && a != [] && b != []
    ensures a[0] == b[0]
  {
    SortedHeadLeast(a, b[0]);
    SortedHeadLeast(b, a[0]);
    LexLeAntisymmetric(a[0], b[0]);
  }

  lemma SameTails(a: seq<string>, b: seq<string>)
    requires multiset(a) == multiset(b) && a != [] && b != [] && a[0] == b[0]
    ensures multiset(a[1..]) == multiset(b[1..])
  {
    assert a == [a[0]] + a[1..] && b == [b[0]] + b[1..];
    assert multiset(a[1..]) == multiset(a) - multiset{a[0]};
    assert multiset(b[1..]) == multiset(b) - multiset{b[0]};
  }

  lemma SortedTail(a: seq<string>)
    requires SortedNames(a) && a != []
    ensures SortedNames(a[1..])
  {
    forall i, j | 0 <= i < j < |a[1..]|
      ensures LexLe(a[1..][i], a[1..][j])
    {
      assert a[1..][i] == a[i + 1] && a[1..][j] == a[j + 1];
    }
  }

  /** The files the run goes through, and the order it takes them in, depend
      on the folder's names only, not on the order `os.listdir` lists them. */
  lemma SortIgnoresListingOrder(l1: seq<string>, l2: seq<string>)
    requires multiset(l1) == multiset(l2)
    ensures Sort(l1) == Sort(l2)
  {
    SortSorted(l1);
    SortSorted(l2);
    SortedUnique(Sort(l1), Sort(l2));
  }

  /** The names that become chapters: `.html` files other than the index. */
  predicate IsChapter(name: string)
  {
    EndsWith(name, HtmlSuffix) && name != IndexFile
  }

  /** `filename.replace(".html", "")`, the chapter's heading. */
  function Title(name: string): string
  {
    Replace(name, HtmlSuffix, "")
  }

  /** A name whose only `.html` is its extension is titled by its stem. */
  lemma TitleIsStem(stem: string)
    requires forall i :: 0 <= i < |stem| ==> !(HtmlSuffix <= (stem + HtmlSuffix)[i..])
    ensures Title(stem + HtmlSuffix) == stem
  {
    ReplaceSuffix(stem, HtmlSuffix, "");
    assert stem + "" == stem;
  }

  /** A chapter: page break, heading, then the file's own content. */
  function ChapterOps(version: Version, name: string, page: Node, imageExists: string -> bool): (t: Transcript)
    ensures |t.ops| >= 2 && t.ops[..2] == [PageBreak, Heading(Title(name), 1, None)]
    ensures t.failure == FileOps(version, page, imageExists).failure
  {
    Transcript([PageBreak, Heading(Title(name), 1, None)] + FileOps(version, page, imageExists).ops,
               FileOps(version, page, imageExists).failure)
  }

  /** What one name of the sorted listing contributes. */
  function NameOps(version: Version, name: string, pages: string -> Node, imageExists: string -> bool): Transcript
  {
    if IsChapter(name) then ChapterOps(version, name, pages(name), imageExists) else Emit([])
  }

  function NameTranscripts(version: Version, names: seq<string>, pages: string -> Node, imageExists: string -> bool): seq<Transcript>
  {
    seq(|names|, k requires 0 <= k < |names| => NameOps(version, names[k], pages, imageExists))
  }

  /** The index page's content, when the folder holds it. */
  function IndexOps(version: Version, listing: seq<string>, pages: string -> Node, imageExists: string -> bool): Transcript
  {
    if IndexFile in listing then FileOps(version, pages(IndexFile), imageExists) else Emit([])
  }

  /** Everything the run appends to the fresh document, and the exception
      that ended it, if any. */
  function Assemble(version: Version, listing: seq<string>, pages: string -> Node, imageExists: string -> bool): Transcript
  {
    Then(IndexOps(version, listing, pages, imageExists),
         Chain(NameTranscripts(version, Sort(listing), pages, imageExists)))
  }

  /** How a run ends: the folder is missing (nothing is written), an
      exception stops it before `doc.save`, or the document is saved. */
  datatype Outcome = FolderMissing | Crashed(failure: Failure) | Saved(ops: seq<Op>)

  function Generated(version: Version, folderExists: bool, listing: seq<string>, pages: string -> Node, imageExists: string -> bool): Outcome
  {
    if !folderExists then FolderMissing
    else
      var t := Assemble(version, listing, pages, imageExists);
      if t.failure.Some? then Crashed(t.failure.value) else Saved(t.ops)
  }

  /** Names that are not chapters add nothing. */
  lemma NonChapterAddsNothing(version: Version, name: string, pages: string -> Node, imageExists: string -> bool)
    requires !IsChapter(name)
    ensures NameOps(version, name, pages, imageExists) == Emit([])
  {
  }

  /** A chapter whose page has no `mainbody` element is its page break and
      its heading and nothing more. */
  lemma ChapterWithoutMainbody(version: Version, name: string, page: Node, imageExists: string -> bool)
    requires FindById(page, "mainbody").None?
    ensures ChapterOps(version, name, page, imageExists) == Emit([PageBreak, Heading(Title(name), 1, None)])
  {
  }

  /** The index page comes first, with no page break or heading before it;
      a missing index file changes nothing else. */
  lemma IndexComesFirst(version: Version, listing: seq<string>, pages: string -> Node, imageExists: string -> bool)
    ensures var t := Assemble(version, listing, pages, imageExists);
      var chapters := Chain(NameTranscripts(version, Sort(listing), pages, imageExists));
      && (IndexFile in listing ==> t.ops[..|FileOps(version, pages(IndexFile), imageExists).ops|]
                                    == FileOps(version, pages(IndexFile), imageExists).ops)
      && (IndexFile !in listing ==> t == chapters)
  {
    var t := Assemble(version, listing, pages, imageExists);
    var chapters := Chain(NameTranscripts(version, Sort(listing), pages, imageExists));
    if IndexFile !in listing {
      assert [] + chapters.ops == chapters.ops;
    }
  }

  /** The first chapter of the sorted listing, whatever non-chapter names
      come before it, begins with a page break and its title right after the
      index content. */
  lemma FirstChapterFollowsIndex(version: Version, listing: seq<string>, pages: string -> Node, imageExists: string -> bool, k: nat)
    requires IndexOps(version, listing, pages, imageExists).failure.None?
    requires k < |Sort(listing)| && IsChapter(Sort(listing)[k])
    requires forall j :: 0 <= j < k ==> !IsChapter(Sort(listing)[j])
    ensures var t := Assemble(version, listing, pages, imageExists);
      var n := |IndexOps(version, listing, pages, imageExists).ops|;
      |t.ops| >= n + 2 && t.ops[n..n + 2] == [PageBreak, Heading(Title(Sort(listing)[k]), 1, None)]
  {
    ChapterAfterNonChapters(version, Sort(listing), pages, imageExists, IndexOps(version, listing, pages, imageExists), k);
  }

  lemma ChapterAfterNonChapters(version: Version, names: seq<string>, pages: string -> Node, imageExists: string -> bool, ix: Transcript, k: nat)
    requires ix.failure.None? && k < |names| && IsChapter(names[k])
    requires forall j :: 0 <= j < k ==> !IsChapter(names[j])
    ensures var t := Then(ix, Chain(NameTranscripts(version, names, pages, imageExists)));
      |t.ops| >= |ix.ops| + 2 && t.ops[|ix.ops|..|ix.ops| + 2] == [PageBreak, Heading(Title(names[k]), 1, None)]
  {
    var ts := NameTranscripts(version, names, pages, imageExists);
    forall j | 0 <= j < k
      ensures ts[j] == Emit([])
    {
      NonChapterAddsNothing(version, names[j], pages, imageExists);
    }
    ChainSkipsEmpty(ts, k);
    HeaderAfterIndex(ix, ts[k..], [PageBreak, Heading(Title(names[k]), 1, None)]);
  }

  lemma HeaderAfterIndex(ix: Transcript, ts: seq<Transcript>, header: seq<Op>)
    requires ix.failure.None? && ts != [] && |ts[0].ops| >= |header| && ts[0].ops[..|header|] == header
    ensures var t := Then(ix, Chain(ts));
      |t.ops| >= |ix.ops| + |header| && t.ops[|ix.ops|..|ix.ops| + |header|] == header
  {
    ChainStartsWithFirst(ts);
    var c := Chain(ts);
    assert c.ops[..|header|] == ts[0].ops[..|header|];
  }

  /** `extract_content_from_html` of the chosen version. */
  method ExtractFile(version: Version, doc: Document, page: Node, imageExists: string -> bool) returns (failure: Option<Failure>)
    requires doc.Valid()
    modifies doc
    ensures doc.Valid()
    ensures doc.ops == old(doc.ops) + FileOps(version, page, imageExists).ops
    ensures failure == FileOps(version, page, imageExists).failure
  {
    var found;
    match version
    case Current => found, failure := CurrentTranscriber.ExtractContent(doc, page, imageExists);
    case Legacy => found, failure := LegacyTranscriber.ExtractContent(doc, page, imageExists);
  }

  /** Lines 164-166 of main.py: page break, title, then the file. */
  method EmitChapter(version: Version, doc: Document, name: string, page: Node, imageExists: string -> bool) returns (failure: Option<Failure>)
    requires doc.Valid()
    modifies doc
    ensures doc.Valid()
    ensures doc.ops == old(doc.ops) + ChapterOps(version, name, page, imageExists).ops
    ensures failure == ChapterOps(version, name, page, imageExists).failure
  {
    doc.AddPageBreak();
    doc.AddHeading(Title(name), 1);
    ghost var header := [PageBreak, Heading(Title(name), 1, None)];
    assert doc.ops == old(doc.ops) + header;
    failure := ExtractFile(version, doc, page, imageExists);
    ConcatAssoc(old(doc.ops), header, FileOps(version, page, imageExists).ops);
  }

  /** One name of the sorted listing: a chapter, or skipped. */
  method EmitName(version: Version, doc: Document, name: string, pages: string -> Node, imageExists: string -> bool)
    returns (failure: Option<Failure>)
    requires doc.Valid()
    modifies doc
    ensures doc.Valid()
    ensures doc.ops == old(doc.ops) + NameOps(version, name, pages, imageExists).ops
    ensures failure == NameOps(version, name, pages, imageExists).failure
  {
    failure := None;
    if IsChapter(name) {
      failure := EmitChapter(version, doc, name, pages(name), imageExists);
    } else {
      assert doc.ops == old(doc.ops) + [];
    }
  }

  /** The loop over `sorted(os.listdir(folder_path))` (main.py:157-166). */
  method TranscribeChapters(version: Version, doc: Document, names: seq<string>, pages: string -> Node, imageExists: string -> bool)
    returns (failure: Option<Failure>)
    requires doc.Valid()
    modifies doc
    ensures doc.Valid()
    ensures doc.ops == old(doc.ops) + Chain(NameTranscripts(version, names, pages, imageExists)).ops
    ensures failure == Chain(NameTranscripts(version, names, pages, imageExists)).failure
  {
    ghost var ts := NameTranscripts(version, names, pages, imageExists);
    var i := 0;
    while i < |names|
      invariant 0 <= i <= |names| && doc.Valid()
      invariant doc.ops == old(doc.ops) + Chain(ts[..i]).ops && Chain(ts[..i]).failure.None?
    {
      failure := EmitName(version, doc, names[i], pages, imageExists);
      ChainStep(old(doc.ops), ts, i, doc.ops);
      if failure.Some? {
        return;
      }
      i := i + 1;
    }
    assert ts[..|names|] == ts;
    failure := None;
  }

  /** `generate_docx(folder_path, output_file)`: the folder's existence and
      listing, and each file's parsed page, are given; `Saved` carries what
      `doc.save` writes. */
  method GenerateDocx(version: Version, folderExists: bool, listing: seq<string>, pages: string -> Node, imageExists: string -> bool)
    returns (outcome: Outcome)
    ensures outcome == Generated(version, folderExists, listing, pages, imageExists)
  {
    if !folderExists {
      return FolderMissing;
    }
    var doc := new Document();
    if IndexFile in listing {
      var failure := ExtractFile(version, doc, pages(IndexFile), imageExists);
      if failure.Some? {
        return Crashed(failure.value);
      }
    }
    assert doc.ops == IndexOps(version, listing, pages, imageExists).ops;
    var failure := TranscribeChapters(version, doc, Sort(listing), pages, imageExists);
    if failure.Some? {
      return Crashed(failure.value);
    }
    return Saved(doc.ops);
  }
}
