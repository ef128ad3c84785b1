/** gethtmlcontent.py: the visible text of each `.html` file of a folder,
    whitespace collapsed and byte-order marks removed, saved next to it as
    `.txt`. */
module PlainText {
  import opened Wrappers
  import opened PyStrings
  import opened Html

  /** The elements removed, with everything inside them, before the text is
      taken (gethtmlcontent.py:11). */
  const ExcludedTags: set<string> := {"script", "style", "meta", "noscript", "header", "footer", "nav", "aside"}

  predicate Excluded(n: Node)
  {
    Named(n, ExcludedTags)
  }

  /** The tree once every excluded element below the root has been
      extracted: the root, the parsed document itself, stays. */
  function Prune(n: Node): Node
  {
    match n
    case Text(_) => n
    case Elem(name, attrs, cs) => Elem(name, attrs, PruneAll(cs))
  }

  function PruneAll(cs: seq<Node>): seq<Node>
  {
    if cs == [] then []
    else (if Excluded(cs[0]) then [] else [Prune(cs[0])]) + PruneAll(cs[1..])
  }

  /** No excluded element anywhere below the root. */
  predicate Clean(n: Node)
  {
    match n
    case Text(_) => true
    case Elem(_, _, cs) => CleanAll(cs)
  }

  predicate CleanAll(cs: seq<Node>)
  {
    forall k :: 0 <= k < |cs| ==> !Excluded(cs[k]) && Clean(cs[k])
  }

  lemma {:induction false} PruneClean(n: Node)
    ensures Clean(Prune(n))
  {
    match n
    case Text(_) =>
    case Elem(_, _, cs) => PruneAllClean(cs);
  }

  lemma {:induction false} PruneAllClean(cs: seq<Node>)
    ensures CleanAll(PruneAll(cs))
    decreases cs
  {
    if cs != [] {
      PruneAllClean(cs[1..]);
      if !Excluded(cs[0]) {
        PruneClean(cs[0]);
        var r := [Prune(cs[0])] + PruneAll(cs[1..]);
        forall k | 0 <= k < |r|
          ensures !Excluded(r[k]) && Clean(r[k])
        {
          if k > 0 {
            assert r[k] == PruneAll(cs[1..])[k - 1];
          }
        }
      }
    }
  }

  /** A tree with nothing to remove is left as it is, so removing twice is
      removing once. */
  lemma {:induction false} PruneKeepsClean(n: Node)
    requires Clean(n)
    ensures Prune(n) == n
  {
    match n
    case Text(_) =>
    case Elem(_, _, cs) => PruneAllKeepsClean(cs);
  }

  lemma {:induction false} PruneAllKeepsClean(cs: seq<Node>)
    requires CleanAll(cs)
    ensures PruneAll(cs) == cs
    decreases cs
  {
    if cs != [] {
      PruneKeepsClean(cs[0]);
      assert CleanAll(cs[1..]) by {
        forall k | 0 <= k < |cs[1..]|
          ensures !Excluded(cs[1..][k]) && Clean(cs[1..][k])
        {
          assert cs[1..][k] == cs[k + 1];
        }
      }
      PruneAllKeepsClean(cs[1..]);
      assert cs == [cs[0]] + cs[1..];
    }
  }

  lemma PruneIdempotent(n: Node)
    ensures Prune(Prune(n)) == Prune(n)
  {
    PruneClean(n);
    PruneKeepsClean(Prune(n));
  }

  lemma {:induction false} PruneAllAppend(a: seq<Node>, b: seq<Node>)
    ensures PruneAll(a + b) == PruneAll(a) + PruneAll(b)
    decreases |a|
  {
    if a == [] {
      assert a + b == b;
    } else {
      assert (a + b)[1..] == a[1..] + b;
      PruneAllAppend(a[1..], b);
    }
  }

  /** The text strings of a tree, in document order. */
  function Strings(n: Node): seq<string>
  {
    match n
    case Text(s) => [s]
    case Elem(_, _, cs) => StringsAll(cs)
  }

  function StringsAll(cs: seq<Node>): seq<string>
  {
    if cs == [] then [] else Strings(cs[0]) + StringsAll(cs[1..])
  }

  /** `' '.join(text.split())` */
  function Collapse(s: string): string
  {
    Join(Words(s), " ")
  }

  /** `extract_text_from_html` on the parsed page: the excluded elements
      removed, `get_text(separator=" ")`, `strip()`, then whitespace collapsed. */
  function ExtractText(page: Node): string
  {
    Collapse(Strip(Join(Strings(Prune(page)), " ")))
  }

  /** Two trees that differ at most inside excluded elements below the
      root, at any depth: same shape and the same text elsewhere, while an
      excluded element may stand for any other excluded element. */
  predicate SameOutside(n: Node, m: Node)
  {
    match n
    case Text(_) => m == n
    case Elem(name, attrs, cs) => m.Elem? && m.name == name && m.attrs == attrs && SameOutsideAll(cs, m.children)
  }

  predicate SameOutsideAll(cs: seq<Node>, ds: seq<Node>)
    decreases cs
  {
    |cs| == |ds|
    && (cs != [] ==>
          && ((Excluded(cs[0]) && Excluded(ds[0])) || SameOutside(cs[0], ds[0]))
          && SameOutsideAll(cs[1..], ds[1..]))
  }

  lemma {:induction false} PruneSameOutside(n: Node, m: Node)
    requires SameOutside(n, m)
    ensures Prune(n) == Prune(m)
  {
    match n
    case Text(_) =>
    case Elem(_, _, cs) => PruneAllSameOutside(cs, m.children);
  }

  lemma {:induction false} PruneAllSameOutside(cs: seq<Node>, ds: seq<Node>)
    requires SameOutsideAll(cs, ds)
    ensures PruneAll(cs) == PruneAll(ds)
    decreases cs
  {
    if cs != [] {
      PruneAllSameOutside(cs[1..], ds[1..]);
      if !(Excluded(cs[0]) && Excluded(ds[0])) {
        PruneSameOutside(cs[0], ds[0]);
      }
    }
  }

  /** Whatever excluded elements hold, wherever they sit below the root,
      the extracted text is the same: what lies inside `script`, `style`,
      `nav` and the others never reaches the result. */
  lemma ExcludedContentIgnored(n: Node, m: Node)
    requires SameOutside(n, m)
    ensures ExtractText(n) == ExtractText(m)
  {
    PruneSameOutside(n, m);
  }

  /** A string in collapsed form: words of non-whitespace separated by
      single spaces. */
  predicate Collapsed(r: string)
  {
    && (r == [] || (!IsWs(r[0]) && !IsWs(r[|r| - 1])))
    && (forall i :: 0 <= i < |r| ==> (IsWs(r[i]) ==> r[i] == ' '))
    && (forall i :: 0 <= i < |r| - 1 ==> !(r[i] == ' ' && r[i + 1] == ' '))
  }

  predicate IsWord(w: string)
  {
    w != [] && forall i :: 0 <= i < |w| ==> !IsWs(w[i])
  }

  lemma {:induction false} JoinWordsCollapsed(ws: seq<string>)
    requires forall k :: 0 <= k < |ws| ==> IsWord(ws[k])
    ensures Collapsed(Join(ws, " "))
    decreases |ws|
  {
    if |ws| > 1 {
      JoinWordsCollapsed(ws[1..]);
      var rest := Join(ws[1..], " ");
      var r := ws[0] + " " + rest;
      assert IsWord(ws[1]);
      assert rest != [] && rest[0] == ws[1][0] by {
        if |ws[1..]| > 1 {
          assert rest == ws[1] + " " + Join(ws[2..], " ");
        }
      }
      forall i | 0 <= i < |r|
        ensures IsWs(r[i]) ==> r[i] == ' '
      {
        if i < |ws[0]| {
          assert r[i] == ws[0][i];
        } else if i > |ws[0]| {
          assert r[i] == rest[i - |ws[0]| - 1];
        }
      }
      forall i | 0 <= i < |r| - 1
        ensures !(r[i] == ' ' && r[i + 1] == ' ')
      {
        if i < |ws[0]| {
          assert r[i] == ws[0][i];
        } else if i == |ws[0]| {
          assert r[i + 1] == rest[0];
        } else {
          assert r[i] == rest[i - |ws[0]| - 1] && r[i + 1] == rest[i - |ws[0]|];
        }
      }
      assert r[|r| - 1] == rest[|rest| - 1];
    }
  }

  /** After `' '.join(text.split())` the text has no leading or trailing
      whitespace, no two spaces in a row, and no whitespace but `' '`. */
  lemma CollapseShape(s: string)
    ensures Collapsed(Collapse(s))
  {
    JoinWordsCollapsed(Words(s));
  }

  lemma {:induction false} FirstWordOf(w: string, rest: string)
    requires forall i :: 0 <= i < |w| ==> !IsWs(w[i])
    requires rest == [] || IsWs(rest[0])
    ensures FirstWord(w + rest) == w
    decreases |w|
  {
    if w == [] {
      assert w + rest == rest;
    } else {
      assert (w + rest)[1..] == w[1..] + rest;
      FirstWordOf(w[1..], rest);
      assert w == [w[0]] + w[1..];
    }
  }

  /** Leading whitespace does not change the words. */
  lemma WordsAfterSpace(rest: string)
    ensures Words(" " + rest) == Words(rest)
  {
    assert (" " + rest)[1..] == rest;
    assert StripStart(" " + rest) == StripStart(rest);
  }

  lemma WordsOfWord(w: string)
    requires IsWord(w)
    ensures Words(w) == [w]
  {
    assert StripStart(w) == w;
    FirstWordOf(w, []);
    assert w + [] == w;
    assert w[|w|..] == [];
  }

  /** A word, a space, then more: the word comes off first. */
  lemma WordsStep(w: string, rest: string)
    requires IsWord(w) && rest != [] && !IsWs(rest[0])
    ensures Words(w + " " + rest) == [w] + Words(rest)
  {
    var j := w + " " + rest;
    assert j[0] == w[0];
    assert StripStart(j) == j;
    assert j == w + (" " + rest);
    FirstWordOf(w, " " + rest);
    assert j[|w|..] == " " + rest;
    WordsAfterSpace(rest);
  }

  /** Splitting words joined with single spaces gives the words back. */
  lemma {:induction false} WordsOfJoin(ws: seq<string>)
    requires forall k :: 0 <= k < |ws| ==> IsWord(ws[k])
    ensures Words(Join(ws, " ")) == ws
    decreases |ws|
  {
    if |ws| == 1 {
      WordsOfWord(ws[0]);
    } else if |ws| > 1 {
      var rest := Join(ws[1..], " ");
      WordsOfJoin(ws[1..]);
      assert rest != [] && !IsWs(rest[0]) by {
        assert IsWord(ws[1]);
        if |ws[1..]| > 1 {
          assert rest == ws[1] + " " + Join(ws[2..], " ");
        }
      }
      WordsStep(ws[0], rest);
      assert ws == [ws[0]] + ws[1..];
    }
  }

  /** Collapsing whitespace twice is collapsing it once. */
  lemma CollapseIdempotent(s: string)
    ensures Collapse(Collapse(s)) == Collapse(s)
  {
    WordsOfJoin(Words(s));
  }

  const Bom: char := '\U{FEFF}'

  /** `content.replace("\ufeff", "")` */
  function RemoveBom(s: string): string
  {
    Replace(s, [Bom], "")
  }

  lemma {:induction false} RemoveBomLeavesNone(s: string)
    ensures Bom !in RemoveBom(s)
    decreases |s|
  {
    if s != [] {
      RemoveBomLeavesNone(s[1..]);
      assert s[1..] == s[|[Bom]|..];
    }
  }

  lemma RemoveBomCons(c: char, rest: string)
    ensures RemoveBom([c] + rest) == (if c == Bom then [] else [c]) + RemoveBom(rest)
  {
    var s := [c] + rest;
    assert s[1..] == rest && s[0] == c;
    assert [Bom] <= s <==> c == Bom;
    assert "" + RemoveBom(rest) == RemoveBom(rest);
  }

  lemma JoinOfExample()
    ensures Join(["a", [Bom], "b"], " ") == "a \U{FEFF} b"
  {
    var ws := ["a", [Bom], "b"];
    assert ws[1..] == [[Bom], "b"] && ws[1..][1..] == ["b"];
    assert Join(["b"], " ") == "b";
    assert Join([[Bom], "b"], " ") == [Bom] + " " + "b";
  }

  lemma CollapseOfExample()
    ensures Collapse("a \U{FEFF} b") == "a \U{FEFF} b"
  {
    assert !IsWs(Bom);
    assert IsWord("a") && IsWord([Bom]) && IsWord("b");
    JoinOfExample();
    WordsOfJoin(["a", [Bom], "b"]);
  }

  /** Removal passes over a prefix free of the mark. */
  lemma {:induction false} RemoveBomKeepsPrefix(p: string, q: string)
    requires Bom !in p
    ensures RemoveBom(p + q) == p + RemoveBom(q)
  {
    if p == [] {
      assert p + q == q;
    } else {
      assert p[0] != Bom && Bom !in p[1..];
      RemoveBomKeepsPrefix(p[1..], q);
      RemoveBomCons(p[0], p[1..] + q);
      assert p + q == [p[0]] + (p[1..] + q);
      assert p == [p[0]] + p[1..];
    }
  }

  lemma RemoveBomOfExample()
    ensures RemoveBom("a \U{FEFF} b") == "a  b"
  {
    var p, q := "a ", " b";
    assert "a \U{FEFF} b" == p + ([Bom] + q);
    RemoveBomKeepsPrefix(p, [Bom] + q);
    RemoveBomCons(Bom, q);
    RemoveBomKeepsPrefix(q, "");
    assert q + "" == q;
    assert "" + q == q;
    assert p + q == "a  b";
  }

  /** The byte-order mark goes after the whitespace has been collapsed, so
      a mark between two spaces leaves two spaces in a row. */
  lemma BomLeavesDoubleSpace()
    ensures RemoveBom(Collapse("a \U{FEFF} b")) == "a  b"
  {
    CollapseOfExample();
    RemoveBomOfExample();
  }

  /** What one `.html` file becomes: the extracted text without its BOMs. */
  function Content(page: Node): string
  {
    RemoveBom(ExtractText(page))
  }

  const TxtSuffix: string := ".txt"

  /** `filename.replace(".html", ".txt")` */
  function TxtName(name: string): string
  {
    Replace(name, ".html", TxtSuffix)
  }

  /** A name whose only `.html` is its extension keeps its stem. */
  lemma TxtNameOfStem(stem: string)
    requires forall i :: 0 <= i < |stem| ==> !(".html" <= (stem + ".html")[i..])
    ensures TxtName(stem + ".html") == stem + TxtSuffix
  {
    ReplaceSuffix(stem, ".html", TxtSuffix);
  }

  /** One `.txt` file written: its name and its contents. */
  datatype Written = Written(file: string, text: string)

  /** The files written for a listing, in listing order. */
  function Writes(listing: seq<string>, pages: string -> Node): (ws: seq<Written>)
    ensures |ws| <= |listing|
  {
    if listing == [] then []
    else
      var name := listing[|listing| - 1];
      Writes(listing[..|listing| - 1], pages)
      + (if EndsWith(name, ".html") then [Written(TxtName(name), Content(pages(name)))] else [])
  }

  /** Every `.html` name of the listing gets its `.txt` file. */
  lemma {:induction false} EveryHtmlWritten(listing: seq<string>, pages: string -> Node, name: string)
    requires name in listing && EndsWith(name, ".html")
    ensures Written(TxtName(name), Content(pages(name))) in Writes(listing, pages)
    decreases |listing|
  {
    var init := listing[..|listing| - 1];
    if name in init {
      EveryHtmlWritten(init, pages, name);
    } else {
      assert listing == init + [listing[|listing| - 1]];
    }
  }

  /** Every file written comes from an `.html` name of the listing. */
  lemma {:induction false} OnlyHtmlWritten(listing: seq<string>, pages: string -> Node, w: Written)
    requires w in Writes(listing, pages)
    ensures exists name :: name in listing && EndsWith(name, ".html") && w == Written(TxtName(name), Content(pages(name)))
    decreases |listing|
  {
    var init := listing[..|listing| - 1];
    var last := listing[|listing| - 1];
    if w in Writes(init, pages) {
      OnlyHtmlWritten(init, pages, w);
      var name :| name in init && EndsWith(name, ".html") && w == Written(TxtName(name), Content(pages(name)));
      assert name in listing;
    } else {
      assert last in listing;
    }
  }

  /** No written text holds a byte-order mark. */
  lemma {:induction false} WritesHaveNoBom(listing: seq<string>, pages: string -> Node)
    ensures forall k :: 0 <= k < |Writes(listing, pages)| ==> Bom !in Writes(listing, pages)[k].text
    decreases |listing|
  {
    if listing != [] {
      WritesHaveNoBom(listing[..|listing| - 1], pages);
      RemoveBomLeavesNone(ExtractText(pages(listing[|listing| - 1])));
    }
  }

  /** `process_html_files(folder_path)`: None when the folder is missing,
      otherwise the `.txt` files written, in `os.listdir` order. */
  method ProcessHtmlFiles(folderExists: bool, listing: seq<string>, pages: string -> Node) returns (written: Option<seq<Written>>)
    ensures written == if folderExists then Some(Writes(listing, pages)) else None
  {
    if !folderExists {
      return None;
    }
    var out: seq<Written> := [];
    var i := 0;
    while i < |listing|
      invariant 0 <= i <= |listing|
      invariant out == Writes(listing[..i], pages)
    {
      var name := listing[i];
      if EndsWith(name, ".html") {
        var content := ExtractText(pages(name));
        content := RemoveBom(content);
        out := out + [Written(TxtName(name), content)];
      }
      assert listing[..i + 1][..i] == listing[..i];
      i := i + 1;
    }
    assert listing[..|listing|] == listing;
    return Some(out);
  }
}
