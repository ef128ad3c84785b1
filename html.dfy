/** The parsed HTML tree, and the BeautifulSoup queries the converter makes on
    it: `get_text()`, `find_all(names)`, `find_all("li", recursive=False)`,
    `find(name)`, `find()`, `find(id=...)` and `get(attr)`. */
module Html {
  import opened Wrappers
  import opened PyStrings

  /** An element with its lower-case tag name, its attributes and its children,
      or a text string. */
  datatype Node =
    | Elem(name: string, attrs: map<string, string>, children: seq<Node>)
    | Text(s: string)

  /** `node.get_text()`: the node's strings, in document order, concatenated. */
  function GetText(n: Node): string
  {
    match n
    case Text(s) => s
    case Elem(_, _, cs) => ChildrenText(cs)
  }

  function ChildrenText(cs: seq<Node>): string
  {
    if cs == [] then "" else GetText(cs[0]) + ChildrenText(cs[1..])
  }

  /** `node.get(key)`: the attribute's value, or None. */
  function Attr(n: Node, key: string): Option<string>
  {
    if n.Elem? && key in n.attrs then Some(n.attrs[key]) else None
  }

  predicate Named(c: Node, names: set<string>)
  {
    c.Elem? && c.name in names
  }

  /** `node.find_all(names)`: every descendant element (the node itself
      excluded) whose name is among `names`, in document order. */
  function FindAll(n: Node, names: set<string>): (r: seq<Node>)
    ensures forall k :: 0 <= k < |r| ==> Named(r[k], names)
  {
    match n
    case Text(_) => []
    case Elem(_, _, cs) => FindAllIn(cs, names)
  }

  function FindAllIn(cs: seq<Node>, names: set<string>): (r: seq<Node>)
    ensures forall k :: 0 <= k < |r| ==> Named(r[k], names)
  {
    if cs == [] then []
    else (if Named(cs[0], names) then [cs[0]] else []) + FindAll(cs[0], names) + FindAllIn(cs[1..], names)
  }

  /** Every descendant of a node, the node itself excluded, in document
      order: each child, then the child's own descendants. */
  function Descendants(n: Node): seq<Node>
  {
    match n
    case Text(_) => []
    case Elem(_, _, cs) => DescendantsIn(cs)
  }

  function DescendantsIn(cs: seq<Node>): seq<Node>
  {
    if cs == [] then [] else [cs[0]] + Descendants(cs[0]) + DescendantsIn(cs[1..])
  }

  /** `find_all(names)` is exactly the descendants so named, in document order. */
  lemma {:induction false} FindAllSelectsDescendants(n: Node, names: set<string>)
    ensures FindAll(n, names) == Select(Descendants(n), names)
  {
    match n
    case Text(_) =>
    case Elem(_, _, cs) => FindAllInSelectsDescendants(cs, names);
  }

  lemma {:induction false} FindAllInSelectsDescendants(cs: seq<Node>, names: set<string>)
    ensures FindAllIn(cs, names) == Select(DescendantsIn(cs), names)
  {
    if cs != [] {
      FindAllSelectsDescendants(cs[0], names);
      FindAllInSelectsDescendants(cs[1..], names);
      SelectAppend([cs[0]] + Descendants(cs[0]), DescendantsIn(cs[1..]), names);
      SelectAppend([cs[0]], Descendants(cs[0]), names);
      assert [cs[0]][1..] == [];
      assert Select([cs[0]], names) == (if Named(cs[0], names) then [cs[0]] else []) + Select([], names);
    }
  }

  /** `node.find(name)`: the first descendant element so named, in document order. */
  function FindFirst(n: Node, name: string): Option<Node>
  {
    match n
    case Text(_) => None
    case Elem(_, _, cs) => FindFirstIn(cs, name)
  }

  function FindFirstIn(cs: seq<Node>, name: string): Option<Node>
  {
    if cs == [] then None
    else if cs[0].Elem? && cs[0].name == name then Some(cs[0])
    else
      match FindFirst(cs[0], name)
      case Some(d) => Some(d)
      case None => FindFirstIn(cs[1..], name)
  }

  /** `find(name)` returns the head of `find_all(name)`, and nothing exactly
      when `find_all(name)` finds nothing. */
  lemma {:induction false} FindFirstIsFirstFound(n: Node, name: string)
    ensures FindFirst(n, name) == if FindAll(n, {name}) == [] then None else Some(FindAll(n, {name})[0])
  {
    match n
    case Text(_) =>
    case Elem(_, _, cs) => FindFirstInIsFirstFound(cs, name);
  }

  lemma {:induction false} FindFirstInIsFirstFound(cs: seq<Node>, name: string)
    ensures FindFirstIn(cs, name) == if FindAllIn(cs, {name}) == [] then None else Some(FindAllIn(cs, {name})[0])
  {
    if cs != [] {
      FindFirstIsFirstFound(cs[0], name);
      FindFirstInIsFirstFound(cs[1..], name);
    }
  }

  /** `node.find(id=key)`: the first descendant element whose `id` is `key`. */
  function FindById(n: Node, key: string): (r: Option<Node>)
    ensures r.Some? ==> Attr(r.value, "id") == Some(key)
  {
    match n
    case Text(_) => None
    case Elem(_, _, cs) => FindByIdIn(cs, key)
  }

  function FindByIdIn(cs: seq<Node>, key: string): (r: Option<Node>)
    ensures r.Some? ==> Attr(r.value, "id") == Some(key)
  {
    if cs == [] then None
    else if Attr(cs[0], "id") == Some(key) then Some(cs[0])
    else
      match FindById(cs[0], key)
      case Some(d) => Some(d)
      case None => FindByIdIn(cs[1..], key)
  }

  /** The position of the first element of `xs` whose `id` is `key`, or
      `|xs|` when there is none. */
  function FirstIdIndex(xs: seq<Node>, key: string): (i: nat)
    ensures i <= |xs|
    ensures i < |xs| ==> Attr(xs[i], "id") == Some(key)
    ensures forall j :: 0 <= j < i ==> Attr(xs[j], "id") != Some(key)
  {
    if xs == [] then 0
    else if Attr(xs[0], "id") == Some(key) then 0
    else 1 + FirstIdIndex(xs[1..], key)
  }

  lemma {:induction false} FirstIdIndexAppend(a: seq<Node>, b: seq<Node>, key: string)
    ensures FirstIdIndex(a + b, key)
              == if FirstIdIndex(a, key) < |a| then FirstIdIndex(a, key) else |a| + FirstIdIndex(b, key)
    decreases |a|
  {
    if a == [] {
      assert a + b == b;
    } else {
      assert (a + b)[1..] == a[1..] + b;
      assert (a + b)[0] == a[0];
      FirstIdIndexAppend(a[1..], b, key);
    }
  }

  /** `find(id=key)` is the first descendant, in document order, whose `id`
      is `key`, and nothing exactly when no descendant has that `id`. */
  lemma {:induction false} FindByIdIsFirst(n: Node, key: string)
    ensures var ds := Descendants(n);
      FindById(n, key) == if FirstIdIndex(ds, key) < |ds| then Some(ds[FirstIdIndex(ds, key)]) else None
  {
    match n
    case Text(_) =>
    case Elem(_, _, cs) => FindByIdInIsFirst(cs, key);
  }

  lemma {:induction false} FindByIdInIsFirst(cs: seq<Node>, key: string)
    ensures var ds := DescendantsIn(cs);
      FindByIdIn(cs, key) == if FirstIdIndex(ds, key) < |ds| then Some(ds[FirstIdIndex(ds, key)]) else None
  {
    if cs != [] {
      var below, rest := Descendants(cs[0]), DescendantsIn(cs[1..]);
      assert DescendantsIn(cs) == [cs[0]] + (below + rest);
      if Attr(cs[0], "id") != Some(key) {
        FindByIdIsFirst(cs[0], key);
        FindByIdInIsFirst(cs[1..], key);
        FirstIdAfter(cs[0], below, rest, key, FindById(cs[0], key), FindByIdIn(cs[1..], key));
      }
    }
  }

  /** The search past a child without the `id`: first below it, then past it. */
  lemma FirstIdAfter(c: Node, below: seq<Node>, rest: seq<Node>, key: string, inBelow: Option<Node>, inRest: Option<Node>)
    requires Attr(c, "id") != Some(key)
    requires inBelow == if FirstIdIndex(below, key) < |below| then Some(below[FirstIdIndex(below, key)]) else None
    requires inRest == if FirstIdIndex(rest, key) < |rest| then Some(rest[FirstIdIndex(rest, key)]) else None
    ensures var ds := [c] + (below + rest);
      (if inBelow.Some? then inBelow else inRest)
        == if FirstIdIndex(ds, key) < |ds| then Some(ds[FirstIdIndex(ds, key)]) else None
  {
    var ds := [c] + (below + rest);
    assert ds[1..] == below + rest;
    FirstIdIndexAppend(below, rest, key);
    var i := FirstIdIndex(below, key);
    if i < |below| {
      assert ds[1 + i] == below[i];
    } else {
      var j := FirstIdIndex(rest, key);
      if j < |rest| {
        assert ds[1 + |below| + j] == rest[j];
      }
    }
  }

  /** `node.find_all(name, recursive=False)`: the children that are elements
      so named, in order. */
  function ChildrenNamed(n: Node, name: string): (r: seq<Node>)
    ensures forall k :: 0 <= k < |r| ==> r[k].Elem? && r[k].name == name
  {
    if n.Text? then [] else Select(n.children, {name})
  }

  /** The elements of `xs` whose name is among `names`, in order. */
  function Select(xs: seq<Node>, names: set<string>): (r: seq<Node>)
    ensures forall k :: 0 <= k < |r| ==> Named(r[k], names)
    ensures |r| <= |xs|
  {
    if xs == [] then []
    else (if Named(xs[0], names) then [xs[0]] else []) + Select(xs[1..], names)
  }

  /** Selecting keeps order: the selection of a concatenation is the
      concatenation of the selections. */
  lemma {:induction false} SelectAppend(a: seq<Node>, b: seq<Node>, names: set<string>)
    ensures Select(a + b, names) == Select(a, names) + Select(b, names)
    decreases |a|
  {
    if a == [] {
      assert a + b == b;
    } else {
      assert (a + b)[1..] == a[1..] + b;
      SelectAppend(a[1..], b, names);
    }
  }

  /** Selecting keeps every element so named, as many times as it occurs,
      and nothing else. */
  lemma {:induction false} SelectCounts(xs: seq<Node>, names: set<string>)
    ensures forall x :: multiset(Select(xs, names))[x] == if Named(x, names) then multiset(xs)[x] else 0
    decreases |xs|
  {
    if xs != [] {
      SelectCounts(xs[1..], names);
      assert xs == [xs[0]] + xs[1..];
    }
  }

  /** The direct children so named are kept, each as often as it occurs,
      and in the order of the children (`SelectAppend`). */
  lemma ChildrenNamedCounts(n: Node, name: string)
    requires n.Elem?
    ensures forall x :: multiset(ChildrenNamed(n, name))[x]
                          == if x.Elem? && x.name == name then multiset(n.children)[x] else 0
  {
    SelectCounts(n.children, {name});
  }

  /** `node.find()` with no name is not None: the node has a descendant
      element, which is the case exactly when one of its children is an element. */
  predicate HasElementChild(n: Node)
  {
    n.Elem? && exists k :: 0 <= k < |n.children| && n.children[k].Elem?
  }

  predicate IsSeparator(c: char)
  {
    c == '/' || c == '\\'
  }

  /** `os.path.basename(path)`: the longest suffix with no path separator. */
  function Basename(path: string): (b: string)
    ensures |b| <= |path| && b == path[|path| - |b|..]
    ensures forall k :: 0 <= k < |b| ==> !IsSeparator(b[k])
    ensures |b| < |path| ==> IsSeparator(path[|path| - |b| - 1])
  {
    if path == [] || IsSeparator(path[|path| - 1]) then []
    else Basename(path[..|path| - 1]) + [path[|path| - 1]]
  }
}
