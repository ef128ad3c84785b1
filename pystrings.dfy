/** The few Python `str` operations the converter relies on, over `seq<char>`. */
module PyStrings {

  /** `str.isspace()`: the characters `str.split()` and `str.strip()` treat as
      whitespace. U+FEFF (the byte-order mark) is not among them. */
  predicate IsWs(c: char)
  {
    ('\U{9}' <= c <= '\U{D}') || ('\U{1C}' <= c <= '\U{20}') ||
    c == '\U{85}' || c == '\U{A0}' || c == '\U{1680}' ||
    ('\U{2000}' <= c <= '\U{200A}') || c == '\U{2028}' || c == '\U{2029}' ||
    c == '\U{202F}' || c == '\U{205F}' || c == '\U{3000}'
  }

  /** `s.startswith(p)` */
  predicate StartsWith(s: string, p: string)
  {
    p <= s
  }

  /** `s.endswith(p)` */
  predicate EndsWith(s: string, p: string)
  {
    |p| <= |s| && s[|s| - |p|..] == p
  }

  /** `sub in s` */
  predicate Contains(s: string, sub: string)
    decreases |s|
  {
    sub <= s || (s != [] && Contains(s[1..], sub))
  }

  /** Whatever surrounds it, a string contains itself: for example
      "background-color:" contains "color:". */
  lemma {:induction false} ContainsInfix(p: string, sub: string, q: string)
    ensures Contains(p + sub + q, sub)
  {
    if p == [] {
      assert p + sub + q == sub + q;
    } else {
      assert (p + sub + q)[1..] == p[1..] + sub + q;
      ContainsInfix(p[1..], sub, q);
    }
  }

  /** `s.lstrip()` */
  function StripStart(s: string): (r: string)
    ensures |r| <= |s|
  {
    if s != [] && IsWs(s[0]) then StripStart(s[1..]) else s
  }

  /** `s.rstrip()` */
  function StripEnd(s: string): (r: string)
    ensures |r| <= |s|
  {
    if s != [] && IsWs(s[|s| - 1]) then StripEnd(s[..|s| - 1]) else s
  }

  /** `s.strip()` */
  function Strip(s: string): string
  {
    StripEnd(StripStart(s))
  }

  /** `lstrip` drops leading whitespace and nothing else. */
  lemma {:induction false} StripStartSpec(s: string)
    ensures var r := StripStart(s);
      && |r| <= |s| && r == s[|s| - |r|..]
      && (forall i :: 0 <= i < |s| - |r| ==> IsWs(s[i]))
      && (r == [] || !IsWs(r[0]))
  {
    if s != [] && IsWs(s[0]) {
      StripStartSpec(s[1..]);
    }
  }

  /** `rstrip` drops trailing whitespace and nothing else. */
  lemma {:induction false} StripEndSpec(s: string)
    ensures var r := StripEnd(s);
      && |r| <= |s| && r == s[..|r|]
      && (forall i :: |r| <= i < |s| ==> IsWs(s[i]))
      && (r == [] || !IsWs(r[|r| - 1]))
  {
    if s != [] && IsWs(s[|s| - 1]) {
      StripEndSpec(s[..|s| - 1]);
    }
  }

  /** `strip` keeps the infix of `s` that starts after its leading
      whitespace; every character dropped on either side is whitespace,
      and what is kept neither starts nor ends with whitespace. */
  lemma StripSpec(s: string)
    ensures var r, k := Strip(s), |s| - |StripStart(s)|;
      && k + |r| <= |s| && r == s[k..k + |r|]
      && (forall i :: 0 <= i < k ==> IsWs(s[i]))
      && (forall i :: k + |r| <= i < |s| ==> IsWs(s[i]))
      && (r == [] || (!IsWs(r[0]) && !IsWs(r[|r| - 1])))
  {
    var t := StripStart(s);
    var k := |s| - |t|;
    StripStartSpec(s);
    StripEndSpec(t);
    var r := StripEnd(t);
    assert t == s[k..];
    assert r == t[..|r|];
    assert r == s[k..k + |r|];
    forall i | k + |r| <= i < |s|
      ensures IsWs(s[i])
    {
      assert s[i] == t[i - k];
    }
  }

  /** `sep.join(parts)` */
  function Join(parts: seq<string>, sep: string): string
  {
    if |parts| == 0 then ""
    else if |parts| == 1 then parts[0]
    else parts[0] + sep + Join(parts[1..], sep)
  }

  /** `s.split(sep)` for a one-character separator: never empty, and no piece
      contains the separator. */
  function Split(s: string, sep: char): (parts: seq<string>)
    ensures |parts| >= 1
    ensures forall k :: 0 <= k < |parts| ==> sep !in parts[k]
  {
    if s == [] then [""]
    else
      var rest := Split(s[1..], sep);
      if s[0] == sep then [""] + rest
      else [[s[0]] + rest[0]] + rest[1..]
  }

  /** Joining the pieces of a split with the separator gives the string back. */
  lemma {:induction false} JoinSplit(s: string, sep: char)
    ensures Join(Split(s, sep), [sep]) == s
  {
    if s != [] {
      var rest := Split(s[1..], sep);
      JoinSplit(s[1..], sep);
      if s[0] == sep {
        assert Split(s, sep) == [""] + rest;
        assert ([""] + rest)[1..] == rest;
      } else {
        var parts := [[s[0]] + rest[0]] + rest[1..];
        assert Split(s, sep) == parts;
        if |rest| == 1 {
          assert rest == [rest[0]];
        } else {
          assert parts[1..] == rest[1..];
          assert Join(rest, [sep]) == rest[0] + [sep] + Join(rest[1..], [sep]);
        }
      }
    }
  }

  /** Conversely, splitting pieces that are free of the separator, once joined
      with it, gives the pieces back. */
  lemma {:induction false} SplitJoin(parts: seq<string>, sep: char)
    requires |parts| >= 1
    requires forall k :: 0 <= k < |parts| ==> sep !in parts[k]
    ensures Split(Join(parts, [sep]), sep) == parts
  {
    if |parts| == 1 {
      SplitFree(parts[0], sep);
    } else {
      SplitJoin(parts[1..], sep);
      SplitWithSep(parts[0], Join(parts[1..], [sep]), sep);
      assert parts == [parts[0]] + parts[1..];
    }
  }

  lemma {:induction false} SplitFree(s: string, sep: char)
    requires sep !in s
    ensures Split(s, sep) == [s]
  {
    if s != [] {
      SplitFree(s[1..], sep);
      assert [s[0]] + s[1..] == s;
    }
  }

  lemma {:induction false} SplitWithSep(p: string, q: string, sep: char)
    requires sep !in p
    ensures Split(p + [sep] + q, sep) == [p] + Split(q, sep)
  {
    if p == [] {
      assert p + [sep] + q == [sep] + q;
      assert ([sep] + q)[1..] == q;
    } else {
      assert (p + [sep] + q)[1..] == p[1..] + [sep] + q;
      SplitWithSep(p[1..], q, sep);
      assert (p + [sep] + q)[0] == p[0] && [p[0]] + p[1..] == p;
    }
  }

  /** The longest prefix of `s` free of whitespace. */
  function FirstWord(s: string): (w: string)
    ensures w <= s
    ensures forall i :: 0 <= i < |w| ==> !IsWs(w[i])
    ensures |w| == |s| || IsWs(s[|w|])
  {
    if s == [] || IsWs(s[0]) then [] else [s[0]] + FirstWord(s[1..])
  }

  /** `s.split()` with no separator: the maximal runs of non-whitespace. */
  function Words(s: string): (ws: seq<string>)
    ensures forall k :: 0 <= k < |ws| ==> ws[k] != [] && forall i :: 0 <= i < |ws[k]| ==> !IsWs(ws[k][i])
    decreases |s|
  {
    var t := StripStart(s);
    if t == [] then []
    else
      StripStartSpec(s);
      var w := FirstWord(t);
      [w] + Words(t[|w|..])
  }

  predicate AllWs(g: string)
  {
    forall i :: 0 <= i < |g| ==> IsWs(g[i])
  }

  /** The whitespace runs around the words of `s`: the one before the first
      word, one between each two words, and the one after the last. */
  function Gaps(s: string): (gs: seq<string>)
    ensures |gs| == |Words(s)| + 1
    decreases |s|
  {
    var t := StripStart(s);
    StripStartSpec(s);
    if t == [] then [s]
    else
      var w := FirstWord(t);
      [s[..|s| - |t|]] + Gaps(t[|w|..])
  }

  /** Runs of whitespace and words, one after the other, starting and
      ending with a run. */
  function Interleave(gaps: seq<string>, ws: seq<string>): string
    requires |gaps| == |ws| + 1
  {
    if ws == [] then gaps[0] else gaps[0] + ws[0] + Interleave(gaps[1..], ws[1..])
  }

  /** `split()` loses only whitespace: `s` is its words, in order, with
      whitespace runs around them, the runs between two words being
      non-empty. As the words hold no whitespace, they are exactly the
      maximal runs of non-whitespace of `s`. */
  lemma {:induction false} WordsSpan(s: string)
    ensures var gs, ws := Gaps(s), Words(s);
      && s == Interleave(gs, ws)
      && (forall k :: 0 <= k < |gs| ==> AllWs(gs[k]))
      && (forall k :: 0 < k < |ws| ==> gs[k] != [])
    decreases |s|
  {
    StripStartSpec(s);
    if StripStart(s) != [] {
      var lead, w, rest := FirstSplit(s);
      WordsSpan(rest);
      if rest != [] {
        GapAfterWord(rest);
      }
      SpanCons(lead, w, rest, Gaps(rest), Words(rest));
    }
  }

  /** The first step of `split()`: the leading run, the first word, and
      what follows, which is shorter and starts with whitespace if anything. */
  lemma FirstSplit(s: string) returns (lead: string, w: string, rest: string)
    requires StripStart(s) != []
    ensures Gaps(s) == [lead] + Gaps(rest) && Words(s) == [w] + Words(rest)
    ensures AllWs(lead) && s == lead + (w + rest) && |rest| < |s|
    ensures rest != [] ==> IsWs(rest[0])
  {
    var t := StripStart(s);
    StripStartSpec(s);
    w := FirstWord(t);
    rest := t[|w|..];
    lead := s[..|s| - |t|];
    if rest != [] {
      assert rest[0] == t[|w|];
    }
  }

  /** One more run and word in front of a string already split into runs
      and words. */
  lemma SpanCons(lead: string, w: string, rest: string, gs: seq<string>, ws: seq<string>)
    requires AllWs(lead) && |gs| == |ws| + 1 && rest == Interleave(gs, ws)
    requires (forall k :: 0 <= k < |gs| ==> AllWs(gs[k])) && (forall k :: 0 < k < |ws| ==> gs[k] != [])
    requires ws != [] ==> gs[0] != []
    ensures var gs', ws' := [lead] + gs, [w] + ws;
      && lead + (w + rest) == Interleave(gs', ws')
      && (forall k :: 0 <= k < |gs'| ==> AllWs(gs'[k]))
      && (forall k :: 0 < k < |ws'| ==> gs'[k] != [])
  {
    InterleaveCons(lead, w, gs, ws);
    RunsCons(lead, w, gs, ws);
  }

  lemma InterleaveCons(lead: string, w: string, gs: seq<string>, ws: seq<string>)
    requires |gs| == |ws| + 1
    ensures Interleave([lead] + gs, [w] + ws) == lead + (w + Interleave(gs, ws))
  {
    var gs', ws' := [lead] + gs, [w] + ws;
    assert gs'[1..] == gs && ws'[1..] == ws;
  }

  lemma RunsCons(lead: string, w: string, gs: seq<string>, ws: seq<string>)
    requires AllWs(lead) && |gs| == |ws| + 1
    requires (forall k :: 0 <= k < |gs| ==> AllWs(gs[k])) && (forall k :: 0 < k < |ws| ==> gs[k] != [])
    requires ws != [] ==> gs[0] != []
    ensures var gs', ws' := [lead] + gs, [w] + ws;
      && (forall k :: 0 <= k < |gs'| ==> AllWs(gs'[k]))
      && (forall k :: 0 < k < |ws'| ==> gs'[k] != [])
  {
    var gs' := [lead] + gs;
    forall k | 0 < k < |gs'|
      ensures gs'[k] == gs[k - 1]
    {
    }
  }

  /** What follows a word starts with whitespace, so the run before the
      next word is not empty. */
  lemma GapAfterWord(rest: string)
    requires rest != [] && IsWs(rest[0])
    ensures Gaps(rest)[0] != []
  {
    StripStartSpec(rest[1..]);
  }

  /** `s.replace(pat, repl)` for a non-empty `pat`: replaces every
      non-overlapping occurrence, scanning left to right. */
  function Replace(s: string, pat: string, repl: string): string
    requires pat != ""
    decreases |s|
  {
    if |s| < |pat| then s
    else if pat <= s then repl + Replace(s[|pat|..], pat, repl)
    else [s[0]] + Replace(s[1..], pat, repl)
  }

  /** When `pat` occurs in `stem + pat` only as its suffix, replacing it
      swaps that suffix for `repl` and leaves the stem alone. */
  lemma {:induction false} ReplaceSuffix(stem: string, pat: string, repl: string)
    requires pat != ""
    requires forall i :: 0 <= i < |stem| ==> !(pat <= (stem + pat)[i..])
    ensures Replace(stem + pat, pat, repl) == stem + repl
  {
    if stem == [] {
      assert stem + pat == pat;
      assert pat[|pat|..] == [];
    } else {
      assert !(pat <= (stem + pat)[0..]);
      assert (stem + pat)[1..] == stem[1..] + pat;
      forall i | 0 <= i < |stem[1..]|
        ensures !(pat <= (stem[1..] + pat)[i..])
      {
        assert (stem[1..] + pat)[i..] == (stem + pat)[i + 1..];
      }
      ReplaceSuffix(stem[1..], pat, repl);
    }
  }

  /** A string with no occurrence of `pat` is left as it is. */
  lemma {:induction false} ReplaceAbsent(s: string, pat: string, repl: string)
    requires pat != ""
    requires !Contains(s, pat)
    ensures Replace(s, pat, repl) == s
  {
    if |s| >= |pat| {
      ReplaceAbsent(s[1..], pat, repl);
    }
  }
}
