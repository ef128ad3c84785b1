/** Colour handling: `html_color_to_rgb`, the hex text `add_hyperlink` writes
    into a run's `w:color w:val` (section 17.3.2.6 of ECMA-376 Part 1), and the
    scan of an element's `style` attribute that both transcribers run first. */
module Colour {
  import opened Wrappers
  import opened PyStrings

  type Byte = x: int | 0 <= x < 256

  datatype Rgb = Rgb(r: Byte, g: Byte, b: Byte)

  predicate IsHexDigit(c: char)
  {
    ('0' <= c <= '9') || ('a' <= c <= 'f') || ('A' <= c <= 'F')
  }

  function HexValue(c: char): (v: nat)
    requires IsHexDigit(c)
    ensures v < 16
  {
    if '0' <= c <= '9' then c as int - '0' as int
    else if 'a' <= c <= 'f' then c as int - 'a' as int + 10
    else c as int - 'A' as int + 10
  }

  predicate IsUpperHexDigit(c: char)
  {
    ('0' <= c <= '9') || ('A' <= c <= 'F')
  }

  /** The digit `{:X}` prints for a value below 16. */
  function HexChar(d: nat): (c: char)
    requires d < 16
    ensures IsUpperHexDigit(c) && IsHexDigit(c) && HexValue(c) == d
  {
    if d < 10 then ('0' as int + d) as char else ('A' as int + d - 10) as char
  }

  /** A hex digit in the case `{:X}` prints it. */
  function UpperHex(c: char): char
  {
    if 'a' <= c <= 'f' then (c as int - 32) as char else c
  }

  /** `int(pair, 16)` for a two-character pair; a pair holding anything but
      hex digits raises ValueError. */
  function ParsePair(pair: string): (r: Result<Byte>)
    requires |pair| == 2
    ensures r.Ok? <==> IsHexDigit(pair[0]) && IsHexDigit(pair[1])
    ensures r.Err? ==> r.failure == InvalidHexDigits(pair)
  {
    if IsHexDigit(pair[0]) && IsHexDigit(pair[1]) then Ok(16 * HexValue(pair[0]) + HexValue(pair[1]))
    else Err(InvalidHexDigits(pair))
  }

  predicate IsHashForm(code: string)
  {
    |code| > 0 && StartsWith(code, "#") && |code| == 7
  }

  /** `html_color_to_rgb(code)`: a 7-character code starting with `#` becomes
      the three bytes of its digit pairs; any other code is no colour. A hash
      form with a pair that is not hex raises, on the first such pair. */
  function HtmlColorToRgb(code: string): Result<Option<Rgb>>
  {
    if IsHashForm(code) then
      match ParsePair(code[1..3])
      case Err(f) => Err(f)
      case Ok(red) =>
        match ParsePair(code[3..5])
        case Err(f) => Err(f)
        case Ok(green) =>
          match ParsePair(code[5..7])
          case Err(f) => Err(f)
          case Ok(blue) => Ok(Some(Rgb(red, green, blue)))
    else Ok(None)
  }

  /** Which codes are accepted, which are no colour and which raise. */
  lemma HtmlColorToRgbAccepts(code: string)
    ensures HtmlColorToRgb(code) == Ok(None) <==> !(|code| == 7 && code[0] == '#')
    ensures HtmlColorToRgb(code).Ok? && HtmlColorToRgb(code).value.Some? <==>
      |code| == 7 && code[0] == '#' && forall k :: 1 <= k < 7 ==> IsHexDigit(code[k])
    ensures HtmlColorToRgb(code).Err? ==>
      |code| == 7 && code[0] == '#' && exists k :: 1 <= k < 7 && !IsHexDigit(code[k])
  {
    if |code| == 7 && code[0] == '#' {
      assert code[1..3][0] == code[1] && code[1..3][1] == code[2];
      assert code[3..5][0] == code[3] && code[3..5][1] == code[4];
      assert code[5..7][0] == code[5] && code[5..7][1] == code[6];
    }
  }

  /** `f"{b:02X}"` for one byte. */
  function UpperHex2(b: Byte): (s: string)
    ensures |s| == 2 && IsUpperHexDigit(s[0]) && IsUpperHexDigit(s[1])
  {
    [HexChar(b / 16), HexChar(b % 16)]
  }

  /** The `w:val` text `add_hyperlink` writes for a colour: six upper-case hex
      digits, red, green, blue. */
  function FormatHex(c: Rgb): (s: string)
    ensures |s| == 6 && forall k :: 0 <= k < 6 ==> IsUpperHexDigit(s[k])
  {
    var red, green, blue := UpperHex2(c.r), UpperHex2(c.g), UpperHex2(c.b);
    [red[0], red[1], green[0], green[1], blue[0], blue[1]]
  }

  lemma PairRoundTrip(b: Byte)
    ensures ParsePair(UpperHex2(b)) == Ok(b)
  {
  }

  /** Printing a colour as `w:val` and reading it back with a `#` in front
      gives the same colour. */
  lemma RgbRoundTrip(c: Rgb)
    ensures HtmlColorToRgb("#" + FormatHex(c)) == Ok(Some(c))
  {
    var code := "#" + FormatHex(c);
    PairRoundTrip(c.r);
    PairRoundTrip(c.g);
    PairRoundTrip(c.b);
    assert code[1..3] == UpperHex2(c.r);
    assert code[3..5] == UpperHex2(c.g);
    assert code[5..7] == UpperHex2(c.b);
  }

  lemma PairPrintedBack(pair: string)
    requires |pair| == 2 && ParsePair(pair).Ok?
    ensures UpperHex2(ParsePair(pair).value) == [UpperHex(pair[0]), UpperHex(pair[1])]
  {
    var hi, lo := HexValue(pair[0]), HexValue(pair[1]);
    assert (16 * hi + lo) / 16 == hi;
    assert (16 * hi + lo) % 16 == lo;
  }

  /** Conversely, a code that parses prints back as its own six digits, in
      upper case. */
  lemma HexCodeRoundTrip(code: string)
    requires HtmlColorToRgb(code).Ok? && HtmlColorToRgb(code).value.Some?
    ensures FormatHex(HtmlColorToRgb(code).value.value) == seq(6, k requires 0 <= k < 6 => UpperHex(code[k + 1]))
  {
    PairPrintedBack(code[1..3]);
    PairPrintedBack(code[3..5]);
    PairPrintedBack(code[5..7]);
  }

  // ---- the style attribute ------------------------------------------------

  /** `"color:" in segment`: also true of `background-color:`. */
  predicate Declares(segment: string)
  {
    Contains(segment, "color:")
  }

  lemma BackgroundColourDeclares(value: string)
    ensures Declares("background-color:" + value)
  {
    assert "background-color:" + value == "background-" + "color:" + value;
    ContainsInfix("background-", "color:", value);
  }

  /** `segment.split(":")[-1].strip()` */
  function DeclValue(segment: string): string
  {
    var parts := Split(segment, ':');
    Strip(parts[|parts| - 1])
  }

  /** The value is what follows the segment's last colon, stripped. */
  lemma {:induction false} DeclValueAfterLastColon(prefix: string, value: string)
    requires ':' !in value
    ensures DeclValue(prefix + ":" + value) == Strip(value)
  {
    SplitLastPiece(prefix, value);
  }

  lemma {:induction false} SplitLastPiece(prefix: string, value: string)
    requires ':' !in value
    ensures var parts := Split(prefix + ":" + value, ':'); |parts| >= 2 && parts[|parts| - 1] == value
  {
    if prefix == [] {
      assert prefix + ":" + value == [':'] + value;
      assert ([':'] + value)[1..] == value;
      SplitFree(value, ':');
    } else {
      assert (prefix + ":" + value)[1..] == prefix[1..] + ":" + value;
      SplitLastPiece(prefix[1..], value);
    }
  }

  /** What one `;`-segment of a style attribute contributes: nothing, or the
      outcome of `html_color_to_rgb` on its value. */
  datatype Declaration = NoDeclaration | Declared(parsed: Result<Option<Rgb>>)

  function Classify(segment: string): Declaration
  {
    if Declares(segment) then Declared(HtmlColorToRgb(DeclValue(segment))) else NoDeclaration
  }

  function Declarations(segments: seq<string>): seq<Declaration>
  {
    seq(|segments|, k requires 0 <= k < |segments| => Classify(segments[k]))
  }

  /** The loop over `style.split(";")`: each declaration replaces the colour
      found so far (a malformed one by None); a hash code that is not hex
      raises. */
  function ScanColour(ds: seq<Declaration>, current: Option<Rgb>): Result<Option<Rgb>>
    decreases |ds|
  {
    if ds == [] then Ok(current)
    else
      match ds[0]
      case NoDeclaration => ScanColour(ds[1..], current)
      case Declared(Err(f)) => Err(f)
      case Declared(Ok(c)) => ScanColour(ds[1..], c)
  }

  /** The colour an element's own `style` attribute gives it. */
  function StyleColour(attrs: map<string, string>): (r: Result<Option<Rgb>>)
    ensures "style" !in attrs ==> r == Ok(None)
  {
    if "style" in attrs then ScanColour(Declarations(Split(attrs["style"], ';')), None) else Ok(None)
  }

  predicate Raises(d: Declaration)
  {
    d.Declared? && d.parsed.Err?
  }

  /** The last declaration. */
  function LastDeclared(ds: seq<Declaration>): (r: Option<nat>)
    ensures r.Some? ==> (r.value < |ds| && ds[r.value].Declared? &&
      forall j :: r.value < j < |ds| ==> ds[j].NoDeclaration?)
    ensures r.None? ==> forall j :: 0 <= j < |ds| ==> ds[j].NoDeclaration?
  {
    if ds == [] then None
    else
      match LastDeclared(ds[1..])
      case Some(j) => Some(j + 1)
      case None => if ds[0].Declared? then Some(0) else None
  }

  /** The first declaration that raises. */
  function FirstRaising(ds: seq<Declaration>): (r: Option<nat>)
    ensures r.Some? ==> (r.value < |ds| && Raises(ds[r.value]) &&
      forall j :: 0 <= j < r.value ==> !Raises(ds[j]))
    ensures r.None? ==> forall j :: 0 <= j < |ds| ==> !Raises(ds[j])
  {
    if ds == [] then None
    else if Raises(ds[0]) then Some(0)
    else
      match FirstRaising(ds[1..])
      case Some(j) => Some(j + 1)
      case None => None
  }

  /** Last match wins: the first raising declaration raises; otherwise the
      last declaration alone decides, and with none the colour is unchanged. */
  function LastWins(ds: seq<Declaration>, initial: Option<Rgb>): Result<Option<Rgb>>
  {
    match FirstRaising(ds)
    case Some(k) => Err(ds[k].parsed.failure)
    case None =>
      match LastDeclared(ds)
      case None => Ok(initial)
      case Some(k) => Ok(ds[k].parsed.value)
  }

  lemma {:induction false} ScanIsLastWins(ds: seq<Declaration>, current: Option<Rgb>)
    ensures ScanColour(ds, current) == LastWins(ds, current)
    decreases |ds|
  {
    if ds != [] {
      match ds[0]
      case NoDeclaration => ScanIsLastWins(ds[1..], current);
      case Declared(Err(_)) =>
      case Declared(Ok(c)) => ScanIsLastWins(ds[1..], c);
    }
  }

  /** Scanning two runs of declarations is scanning the first, then the
      second from the colour the first left. */
  lemma {:induction false} ScanAppend(a: seq<Declaration>, b: seq<Declaration>, current: Option<Rgb>)
    ensures ScanColour(a + b, current) ==
      match ScanColour(a, current)
      case Err(f) => Err(f)
      case Ok(c) => ScanColour(b, c)
    decreases |a|
  {
    if a == [] {
      assert a + b == b;
    } else {
      assert (a + b)[1..] == a[1..] + b;
      match a[0]
      case NoDeclaration => ScanAppend(a[1..], b, current);
      case Declared(Err(_)) =>
      case Declared(Ok(c)) => ScanAppend(a[1..], b, c);
    }
  }

  /** A later declaration that is not a hash code (so parses as no colour)
      clears the colour an earlier valid one set. */
  lemma LaterMalformedClears(before: seq<Declaration>, after: seq<Declaration>)
    requires ScanColour(before, None).Ok?
    requires forall j :: 0 <= j < |after| ==> after[j].NoDeclaration?
    ensures ScanColour(before + [Declared(Ok(None))] + after, None) == Ok(None)
  {
    ScanAppend(before + [Declared(Ok(None))], after, None);
    ScanAppend(before, [Declared(Ok(None))], None);
    ScanIsLastWins(after, None);
  }

  /** The loop of lines 53-59 of main.py (48-54 of gethtmlcontent01.py),
      reassigning `color` segment by segment. */
  method ResolveStyleColour(attrs: map<string, string>) returns (r: Result<Option<Rgb>>)
    ensures r == StyleColour(attrs)
    ensures r == if "style" in attrs then LastWins(Declarations(Split(attrs["style"], ';')), None) else Ok(None)
  {
    var colour: Option<Rgb> := None;
    if "style" in attrs {
      var segments := Split(attrs["style"], ';');
      ghost var ds := Declarations(segments);
      ScanIsLastWins(ds, None);
      var i := 0;
      while i < |segments|
        invariant 0 <= i <= |segments|
        invariant ScanColour(ds, None) == ScanColour(ds[i..], colour)
      {
        assert ds[i..][1..] == ds[i + 1..];
        if Declares(segments[i]) {
          var parsed := HtmlColorToRgb(DeclValue(segments[i]));
          if parsed.Err? {
            return Err(parsed.failure);
          }
          colour := parsed.value;
        }
        i := i + 1;
      }
    }
    return Ok(colour);
  }
}
