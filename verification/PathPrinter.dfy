/** The diagnostic paths of `eval/unmarshal.go`: how a position in a Nix value is printed,
    and a parser that recovers the position from the printed text. */
module PathPrinter {
  import opened Optional
  import opened NumeralText

  /** One step from a value to a child: an attribute name or a list index. */
  datatype Segment = Attr(name: string) | Index(i: nat)

  /** The Unicode tables consulted by `unicode.IsLetter`, `unicode.IsDigit` and `strconv.IsPrint`. */
  datatype Charset = Charset(letter: char -> bool, digit: char -> bool, printable: char -> bool)

  /** All the printer relies on: the four characters that delimit segments are no identifier characters. */
  ghost predicate Sane(cs: Charset) {
    forall c | c in {'.', '[', ']', '"'} :: !cs.letter(c) && !cs.digit(c)
  }

  predicate IdentStart(cs: Charset, c: char) {
    c == '_' || cs.letter(c)
  }

  predicate IdentPart(cs: Charset, c: char) {
    c == '_' || cs.letter(c) || cs.digit(c)
  }

  predicate IsPathIdent(cs: Charset, s: string) {
    s != "" && IdentStart(cs, s[0]) && forall k | 0 < k < |s| :: IdentPart(cs, s[k])
  }

  // ---- strconv.Quote ----

  /** The letter of a control character that `strconv.Quote` escapes by name. */
  function EscapeLetter(c: char): Option<char> {
    match c
    case '\U{7}' => Some('a')
    case '\U{8}' => Some('b')
    case '\U{c}' => Some('f')
    case '\n' => Some('n')
    case '\r' => Some('r')
    case '\t' => Some('t')
    case '\U{b}' => Some('v')
    case _ => None
  }

  function NamedBy(letter: char): Option<char> {
    match letter
    case 'a' => Some('\U{7}')
    case 'b' => Some('\U{8}')
    case 'f' => Some('\U{c}')
    case 'n' => Some('\n')
    case 'r' => Some('\r')
    case 't' => Some('\t')
    case 'v' => Some('\U{b}')
    case _ => None
  }

  function Escape(cs: Charset, c: char): (s: string)
    ensures s != ""
  {
    if c == '"' || c == '\\' then ['\\', c]
    else if cs.printable(c) then [c]
    else
      match EscapeLetter(c)
      case Some(letter) => ['\\', letter]
      case None =>
        var n := c as nat;
        if n < 0x20 || n == 0x7f then "\\x" + Hex(n, 2)
        else if n < 0x1_0000 then "\\u" + Hex(n, 4)
        else "\\U" + Hex(n, 8)
  }

  function EscapeAll(cs: Charset, s: string): string {
    if s == "" then "" else Escape(cs, s[0]) + EscapeAll(cs, s[1..])
  }

  function Quote(cs: Charset, s: string): string {
    "\"" + EscapeAll(cs, s) + "\""
  }

  // ---- the printer ----

  function AttrPath(cs: Charset, parent: string, attr: string): string {
    if IsPathIdent(cs, attr) then parent + "." + attr
    else parent + "[" + Quote(cs, attr) + "]"
  }

  function IndexPath(parent: string, index: nat): string {
    parent + "[" + FormatUint(index) + "]"
  }

  /** The path of a child, as every decoder step extends its parent's path. */
  function ChildPath(cs: Charset, parent: string, seg: Segment): string {
    match seg
    case Attr(name) => AttrPath(cs, parent, name)
    case Index(i) => IndexPath(parent, i)
  }

  /** The path of a position: "$" extended once for each segment. */
  function Render(cs: Charset, segs: seq<Segment>): string {
    if segs == [] then "$"
    else ChildPath(cs, Render(cs, segs[..|segs| - 1]), segs[|segs| - 1])
  }

  lemma RenderChild(cs: Charset, segs: seq<Segment>, seg: Segment)
    ensures Render(cs, segs + [seg]) == ChildPath(cs, Render(cs, segs), seg)
  {
    assert (segs + [seg])[..|segs|] == segs;
  }

  // ---- the parser ----

  function ParseHexEscape(s: string, width: nat): (r: Option<(char, string)>)
    requires 2 <= |s|
    ensures r.Some? ==> |r.value.1| < |s|
  {
    if |s| < 2 + width then None
    else
      match ParseNumeral(16, s[2..2 + width])
      case None => None
      case Some(n) => match ToChar(n)
        case None => None
        case Some(c) => Some((c, s[2 + width..]))
  }

  /** One possibly escaped character at the front of `s`, and the rest. */
  function ParseEscaped(s: string): (r: Option<(char, string)>)
    requires s != ""
    ensures r.Some? ==> |r.value.1| < |s|
  {
    if s[0] != '\\' then Some((s[0], s[1..]))
    else if |s| < 2 then None
    else if s[1] == '"' || s[1] == '\\' then Some((s[1], s[2..]))
    else if s[1] == 'x' then ParseHexEscape(s, 2)
    else if s[1] == 'u' then ParseHexEscape(s, 4)
    else if s[1] == 'U' then ParseHexEscape(s, 8)
    else
      match NamedBy(s[1])
      case Some(c) => Some((c, s[2..]))
      case None => None
  }

  /** The body of a quoted string up to its closing quote, and what follows the quote. */
  function ParseQuoted(s: string): (r: Option<(string, string)>)
    ensures r.Some? ==> |r.value.1| < |s|
    decreases |s|
  {
    if s == "" then None
    else if s[0] == '"' then Some(("", s[1..]))
    else
      match ParseEscaped(s)
      case None => None
      case Some((c, rest)) => match ParseQuoted(rest)
        case None => None
        case Some((tail, after)) => Some(([c] + tail, after))
  }

  /** The longest prefix of characters satisfying `p`. */
  function Span(p: char -> bool, s: string): (k: nat)
    ensures k <= |s|
    ensures forall j | 0 <= j < k :: p(s[j])
    ensures k < |s| ==> !p(s[k])
  {
    if s != "" && p(s[0]) then 1 + Span(p, s[1..]) else 0
  }

  /** One segment at the front of `s`, and the rest. */
  function ParseSegment(cs: Charset, s: string): (r: Option<(Segment, string)>)
    ensures r.Some? ==> |r.value.1| < |s|
  {
    if |s| < 2 then None
    else if s[0] == '.' then
      var k := Span(c => IdentPart(cs, c), s[1..]);
      Some((Attr(s[1..1 + k]), s[1 + k..]))
    else if s[0] == '[' && s[1] == '"' then
      match ParseQuoted(s[2..])
      case None => None
      case Some((name, rest)) =>
        if rest != "" && rest[0] == ']' then Some((Attr(name), rest[1..])) else None
    else if s[0] == '[' then
      var k := Span((c: char) => '0' <= c <= '9', s[1..]);
      var n := ParseNumeral(10, s[1..1 + k]);
      if 1 + k < |s| && s[1 + k] == ']' && n.Some? then Some((Index(n.value), s[2 + k..])) else None
    else None
  }

  function ParseSegments(cs: Charset, s: string): Option<seq<Segment>>
    decreases |s|
  {
    if s == "" then Some([])
    else
      match ParseSegment(cs, s)
      case None => None
      case Some((seg, rest)) => match ParseSegments(cs, rest)
        case None => None
        case Some(segs) => Some([seg] + segs)
  }

  function ParsePath(cs: Charset, s: string): Option<seq<Segment>> {
    if s != "" && s[0] == '$' then ParseSegments(cs, s[1..]) else None
  }

  // ---- the parser undoes the printer ----

  lemma ParseHexTail(c: char, intro: string, width: nat, rest: string)
    requires |intro| == 2 && c as nat < Pow16(width)
    ensures ParseHexEscape(intro + Hex(c as nat, width) + rest, width) == Some((c, rest))
  {
    var s := intro + Hex(c as nat, width) + rest;
    assert s[2..2 + width] == Hex(c as nat, width);
    assert s[2 + width..] == rest;
    ParseHex(c as nat, width);
  }

  lemma ParseEscape(cs: Charset, c: char, rest: string)
    ensures Escape(cs, c)[0] != '"'
    ensures ParseEscaped(Escape(cs, c) + rest) == Some((c, rest))
  {
    var e := Escape(cs, c);
    var s := e + rest;
    if c == '"' || c == '\\' || cs.printable(c) || EscapeLetter(c).Some? {
      assert s[|e|..] == rest;
    } else {
      var n := c as nat;
      Pow16s();
      if n < 0x20 || n == 0x7f {
        ParseHexTail(c, "\\x", 2, rest);
      } else if n < 0x1_0000 {
        ParseHexTail(c, "\\u", 4, rest);
      } else {
        ParseHexTail(c, "\\U", 8, rest);
      }
    }
  }

  lemma Associative(a: string, b: string, c: string)
    ensures (a + b) + c == a + (b + c)
  {}

  lemma ParseQuotedEnd(rest: string)
    ensures ParseQuoted("" + ("\"" + rest)) == Some(("", rest))
  {
    assert ("\"" + rest)[1..] == rest;
    assert "" + ("\"" + rest) == "\"" + rest;
  }

  lemma ParseQuotedStep(e: string, c: char, tail: string, name: string, after: string)
    requires e != "" && e[0] != '"'
    requires ParseEscaped(e + tail) == Some((c, tail))
    requires ParseQuoted(tail) == Some((name, after))
    ensures ParseQuoted(e + tail) == Some(([c] + name, after))
  {
    assert (e + tail)[0] == e[0];
  }

  lemma {:induction false} ParseEscapeAll(cs: Charset, s: string, rest: string)
    ensures ParseQuoted(EscapeAll(cs, s) + ("\"" + rest)) == Some((s, rest))
  {
    if s == "" {
      ParseQuotedEnd(rest);
    } else {
      var e, tail := Escape(cs, s[0]), EscapeAll(cs, s[1..]) + ("\"" + rest);
      ParseEscape(cs, s[0], tail);
      ParseEscapeAll(cs, s[1..], rest);
      ParseQuotedStep(e, s[0], tail, s[1..], rest);
      Associative(e, EscapeAll(cs, s[1..]), "\"" + rest);
      assert [s[0]] + s[1..] == s;
    }
  }

  lemma {:induction false} SpanAll(p: char -> bool, s: string, rest: string)
    requires forall c | c in s :: p(c)
    requires rest != "" ==> !p(rest[0])
    ensures Span(p, s + rest) == |s|
  {
    if s == "" {
      assert s + rest == rest;
    } else {
      assert (s + rest)[1..] == s[1..] + rest;
      SpanAll(p, s[1..], rest);
    }
  }

  lemma ParseIdentSegment(cs: Charset, name: string, rest: string)
    requires Sane(cs) && IsPathIdent(cs, name)
    requires rest == "" || rest[0] == '.' || rest[0] == '['
    ensures ParseSegment(cs, "." + name + rest) == Some((Attr(name), rest))
  {
    var s := "." + name + rest;
    var p := c => IdentPart(cs, c);
    assert s[1..] == name + rest;
    SpanAll(p, name, rest);
    assert s[1..1 + |name|] == name && s[1 + |name|..] == rest;
  }

  lemma ParseQuotedSegment(cs: Charset, name: string, rest: string)
    ensures ParseSegment(cs, "[" + Quote(cs, name) + "]" + rest) == Some((Attr(name), rest))
  {
    var s := "[" + Quote(cs, name) + "]" + rest;
    assert s[2..] == EscapeAll(cs, name) + ("\"" + ("]" + rest));
    ParseEscapeAll(cs, name, "]" + rest);
  }

  lemma BracketSlices(body: string, rest: string)
    ensures var s := "[" + body + "]" + rest;
      && s[1..] == body + ("]" + rest)
      && s[1..1 + |body|] == body
      && s[1 + |body|] == ']'
      && s[2 + |body|..] == rest
  {}

  lemma ParseIndexSegment(cs: Charset, i: nat, rest: string)
    ensures ParseSegment(cs, "[" + FormatUint(i) + "]" + rest) == Some((Index(i), rest))
  {
    var digits := FormatUint(i);
    BracketSlices(digits, rest);
    var p := (c: char) => '0' <= c <= '9';
    SpanAll(p, digits, "]" + rest);
    ParseFormatUint(i);
    var s := "[" + digits + "]" + rest;
    assert s[0] == '[' && s[1] == digits[0] && digits[0] != '"';
  }

  lemma ParseOneSegment(cs: Charset, seg: Segment, rest: string)
    requires Sane(cs)
    requires rest == "" || rest[0] == '.' || rest[0] == '['
    ensures ParseSegment(cs, ChildPath(cs, "", seg) + rest) == Some((seg, rest))
  {
    match seg
    case Attr(name) =>
      if IsPathIdent(cs, name) {
        ParseIdentSegment(cs, name, rest);
        assert ChildPath(cs, "", seg) == "." + name;
      } else {
        ParseQuotedSegment(cs, name, rest);
        assert ChildPath(cs, "", seg) == "[" + Quote(cs, name) + "]";
      }
    case Index(i) =>
      ParseIndexSegment(cs, i, rest);
      assert ChildPath(cs, "", seg) == "[" + FormatUint(i) + "]";
  }

  ghost function Texts(cs: Charset, segs: seq<Segment>): string {
    if segs == [] then "" else ChildPath(cs, "", segs[0]) + Texts(cs, segs[1..])
  }

  lemma {:induction false} TextsSnoc(cs: Charset, segs: seq<Segment>, seg: Segment)
    ensures Texts(cs, segs + [seg]) == Texts(cs, segs) + ChildPath(cs, "", seg)
  {
    if segs == [] {
      assert (segs + [seg])[1..] == [];
    } else {
      assert (segs + [seg])[1..] == segs[1..] + [seg];
      TextsSnoc(cs, segs[1..], seg);
    }
  }

  lemma ChildPathAppends(cs: Charset, parent: string, seg: Segment)
    ensures ChildPath(cs, parent, seg) == parent + ChildPath(cs, "", seg)
  {}

  lemma InitLast(segs: seq<Segment>)
    requires segs != []
    ensures segs[..|segs| - 1] + [segs[|segs| - 1]] == segs
  {}

  lemma RenderSnoc(cs: Charset, front: seq<Segment>, last: Segment, parent: string, child: string)
    requires parent == Render(cs, front) == "$" + Texts(cs, front) && child == ChildPath(cs, "", last)
    ensures Render(cs, front + [last]) == "$" + Texts(cs, front + [last])
  {
    RenderChild(cs, front, last);
    TextsSnoc(cs, front, last);
    ChildPathAppends(cs, parent, last);
    Associative("$", Texts(cs, front), child);
  }

  lemma {:induction false} RenderTexts(cs: Charset, segs: seq<Segment>)
    ensures Render(cs, segs) == "$" + Texts(cs, segs)
  {
    if segs != [] {
      var front, last := segs[..|segs| - 1], segs[|segs| - 1];
      RenderTexts(cs, front);
      InitLast(segs);
      RenderSnoc(cs, front, last, Render(cs, front), ChildPath(cs, "", last));
    }
  }

  lemma {:induction false} ParseTexts(cs: Charset, segs: seq<Segment>)
    requires Sane(cs)
    ensures ParseSegments(cs, Texts(cs, segs)) == Some(segs)
  {
    if segs != [] {
      ParseOneSegment(cs, segs[0], Texts(cs, segs[1..]));
      ParseTexts(cs, segs[1..]);
      assert [segs[0]] + segs[1..] == segs;
    }
  }

  /** A printed path determines its position: the parser recovers every segment. */
  lemma ParseRender(cs: Charset, segs: seq<Segment>)
    requires Sane(cs)
    ensures ParsePath(cs, Render(cs, segs)) == Some(segs)
  {
    RenderTexts(cs, segs);
    ParseTexts(cs, segs);
    assert ("$" + Texts(cs, segs))[1..] == Texts(cs, segs);
  }

  /** Hence two positions never share a printed path. */
  lemma RenderInjective(cs: Charset, a: seq<Segment>, b: seq<Segment>)
    requires Sane(cs)
    requires Render(cs, a) == Render(cs, b)
    ensures a == b
  {
    ParseRender(cs, a);
    ParseRender(cs, b);
  }
}
