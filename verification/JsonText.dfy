/** JSON strings and arrays of strings as text: what encoding/json writes, and what it reads
    (sections 5 and 7 of RFC 8259). */
module JsonText {
  import opened Optional
  import opened NumeralText

  /** A JSON value. Number literals are told apart by whether they are plain digits, as encoding/json
      does for unsigned targets. Member names are unique. */
  datatype Json =
    | Null
    | Bool(b: bool)
    | Nat(n: nat)
    | OtherNumber(literal: string)
    | Str(s: string)
    | Arr(items: seq<Json>)
    | Obj(members: map<string, Json>)

  // ---- writing ----

  /** The escape sequence of a character, as encoding/json writes it. */
  function Escape(c: char): (s: string)
    ensures s != ""
  {
    if c == '"' || c == '\\' then ['\\', c]
    else if c == '\U{8}' then "\\b"
    else if c == '\U{c}' then "\\f"
    else if c == '\n' then "\\n"
    else if c == '\r' then "\\r"
    else if c == '\t' then "\\t"
    else if c < ' ' || c == '<' || c == '>' || c == '&' || c == '\U{2028}' || c == '\U{2029}' then
      "\\u" + Hex(c as nat, 4)
    else [c]
  }

  function EscapeAll(s: string): string {
    if s == "" then "" else Escape(s[0]) + EscapeAll(s[1..])
  }

  function WriteString(s: string): string {
    "\"" + EscapeAll(s) + "\""
  }

  function WriteStrings(ss: seq<string>): string {
    if ss == [] then ""
    else if |ss| == 1 then WriteString(ss[0])
    else WriteString(ss[0]) + "," + WriteStrings(ss[1..])
  }

  function WriteArray(ss: seq<string>): string {
    "[" + WriteStrings(ss) + "]"
  }

  // ---- reading ----

  predicate IsJsonSpace(c: char) {
    c == ' ' || c == '\t' || c == '\n' || c == '\r'
  }

  function SkipSpace(s: string): (rest: string)
    ensures |rest| <= |s| && (rest != "" ==> !IsJsonSpace(rest[0]))
  {
    if s != "" && IsJsonSpace(s[0]) then SkipSpace(s[1..]) else s
  }

  function HexDigit(c: char): Option<nat> {
    if 'A' <= c <= 'F' then Some(c as nat - 'A' as nat + 10) else DigitValue(c)
  }

  /** Four hexadecimal digits, in either case. */
  function CodeUnit(s: string): (n: Option<nat>)
    requires |s| == 4
  {
    var a, b, c, d := HexDigit(s[0]), HexDigit(s[1]), HexDigit(s[2]), HexDigit(s[3]);
    if a.Some? && b.Some? && c.Some? && d.Some? then
      Some(((a.value * 16 + b.value) * 16 + c.value) * 16 + d.value)
    else None
  }

  /** What a one-letter escape stands for. */
  function Escaped(letter: char): Option<char> {
    match letter
    case '"' => Some('"')
    case '\\' => Some('\\')
    case '/' => Some('/')
    case 'b' => Some('\U{8}')
    case 'f' => Some('\U{c}')
    case 'n' => Some('\n')
    case 'r' => Some('\r')
    case 't' => Some('\t')
    case _ => None
  }

  /** How many characters the first character or escape sequence of a string body takes. */
  function UnitLength(s: string): (k: Option<nat>)
    requires s != ""
    ensures k.Some? ==> 0 < k.value <= |s|
  {
    if s[0] == '\\' then
      if |s| >= 2 && Escaped(s[1]).Some? then Some(2)
      else if |s| >= 6 && s[1] == 'u' && CodeUnit(s[2..6]).Some? then Some(6)
      else None
    else if s[0] < ' ' then None
    else Some(1)
  }

  /** Where a string body ends: the first quote that is not escaped. */
  function BodyEnd(s: string): (n: Option<nat>)
    ensures n.Some? ==> n.value < |s|
    decreases |s|
  {
    if s == "" then None
    else if s[0] == '"' then Some(0)
    else
      var k := UnitLength(s);
      if k.None? then None
      else
        var n := BodyEnd(s[k.value..]);
        if n.Some? then Some(k.value + n.value) else None
  }

  /** The code unit of a \u escape at the front of `s`. */
  function UnicodeEscape(s: string): Option<nat> {
    if |s| >= 6 && s[0] == '\\' && s[1] == 'u' then CodeUnit(s[2..6]) else None
  }

  /** The character that two code units form as a surrogate pair. */
  function Surrogates(high: nat, low: nat): Option<char> {
    if 0xD800 <= high < 0xDC00 && 0xDC00 <= low < 0xE000 then
      ToChar(0x1_0000 + (high - 0xD800) * 0x400 + (low - 0xDC00))
    else None
  }

  /** The text a body stands for. Half a surrogate pair is replaced. */
  function Unquote(b: string): string
    decreases |b|
  {
    if b == "" || UnitLength(b).None? then ""
    else
      match UnitLength(b).value
      case 1 => [b[0]] + Unquote(b[1..])
      case 2 => (if Escaped(b[1]).Some? then [Escaped(b[1]).value] else "") + Unquote(b[2..])
      case k =>
        var high, low := UnicodeEscape(b), UnicodeEscape(b[k..]);
        if high.Some? && low.Some? && Surrogates(high.value, low.value).Some? then
          [Surrogates(high.value, low.value).value] + Unquote(b[k + 6..])
        else if high.Some? && ToChar(high.value).Some? then [ToChar(high.value).value] + Unquote(b[k..])
        else ['\U{FFFD}'] + Unquote(b[k..])
  }

  /** A string, and what follows it. */
  function ReadString(s: string): (r: Option<(string, string)>)
    ensures r.Some? ==> |r.value.1| < |s|
  {
    if s == "" || s[0] != '"' then None
    else
      match BodyEnd(s[1..])
      case None => None
      case Some(n) => Some((Unquote(s[1..n + 1]), s[n + 2..]))
  }

  /** An element of an array of strings: a string or null. */
  function ReadElement(s: string): (r: Option<(Json, string)>)
    ensures r.Some? ==> |r.value.1| < |s|
  {
    if |s| >= 4 && s[..4] == "null" then Some((Null, s[4..]))
    else
      match ReadString(s)
      case None => None
      case Some((text, rest)) => Some((Str(text), rest))
  }

  /** The elements of an array up to its closing bracket, at least one, and what follows. */
  function ReadElements(s: string): (r: Option<(seq<Json>, string)>)
    decreases |s|
  {
    match ReadElement(SkipSpace(s))
    case None => None
    case Some((j, after)) =>
      var rest := SkipSpace(after);
      if rest == "" then None
      else if rest[0] == ']' then Some(([j], rest[1..]))
      else if rest[0] == ',' then
        match ReadElements(rest[1..])
        case None => None
        case Some((js, end)) => Some(([j] + js, end))
      else None
  }

  /** An array of strings, after its opening bracket, and what follows it. */
  function ReadArray(s: string): Option<(seq<Json>, string)> {
    var t := SkipSpace(s);
    if t != "" && t[0] == ']' then Some(([], t[1..])) else ReadElements(s)
  }

  /** `json.Unmarshal` of a whole text into a string. */
  function UnmarshalString(s: string): Option<string> {
    match ReadString(s)
    case None => None
    case Some((text, rest)) => if SkipSpace(rest) == "" then Some(text) else None
  }

  /** `json.Unmarshal` of a whole text, which begins with a bracket, into a slice of strings. */
  function UnmarshalArray(s: string): Option<seq<Json>>
    requires s != "" && s[0] == '['
  {
    match ReadArray(s[1..])
    case None => None
    case Some((items, rest)) => if SkipSpace(rest) == "" then Some(items) else None
  }

  /** A text that is a string or an array of strings, by its first character. */
  function ReadText(s: string): Option<Json> {
    if s != "" && s[0] == '"' then
      var text := UnmarshalString(s);
      if text.Some? then Some(Str(text.value)) else None
    else if s != "" && s[0] == '[' then
      var items := UnmarshalArray(s);
      if items.Some? then Some(Arr(items.value)) else None
    else None
  }

  /** Only strings and nulls come out of an array that is read. */
  lemma {:induction false} ElementKinds(s: string)
    requires ReadElements(s).Some?
    ensures forall i | 0 <= i < |ReadElements(s).value.0| ::
      ReadElements(s).value.0[i].Str? || ReadElements(s).value.0[i].Null?
    decreases |s|
  {
    var after := SkipSpace(ReadElement(SkipSpace(s)).value.1);
    if after[0] == ',' {
      ElementKinds(after[1..]);
    }
  }

  // ---- reading what was written ----

  lemma Front(a: string, b: string)
    ensures (a + b)[..|a|] == a && (a + b)[|a|..] == b
    ensures a != "" ==> (a + b)[0] == a[0]
  {}

  lemma HexDigits(n: nat)
    requires n < 0x1_0000
    ensures CodeUnit(Hex(n, 4)) == Some(n)
  {
    var a := n / 16;
    var b := a / 16;
    var c := b / 16;
    FourDigits(n, a, b, c);
    CodeUnitOf(c, b % 16, a % 16, n % 16);
  }

  lemma FourDigits(n: nat, a: nat, b: nat, c: nat)
    requires a == n / 16 && b == a / 16 && c == b / 16 && c < 16
    ensures Hex(n, 4) == [Digit(c), Digit(b % 16), Digit(a % 16), Digit(n % 16)]
  {
    assert Hex(c, 1) == [Digit(c)];
    assert Hex(b, 2) == [Digit(c), Digit(b % 16)];
    assert Hex(a, 3) == [Digit(c), Digit(b % 16), Digit(a % 16)];
  }

  lemma CodeUnitOf(a: nat, b: nat, c: nat, d: nat)
    requires a < 16 && b < 16 && c < 16 && d < 16
    ensures CodeUnit([Digit(a), Digit(b), Digit(c), Digit(d)]) == Some(((a * 16 + b) * 16 + c) * 16 + d)
  {
    HexDigitOf(a);
    HexDigitOf(b);
    HexDigitOf(c);
    HexDigitOf(d);
  }

  lemma HexDigitOf(d: nat)
    requires d < 16
    ensures HexDigit(Digit(d)) == Some(d)
  {}

  /** An escape sequence is one unit, and reads as its character whatever follows. */
  lemma ReadEscape(c: char, tail: string)
    ensures Escape(c)[0] != '"' && UnitLength(Escape(c) + tail) == Some(|Escape(c)|)
    ensures Unquote(Escape(c) + tail) == [c] + Unquote(tail)
  {
    var e := Escape(c);
    Front(e, tail);
    if |e| == 6 {
      HexDigits(c as nat);
      assert (e + tail)[2..6] == Hex(c as nat, 4);
    }
  }

  lemma Associative(a: string, b: string, c: string)
    ensures a + b + c == a + (b + c)
  {}

  lemma UnitThenBody(u: string, tail: string)
    requires u != "" && u[0] != '"' && UnitLength(u + tail) == Some(|u|) && BodyEnd(tail).Some?
    ensures BodyEnd(u + tail) == Some(|u| + BodyEnd(tail).value)
  {
    Front(u, tail);
  }

  lemma {:induction false} ReadBody(s: string, rest: string)
    ensures BodyEnd(EscapeAll(s) + ("\"" + rest)) == Some(|EscapeAll(s)|)
  {
    if s == "" {
      assert "" + ("\"" + rest) == "\"" + rest;
    } else {
      var e, more := Escape(s[0]), EscapeAll(s[1..]);
      ReadBody(s[1..], rest);
      ReadEscape(s[0], more + ("\"" + rest));
      UnitThenBody(e, more + ("\"" + rest));
      Associative(e, more, "\"" + rest);
    }
  }

  lemma {:induction false} UnquoteEscapeAll(s: string)
    ensures Unquote(EscapeAll(s)) == s
  {
    if s != "" {
      ReadEscape(s[0], EscapeAll(s[1..]));
      UnquoteEscapeAll(s[1..]);
    }
  }

  lemma ReadWriteString(s: string, rest: string)
    ensures ReadString(WriteString(s) + rest) == Some((s, rest))
    ensures (WriteString(s) + rest)[0] == '"'
  {
    var b, q := EscapeAll(s), "\"" + rest;
    ReadBody(s, rest);
    UnquoteEscapeAll(s);
    Associative("\"" + b, "\"", rest);
    Associative("\"", b, q);
    StringOf(b, q);
    Front("\"", rest);
  }

  /** What ReadString makes of a body whose end is known; `q` begins with the closing quote. */
  lemma StringOf(b: string, q: string)
    requires q != "" && BodyEnd(b + q) == Some(|b|)
    ensures ReadString("\"" + (b + q)) == Some((Unquote(b), q[1..]))
  {
    var s := "\"" + (b + q);
    Front("\"", b + q);
    Front(b, q);
    assert s[1..] == b + q;
    assert s[1..|b| + 1] == s[1..][..|b|];
    assert s[|b| + 2..] == s[1..][|b|..][1..];
  }

  function Strs(ss: seq<string>): (js: seq<Json>)
    ensures |js| == |ss| && forall i | 0 <= i < |ss| :: js[i] == Str(ss[i])
  {
    seq(|ss|, i requires 0 <= i < |ss| => Str(ss[i]))
  }

  lemma NotSpace(s: string)
    requires s == "" || !IsJsonSpace(s[0])
    ensures SkipSpace(s) == s
  {}

  lemma FirstElement(s: string, after: string)
    ensures ReadElement(SkipSpace(WriteString(s) + after)) == Some((Str(s), after))
  {
    ReadWriteString(s, after);
    NotSpace(WriteString(s) + after);
  }

  lemma ReadLastElement(s: string, rest: string)
    ensures ReadElements(WriteString(s) + ("]" + rest)) == Some(([Str(s)], rest))
  {
    FirstElement(s, "]" + rest);
    NotSpace("]" + rest);
    assert ("]" + rest)[1..] == rest;
  }

  lemma ReadNextElement(s: string, tail: string, js: seq<Json>, rest: string)
    requires ReadElements(tail) == Some((js, rest))
    ensures ReadElements(WriteString(s) + ("," + tail)) == Some(([Str(s)] + js, rest))
  {
    FirstElement(s, "," + tail);
    NotSpace("," + tail);
    assert ("," + tail)[1..] == tail;
  }

  lemma {:induction false} ReadWriteStrings(ss: seq<string>, rest: string)
    requires ss != []
    ensures ReadElements(WriteStrings(ss) + ("]" + rest)) == Some((Strs(ss), rest))
  {
    if |ss| == 1 {
      ReadLastElement(ss[0], rest);
      assert Strs(ss) == [Str(ss[0])];
    } else {
      ReadWriteStrings(ss[1..], rest);
      ReadNextElement(ss[0], WriteStrings(ss[1..]) + ("]" + rest), Strs(ss[1..]), rest);
      Associative(WriteString(ss[0]) + ",", WriteStrings(ss[1..]), "]" + rest);
      Associative(WriteString(ss[0]), ",", WriteStrings(ss[1..]) + ("]" + rest));
      assert Strs(ss) == [Str(ss[0])] + Strs(ss[1..]);
    }
  }

  /** What is written is read back. */
  lemma ReadWrite(s: string)
    ensures ReadText(WriteString(s)) == Some(Str(s))
  {
    assert WriteString(s) + "" == WriteString(s);
    ReadWriteString(s, "");
  }

  lemma ReadWriteArray(ss: seq<string>)
    ensures ReadText(WriteArray(ss)) == Some(Arr(Strs(ss)))
  {
    var inner := WriteStrings(ss) + "]";
    Associative("[", WriteStrings(ss), "]");
    Front("[", inner);
    if ss == [] {
      assert inner == "]";
      NotSpace(inner);
    } else {
      assert "]" + "" == "]";
      StartsWithQuote(ss, "]");
      ReadWriteStrings(ss, "");
      NotSpace(inner);
    }
  }

  lemma StartsWithQuote(ss: seq<string>, rest: string)
    requires ss != []
    ensures (WriteStrings(ss) + rest)[0] == '"'
  {}
}
