/** What the strings and arrays of the JSON grammar stand for, and that this is what is read. */
module JsonContents {
  import opened Optional
  import opened NumeralText
  import opened JsonText
  import opened JsonGrammar

  // ---- the text of a string ----

  /** The value of a hexadecimal digit. */
  function HexValue(c: char): (n: nat)
    requires IsHex(c)
    ensures n < 16
  {
    if c <= '9' then c as nat - '0' as nat
    else if c <= 'F' then c as nat - 'A' as nat + 10
    else c as nat - 'a' as nat + 10
  }

  predicate IsHexCode(h: string) {
    |h| == 4 && IsHex(h[0]) && IsHex(h[1]) && IsHex(h[2]) && IsHex(h[3])
  }

  function HexCode(h: string): nat
    requires IsHexCode(h)
  {
    HexValue(h[0]) * 4096 + HexValue(h[1]) * 256 + HexValue(h[2]) * 16 + HexValue(h[3])
  }

  /** A character that is not escaped stands for itself. */
  lemma PlainContents(c: char, rest: string)
    requires c != '"' && c != '\\' && ' ' <= c
    ensures Unquote([c] + rest) == [c] + Unquote(rest)
  {
    assert ([c] + rest)[1..] == rest;
  }

  /** The one-letter escapes: quote, backslash and slash stand for themselves, the letters for
      backspace, form feed, line feed, carriage return and tab. */
  lemma EscapeContents(letter: char, c: char, rest: string)
    requires (letter in {'"', '\\', '/'} && c == letter) || (letter == 'b' && c as nat == 8)
      || (letter == 'f' && c as nat == 12) || (letter == 'n' && c as nat == 10)
      || (letter == 'r' && c as nat == 13) || (letter == 't' && c as nat == 9)
    ensures Unquote("\\" + ([letter] + rest)) == [c] + Unquote(rest)
  {
    var s := "\\" + ([letter] + rest);
    assert s[0] == '\\' && s[1] == letter && s[2..] == rest;
  }

  lemma CodeUnitIs(h: string)
    requires IsHexCode(h)
    ensures CodeUnit(h) == Some(HexCode(h))
  {}

  lemma CodeFirst(h: string, rest: string)
    requires IsHexCode(h)
    ensures var s := "\\u" + (h + rest);
      && s != "" && s[0] == '\\' && UnitLength(s) == Some(6) && s[6..] == rest
      && UnicodeEscape(s) == Some(HexCode(h))
  {
    var s := "\\u" + (h + rest);
    assert s[0] == '\\' && s[1] == 'u' && s[2..6] == h && s[6..] == rest;
    CodeUnitIs(h);
  }

  /** A \u escape outside the surrogates stands for its character. */
  lemma CodeContents(h: string, rest: string)
    requires IsHexCode(h) && !(0xD800 <= HexCode(h) < 0xE000)
    ensures Unquote("\\u" + (h + rest)) == [HexCode(h) as char] + Unquote(rest)
  {
    CodeFirst(h, rest);
  }

  /** Two that form a surrogate pair stand for one character. */
  lemma PairContents(h: string, l: string, rest: string)
    requires IsHexCode(h) && IsHexCode(l) && 0xD800 <= HexCode(h) < 0xDC00 && 0xDC00 <= HexCode(l) < 0xE000
    ensures var n := 0x1_0000 + (HexCode(h) - 0xD800) * 0x400 + (HexCode(l) - 0xDC00);
      Unquote("\\u" + (h + ("\\u" + (l + rest)))) == [n as char] + Unquote(rest)
  {
    CodeFirst(l, rest);
    CodeFirst(h, "\\u" + (l + rest));
    var s := "\\u" + (h + ("\\u" + (l + rest)));
    assert s[12..] == s[6..][6..];
  }

  /** Half a pair alone stands for the replacement character. */
  lemma HalfContents(h: string, rest: string)
    requires IsHexCode(h) && 0xD800 <= HexCode(h) < 0xE000
    requires 0xDC00 <= HexCode(h) ||
      !(|rest| >= 6 && rest[..2] == "\\u" && IsHexCode(rest[2..6]) && 0xDC00 <= HexCode(rest[2..6]) < 0xE000)
    ensures Unquote("\\u" + (h + rest)) == ['\U{FFFD}'] + Unquote(rest)
  {
    CodeFirst(h, rest);
    if UnicodeEscape(rest).Some? {
      CodeUnitIsHex(rest[2..6]);
      CodeUnitIs(rest[2..6]);
    }
  }

  lemma CodeUnitIsHex(s: string)
    requires |s| == 4 && CodeUnit(s).Some?
    ensures IsHexCode(s)
  {}

  // ---- the elements of an array ----

  ghost predicate StringMeans(t: string, text: string) {
    exists b :: IsBody(b) && t == Quoted(b) && text == Unquote(b)
  }

  ghost predicate ElementMeans(e: string, j: Json) {
    (e == "null" && j.Null?) || (j.Str? && StringMeans(e, j.s))
  }

  /** Elements in their order, with space around each. */
  ghost predicate ElementsMean(t: string, js: seq<Json>)
    decreases |t|, 1
  {
    exists w, e, v, x :: OneMeans(t, js, w, e, v, x)
  }

  ghost predicate OneMeans(t: string, js: seq<Json>, w: string, e: string, v: string, x: string)
    decreases |t|, 0
  {
    && t == w + (e + (v + x)) && Spaces(w) && Spaces(v)
    && js != [] && ElementMeans(e, js[0])
    && (if x == "" then |js| == 1 else x[0] == ',' && ElementsMean(x[1..], js[1..]))
  }

  ghost predicate ArrayMeans(t: string, js: seq<Json>) {
    exists b :: t == Bracketed(b) && ((Spaces(b) && js == []) || ElementsMean(b, js))
  }

  /** A text is a string, or an array of strings and nulls, and stands for `j`. */
  ghost predicate TextMeans(t: string, j: Json) {
    (j.Str? && StringMeans(t, j.s)) || (j.Arr? && ArrayMeans(t, j.items))
  }

  lemma StringReads(t: string, text: string, rest: string)
    requires StringMeans(t, text)
    ensures IsString(t) && ReadString(t + rest) == Some((text, rest))
  {
    var b :| IsBody(b) && t == Quoted(b) && text == Unquote(b);
    BodyRead(b, rest);
    StringOf(b, "\"" + rest);
    Front("\"", rest);
    Associative("\"", b + "\"", rest);
    Associative(b, "\"", rest);
  }

  lemma ElementReads(e: string, j: Json, rest: string)
    requires ElementMeans(e, j)
    ensures IsElement(e) && ReadElement(e + rest) == Some((j, rest))
  {
    Front(e, rest);
    if e != "null" {
      StringReads(e, j.s, rest);
      StringRead(e, rest);
    }
  }

  lemma OneReads(w: string, e: string, j: Json, v: string, x: string)
    requires Spaces(w) && ElementMeans(e, j) && Spaces(v) && x != "" && !IsJsonSpace(x[0])
    ensures var s := w + (e + (v + x));
      && SkipSpace(s) == e + (v + x) && ReadElement(SkipSpace(s)) == Some((j, v + x)) && SkipSpace(v + x) == x
  {
    ElementReads(e, j, v + x);
    OneRead(w, e, v, x);
  }

  lemma {:induction false} ElementsRead(t: string, js: seq<Json>, rest: string)
    requires ElementsMean(t, js)
    ensures ReadElements(t + ("]" + rest)) == Some((js, rest))
    ensures SkipSpace(t + ("]" + rest)) != "" && SkipSpace(t + ("]" + rest))[0] != ']'
    decreases |t|
  {
    var w, e, v, x :| OneMeans(t, js, w, e, v, x);
    var end := "]" + rest;
    Regroup(w, e, v, x, end);
    if x == "" {
      assert x + end == end;
      LastReads(w, e, js[0], v, rest);
      assert js == [js[0]];
    } else {
      assert x == "," + x[1..];
      Associative(",", x[1..], end);
      ElementsRead(x[1..], js[1..], rest);
      MoreReads(w, e, js[0], v, x[1..] + end, js[1..], rest);
      assert js == [js[0]] + js[1..];
    }
  }

  lemma LastReads(w: string, e: string, j: Json, v: string, rest: string)
    requires Spaces(w) && ElementMeans(e, j) && Spaces(v)
    ensures var s := w + (e + (v + ("]" + rest)));
      && ReadElements(s) == Some(([j], rest)) && SkipSpace(s) != "" && SkipSpace(s)[0] != ']'
  {
    Front("]", rest);
    OneReads(w, e, j, v, "]" + rest);
    ElementReads(e, j, v + ("]" + rest));
    ElementRead(e, v + ("]" + rest));
  }

  lemma MoreReads(w: string, e: string, j: Json, v: string, more: string, js: seq<Json>, rest: string)
    requires Spaces(w) && ElementMeans(e, j) && Spaces(v) && ReadElements(more) == Some((js, rest))
    ensures var s := w + (e + (v + ("," + more)));
      && ReadElements(s) == Some(([j] + js, rest)) && SkipSpace(s) != "" && SkipSpace(s)[0] != ']'
  {
    Front(",", more);
    OneReads(w, e, j, v, "," + more);
    ElementReads(e, j, v + ("," + more));
    ElementRead(e, v + ("," + more));
  }

  lemma ElementHasMeaning(e: string) returns (j: Json)
    requires IsElement(e)
    ensures ElementMeans(e, j)
  {
    if e == "null" {
      return Null;
    }
    var b :| IsBody(b) && e == Quoted(b);
    j := Str(Unquote(b));
  }

  lemma {:induction false} ElementsHaveMeaning(t: string) returns (js: seq<Json>)
    requires IsElements(t)
    ensures ElementsMean(t, js)
    decreases |t|
  {
    var w, e, v, x :| LaidOut(t, w, e, v, x);
    var j := ElementHasMeaning(e);
    if x == "" {
      js := [j];
    } else {
      var more := ElementsHaveMeaning(x[1..]);
      js := [j] + more;
      assert js[1..] == more;
    }
    assert OneMeans(t, js, w, e, v, x);
  }

  lemma ArrayReads(t: string, js: seq<Json>)
    requires ArrayMeans(t, js)
    ensures t[0] == '[' && UnmarshalArray(t) == Some(js)
  {
    var b :| t == Bracketed(b) && ((Spaces(b) && js == []) || ElementsMean(b, js));
    Front("[", b + "]");
    if Spaces(b) && js == [] {
      SkipPadded(b, "]");
    } else {
      assert "]" + "" == "]";
      ElementsRead(b, js, "");
    }
  }

  lemma TextReads(t: string, j: Json)
    requires TextMeans(t, j)
    ensures ReadText(t) == Some(j)
  {
    if j.Str? {
      StringReads(t, j.s, "");
      assert t + "" == t;
    } else {
      ArrayReads(t, j.items);
    }
  }

  /** A text without space at its end is read as what it stands for, and as nothing else. */
  lemma ReadsContents(t: string, j: Json)
    requires t != "" && !IsJsonSpace(t[|t| - 1])
    ensures ReadText(t) == Some(j) <==> TextMeans(t, j)
  {
    if TextMeans(t, j) {
      TextReads(t, j);
    }
    if ReadText(t) == Some(j) {
      ReadsExactly(t);
      var k := TextHasMeaning(t);
      TextReads(t, k);
    }
  }

  lemma TextHasMeaning(t: string) returns (j: Json)
    requires IsString(t) || IsArray(t)
    ensures TextMeans(t, j)
  {
    if IsString(t) {
      var b :| IsBody(b) && t == Quoted(b);
      j := Str(Unquote(b));
    } else {
      var b :| (Spaces(b) || IsElements(b)) && t == Bracketed(b);
      if Spaces(b) {
        j := Arr([]);
      } else {
        var js := ElementsHaveMeaning(b);
        j := Arr(js);
      }
    }
  }

  // ---- what is written ----

  /** Quotes and backslashes take a backslash, five control characters are escaped by name, the others
      and what HTML or JavaScript might take amiss by number, and all else is written as it is. */
  lemma WrittenCharacter(c: char, rest: string)
    ensures WriteString("") == ['"', '"']
    ensures EscapeAll("") == ""
    ensures var e, tail := EscapeAll([c] + rest), EscapeAll(rest);
      if c == '"' || c == '\\' then e == ['\\', c] + tail
      else if c as nat == 8 then e == "\\b" + tail
      else if c as nat == 9 then e == "\\t" + tail
      else if c as nat == 10 then e == "\\n" + tail
      else if c as nat == 12 then e == "\\f" + tail
      else if c as nat == 13 then e == "\\r" + tail
      else if c as nat < 32 || c in {'<', '>', '&'} || c as nat == 0x2028 || c as nat == 0x2029 then
        && |e| == 6 + |tail| && e[..2] == "\\u" && e[6..] == tail
        && IsHexCode(e[2..6]) && HexCode(e[2..6]) == c as nat
        && forall k | 2 <= k < 6 :: !('A' <= e[k] <= 'F')
      else e == [c] + tail
  {
    assert ([c] + rest)[1..] == rest;
    if c as nat < 0x1_0000 {
      WrittenCode(c as nat);
      var h := Hex(c as nat, 4);
      var e := "\\u" + h + EscapeAll(rest);
      assert e[..2] == "\\u" && e[2..6] == h && e[6..] == EscapeAll(rest);
      assert forall k | 2 <= k < 6 :: e[k] == h[k - 2];
    }
  }

  lemma WrittenCode(n: nat)
    requires n < 0x1_0000
    ensures var h := Hex(n, 4);
      IsHexCode(h) && HexCode(h) == n && forall k | 0 <= k < 4 :: !('A' <= h[k] <= 'F')
  {
    HexDigits(n);
    CodeUnitIsHex(Hex(n, 4));
    CodeUnitIs(Hex(n, 4));
    LowerCase(n, 4);
  }

  lemma {:induction false} LowerCase(n: nat, width: nat)
    ensures forall k | 0 <= k < width :: !('A' <= Hex(n, width)[k] <= 'F')
    decreases width
  {
    if width > 0 {
      LowerCase(n / 16, width - 1);
    }
  }
}
