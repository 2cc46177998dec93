/** The grammar of JSON strings and of arrays of strings, and that exactly its texts are read. */
module JsonGrammar {
  import opened Optional
  import opened JsonText

  // ---- section 7 of RFC 8259 ----

  predicate IsHex(c: char) {
    '0' <= c <= '9' || 'a' <= c <= 'f' || 'A' <= c <= 'F'
  }

  /** A character or an escape sequence. */
  predicate IsUnit(u: string) {
    || (|u| == 1 && u[0] != '"' && u[0] != '\\' && ' ' <= u[0])
    || (|u| == 2 && u[0] == '\\' && u[1] in {'"', '\\', '/', 'b', 'f', 'n', 'r', 't'})
    || (|u| == 6 && u[0] == '\\' && u[1] == 'u' && IsHex(u[2]) && IsHex(u[3]) && IsHex(u[4]) && IsHex(u[5]))
  }

  ghost predicate IsBody(b: string)
    decreases |b|, 1
  {
    b == "" || exists u, tail :: UnitFirst(b, u, tail)
  }

  ghost predicate UnitFirst(b: string, u: string, tail: string)
    decreases |b|, 0
  {
    IsUnit(u) && b == u + tail && IsBody(tail)
  }

  function Quoted(b: string): string {
    "\"" + (b + "\"")
  }

  ghost predicate IsString(t: string) {
    exists b :: IsBody(b) && t == Quoted(b)
  }

  // ---- section 5, of strings and nulls ----

  predicate Spaces(w: string) {
    forall i | 0 <= i < |w| :: IsJsonSpace(w[i])
  }

  ghost predicate IsElement(e: string) {
    e == "null" || IsString(e)
  }

  /** Elements separated by commas, with space around each. */
  ghost predicate IsElements(t: string)
    decreases |t|, 1
  {
    exists w, e, v, x :: LaidOut(t, w, e, v, x)
  }

  /** Space, an element, space, and the end or a comma and further elements. */
  ghost predicate LaidOut(t: string, w: string, e: string, v: string, x: string)
    decreases |t|, 0
  {
    && t == w + (e + (v + x)) && Spaces(w) && IsElement(e) && Spaces(v)
    && (x != "" ==> x[0] == ',' && IsElements(x[1..]))
  }

  function Bracketed(b: string): string {
    "[" + (b + "]")
  }

  ghost predicate IsArray(t: string) {
    exists b :: (Spaces(b) || IsElements(b)) && t == Bracketed(b)
  }

  // ---- strings ----

  lemma UnitFound(s: string)
    requires s != "" && s[0] != '"' && UnitLength(s).Some?
    ensures IsUnit(s[..UnitLength(s).value])
  {
    if UnitLength(s) == Some(6) {
    }
  }

  lemma UnitRead(u: string, tail: string)
    requires IsUnit(u)
    ensures u != "" && u[0] != '"' && UnitLength(u + tail) == Some(|u|)
    ensures (u + tail)[0] == u[0] && (u + tail)[|u|..] == tail
  {
    if |u| == 6 {
      assert (u + tail)[2..6] == u[2..6];
    }
  }

  lemma {:induction false} BodyFound(s: string) returns (b: string, rest: string)
    requires BodyEnd(s).Some?
    ensures IsBody(b) && s == b + ("\"" + rest) && BodyEnd(s).value == |b|
    decreases |s|
  {
    if s[0] == '"' {
      b, rest := "", s[1..];
      assert s == "" + ("\"" + rest);
    } else {
      var k := UnitLength(s).value;
      var u, tail := s[..k], s[k..];
      UnitFound(s);
      b, rest := BodyFound(tail);
      Associative(u, b, "\"" + rest);
      assert UnitFirst(u + b, u, b);
      b := u + b;
    }
  }

  lemma {:induction false} BodyRead(b: string, rest: string)
    requires IsBody(b)
    ensures BodyEnd(b + ("\"" + rest)) == Some(|b|)
    decreases |b|
  {
    if b == "" {
      assert "" + ("\"" + rest) == "\"" + rest;
    } else {
      var u, tail :| UnitFirst(b, u, tail);
      Associative(u, tail, "\"" + rest);
      UnitRead(u, tail + ("\"" + rest));
      BodyRead(tail, rest);
    }
  }

  lemma StringFound(s: string) returns (u: string)
    requires ReadString(s).Some?
    ensures IsString(u) && s == u + ReadString(s).value.1
  {
    var b, rest := BodyFound(s[1..]);
    assert s[..1] == "\"";
    StringOf(b, "\"" + rest);
    Front("\"", rest);
    assert IsString(Quoted(b));
    u := Quoted(b);
    Associative(b, "\"", rest);
    Associative("\"", b + "\"", rest);
  }

  lemma StringRead(u: string, rest: string)
    requires IsString(u)
    ensures ReadString(u + rest).Some? && ReadString(u + rest).value.1 == rest
    ensures u != "" && u[0] == '"'
  {
    var b :| IsBody(b) && u == Quoted(b);
    BodyRead(b, rest);
    StringOf(b, "\"" + rest);
    Front("\"", rest);
    Associative("\"", b + "\"", rest);
    Associative(b, "\"", rest);
  }

  // ---- arrays ----

  lemma {:induction false} Skipped(s: string) returns (w: string)
    ensures Spaces(w) && s == w + SkipSpace(s)
  {
    if s != "" && IsJsonSpace(s[0]) {
      w := Skipped(s[1..]);
      Associative([s[0]], w, SkipSpace(s));
      w := [s[0]] + w;
    } else {
      w := "";
    }
  }

  lemma {:induction false} SkipPadded(w: string, x: string)
    requires Spaces(w) && (x != "" ==> !IsJsonSpace(x[0]))
    ensures SkipSpace(w + x) == x
  {
    if w == "" {
      assert w + x == x;
    } else {
      assert (w + x)[1..] == w[1..] + x;
      SkipPadded(w[1..], x);
    }
  }

  lemma ElementFound(s: string) returns (e: string)
    requires ReadElement(s).Some?
    ensures IsElement(e) && s == e + ReadElement(s).value.1
  {
    if |s| >= 4 && s[..4] == "null" {
      e := "null";
    } else {
      e := StringFound(s);
    }
  }

  lemma ElementRead(e: string, rest: string)
    requires IsElement(e)
    ensures ReadElement(e + rest).Some? && ReadElement(e + rest).value.1 == rest
    ensures e != "" && !IsJsonSpace(e[0]) && e[0] != ']' && (e + rest)[0] == e[0]
  {
    Front(e, rest);
    if e != "null" {
      StringRead(e, rest);
    }
  }

  /** An element that is read, and the space around it. */
  lemma OneFound(s: string) returns (w: string, e: string, v: string)
    requires ReadElement(SkipSpace(s)).Some?
    ensures Spaces(w) && IsElement(e) && Spaces(v)
    ensures s == w + (e + (v + SkipSpace(ReadElement(SkipSpace(s)).value.1)))
  {
    w := Skipped(s);
    e := ElementFound(SkipSpace(s));
    v := Skipped(ReadElement(SkipSpace(s)).value.1);
  }

  lemma LayLast(w: string, e: string, v: string, rest: string) returns (t: string)
    requires Spaces(w) && IsElement(e) && Spaces(v)
    ensures IsElements(t) && w + (e + (v + ("]" + rest))) == t + ("]" + rest)
  {
    t := w + (e + (v + ""));
    assert LaidOut(t, w, e, v, "");
    Regroup(w, e, v, "", "]" + rest);
    assert "" + ("]" + rest) == "]" + rest;
  }

  lemma LayMore(w: string, e: string, v: string, more: string, rest: string) returns (t: string)
    requires Spaces(w) && IsElement(e) && Spaces(v) && IsElements(more)
    ensures IsElements(t) && w + (e + (v + ("," + (more + ("]" + rest))))) == t + ("]" + rest)
  {
    var x := "," + more;
    Front(",", more);
    t := w + (e + (v + x));
    assert LaidOut(t, w, e, v, x);
    Associative(",", more, "]" + rest);
    Regroup(w, e, v, x, "]" + rest);
  }

  lemma ElementsEnd(s: string)
    requires ReadElements(s).Some?
    ensures ReadElement(SkipSpace(s)).Some?
    ensures var end, rest := SkipSpace(ReadElement(SkipSpace(s)).value.1), ReadElements(s).value.1;
      && |end| <= |s| && end != ""
      && (if end[0] == ']' then end == "]" + rest
          else end == "," + end[1..] && ReadElements(end[1..]).Some? && ReadElements(end[1..]).value.1 == rest)
  {}

  lemma {:induction false} ElementsFound(s: string) returns (t: string)
    requires ReadElements(s).Some?
    ensures IsElements(t) && s == t + ("]" + ReadElements(s).value.1)
    decreases |s|
  {
    ElementsEnd(s);
    var w, e, v := OneFound(s);
    var end, rest := SkipSpace(ReadElement(SkipSpace(s)).value.1), ReadElements(s).value.1;
    if end[0] == ']' {
      t := LayLast(w, e, v, rest);
    } else {
      var more := ElementsFound(end[1..]);
      t := LayMore(w, e, v, more, rest);
    }
  }

  lemma Regroup(w: string, e: string, v: string, x: string, rest: string)
    ensures w + (e + (v + x)) + rest == w + (e + (v + (x + rest)))
  {
    Associative(w, e + (v + x), rest);
    Associative(e, v + x, rest);
    Associative(v, x, rest);
  }

  /** Space, an element and space are read in one step, when something else follows. */
  lemma OneRead(w: string, e: string, v: string, x: string)
    requires Spaces(w) && IsElement(e) && Spaces(v) && x != "" && !IsJsonSpace(x[0])
    ensures SkipSpace(w + (e + (v + x))) == e + (v + x)
    ensures ReadElement(e + (v + x)).Some?
    ensures SkipSpace(ReadElement(e + (v + x)).value.1) == x
  {
    ElementRead(e, v + x);
    SkipPadded(w, e + (v + x));
    SkipPadded(v, x);
  }

  lemma {:induction false} ElementsRead(t: string, rest: string)
    requires IsElements(t)
    ensures ReadElements(t + ("]" + rest)).Some? && ReadElements(t + ("]" + rest)).value.1 == rest
    ensures SkipSpace(t + ("]" + rest)) != "" && SkipSpace(t + ("]" + rest))[0] != ']'
    decreases |t|
  {
    var w, e, v, x :| LaidOut(t, w, e, v, x);
    var end := "]" + rest;
    Regroup(w, e, v, x, end);
    if x == "" {
      assert x + end == end;
      LastRead(w, e, v, rest);
    } else {
      assert x == "," + x[1..];
      Associative(",", x[1..], end);
      ElementsRead(x[1..], rest);
      MoreRead(w, e, v, x[1..] + end);
    }
  }

  lemma LastRead(w: string, e: string, v: string, rest: string)
    requires Spaces(w) && IsElement(e) && Spaces(v)
    ensures var s := w + (e + (v + ("]" + rest)));
      && ReadElements(s).Some? && ReadElements(s).value.1 == rest
      && SkipSpace(s) != "" && SkipSpace(s)[0] != ']'
  {
    Front("]", rest);
    OneRead(w, e, v, "]" + rest);
    ElementRead(e, v + ("]" + rest));
  }

  lemma MoreRead(w: string, e: string, v: string, more: string)
    requires Spaces(w) && IsElement(e) && Spaces(v) && ReadElements(more).Some?
    ensures var s := w + (e + (v + ("," + more)));
      && ReadElements(s).Some? && ReadElements(s).value.1 == ReadElements(more).value.1
      && SkipSpace(s) != "" && SkipSpace(s)[0] != ']'
  {
    Front(",", more);
    OneRead(w, e, v, "," + more);
    ElementRead(e, v + ("," + more));
  }

  lemma ArrayFound(s: string) returns (b: string)
    requires ReadArray(s).Some?
    ensures (Spaces(b) || IsElements(b)) && s == b + ("]" + ReadArray(s).value.1)
  {
    var t := SkipSpace(s);
    if t != "" && t[0] == ']' {
      b := Skipped(s);
    } else {
      b := ElementsFound(s);
    }
  }

  lemma ArrayRead(b: string)
    requires Spaces(b) || IsElements(b)
    ensures ReadArray(b + "]").Some? && ReadArray(b + "]").value.1 == ""
  {
    if Spaces(b) {
      SkipPadded(b, "]");
    } else {
      assert "]" + "" == "]";
      ElementsRead(b, "");
    }
  }

  // ---- whole texts ----

  lemma OnlySpaceLeft(s: string, t: string, rest: string)
    requires s == t + rest && SkipSpace(rest) == ""
    requires s != "" && !IsJsonSpace(s[|s| - 1])
    ensures rest == "" && s == t
  {
    if rest != "" {
      assert s[|s| - 1] == rest[|rest| - 1];
    }
    var w := Skipped(rest);
    assert w + "" == w;
  }

  lemma WholeString(s: string)
    requires s != "" && !IsJsonSpace(s[|s| - 1])
    ensures UnmarshalString(s).Some? <==> IsString(s)
    ensures IsString(s) ==> s[0] == '"'
  {
    if UnmarshalString(s).Some? {
      var u := StringFound(s);
      OnlySpaceLeft(s, u, ReadString(s).value.1);
    }
    if IsString(s) {
      StringRead(s, "");
      assert s + "" == s;
    }
  }

  lemma WholeArray(s: string)
    requires s != "" && !IsJsonSpace(s[|s| - 1])
    ensures s[0] == '[' && UnmarshalArray(s).Some? <==> IsArray(s)
  {
    if s[0] == '[' && UnmarshalArray(s).Some? {
      var rest := ReadArray(s[1..]).value.1;
      var b := ArrayFound(s[1..]);
      assert s[..1] == "[";
      Associative(b, "]", rest);
      Associative("[", b + "]", rest);
      OnlySpaceLeft(s, Bracketed(b), rest);
    }
    if IsArray(s) {
      var b :| (Spaces(b) || IsElements(b)) && s == Bracketed(b);
      Front("[", b + "]");
      ArrayRead(b);
    }
  }

  /** Exactly strings and arrays of strings and nulls are read from texts with no space at the end. */
  lemma ReadsExactly(s: string)
    requires s != "" && !IsJsonSpace(s[|s| - 1])
    ensures ReadText(s).Some? <==> IsString(s) || IsArray(s)
    ensures ReadText(s).Some? ==> (ReadText(s).value.Str? <==> IsString(s)) && (ReadText(s).value.Arr? <==> IsArray(s))
  {
    WholeString(s);
    WholeArray(s);
  }
}
