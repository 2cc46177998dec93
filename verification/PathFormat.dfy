/** The printed form of a diagnostic path, piece by piece. */
module PathFormat {
  import opened Optional
  import opened NumeralText
  import opened PathPrinter

  /** The root, an index, an attribute that is an identifier, and any other attribute. */
  lemma PathPieces(cs: Charset, segs: seq<Segment>, name: string, i: nat)
    ensures Render(cs, []) == "$"
    ensures Render(cs, segs + [Index(i)]) == Render(cs, segs) + "[" + FormatUint(i) + "]"
    ensures Identifier(cs, name) ==> Render(cs, segs + [Attr(name)]) == Render(cs, segs) + "." + name
    ensures !Identifier(cs, name) ==>
      Render(cs, segs + [Attr(name)]) == Render(cs, segs) + "[" + ("\"" + EscapeAll(cs, name) + "\"") + "]"
  {
    RenderChild(cs, segs, Index(i));
    RenderChild(cs, segs, Attr(name));
  }

  /** Letters, digits and underscores, not beginning with a digit. */
  predicate Identifier(cs: Charset, s: string) {
    && s != "" && (s[0] == '_' || cs.letter(s[0]))
    && forall k | 0 <= k < |s| :: s[k] == '_' || cs.letter(s[k]) || cs.digit(s[k])
  }

  /** The number that decimal digits denote. */
  function Decimal(s: string): (n: nat)
    requires IsDecimal(s)
  {
    if s == "" then 0 else 10 * Decimal(s[..|s| - 1]) + (s[|s| - 1] as nat - '0' as nat)
  }

  predicate IsDecimal(s: string) {
    forall k | 0 <= k < |s| :: '0' <= s[k] <= '9'
  }

  /** An index is printed in decimal, without leading zeros. */
  lemma {:induction false} IndexInDecimal(n: nat)
    ensures var s := FormatUint(n);
      s != "" && IsDecimal(s) && Decimal(s) == n && (s[0] == '0' ==> n == 0 && s == "0")
  {
    var s := FormatUint(n);
    if n < 10 {
      assert s[..|s| - 1] == "";
    } else {
      IndexInDecimal(n / 10);
      assert s[..|s| - 1] == FormatUint(n / 10);
    }
  }

  /** In quotes a printable character stands for itself, quotes and backslashes take a backslash, and
      others are escaped by name or, in lower-case hexadecimal, by number. */
  lemma QuotedCharacter(cs: Charset, c: char, rest: string)
    ensures EscapeAll(cs, "") == ""
    ensures var e := EscapeAll(cs, [c] + rest);
      var tail := EscapeAll(cs, rest);
      if c == '"' || c == '\\' then e == ['\\', c] + tail
      else if cs.printable(c) then e == [c] + tail
      else if c as nat == 7 then e == "\\a" + tail
      else if c as nat == 8 then e == "\\b" + tail
      else if c as nat == 9 then e == "\\t" + tail
      else if c as nat == 10 then e == "\\n" + tail
      else if c as nat == 11 then e == "\\v" + tail
      else if c as nat == 12 then e == "\\f" + tail
      else if c as nat == 13 then e == "\\r" + tail
      else if c as nat < 32 || c as nat == 127 then e == "\\x" + Hex(c as nat, 2) + tail
      else if c as nat < 65536 then e == "\\u" + Hex(c as nat, 4) + tail
      else e == "\\U" + Hex(c as nat, 8) + tail
  {
    assert ([c] + rest)[1..] == rest;
  }

  predicate IsLowerHex(s: string) {
    forall k | 0 <= k < |s| :: '0' <= s[k] <= '9' || 'a' <= s[k] <= 'f'
  }

  function Hexadecimal(s: string): nat
    requires IsLowerHex(s)
  {
    if s == "" then 0
    else
      var c := s[|s| - 1];
      16 * Hexadecimal(s[..|s| - 1]) + if c <= '9' then c as nat - '0' as nat else c as nat - 'a' as nat + 10
  }

  /** A number that fits is printed in so many hexadecimal digits. */
  lemma {:induction false} NumberInHex(n: nat, width: nat)
    requires n < Pow16(width)
    ensures var s := Hex(n, width); |s| == width && IsLowerHex(s) && Hexadecimal(s) == n
    decreases width
  {
    if width > 0 {
      NumberInHex(n / 16, width - 1);
      var s := Hex(n, width);
      assert s[..width - 1] == Hex(n / 16, width - 1);
    }
  }

  function Pow16(k: nat): (p: nat)
    ensures p > 0
  {
    if k == 0 then 1 else 16 * Pow16(k - 1)
  }
}
