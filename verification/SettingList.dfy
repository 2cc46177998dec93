/** The canonical form of a Nix list setting. */
module SettingList {
  import opened Strings

  predicate IsWord(w: string) {
    w != "" && forall i | 0 <= i < |w| :: !IsSpace(w[i])
  }

  predicate AllWords(ws: seq<string>) {
    forall k | 0 <= k < |ws| :: IsWord(ws[k])
  }

  /** How far the word at the head of `s` reaches. */
  function WordEnd(s: string): (n: nat)
    ensures n <= |s| && forall i | 0 <= i < n :: !IsSpace(s[i])
    ensures n == |s| || IsSpace(s[n])
  {
    if s == "" || IsSpace(s[0]) then 0 else 1 + WordEnd(s[1..])
  }

  /** Go's strings.Fields */
  function Fields(s: string): (ws: seq<string>)
    ensures AllWords(ws)
    decreases |s|
  {
    if s == "" then []
    else if IsSpace(s[0]) then Fields(s[1..])
    else
      var n := WordEnd(s);
      assert n > 0;
      [s[..n]] + Fields(s[n..])
  }

  /** Go's strings.Join with a space. */
  function Join(ws: seq<string>): string {
    if ws == [] then ""
    else if |ws| == 1 then ws[0]
    else ws[0] + " " + Join(ws[1..])
  }

  function Tokens(values: seq<string>): set<string> {
    if values == [] then {} else Tokens(values[..|values| - 1]) + Elements(Fields(values[|values| - 1]))
  }

  ghost function Formatted(values: seq<string>): string {
    Join(Sorted(Tokens(values)))
  }

  method FormatSettingList(values: seq<string>) returns (r: string)
    ensures r == Formatted(values)
  {
    var words: set<string> := {};
    var i := 0;
    assert values[..0] == [];
    while i < |values|
      invariant 0 <= i <= |values| && words == Tokens(values[..i])
    {
      var fields := Fields(values[i]);
      var k := 0;
      while k < |fields|
        invariant 0 <= k <= |fields| && words == Tokens(values[..i]) + Elements(fields[..k])
      {
        words := words + {fields[k]};
        assert fields[..k + 1] == fields[..k] + [fields[k]];
        k := k + 1;
      }
      assert fields[..k] == fields;
      assert values[..i + 1][..i] == values[..i];
      i := i + 1;
    }
    assert values[..i] == values;
    var sorted := SortStrings(words);
    r := Join(sorted);
  }

  // ---- splitting what was joined ----

  lemma {:induction false} WordEndOf(w: string, s: string)
    requires forall i | 0 <= i < |w| :: !IsSpace(w[i])
    requires s == "" || IsSpace(s[0])
    ensures WordEnd(w + s) == |w|
  {
    if w == "" {
      assert w + s == s;
    } else {
      assert (w + s)[1..] == w[1..] + s;
      WordEndOf(w[1..], s);
    }
  }

  /** A word followed by a space or nothing is the first field. */
  lemma FirstField(w: string, s: string)
    requires IsWord(w) && (s == "" || IsSpace(s[0]))
    ensures Fields(w + s) == [w] + Fields(s)
  {
    WordEndOf(w, s);
    assert (w + s)[..|w|] == w && (w + s)[|w|..] == s;
  }

  /** Splitting undoes joining. */
  lemma {:induction false} FieldsOfJoin(ws: seq<string>)
    requires AllWords(ws)
    ensures Fields(Join(ws)) == ws
  {
    if ws == [] {
    } else if |ws| == 1 {
      FirstField(ws[0], "");
      assert ws[0] + "" == ws[0];
    } else {
      FieldsOfJoin(ws[1..]);
      FirstField(ws[0], " " + Join(ws[1..]));
      assert ws[0] + " " + Join(ws[1..]) == ws[0] + (" " + Join(ws[1..]));
      assert (" " + Join(ws[1..]))[1..] == Join(ws[1..]);
    }
  }

  /** A space splits a value in two, wherever it is put. */
  lemma {:induction false} FieldsConcat(a: string, b: string)
    ensures Fields(a + " " + b) == Fields(a) + Fields(b)
    decreases |a|
  {
    if a == "" {
      assert a + " " + b == " " + b && (" " + b)[1..] == b;
    } else if IsSpace(a[0]) {
      assert (a + " " + b)[1..] == a[1..] + " " + b;
      FieldsConcat(a[1..], b);
    } else {
      var n := WordEnd(a);
      var w, rest := a[..n], a[n..];
      FieldsConcat(rest, b);
      FirstField(w, rest + " " + b);
      FirstField(w, rest);
      ConcatAssociates(w, rest + " ", b);
      ConcatAssociates(w, rest, " ");
      ConcatAssociates([w], Fields(rest), Fields(b));
      assert a == w + rest;
    }
  }

  lemma ConcatAssociates<T>(a: seq<T>, b: seq<T>, c: seq<T>)
    ensures a + (b + c) == a + b + c
  {}

  lemma {:induction false} TokensAreWords(values: seq<string>)
    ensures forall w <- Tokens(values) :: IsWord(w)
  {
    if values != [] {
      TokensAreWords(values[..|values| - 1]);
      var ws := Fields(values[|values| - 1]);
      forall w <- Elements(ws) ensures IsWord(w) {
        var k :| 0 <= k < |ws| && ws[k] == w;
      }
    }
  }

  /** Splitting the formatted setting gives the words of the input, each once, in order. */
  lemma SplitOfFormatted(values: seq<string>)
    ensures Fields(Formatted(values)) == Sorted(Tokens(values))
    ensures StrictlySorted(Fields(Formatted(values))) && Elements(Fields(Formatted(values))) == Tokens(values)
  {
    var q := Sorted(Tokens(values));
    TokensAreWords(values);
    forall k | 0 <= k < |q| ensures IsWord(q[k]) {
      assert q[k] in Elements(q);
    }
    FieldsOfJoin(q);
  }

  /** Two inputs are formatted alike exactly when they have the same words. */
  lemma SameFormatIffSameTokens(values: seq<string>, others: seq<string>)
    ensures Formatted(values) == Formatted(others) <==> Tokens(values) == Tokens(others)
  {
    SplitOfFormatted(values);
    SplitOfFormatted(others);
  }

  lemma {:induction false} TokensOf(values: seq<string>, w: string)
    ensures w in Tokens(values) <==> exists k :: 0 <= k < |values| && w in Elements(Fields(values[k]))
  {
    if values != [] {
      var n := |values| - 1;
      TokensOf(values[..n], w);
      if k :| 0 <= k < n && w in Elements(Fields(values[..n][k])) {
        assert w in Elements(Fields(values[k]));
      }
      if k :| 0 <= k < |values| && w in Elements(Fields(values[k])) {
        if k < n {
          assert values[..n][k] == values[k];
        }
      }
    }
  }

  /** Order and repetition of the values do not matter. */
  lemma OrderIrrelevant(values: seq<string>, others: seq<string>)
    requires Elements(values) == Elements(others)
    ensures Formatted(values) == Formatted(others)
  {
    forall w ensures w in Tokens(values) <==> w in Tokens(others) {
      TokensSubset(values, others, w);
      TokensSubset(others, values, w);
    }
    assert Tokens(values) == Tokens(others);
  }

  lemma TokensSubset(values: seq<string>, others: seq<string>, w: string)
    requires Elements(values) <= Elements(others)
    ensures w in Tokens(values) ==> w in Tokens(others)
  {
    TokensOf(values, w);
    TokensOf(others, w);
    if k :| 0 <= k < |values| && w in Elements(Fields(values[k])) {
      assert values[k] in Elements(others);
      var j :| 0 <= j < |others| && others[j] == values[k];
    }
  }

  /** Nor does how the words are grouped into values. */
  lemma GroupingIrrelevant(before: seq<string>, a: string, b: string, after: seq<string>)
    ensures Formatted(before + [a + " " + b] + after) == Formatted(before + [a, b] + after)
  {
    FieldsConcat(a, b);
    forall w ensures w in Tokens(before + [a + " " + b] + after) <==> w in Tokens(before + [a, b] + after) {
      TokensConcat(before + [a + " " + b], after);
      TokensConcat(before, [a + " " + b]);
      TokensConcat(before + [a, b], after);
      TokensConcat(before, [a, b]);
      TokensConcat([a], [b]);
      assert [a] + [b] == [a, b];
      assert Elements(Fields(a) + Fields(b)) == Elements(Fields(a)) + Elements(Fields(b));
    }
    assert Tokens(before + [a + " " + b] + after) == Tokens(before + [a, b] + after);
  }

  lemma {:induction false} TokensConcat(values: seq<string>, more: seq<string>)
    ensures Tokens(values + more) == Tokens(values) + Tokens(more)
  {
    if more == [] {
      assert values + more == values;
    } else {
      var n := |more| - 1;
      TokensConcat(values, more[..n]);
      assert (values + more)[..|values| + n] == values + more[..n];
    }
  }

  /** Formatting what was formatted changes nothing. */
  lemma FormatIdempotent(values: seq<string>)
    ensures Formatted([Formatted(values)]) == Formatted(values)
  {
    SplitOfFormatted(values);
    assert [Formatted(values)][..0] == [];
    assert Tokens([Formatted(values)]) == Tokens(values);
  }

  // ---- what the words of a value are ----

  /** Characters `i` up to `j` are a word that goes on in neither direction. */
  predicate Run(s: string, i: int, j: int) {
    && 0 <= i < j <= |s| && (forall k | i <= k < j :: !IsSpace(s[k]))
    && (i == 0 || IsSpace(s[i - 1])) && (j == |s| || IsSpace(s[j]))
  }

  ghost predicate HasWord(s: string, w: string) {
    exists i, j :: Run(s, i, j) && w == s[i..j]
  }

  /** The words of a value are its runs between spaces of any kind, whatever their number. */
  lemma {:induction false} FieldsAreRuns(s: string, w: string)
    ensures w in Fields(s) <==> HasWord(s, w)
    decreases |s|
  {
    if s == "" {
    } else if IsSpace(s[0]) {
      FieldsAreRuns(s[1..], w);
      WordAfter(s, 1, w);
      WordBefore(s, 1, w);
    } else {
      var n := WordEnd(s);
      FieldsAreRuns(s[n..], w);
      WordAfter(s, n, w);
      WordBefore(s, n, w);
      assert Run(s, 0, n) && s[0..n] == s[..n];
    }
  }

  /** A word of what follows a word or a space is one of the whole. */
  lemma WordAfter(s: string, n: nat, w: string)
    requires 0 < n <= |s| && (n == |s| || IsSpace(s[n]) || IsSpace(s[n - 1]))
    ensures HasWord(s[n..], w) ==> HasWord(s, w)
  {
    if HasWord(s[n..], w) {
      var i, j :| Run(s[n..], i, j) && w == s[n..][i..j];
      LaterRun(s, n, i, j);
      SliceOfTail(s, n, i + n, j + n);
    }
  }

  lemma SliceOfTail(s: string, n: nat, i: int, j: int)
    requires n <= i <= j <= |s|
    ensures s[n..][i - n..j - n] == s[i..j]
  {}

  lemma LaterRun(s: string, n: nat, i: int, j: int)
    requires 0 < n <= |s| && (n == |s| || IsSpace(s[n]) || IsSpace(s[n - 1])) && Run(s[n..], i, j)
    ensures Run(s, i + n, j + n)
  {
    assert i > 0 ==> s[n..][i - 1] == s[i + n - 1];
  }

  /** A word of the whole is the word at its front, or one of what follows. */
  lemma WordBefore(s: string, n: nat, w: string)
    requires 0 < n <= |s| && (n == |s| || IsSpace(s[n]) || IsSpace(s[n - 1]))
    requires (forall k | 0 <= k < n :: !IsSpace(s[k])) || (n == 1 && IsSpace(s[0]))
    ensures HasWord(s, w) ==> (!IsSpace(s[0]) && w == s[..n]) || HasWord(s[n..], w)
  {
    if HasWord(s, w) {
      var i, j :| Run(s, i, j) && w == s[i..j];
      if i >= n {
        EarlierRun(s, n, i, j);
        SliceOfTail(s, n, i, j);
      } else {
        assert i == 0;
      }
    }
  }

  lemma EarlierRun(s: string, n: nat, i: int, j: int)
    requires n <= i && Run(s, i, j)
    ensures Run(s[n..], i - n, j - n)
  {}

  /** In the formatted setting single blanks stand between words, and nothing else is a space. */
  lemma {:induction false} JoinedByBlanks(ws: seq<string>)
    requires AllWords(ws)
    ensures var r := Join(ws);
      && (r == "" <==> ws == []) && (r != "" ==> !IsSpace(r[0]) && !IsSpace(r[|r| - 1]))
      && forall i | 0 <= i < |r| && IsSpace(r[i]) ::
           0 < i < |r| - 1 && r[i] == ' ' && !IsSpace(r[i - 1]) && !IsSpace(r[i + 1])
  {
    if |ws| > 1 {
      JoinedByBlanks(ws[1..]);
      var w, rest, r := ws[0], Join(ws[1..]), Join(ws);
      assert r == w + " " + rest;
      assert r[..|w|] == w && r[|w|] == ' ' && r[|w| + 1..] == rest;
      forall i | 0 <= i < |r| && IsSpace(r[i])
        ensures 0 < i < |r| - 1 && r[i] == ' ' && !IsSpace(r[i - 1]) && !IsSpace(r[i + 1])
      {
        if i > |w| {
          assert r[i] == rest[i - |w| - 1] && r[i - 1] == (r[|w|..])[i - 1 - |w|];
        }
      }
    }
  }

  /** The formatted setting: the words of the values, each once and in order, with single blanks between
      them and no other space. */
  lemma FormattedByBlanks(values: seq<string>)
    ensures var r := Formatted(values);
      && (r == "" <==> Tokens(values) == {})
      && forall i | 0 <= i < |r| && IsSpace(r[i]) ::
           0 < i < |r| - 1 && r[i] == ' ' && !IsSpace(r[i - 1]) && !IsSpace(r[i + 1])
  {
    var q := Sorted(Tokens(values));
    TokensAreWords(values);
    forall k | 0 <= k < |q| ensures IsWord(q[k]) {
      assert q[k] in Elements(q);
    }
    JoinedByBlanks(q);
    if q != [] {
      assert q[0] in Elements(q);
    }
  }

  /** A word of the setting is a run of one of the values. */
  lemma TokensAreRuns(values: seq<string>, w: string)
    ensures w in Tokens(values) <==>
      exists k :: 0 <= k < |values| && HasWord(values[k], w)
  {
    TokensOf(values, w);
    forall k | 0 <= k < |values|
      ensures w in Elements(Fields(values[k])) <==> HasWord(values[k], w)
    {
      FieldsAreRuns(values[k], w);
    }
  }
}
