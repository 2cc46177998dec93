/** Spaces, the order of Go strings, and `sort.Strings`. */
module Strings {
  /** Go's unicode.IsSpace */
  predicate IsSpace(c: char) {
    || '\t' <= c <= '\r' || c == ' ' || c == '\U{0085}' || c == '\U{00A0}'
    || c == '\U{1680}' || '\U{2000}' <= c <= '\U{200A}' || c == '\U{2028}' || c == '\U{2029}'
    || c == '\U{202F}' || c == '\U{205F}' || c == '\U{3000}'
  }

  /** Go's bytes.TrimSpace */
  function TrimSpace(s: string): (t: string)
    ensures t != "" ==> !IsSpace(t[0]) && !IsSpace(t[|t| - 1])
  {
    if s != "" && IsSpace(s[0]) then TrimSpace(s[1..])
    else if s != "" && IsSpace(s[|s| - 1]) then TrimSpace(s[..|s| - 1])
    else s
  }

  predicate AllSpace(s: string) {
    forall i | 0 <= i < |s| :: IsSpace(s[i])
  }

  /** Space around a text is trimmed, and no more. */
  lemma {:induction false} TrimPadded(before: string, t: string, after: string)
    requires AllSpace(before) && AllSpace(after)
    requires t != "" && !IsSpace(t[0]) && !IsSpace(t[|t| - 1])
    ensures TrimSpace(before + t + after) == t
    decreases |before| + |after|
  {
    var s := before + t + after;
    if before != "" {
      assert s[1..] == before[1..] + t + after;
      TrimPadded(before[1..], t, after);
    } else if after != "" {
      var n := |after| - 1;
      assert s[..|s| - 1] == before + t + after[..n];
      TrimPadded(before, t, after[..n]);
    } else {
      assert s == t;
    }
  }

  /** `a < b`: the order of UTF-8 bytes is that of code points. */
  predicate Less(a: string, b: string) {
    b != "" && (a == "" || a[0] < b[0] || (a[0] == b[0] && Less(a[1..], b[1..])))
  }

  lemma {:induction false} LessTransitive(a: string, b: string, c: string)
    requires Less(a, b) && Less(b, c)
    ensures Less(a, c)
  {
    if a != "" && a[0] == b[0] == c[0] {
      LessTransitive(a[1..], b[1..], c[1..]);
    }
  }

  lemma {:induction false} LessIrreflexive(a: string)
    ensures !Less(a, a)
  {
    if a != "" {
      LessIrreflexive(a[1..]);
    }
  }

  lemma {:induction false} LessTotal(a: string, b: string)
    ensures Less(a, b) || a == b || Less(b, a)
  {
    if a != "" && b != "" && a[0] == b[0] {
      LessTotal(a[1..], b[1..]);
      assert a == [a[0]] + a[1..] && b == [b[0]] + b[1..];
    }
  }

  /** Sorted without repetition. */
  predicate StrictlySorted(q: seq<string>) {
    forall i, j | 0 <= i < j < |q| :: Less(q[i], q[j])
  }

  function Elements(q: seq<string>): set<string> {
    set x | x in q
  }

  lemma NoElements(q: seq<string>)
    ensures Elements(q) == {} ==> q == []
  {
    if q != [] {
      assert q[0] in Elements(q);
    }
  }

  /** A set has one strictly sorted listing. */
  lemma {:induction false} SortedUnique(p: seq<string>, q: seq<string>)
    requires StrictlySorted(p) && StrictlySorted(q) && Elements(p) == Elements(q)
    ensures p == q
  {
    NoElements(p);
    NoElements(q);
    if p != [] {
      SameHead(p, q);
      assert Elements(p[1..]) == Elements(q[1..]) by {
        TailElements(p);
        TailElements(q);
      }
      SortedUnique(p[1..], q[1..]);
      assert p == [p[0]] + p[1..] && q == [q[0]] + q[1..];
    }
  }

  lemma SameHead(p: seq<string>, q: seq<string>)
    requires StrictlySorted(p) && StrictlySorted(q) && Elements(p) == Elements(q) && p != [] && q != []
    ensures p[0] == q[0]
  {
    assert p[0] in Elements(q) && q[0] in Elements(p);
    if p[0] != q[0] {
      assert Less(q[0], p[0]) && Less(p[0], q[0]);
      LessTransitive(p[0], q[0], p[0]);
      LessIrreflexive(p[0]);
    }
  }

  lemma TailElements(q: seq<string>)
    requires StrictlySorted(q) && q != []
    ensures Elements(q[1..]) == Elements(q) - {q[0]}
  {
    LessIrreflexive(q[0]);
    forall x | x in q[1..] ensures x != q[0] {
      var k :| 0 < k < |q| && q[k] == x;
      assert Less(q[0], x);
    }
    assert forall x | x in q && x != q[0] :: x in q[1..];
  }

  /** `q` with `x` at its place. */
  function Insert(x: string, q: seq<string>): seq<string> {
    if q == [] || Less(x, q[0]) then [x] + q else [q[0]] + Insert(x, q[1..])
  }

  lemma {:induction false} InsertSorted(x: string, q: seq<string>)
    requires StrictlySorted(q) && x !in q
    ensures StrictlySorted(Insert(x, q)) && Elements(Insert(x, q)) == Elements(q) + {x}
  {
    if q == [] {
    } else if Less(x, q[0]) {
      forall j | 0 < j < |q| ensures Less(x, q[j]) {
        LessTransitive(x, q[0], q[j]);
      }
    } else {
      LessTotal(x, q[0]);
      var tail := Insert(x, q[1..]);
      InsertSorted(x, q[1..]);
      forall j | 0 <= j < |tail| ensures Less(q[0], tail[j]) {
        assert tail[j] in Elements(tail);
      }
    }
  }

  /** The strictly sorted listing of a set. */
  ghost function Sorted(s: set<string>): (q: seq<string>)
    ensures StrictlySorted(q) && Elements(q) == s
  {
    if s == {} then []
    else
      var x :| x in s;
      var q := Sorted(s - {x});
      assert x !in q by { assert x !in Elements(q); }
      InsertSorted(x, q);
      Insert(x, q)
  }

  /** Lists the keys of a Go map in whatever order they come, then sorts them. */
  method SortStrings(s: set<string>) returns (q: seq<string>)
    ensures q == Sorted(s)
  {
    q := [];
    var rest := s;
    while rest != {}
      invariant rest <= s
      invariant StrictlySorted(q) && Elements(q) == s - rest
      decreases rest
    {
      var x :| x in rest;
      assert x !in q by { assert x !in Elements(q); }
      InsertSorted(x, q);
      q := Insert(x, q);
      rest := rest - {x};
    }
    SortedUnique(q, Sorted(s));
  }

  /** Go's order, told by the first difference: the smaller character comes first, and a text before
      every text that continues it. */
  lemma {:induction false} LessByFirstDifference(a: string, b: string)
    ensures Less(a, b) <==>
      exists i | 0 <= i <= |a| && i < |b| :: a[..i] == b[..i] && (i == |a| || a[i] as nat < b[i] as nat)
  {
    if Less(a, b) {
      var i := FirstDifference(a, b);
    }
    if i :| 0 <= i <= |a| && i < |b| && a[..i] == b[..i] && (i == |a| || a[i] as nat < b[i] as nat) {
      LessAt(a, b, i);
    }
  }

  lemma {:induction false} FirstDifference(a: string, b: string) returns (i: nat)
    requires Less(a, b)
    ensures i <= |a| && i < |b| && a[..i] == b[..i] && (i == |a| || a[i] < b[i])
  {
    i := 0;
    if a != "" && a[0] == b[0] {
      i := FirstDifference(a[1..], b[1..]);
      assert a[..i + 1] == [a[0]] + a[1..][..i] && b[..i + 1] == [b[0]] + b[1..][..i];
      i := i + 1;
    }
  }

  lemma {:induction false} LessAt(a: string, b: string, i: nat)
    requires i <= |a| && i < |b| && a[..i] == b[..i] && (i == |a| || a[i] < b[i])
    ensures Less(a, b)
    decreases i
  {
    if i > 0 {
      assert a[0] == a[..i][0] && b[0] == b[..i][0];
      assert a[1..][..i - 1] == a[..i][1..] && b[1..][..i - 1] == b[..i][1..];
      LessAt(a[1..], b[1..], i - 1);
    }
  }

  /** No printable ASCII character but the blank is a space, and the control characters that are: tab,
      line feed, vertical tab, form feed, carriage return. */
  lemma AsciiSpaces(c: char)
    requires c as nat < 0x80
    ensures IsSpace(c) <==> c as nat in {9, 10, 11, 12, 13, 32}
  {}

  /** Beyond ASCII, the characters of the Unicode property White_Space. */
  lemma WideSpaces(c: char)
    requires c as nat >= 0x80
    ensures IsSpace(c) <==>
      c as nat in {0x85, 0xA0, 0x1680, 0x2028, 0x2029, 0x202F, 0x205F, 0x3000} || 0x2000 <= c as nat <= 0x200A
  {}
}
