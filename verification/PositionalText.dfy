/** Numbers written in an alphabet, the most significant digit first. */
module PositionalText {
  import opened Optional
  import opened Numerals
  import opened Strings

  /** Digits as text. */
  function Text(a: string, ds: seq<nat>): (s: string)
    requires DigitsOf(|a|, ds)
    ensures |s| == |ds|
  {
    if ds == [] then "" else [a[ds[|ds| - 1]]] + Text(a, ds[..|ds| - 1])
  }

  lemma {:induction false} TextAt(a: string, ds: seq<nat>, k: nat)
    requires DigitsOf(|a|, ds) && k < |ds|
    ensures Text(a, ds)[k] == a[ds[|ds| - 1 - k]]
  {
    if k > 0 {
      TextAt(a, ds[..|ds| - 1], k - 1);
    }
  }

  lemma {:induction false} DigitsInRange(b: nat, n: nat, len: nat)
    requires b > 0
    ensures DigitsOf(b, Digits(b, n, len))
    decreases len
  {
    if len > 0 {
      DigitsInRange(b, n / b, len - 1);
    }
  }

  /** The number `n` in `len` characters. */
  ghost function Numeral(a: string, n: nat, len: nat): (s: string)
    requires a != ""
    ensures |s| == len
  {
    DigitsInRange(|a|, n, len);
    Text(a, Digits(|a|, n, len))
  }

  /** Where `c` stands in `a`. */
  function IndexIn(a: string, c: char): (i: Option<nat>)
    ensures if i.Some? then i.value < |a| && a[i.value] == c else c !in a
  {
    if a == "" then None
    else
      var i := IndexIn(a[..|a| - 1], c);
      if i.Some? then i else if a[|a| - 1] == c then Some(|a| - 1) else None
  }

  /** The digits of a text, the least significant first. */
  function DigitsOfText(a: string, s: string): (ds: Option<seq<nat>>)
    ensures ds.Some? ==> |ds.value| == |s| && DigitsOf(|a|, ds.value)
  {
    if s == "" then Some([])
    else
      var d, ds := IndexIn(a, s[0]), DigitsOfText(a, s[1..]);
      if d.Some? && ds.Some? then Some(ds.value + [d.value]) else None
  }

  lemma TextSnoc(a: string, ds: seq<nat>, d: nat)
    requires DigitsOf(|a|, ds) && d < |a|
    ensures DigitsOf(|a|, ds + [d]) && Text(a, ds + [d]) == [a[d]] + Text(a, ds)
  {
    assert (ds + [d])[..|ds|] == ds;
  }

  lemma HeadTail(s: string)
    requires s != ""
    ensures s == [s[0]] + s[1..]
  {}

  lemma {:induction false} TextOfDigits(a: string, s: string) returns (ds: seq<nat>)
    requires DigitsOfText(a, s).Some?
    ensures ds == DigitsOfText(a, s).value && Text(a, ds) == s
  {
    if s == "" {
      ds := [];
    } else {
      var rest := TextOfDigits(a, s[1..]);
      var d := IndexIn(a, s[0]).value;
      TextSnoc(a, rest, d);
      HeadTail(s);
      ds := rest + [d];
    }
  }

  lemma {:induction false} AlphabetReads(a: string, s: string)
    requires forall k | 0 <= k < |s| :: s[k] in a
    ensures DigitsOfText(a, s).Some?
  {
    if s != "" {
      AlphabetReads(a, s[1..]);
    }
  }

  /** No letter stands for two digits, and letters are ordered as their digits are. */
  predicate Ascending(a: string) {
    forall i, j | 0 <= i < j < |a| :: a[i] < a[j]
  }

  lemma DigitUnique(a: string, p: seq<nat>, q: seq<nat>, i: nat)
    requires Ascending(a) && i < |p| == |q| && DigitsOf(|a|, p) && DigitsOf(|a|, q)
    ensures Text(a, p) == Text(a, q) ==> p[i] == q[i]
  {
    var k := |p| - 1 - i;
    TextAt(a, p, k);
    TextAt(a, q, k);
    if p[i] != q[i] {
      assert a[p[i]] != a[q[i]];
      assert Text(a, p)[k] != Text(a, q)[k];
    }
  }

  lemma DigitsUnique(a: string, p: seq<nat>, q: seq<nat>)
    requires Ascending(a) && |p| == |q| && DigitsOf(|a|, p) && DigitsOf(|a|, q)
    ensures Text(a, p) == Text(a, q) <==> p == q
  {
    if Text(a, p) == Text(a, q) {
      forall i | 0 <= i < |p| ensures p[i] == q[i] {
        DigitUnique(a, p, q, i);
      }
    }
  }

  // ---- the order of texts is the order of numbers ----

  lemma {:induction false} ValSnoc(b: nat, ds: seq<nat>, top: nat)
    ensures Val(b, ds + [top]) == Val(b, ds) + top * Pow(b, |ds|)
  {
    if ds == [] {
      assert [top][1..] == [];
    } else {
      assert (ds + [top])[1..] == ds[1..] + [top];
      ValSnoc(b, ds[1..], top);
      var v, p := Val(b, ds[1..]), Pow(b, |ds| - 1);
      assert b * (v + top * p) == b * v + top * (b * p);
    }
  }

  lemma HigherTop(v: nat, w: nat, p: nat, x: nat, y: nat)
    requires v < p && x < y
    ensures v + x * p < w + y * p
  {
    MulMono(x + 1, y, p);
  }

  /** The top digit decides, and on a tie the rest does. */
  lemma TopDecides(c: char, s: string, v: nat, x: nat, d: char, t: string, w: nat, y: nat, p: nat)
    requires v < p && w < p && (Less(s, t) <==> v < w)
    requires (c < d <==> x < y) && (c == d <==> x == y)
    ensures Less([c] + s, [d] + t) <==> v + x * p < w + y * p
  {
    assert ([c] + s)[1..] == s && ([d] + t)[1..] == t;
    if x < y {
      HigherTop(v, w, p, x, y);
    } else if y < x {
      HigherTop(w, v, p, y, x);
    }
  }

  lemma OrderSnoc(a: string, p: seq<nat>, q: seq<nat>, x: nat, y: nat)
    requires Ascending(a) && |p| == |q| && DigitsOf(|a|, p) && DigitsOf(|a|, q) && x < |a| && y < |a|
    ensures DigitsOf(|a|, p + [x]) && DigitsOf(|a|, q + [y])
    ensures (Less(Text(a, p), Text(a, q)) <==> Val(|a|, p) < Val(|a|, q)) ==>
      (Less(Text(a, p + [x]), Text(a, q + [y])) <==> Val(|a|, p + [x]) < Val(|a|, q + [y]))
  {
    ValSnoc(|a|, p, x);
    ValSnoc(|a|, q, y);
    TextSnoc(a, p, x);
    TextSnoc(a, q, y);
    ValBound(|a|, p);
    ValBound(|a|, q);
    if Less(Text(a, p), Text(a, q)) <==> Val(|a|, p) < Val(|a|, q) {
      TopDecides(a[x], Text(a, p), Val(|a|, p), x, a[y], Text(a, q), Val(|a|, q), y, Pow(|a|, |p|));
    }
  }

  lemma InitLast(ds: seq<nat>)
    requires ds != []
    ensures ds == ds[..|ds| - 1] + [ds[|ds| - 1]]
  {}

  lemma {:induction false} TextOrder(a: string, p: seq<nat>, q: seq<nat>)
    requires Ascending(a) && |p| == |q| && DigitsOf(|a|, p) && DigitsOf(|a|, q)
    ensures Less(Text(a, p), Text(a, q)) <==> Val(|a|, p) < Val(|a|, q)
  {
    if p != [] {
      var n := |p| - 1;
      TextOrder(a, p[..n], q[..n]);
      InitLast(p);
      InitLast(q);
      OrderSnoc(a, p[..n], q[..n], p[n], q[n]);
    }
  }

  // ---- numerals ----

  /** Reading a numeral gives its digits. */
  lemma ReadNumeral(a: string, n: nat, len: nat)
    requires a != "" && Ascending(a)
    ensures DigitsOfText(a, Numeral(a, n, len)) == Some(Digits(|a|, n, len))
  {
    var s := Numeral(a, n, len);
    DigitsInRange(|a|, n, len);
    forall k | 0 <= k < |s| ensures s[k] in a {
      TextAt(a, Digits(|a|, n, len), k);
    }
    AlphabetReads(a, s);
    var ds := TextOfDigits(a, s);
    DigitsUnique(a, ds, Digits(|a|, n, len));
  }

  /** A text of the alphabet is the numeral of what is read from it. */
  lemma WriteNumeral(a: string, s: string)
    requires a != "" && forall k | 0 <= k < |s| :: s[k] in a
    ensures DigitsOfText(a, s).Some? && Numeral(a, Val(|a|, DigitsOfText(a, s).value), |s|) == s
  {
    AlphabetReads(a, s);
    var ds := TextOfDigits(a, s);
    DigitsVal(|a|, ds);
  }

  /** Numerals of one length are ordered as their numbers. */
  lemma NumeralOrder(a: string, m: nat, n: nat, len: nat)
    requires a != "" && Ascending(a) && m < Pow(|a|, len) && n < Pow(|a|, len)
    ensures Less(Numeral(a, m, len), Numeral(a, n, len)) <==> m < n
  {
    ValDigits(|a|, m, len);
    ValDigits(|a|, n, len);
    TextOrder(a, Digits(|a|, m, len), Digits(|a|, n, len));
  }

  /** Each character of a numeral, by its weight. */
  lemma NumeralAt(a: string, n: nat, len: nat, k: nat)
    requires a != "" && k < len
    ensures Pow(|a|, len - 1 - k) > 0
    ensures Numeral(a, n, len)[k] == a[n / Pow(|a|, len - 1 - k) % |a|]
    ensures Numeral(a, n, len)[k] == a[Drop(|a|, n, len - 1 - k) % |a|]
  {
    DigitsInRange(|a|, n, len);
    TextAt(a, Digits(|a|, n, len), k);
    DigitAt(|a|, n, len, len - 1 - k);
    DropIsDiv(|a|, n, len - 1 - k);
  }
}
