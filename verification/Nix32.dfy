/** `EncodeNix32`: the store path hash as a base-32 numeral, most significant digit first. */
module Nix32 {
  import opened Optional
  import opened Numerals
  import opened Strings
  import opened PositionalText

  const ALPHABET: string := "0123456789abcdfghijklmnpqrsvwxyz"

  predicate IsLetter(c: char) {
    '0' <= c <= '9' || ('a' <= c <= 'z' && c !in {'e', 'o', 't', 'u'})
  }

  lemma LettersOnly(k: nat)
    requires k < |ALPHABET|
    ensures IsLetter(ALPHABET[k])
  {}

  function LetterIndex(c: char): (k: nat)
    requires IsLetter(c)
    ensures k < 32
  {
    if c <= '9' then c as nat - '0' as nat
    else if c <= 'd' then c as nat - 'a' as nat + 10
    else if c <= 'n' then c as nat - 'f' as nat + 14
    else if c <= 's' then c as nat - 'p' as nat + 23
    else c as nat - 'v' as nat + 27
  }

  lemma LetterAt(c: char)
    requires IsLetter(c)
    ensures |ALPHABET| == 32 && ALPHABET[LetterIndex(c)] == c
  {}

  /** The alphabet has the digits and the lower-case letters but e, o, t and u. */
  lemma AlphabetIs(c: char)
    ensures |ALPHABET| == 32
    ensures c in ALPHABET <==> '0' <= c <= '9' || ('a' <= c <= 'z' && c !in {'e', 'o', 't', 'u'})
  {
    if IsLetter(c) {
      LetterAt(c);
    }
    if c in ALPHABET {
      var k :| 0 <= k < |ALPHABET| && ALPHABET[k] == c;
      LettersOnly(k);
    }
  }

  function Bytes(data: seq<bv8>): (ds: seq<nat>)
    ensures |ds| == |data| && DigitsOf(256, ds)
  {
    seq(|data|, i requires 0 <= i < |data| => data[i] as nat)
  }

  // ---- the five bits picked out of two adjacent bytes ----

  /** The shifts, the disjunction and the mask of the source, on 16-bit words. */
  function Picked(x: bv8, y: bv8, j: nat): bv16
    requires j < 8
  {
    (((x as bv16) >> j) | ((y as bv16) << (8 - j))) & 0x1f
  }

  /** The same in arithmetic: five bits of the two bytes' number, after the lowest `j`. */
  function Joined(x: nat, y: nat, j: nat): nat
    requires j < 8
  {
    Drop(2, x + 256 * y, j) % 32
  }

  lemma Twice(x: bv8)
    ensures (x << 1) as nat == 2 * (x as nat) % 256
  {}

  lemma LowFive(x: bv8)
    ensures (x & 0x1f) as nat == x as nat % 32
  {}

  lemma OneDown(x: bv8, j: nat)
    requires 0 < j < 8
    ensures x >> j == (x >> 1) >> (j - 1)
  {
    match j
    case 1 => assert x >> 1 == (x >> 1) >> 0;
    case 2 => assert x >> 2 == (x >> 1) >> 1;
    case 3 => assert x >> 3 == (x >> 1) >> 2;
    case 4 => assert x >> 4 == (x >> 1) >> 3;
    case 5 => assert x >> 5 == (x >> 1) >> 4;
    case 6 => assert x >> 6 == (x >> 1) >> 5;
    case 7 => assert x >> 7 == (x >> 1) >> 6;
  }

  lemma OneUp(y: bv8, k: nat)
    requires 0 < k <= 8
    ensures y << k == (y << 1) << (k - 1)
  {
    match k
    case 1 => assert y << 1 == (y << 1) << 0;
    case 2 => assert y << 2 == (y << 1) << 1;
    case 3 => assert y << 3 == (y << 1) << 2;
    case 4 => assert y << 4 == (y << 1) << 3;
    case 5 => assert y << 5 == (y << 1) << 4;
    case 6 => assert y << 6 == (y << 1) << 5;
    case 7 => assert y << 7 == (y << 1) << 6;
    case 8 => assert y << 8 == (y << 1) << 7;
  }

  lemma {:induction false} ShiftDown(x: bv8, j: nat)
    requires j < 8
    ensures (x >> j) as nat == Drop(2, x as nat, j)
    decreases j
  {
    if j == 0 {
      assert x >> 0 == x;
    } else {
      OneDown(x, j);
      ShiftDown(x >> 1, j - 1);
    }
  }

  lemma {:induction false} ShiftUp(y: bv8, k: nat)
    requires k <= 8
    ensures (y << k) as nat == y as nat * Pow(2, k) % 256
    decreases k
  {
    if k == 0 {
      assert y << 0 == y;
    } else {
      OneUp(y, k);
      Twice(y);
      ShiftUp(y << 1, k - 1);
      ModTwice(y as nat, Pow(2, k - 1));
    }
  }

  lemma ModTwice(n: nat, p: nat)
    ensures (2 * n % 256) * p % 256 == n * (2 * p) % 256
  {
    var q, r := 2 * n / 256, 2 * n % 256;
    assert n * (2 * p) == (256 * q + r) * p == r * p + 256 * (q * p);
    Multiple(r * p, q * p, 256);
  }

  /** The two shifted bytes contribute different bits. */
  lemma PickedHalves(x: bv8, y: bv8, j: nat)
    requires j < 8
    ensures Picked(x, y, j) == (((x >> j) & 0x1f) | ((y << (8 - j)) & 0x1f)) as bv16
    ensures ((x >> j) & 0x1f) & ((y << (8 - j)) & 0x1f) == 0
  {
    match j
    case 0 => assert Picked(x, y, 0) == (((x >> 0) & 0x1f) | ((y << 8) & 0x1f)) as bv16;
    case 1 => assert Picked(x, y, 1) == (((x >> 1) & 0x1f) | ((y << 7) & 0x1f)) as bv16;
    case 2 => assert Picked(x, y, 2) == (((x >> 2) & 0x1f) | ((y << 6) & 0x1f)) as bv16;
    case 3 => assert Picked(x, y, 3) == (((x >> 3) & 0x1f) | ((y << 5) & 0x1f)) as bv16;
    case 4 => assert Picked(x, y, 4) == (((x >> 4) & 0x1f) | ((y << 4) & 0x1f)) as bv16;
    case 5 => assert Picked(x, y, 5) == (((x >> 5) & 0x1f) | ((y << 3) & 0x1f)) as bv16;
    case 6 => assert Picked(x, y, 6) == (((x >> 6) & 0x1f) | ((y << 2) & 0x1f)) as bv16;
    case 7 => assert Picked(x, y, 7) == (((x >> 7) & 0x1f) | ((y << 1) & 0x1f)) as bv16;
  }

  lemma PickedParts(x: bv8, y: bv8, j: nat)
    requires j < 8
    ensures Picked(x, y, j) as nat == (x >> j) as nat % 32 + (y << (8 - j)) as nat % 32
  {
    PickedHalves(x, y, j);
    LowFive(x >> j);
    LowFive(y << (8 - j));
  }

  lemma Multiple(y: nat, q: nat, d: nat)
    requires d > 0
    ensures (y + d * q) % d == y % d
  {
    assert y + d * q == (y / d + q) * d + y % d;
    DivUnique(y + d * q, d, y / d + q, y % d);
  }

  lemma DivSum(n: nat, p: nat, k: nat)
    requires p > 0
    ensures (n + p * k) / p == n / p + k
  {
    assert n + p * k == (n / p + k) * p + n % p;
    DivUnique(n + p * k, p, n / p + k, n % p);
  }

  /** Five bits of a sum whose parts do not overlap in them. */
  lemma FiveBits(a: nat, b: nat, t: nat, r: nat)
    requires b == 32 * t + r && a + r < 32
    ensures a % 32 + b % 32 == (a + b) % 32
  {}

  lemma FiveBitsBelow(a: nat, y: nat, m: nat)
    ensures a % 32 + y * (32 * m) % 32 == (a + y * (32 * m)) % 32
  {
    assert y * (32 * m) == 0 + 32 * (y * m);
    Multiple(0, y * m, 32);
    Multiple(a, y * m, 32);
  }

  lemma Mod256(n: nat)
    ensures n % 256 % 32 == n % 32
  {}

  lemma SumOfParts(x: nat, y: nat, j: nat, p: nat, q: nat)
    requires p == Pow(2, j) && p * q == 256
    ensures Drop(2, x, j) == x / p && Drop(2, x + 256 * y, j) == x / p + y * q
  {
    DropIsDiv(2, x, j);
    DropIsDiv(2, x + 256 * y, j);
    assert 256 * y == p * (y * q);
    DivSum(x, p, y * q);
  }

  lemma PartsBelow(x: nat, y: nat, j: nat, p: nat, m: nat)
    requires j < 8 && p == Pow(2, j) && p * (32 * m) == 256
    ensures Drop(2, x, j) % 32 + y * (32 * m) % 256 % 32 == Joined(x, y, j)
  {
    SumOfParts(x, y, j, p, 32 * m);
    FiveBitsBelow(x / p, y, m);
    Mod256(y * (32 * m));
  }

  lemma PartsAbove(x: nat, y: nat, j: nat, p: nat, q: nat, t: nat, r: nat)
    requires j < 8 && p == Pow(2, j) && p * q == 256 && y * q == 32 * t + r && x / p + r < 32
    ensures Drop(2, x, j) % 32 + y * q % 256 % 32 == Joined(x, y, j)
  {
    SumOfParts(x, y, j, p, q);
    FiveBits(x / p, y * q, t, r);
    Mod256(y * q);
  }

  lemma PartsJoined(x: nat, y: nat, j: nat)
    requires j < 8 && x < 256
    ensures Drop(2, x, j) % 32 + y * Pow(2, 8 - j) % 256 % 32 == Joined(x, y, j)
  {
    Pow2s();
    match j
    case 0 => PartsBelow(x, y, 0, 1, 8);
    case 1 => PartsBelow(x, y, 1, 2, 4);
    case 2 => PartsBelow(x, y, 2, 4, 2);
    case 3 => PartsBelow(x, y, 3, 8, 1);
    case 4 => PartsAbove(x, y, 4, 16, 16, y / 2, y % 2 * 16);
    case 5 => PartsAbove(x, y, 5, 32, 8, y / 4, y % 4 * 8);
    case 6 => PartsAbove(x, y, 6, 64, 4, y / 8, y % 8 * 4);
    case 7 => PartsAbove(x, y, 7, 128, 2, y / 16, y % 16 * 2);
  }

  lemma PickedJoined(x: bv8, y: bv8, j: nat)
    requires j < 8
    ensures Picked(x, y, j) as nat == Joined(x as nat, y as nat, j)
  {
    PickedParts(x, y, j);
    ShiftDown(x, j);
    ShiftUp(y, 8 - j);
    PutTogether(Picked(x, y, j) as nat, (x >> j) as nat, (y << (8 - j)) as nat, x as nat, y as nat, j);
  }

  lemma PutTogether(picked: nat, down: nat, up: nat, x: nat, y: nat, j: nat)
    requires j < 8 && x < 256 && picked == down % 32 + up % 32
    requires down == Drop(2, x, j) && up == y * Pow(2, 8 - j) % 256
    ensures picked == Joined(x, y, j)
  {
    PartsJoined(x, y, j);
  }

  /** Only the lowest byte of the rest matters. */
  lemma JoinedLow(x: nat, y: nat, r: nat, j: nat)
    requires j < 8
    ensures Joined(x, y + 256 * r, j) == Joined(x, y, j)
  {
    Pow2s();
    match j
    case 0 => HigherBits(x, y, r, 0, 1, 2048 * r);
    case 1 => HigherBits(x, y, r, 1, 2, 1024 * r);
    case 2 => HigherBits(x, y, r, 2, 4, 512 * r);
    case 3 => HigherBits(x, y, r, 3, 8, 256 * r);
    case 4 => HigherBits(x, y, r, 4, 16, 128 * r);
    case 5 => HigherBits(x, y, r, 5, 32, 64 * r);
    case 6 => HigherBits(x, y, r, 6, 64, 32 * r);
    case 7 => HigherBits(x, y, r, 7, 128, 16 * r);
  }

  lemma HigherBits(x: nat, y: nat, r: nat, j: nat, p: nat, k: nat)
    requires j < 8 && p == Pow(2, j) && p * (32 * k) == 65536 * r
    ensures Joined(x, y + 256 * r, j) == Joined(x, y, j)
  {
    var n := x + 256 * y;
    DropIsDiv(2, n, j);
    DropIsDiv(2, n + p * (32 * k), j);
    assert x + 256 * (y + 256 * r) == n + p * (32 * k);
    DivSum(n, p, 32 * k);
    Multiple(n / p, k, 32);
  }

  lemma Pow2s()
    ensures Pow(2, 0) == 1 && Pow(2, 1) == 2 && Pow(2, 2) == 4 && Pow(2, 3) == 8 && Pow(2, 4) == 16
    ensures Pow(2, 5) == 32 && Pow(2, 6) == 64 && Pow(2, 7) == 128 && Pow(2, 8) == 256
  {
    assert Pow(2, 2) == 4 && Pow(2, 4) == 4 * Pow(2, 2) && Pow(2, 6) == 4 * Pow(2, 4) && Pow(2, 8) == 4 * Pow(2, 6);
    assert Pow(2, 3) == 8 && Pow(2, 5) == 4 * Pow(2, 3) && Pow(2, 7) == 4 * Pow(2, 5);
  }

  // ---- the groups are the base-32 digits ----

  lemma {:induction false} PowPow(b: nat, m: nat, n: nat)
    ensures Pow(Pow(b, m), n) == Pow(b, m * n)
    decreases n
  {
    if n > 0 {
      PowPow(b, m, n - 1);
      PowAdd(b, m, m * (n - 1));
      assert m + m * (n - 1) == m * n;
    }
  }

  /** Dropping `n` base-32 digits is dropping `5n / 8` bytes and then `5n % 8` bits. */
  lemma DropBits(number: nat, n: nat)
    ensures Pow(2, 5 * n % 8) > 0 && Drop(32, number, n) == Drop(256, number, 5 * n / 8) / Pow(2, 5 * n % 8)
  {
    var i, j := 5 * n / 8, 5 * n % 8;
    Pow2s();
    PowPow(2, 5, n);
    PowPow(2, 8, i);
    assert 5 * n == 8 * i + j;
    PowAdd(2, 8 * i, j);
    DropIsDiv(32, number, n);
    DropIsDiv(256, number, i);
    PowPositive(2, j);
    DivDiv(number, Pow(256, i), Pow(2, j));
  }

  /** Byte `i`, or nothing past the last one. */
  function ByteAt(bytes: seq<nat>, i: nat): nat {
    if i < |bytes| then bytes[i] else 0
  }

  lemma GroupIsDigit(bytes: seq<nat>, n: nat)
    requires DigitsOf(256, bytes) && 5 * n / 8 < |bytes|
    ensures Drop(32, Val(256, bytes), n) % 32 == Joined(bytes[5 * n / 8], ByteAt(bytes, 5 * n / 8 + 1), 5 * n % 8)
  {
    var i, j := 5 * n / 8, 5 * n % 8;
    DropBits(Val(256, bytes), n);
    DropVal(256, bytes, i);
    var rest := bytes[i..];
    DropIsDiv(2, bytes[i] + 256 * Val(256, rest[1..]), j);
    if i + 1 < |bytes| {
      assert rest[1..][0] == bytes[i + 1];
      JoinedLow(bytes[i], bytes[i + 1], Val(256, rest[1..][1..]), j);
    }
  }

  // ---- the encoder ----

  ghost predicate IsHash(bytes: seq<nat>) {
    |bytes| == 20 && DigitsOf(256, bytes)
  }

  /** The base-32 text of a hash: 32 digits of its number. */
  ghost function Encoded(bytes: seq<nat>): (s: string)
    requires IsHash(bytes)
    ensures |s| == 32
  {
    Numeral(ALPHABET, Val(256, bytes), 32)
  }

  /** The group picked for position `n` is the base-32 digit of weight `n`. */
  lemma PickedIsDigit(data: seq<bv8>, n: nat, i: nat, next: bv8)
    requires |data| == 20 && n < 32 && i == 5 * n / 8
    requires next == if i < 19 then data[i + 1] else 0
    ensures Picked(data[i], next, 5 * n % 8) as nat == Drop(32, Val(256, Bytes(data)), n) % 32
  {
    PickedJoined(data[i], next, 5 * n % 8);
    GroupIsDigit(Bytes(data), n);
  }

  /** The body of the loop: the group may span two adjacent bytes. */
  method PickGroup(data: seq<bv8>, n: nat) returns (group: nat)
    requires |data| == 20 && n < 32
    ensures group == Drop(32, Val(256, Bytes(data)), n) % 32
  {
    var bit := n * 5;
    var i := bit / 8;
    var j := bit % 8;
    var next := if i < |data| - 1 then data[i + 1] else 0;
    var value := Picked(data[i], next, j);
    PickedIsDigit(data, n, i, next);
    group := value as nat;
  }

  /** The loop, for any alphabet of 32 letters. */
  method EncodeGroups(alphabet: string, data: seq<bv8>, len: int) returns (s: string)
    requires |alphabet| == len == 32 && |data| == 20
    ensures s == Numeral(alphabet, Val(256, Bytes(data)), len)
  {
    ghost var number := Val(256, Bytes(data));
    ghost var text := Numeral(alphabet, number, len);
    var encoded: seq<char> := [];
    var n := len - 1;
    while n >= 0
      invariant -1 <= n < len && encoded == text[..len - 1 - n]
    {
      var group := PickGroup(data, n);
      NumeralAt(alphabet, number, len, len - 1 - n);
      encoded := encoded + [alphabet[group]];
      n := n - 1;
    }
    return encoded;
  }

  /** `EncodeNix32`: a descending loop over the five-bit groups of the bytes. */
  method EncodeNix32(data: seq<bv8>) returns (s: string)
    requires |data| == 20
    ensures s == Encoded(Bytes(data))
  {
    s := EncodeGroups(ALPHABET, data, 32);
  }

  /** Character `k` of an encoded hash is the base-32 digit of weight `31 - k`. */
  lemma CharacterIsDigit(bytes: seq<nat>, k: nat)
    requires IsHash(bytes) && k < 32
    ensures Pow(32, 31 - k) > 0
    ensures Encoded(bytes)[k] == ALPHABET[Val(256, bytes) / Pow(32, 31 - k) % 32]
  {
    NumeralAt(ALPHABET, Val(256, bytes), 32, k);
  }

  // ---- a decoder undoes it ----

  /** Reads a base-32 text back into bytes. */
  function Decoded(s: string): Option<seq<nat>> {
    match DigitsOfText(ALPHABET, s)
    case None => None
    case Some(ds) => if |s| == 32 then Some(Digits(256, Val(32, ds), 20)) else None
  }

  lemma AlphabetAscends()
    ensures Ascending(ALPHABET)
  {
    forall k | 0 < k < 32 ensures ALPHABET[k - 1] < ALPHABET[k] {}
    forall i, j | 0 <= i < j < 32 ensures ALPHABET[i] < ALPHABET[j] {
      Ascends(ALPHABET, i, j);
    }
  }

  lemma {:induction false} Ascends(s: string, i: nat, j: nat)
    requires i < j < |s| && forall k | 0 < k < |s| :: s[k - 1] < s[k]
    ensures s[i] < s[j]
    decreases j
  {
    if i + 1 < j {
      Ascends(s, i, j - 1);
    }
  }

  /** 32 base-32 digits and 20 bytes hold the same numbers. */
  lemma SameRange(bytes: seq<nat>, len: nat)
    requires |bytes| == 20 && len == 32
    ensures Pow(32, len) == Pow(256, |bytes|)
  {
    Pow2s();
    PowPow(2, 5, len);
    PowPow(2, 8, |bytes|);
  }

  lemma NumberInRange(bytes: seq<nat>, len: nat)
    requires IsHash(bytes) && len == 32
    ensures Val(256, bytes) < Pow(32, len)
  {
    ValBound(256, bytes);
    SameRange(bytes, len);
  }

  /** Decoding an encoded hash gives the hash back. */
  lemma DecodeEncoded(bytes: seq<nat>)
    requires IsHash(bytes)
    ensures Decoded(Encoded(bytes)) == Some(bytes)
  {
    var n := Val(256, bytes);
    AlphabetAscends();
    ReadNumeral(ALPHABET, n, 32);
    NumberInRange(bytes, 32);
    ValDigits(32, n, 32);
    DigitsVal(256, bytes);
  }

  /** Every text of 32 alphabet characters decodes, and encodes to itself again: with
      `DecodeEncoded`, encoding is a bijection onto these texts. */
  lemma EncodeDecoded(s: string)
    requires |s| == 32 && forall k | 0 <= k < |s| :: s[k] in ALPHABET
    ensures Decoded(s).Some? && IsHash(Decoded(s).value) && Encoded(Decoded(s).value) == s
  {
    WriteNumeral(ALPHABET, s);
    var ds := DigitsOfText(ALPHABET, s).value;
    ValBound(32, ds);
    SameRange(Decoded(s).value, |ds|);
    ValDigits(256, Val(32, ds), 20);
  }

  /** Encoded hashes sort as the numbers they denote. */
  lemma EncodedOrder(a: seq<nat>, b: seq<nat>)
    requires IsHash(a) && IsHash(b)
    ensures Less(Encoded(a), Encoded(b)) <==> Val(256, a) < Val(256, b)
  {
    AlphabetAscends();
    NumberInRange(a, 32);
    NumberInRange(b, 32);
    NumeralOrder(ALPHABET, Val(256, a), Val(256, b), 32);
  }
}
