/**
 The claim code, in terms of its own: which character stands for which value,
 which bits of the secret each character carries, and how the groups are laid
 out. Nothing here is stated through the encoder's tables or numerals.
 */
module CrockfordReference {
  import opened Common
  import opened Digits
  import opened Crockford

  // ---- Characters ----

  /** `I`, `L`, `O` and `U` are left out of the letters. */
  predicate Admitted(u: int) { 65 <= u <= 90 && u != 73 && u != 76 && u != 79 && u != 85 }

  /** How many of the left-out letters come before the code point `u`. */
  function LeftOutBefore(u: int): nat {
    (if u > 73 then 1 else 0) + (if u > 76 then 1 else 0) + (if u > 79 then 1 else 0) + (if u > 85 then 1 else 0)
  }

  /** The code point of the character that stands for `v`. */
  function CodePoint(v: nat): int
    requires v < 32
  {
    if v < 10 then 48 + v
    else if v < 18 then 55 + v
    else if v < 20 then 56 + v
    else if v < 22 then 57 + v
    else if v < 27 then 58 + v
    else 59 + v
  }

  lemma AlphabetIs(v: nat)
    requires v < 32
    ensures ALPHABET[v] as int == CodePoint(v)
  {
    if v < 8 {
    } else if v < 16 {
    } else if v < 24 {
    } else {
    }
  }

  /** A printed character is a digit or an admitted letter, in order. */
  lemma CodePointIs(v: nat)
    requires v < 32
    ensures var u := CodePoint(v);
            if v < 10 then 48 <= u <= 57 && v == u - 48 else Admitted(u) && v == u - 55 - LeftOutBefore(u)
  {}

  lemma AdmittedIsPrinted(u: int)
    requires Admitted(u)
    ensures u - 55 - LeftOutBefore(u) < 32 && CodePoint(u - 55 - LeftOutBefore(u)) == u
  {}

  /** What a printed character may be: exactly the digits and the capital letters without I, L, O and U. */
  lemma AlphabetMembers(c: char)
    ensures c in ALPHABET <==> '0' <= c <= '9' || ('A' <= c <= 'Z' && c !in "ILOU")
  {
    if '0' <= c <= '9' {
      AlphabetIs(c as int - 48);
      assert ALPHABET[c as int - 48] == c;
    }
    if Admitted(c as int) {
      var v := c as int - 55 - LeftOutBefore(c as int);
      AdmittedIsPrinted(c as int);
      AlphabetIs(v);
      assert ALPHABET[v] == c;
    }
    if c in ALPHABET {
      var v :| 0 <= v < 32 && ALPHABET[v] == c;
      AlphabetIs(v);
      CodePointIs(v);
    }
  }

  /** What the printed character with code point `u` stands for. */
  function StandsFor(u: int): Option<nat> {
    if 48 <= u <= 57 then Some(u - 48)
    else if Admitted(u) then Some(u - 55 - LeftOutBefore(u))
    else None
  }

  /** The value a typed character stands for: lower case counts as upper case, `O` as 0, `I` and `L` as 1. */
  function TypedValue(c: char): Option<nat> {
    var u := if 97 <= c as int <= 122 then c as int - 32 else c as int;
    if u == 79 then Some(0)
    else if u == 73 || u == 76 then Some(1)
    else StandsFor(u)
  }

  lemma PrintedValue(c: char, v: nat)
    requires v < 32 && c as int == CodePoint(v)
    ensures Position(ALPHABET, c) == Some(v)
  {
    AlphabetIs(v);
    AlphabetPosition(v);
  }

  lemma PositionIs(c: char)
    ensures Position(ALPHABET, c) == StandsFor(c as int)
  {
    var u := c as int;
    if 48 <= u <= 57 {
      PrintedValue(c, u - 48);
    } else if Admitted(u) {
      AdmittedIsPrinted(u);
      PrintedValue(c, u - 55 - LeftOutBefore(u));
    } else {
      NotPrinted(c);
    }
  }

  lemma NotPrinted(c: char)
    requires !('0' <= c <= '9') && !Admitted(c as int)
    ensures Position(ALPHABET, c).None?
  {
    AlphabetMembers(c);
  }

  /** The decoder's table, for every character there is. */
  lemma SymbolValueIs(c: char)
    ensures SymbolValue(c) == TypedValue(c)
  {
    PositionIs(ToAsciiUppercase(c));
  }

  /** What the decoder skips: the dash, and the characters with the Unicode property White_Space. */
  lemma SeparatorIs(c: char)
    ensures Separator(c) <==>
      || c == '-'
      || c as int in {9, 10, 11, 12, 13, 32, 133, 160, 5760, 8192, 8193, 8194, 8195, 8196, 8197, 8198, 8199, 8200,
                      8201, 8202, 8232, 8233, 8239, 8287, 12288}
  {}

  /** Skipping keeps every other character, in order. */
  lemma CleanedIs(x: string, c: char, y: string)
    ensures Cleaned("") == ""
    ensures Cleaned(x + [c] + y) == Cleaned(x) + (if Separator(c) then "" else [c]) + Cleaned(y)
  {
    CleanedConcat(x + [c], y);
    CleanedConcat(x, [c]);
    assert [c][1..] == "";
  }

  // ---- Layout ----

  /** Five groups of five, five, five, five and six characters with a dash between them. */
  lemma DisplayLayout(secret: Array16)
    ensures var d, e := Displayed(secret), Encoded(secret);
            && |d| == 30 && |e| == 26
            && d[0..5] == e[0..5] && d[5] == '-' && d[6..11] == e[5..10] && d[11] == '-' && d[12..17] == e[10..15]
            && d[17] == '-' && d[18..23] == e[15..20] && d[23] == '-' && d[24..30] == e[20..26]
  {}

  // ---- Bits ----

  /** Bit `m` of `n`, the lowest being bit 0. */
  function BitAt(n: nat, m: nat): nat {
    if m == 0 then n % 2 else BitAt(n / 2, m - 1)
  }

  /** Bit `k` of the secret in reading order: the highest bit of its first byte is bit 0; after the last come zeros. */
  function SecretBit(secret: Array16, k: nat): nat {
    if k < 128 then BitAt(secret[k / 8] as nat, 7 - k % 8) else 0
  }

  lemma {:induction false} PowPositive(b: nat, n: nat)
    requires b > 0
    ensures Pow(b, n) > 0
  {
    if n > 0 { PowPositive(b, n - 1); }
  }

  lemma Positive(a: nat, b: nat)
    requires a > 0 && b > 0
    ensures a * b > 0
  {}

  lemma Regroup(a: nat, b: nat, q: nat, r: nat, s: nat)
    ensures a * (b * q + s) + r == q * (a * b) + (a * s + r)
  {
    assert a * (b * q) == q * (a * b);
  }

  lemma DivDiv(n: nat, a: nat, b: nat)
    requires a > 0 && b > 0
    ensures a * b > 0 && n / a / b == n / (a * b)
  {
    DivModBounds(n, a);
    DivModBounds(n / a, b);
    var q, r, s := n / a / b, n % a, n / a % b;
    Positive(a, b);
    Regroup(a, b, q, r, s);
    MulAddBelow(a, s, r, b);
    DivModOf(q, a * s + r, a * b);
  }

  lemma PowPow(b: nat, c: nat, e: nat, n: nat)
    requires c == Pow(b, e)
    ensures Pow(c, n) == Pow(b, e * n)
    decreases n
  {
    if n == 0 {
    } else {
      PowPow(b, c, e, n - 1);
      PowAdd(b, e, e * (n - 1));
      assert e + e * (n - 1) == e * n;
    }
  }

  /** The digit at position `i` of a numeral. */
  lemma {:induction false} NumeralAt(n: nat, b: nat, len: nat, i: nat)
    requires b > 0 && i < len
    ensures Pow(b, len - 1 - i) > 0 && Numeral(n, b, len)[i] == n / Pow(b, len - 1 - i) % b
    decreases len
  {
    PowPositive(b, len - 1 - i);
    if i < len - 1 {
      NumeralAt(n / b, b, len - 1, i);
      PowPositive(b, len - 2 - i);
      DivDiv(n, b, Pow(b, len - 2 - i));
    }
  }

  /** `n` without its lowest `m` bits. */
  function Dropped(n: nat, m: nat): nat
    decreases m
  {
    if m == 0 then n else Dropped(n / 2, m - 1)
  }

  lemma {:induction false} DroppedIs(n: nat, m: nat)
    ensures Pow(2, m) > 0 && Dropped(n, m) == n / Pow(2, m)
    decreases m
  {
    PowPositive(2, m);
    if m > 0 {
      DroppedIs(n / 2, m - 1);
      DivDiv(n, 2, Pow(2, m - 1));
    }
  }

  lemma {:induction false} BitAbove(n: nat, m: nat, r: nat)
    ensures BitAt(n, m + r) == BitAt(Dropped(n, m), r)
    decreases m
  {
    if m > 0 { BitAbove(n / 2, m - 1, r); }
  }

  /** Padding with two zero bits. */
  lemma PaddedBit(n: nat, m: nat)
    ensures BitAt(4 * n, m) == if m < 2 then 0 else BitAt(n, m - 2)
  {
    assert 4 * n / 2 == 2 * n && 2 * n / 2 == n;
  }

  lemma HalfOf(p: nat, q: nat, z: nat)
    ensures (2 * p * q + z) / 2 == p * q + z / 2 && (2 * p * q + z) % 2 == z % 2
  {
    var w := p * q;
    assert 2 * p * q == 2 * w;
  }

  /** What lies above the lowest `e` bits does not matter to them. */
  lemma {:induction false} BitOfLow(q: nat, z: nat, e: nat, r: nat)
    requires r < e
    ensures BitAt(Pow(2, e) * q + z, r) == BitAt(z, r)
    decreases r
  {
    var n, p := Pow(2, e) * q + z, Pow(2, e - 1);
    assert n == 2 * p * q + z;
    HalfOf(p, q, z);
    if r > 0 { BitOfLow(q, z / 2, e - 1, r - 1); }
  }

  lemma BitOfLowByte(y: nat, r: nat)
    requires r < 8
    ensures BitAt(y, r) == BitAt(y % 256, r)
  {
    assert Pow(2, 8) == 256;
    DivModBounds(y, 256);
    BitOfLow(y / 256, y % 256, 8, r);
  }

  lemma ByteOfNumber(secret: Array16, q: nat)
    requires q < 16
    ensures Dropped(Value(Nats(secret), 256), 8 * q) % 256 == secret[15 - q] as nat
  {
    assert Pow(2, 8) == 256;
    PowPow(2, 256, 8, q);
    DroppedIs(Value(Nats(secret), 256), 8 * q);
    NumeralOfValue(Nats(secret), 256);
    NumeralAt(Value(Nats(secret), 256), 256, 16, 15 - q);
  }

  /** The bits of the secret's number are the bits of its bytes. */
  lemma NumberBit(secret: Array16, k: nat)
    requires k < 128
    ensures BitAt(Value(Nats(secret), 256), 127 - k) == SecretBit(secret, k)
  {
    var n, q, r := Value(Nats(secret), 256), 15 - k / 8, 7 - k % 8;
    assert 127 - k == 8 * q + r;
    ByteOfNumber(secret, q);
    BitAbove(n, 8 * q, r);
    BitOfLowByte(Dropped(n, 8 * q), r);
  }

  lemma FiveHalvings(x: nat, h: seq<nat>, b: seq<nat>)
    requires |h| == |b| == 5
    requires x == 2 * h[0] + b[0] && h[0] == 2 * h[1] + b[1] && h[1] == 2 * h[2] + b[2]
    requires h[2] == 2 * h[3] + b[3] && h[3] == 2 * h[4] + b[4]
    requires b[0] < 2 && b[1] < 2 && b[2] < 2 && b[3] < 2 && b[4] < 2
    ensures x % 32 == 16 * b[4] + 8 * b[3] + 4 * b[2] + 2 * b[1] + b[0]
  {
    assert x == 32 * h[4] + (16 * b[4] + 8 * b[3] + 4 * b[2] + 2 * b[1] + b[0]);
  }

  /** The number that five bits spell, the first the highest. */
  function Spelled(b0: nat, b1: nat, b2: nat, b3: nat, b4: nat): nat { 16 * b0 + 8 * b1 + 4 * b2 + 2 * b3 + b4 }

  lemma Halving(x: nat, r: nat)
    ensures x == 2 * (x / 2) + BitAt(x, 0) && BitAt(x, 0) < 2 && BitAt(x, r + 1) == BitAt(x / 2, r)
  {}

  lemma FiveBits(x: nat, h: seq<nat>)
    requires |h| == 5 && h[0] == x / 2 && h[1] == h[0] / 2 && h[2] == h[1] / 2 && h[3] == h[2] / 2 && h[4] == h[3] / 2
    ensures x % 32 == Spelled(BitAt(h[3], 0), BitAt(h[2], 0), BitAt(h[1], 0), BitAt(h[0], 0), BitAt(x, 0))
  {
    Halving(x, 0);
    Halving(h[0], 0);
    Halving(h[1], 0);
    Halving(h[2], 0);
    Halving(h[3], 0);
    FiveHalvings(x, h, [BitAt(x, 0), BitAt(h[0], 0), BitAt(h[1], 0), BitAt(h[2], 0), BitAt(h[3], 0)]);
  }

  lemma HigherBits(x: nat, h: seq<nat>)
    requires |h| == 5 && h[0] == x / 2 && h[1] == h[0] / 2 && h[2] == h[1] / 2 && h[3] == h[2] / 2
    ensures BitAt(x, 1) == BitAt(h[0], 0) && BitAt(x, 2) == BitAt(h[1], 0)
    ensures BitAt(x, 3) == BitAt(h[2], 0) && BitAt(x, 4) == BitAt(h[3], 0)
  {
    assert BitAt(h[2], 1) == BitAt(h[3], 0);
    assert BitAt(h[1], 1) == BitAt(h[2], 0) && BitAt(h[1], 2) == BitAt(h[2], 1);
    assert BitAt(h[0], 1) == BitAt(h[1], 0) && BitAt(h[0], 2) == BitAt(h[1], 1) && BitAt(h[0], 3) == BitAt(h[1], 2);
  }

  lemma LowFiveBits(x: nat)
    ensures x % 32 == Spelled(BitAt(x, 4), BitAt(x, 3), BitAt(x, 2), BitAt(x, 1), BitAt(x, 0))
  {
    var h := [x / 2, x / 2 / 2, x / 2 / 2 / 2, x / 2 / 2 / 2 / 2, x / 2 / 2 / 2 / 2 / 2];
    HigherBits(x, h);
    FiveBits(x, h);
  }

  lemma SymbolAt(n: nat, i: nat)
    requires i < 26
    ensures Numeral(n, 32, 26)[i] == Dropped(n, 125 - 5 * i) % 32
  {
    assert Pow(2, 5) == 32;
    PowPow(2, 32, 5, 25 - i);
    DroppedIs(n, 125 - 5 * i);
    NumeralAt(n, 32, 26, i);
  }

  /** A symbol's value is five bits of the padded number. */
  lemma SymbolBits(n: nat, i: nat)
    requires i < 26
    ensures Numeral(n, 32, 26)[i] ==
      Spelled(BitAt(n, 129 - 5 * i), BitAt(n, 128 - 5 * i), BitAt(n, 127 - 5 * i),
              BitAt(n, 126 - 5 * i), BitAt(n, 125 - 5 * i))
  {
    var m := 125 - 5 * i;
    SymbolAt(n, i);
    LowFiveBits(Dropped(n, m));
    BitAbove(n, m, 4);
    BitAbove(n, m, 3);
    BitAbove(n, m, 2);
    BitAbove(n, m, 1);
    BitAbove(n, m, 0);
  }

  lemma PaddedNumberBit(secret: Array16, k: nat)
    requires k < 130
    ensures BitAt(4 * Value(Nats(secret), 256), 129 - k) == SecretBit(secret, k)
  {
    PaddedBit(Value(Nats(secret), 256), 129 - k);
    if k < 128 { NumberBit(secret, k); }
  }

  lemma SymbolOfSecret(secret: Array16, i: nat)
    requires i < 26
    ensures Numeral(4 * Value(Nats(secret), 256), 32, 26)[i] ==
      Spelled(SecretBit(secret, 5 * i), SecretBit(secret, 5 * i + 1), SecretBit(secret, 5 * i + 2),
              SecretBit(secret, 5 * i + 3), SecretBit(secret, 5 * i + 4))
  {
    SymbolBits(4 * Value(Nats(secret), 256), i);
    PaddedNumberBit(secret, 5 * i);
    PaddedNumberBit(secret, 5 * i + 1);
    PaddedNumberBit(secret, 5 * i + 2);
    PaddedNumberBit(secret, 5 * i + 3);
    PaddedNumberBit(secret, 5 * i + 4);
  }

  /**
   The code, bit by bit: the i-th symbol carries bits 5i to 5i + 4 of the
   secret, the first of them highest, and zeros past the 128th bit.
   */
  lemma EncodedBits(secret: Array16, i: nat)
    requires i < 26
    ensures TypedValue(Encoded(secret)[i]) == Some(
      16 * SecretBit(secret, 5 * i) + 8 * SecretBit(secret, 5 * i + 1) + 4 * SecretBit(secret, 5 * i + 2)
      + 2 * SecretBit(secret, 5 * i + 3) + SecretBit(secret, 5 * i + 4))
  {
    SymbolOfSecret(secret, i);
    EncodedSymbol(secret, i);
  }

  lemma EncodedSymbol(secret: Array16, i: nat)
    requires i < 26
    ensures TypedValue(Encoded(secret)[i]) == Some(Numeral(4 * Value(Nats(secret), 256), 32, 26)[i])
  {
    PrintedSymbolReadsBack(Numeral(4 * Value(Nats(secret), 256), 32, 26)[i]);
    SymbolValueIs(Encoded(secret)[i]);
  }
}
