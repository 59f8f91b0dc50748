/**
 The claim secret's Crockford Base32 text: the encoder, the decoder, and the
 proof that decoding undoes encoding for every 16-byte secret.

 A 16-byte secret is the base-256 numeral of a 128-bit number. Its text is the
 base-32 numeral of the same number shifted left by two (the last symbol's
 zero padding). Both loops run over a 32-bit accumulator whose high bits are
 lost; each loop invariant ties only its low `bitsInBuffer` bits to the number.
 */
module Crockford {
  import opened Common
  import opened Digits
  import opened Word32

  const SECRET_LEN := 16
  const ENCODED_LEN := 26
  const ALPHABET := "0123456789ABCDEFGHJKMNPQRSTVWXYZ"

  // ---- Characters ----

  function ToAsciiUppercase(c: char): char {
    if 'a' <= c <= 'z' then (c as int - 32) as char else c
  }

  /** Rust's `char::is_whitespace`: the Unicode property White_Space. */
  predicate IsWhitespace(c: char) {
    var u := c as int;
    || 0x09 <= u <= 0x0D || u == 0x20 || u == 0x85 || u == 0xA0 || u == 0x1680
    || 0x2000 <= u <= 0x200A || u == 0x2028 || u == 0x2029 || u == 0x202F || u == 0x205F || u == 0x3000
  }

  lemma FirstIndex(s: string, c: char) returns (i: nat)
    requires c in s
    ensures i < |s| && s[i] == c && c !in s[..i]
  {
    if s[0] == c {
      i := 0;
    } else {
      assert s == [s[0]] + s[1..];
      var j := FirstIndex(s[1..], c);
      i := j + 1;
      assert s[..i] == [s[0]] + s[1..][..j];
    }
  }

  lemma FirstExists(s: string, c: char)
    requires c in s
    ensures exists i :: 0 <= i < |s| && s[i] == c && c !in s[..i]
  {
    var i := FirstIndex(s, c);
  }

  /** The first position of `c` in `s`. */
  function Position(s: string, c: char): (r: Option<nat>)
    ensures r.Some? <==> c in s
    ensures r.Some? ==> r.value < |s| && s[r.value] == c && c !in s[..r.value]
  {
    if c !in s then None
    else
      FirstExists(s, c);
      assert forall i, j :: 0 <= i < j < |s| && s[i] == c ==> c == s[..j][i];
      var i :| 0 <= i < |s| && s[i] == c && c !in s[..i];
      Some(i)
  }

  /** The value of one typed character; `O`, `I` and `L` read as the digits they resemble. */
  function SymbolValue(c: char): (r: Option<nat>)
    ensures r.Some? ==> r.value < 32
  {
    var upper := ToAsciiUppercase(c);
    if upper == 'O' then Some(0)
    else if upper == 'I' || upper == 'L' then Some(1)
    else Position(ALPHABET, upper)
  }

  predicate Separator(c: char) { IsWhitespace(c) || c == '-' }

  lemma AlphabetStep(k: nat)
    requires k < 31
    ensures ALPHABET[k] < ALPHABET[k + 1]
  {
    if k < 8 {
    } else if k < 16 {
    } else if k < 24 {
    } else {
    }
  }

  lemma {:induction false} AlphabetAscends(i: nat, j: nat)
    requires i < j < 32
    ensures ALPHABET[i] < ALPHABET[j]
  {
    AlphabetStep(j - 1);
    if j - i > 1 { AlphabetAscends(i, j - 1); }
  }

  lemma AlphabetLetters(v: nat)
    requires v < 32
    ensures '0' <= ALPHABET[v] <= '9' || 'A' <= ALPHABET[v] <= 'Z'
    ensures ALPHABET[v] != 'I' && ALPHABET[v] != 'L' && ALPHABET[v] != 'O'
  {
    if v < 8 {
    } else if v < 16 {
    } else if v < 24 {
    } else {
    }
  }

  lemma AlphabetPosition(v: nat)
    requires v < 32
    ensures Position(ALPHABET, ALPHABET[v]) == Some(v)
  {
    var c := ALPHABET[v];
    var p := Position(ALPHABET, c).value;
    if p < v { AlphabetAscends(p, v); }
    if v < p { AlphabetAscends(v, p); }
  }

  /** Every symbol the encoder can print reads back as its own value and is no separator. */
  lemma PrintedSymbolReadsBack(v: nat)
    requires v < 32
    ensures SymbolValue(ALPHABET[v]) == Some(v) && !Separator(ALPHABET[v])
  {
    AlphabetLetters(v);
    AlphabetPosition(v);
  }

  // ---- Digit strings ----

  function Nats(bytes: Bytes): (r: seq<nat>)
    ensures |r| == |bytes| && InBase(r, 256)
  {
    seq(|bytes|, i requires 0 <= i < |bytes| => bytes[i] as nat)
  }

  function BytesOf(digits: seq<nat>): (r: Bytes)
    requires InBase(digits, 256)
    ensures |r| == |digits| && Nats(r) == digits
  {
    seq(|digits|, i requires 0 <= i < |digits| => digits[i] as byte)
  }

  function Symbols(digits: seq<nat>): (r: string)
    requires InBase(digits, 32)
    ensures |r| == |digits|
  {
    seq(|digits|, i requires 0 <= i < |digits| => ALPHABET[digits[i]])
  }

  predicate AllSymbols(text: string) {
    forall i :: 0 <= i < |text| ==> SymbolValue(text[i]).Some?
  }

  function SymbolValues(text: string): (r: seq<nat>)
    requires AllSymbols(text)
    ensures |r| == |text| && InBase(r, 32)
  {
    seq(|text|, i requires 0 <= i < |text| => SymbolValue(text[i]).value)
  }

  // ---- What the two directions compute ----

  /** The 26 symbols of a secret: its 128 bits followed by two zero bits. */
  function Encoded(secret: Array16): (r: string)
    ensures |r| == ENCODED_LEN
  {
    Symbols(Numeral(4 * Value(Nats(secret), 256), 32, ENCODED_LEN))
  }

  /** The five dash-separated groups shown to a person. */
  function Displayed(secret: Array16): string {
    var raw := Encoded(secret);
    raw[0..5] + "-" + raw[5..10] + "-" + raw[10..15] + "-" + raw[15..20] + "-" + raw[20..26]
  }

  /** The input without separators. */
  function Cleaned(input: string): string {
    if input == "" then ""
    else (if Separator(input[0]) then "" else [input[0]]) + Cleaned(input[1..])
  }

  predicate Acceptable(input: string) {
    |Cleaned(input)| == ENCODED_LEN && AllSymbols(Cleaned(input))
  }

  /** The secret an input stands for: its 130 bits without the two lowest. */
  function Decoded(input: string): Option<Array16> {
    if !Acceptable(input) then None
    else
      var digits := Numeral(Value(SymbolValues(Cleaned(input)), 32) / 4, 256, SECRET_LEN);
      Some(BytesOf(digits))
  }

  // ---- Repacking bits, in either direction ----

  /**
   The invariant of both loops: the digits read so far are the digits written
   so far followed by the low `bits` bits of the accumulator.
   */
  ghost predicate Repacking(read: seq<nat>, readBase: nat, written: seq<nat>, writeBase: nat, buffer: u32, bits: nat) {
    && InBase(read, readBase) && InBase(written, writeBase)
    && Value(read, readBase) == Cat(Value(written, writeBase), buffer, bits)
  }

  lemma ReadDigit(read: seq<nat>, readBase: nat, written: seq<nat>, writeBase: nat,
                  buffer: u32, bits: nat, n: nat, d: nat)
    requires Repacking(read, readBase, written, writeBase, buffer, bits)
    requires ShiftAmount(n, readBase) && d < readBase && bits + n <= 32
    ensures Or(Shl(buffer, n), d) < WORD
    ensures Repacking(read + [d], readBase, written, writeBase, Or(Shl(buffer, n), d), bits + n)
  {
    ValueSnoc(read, d, readBase);
    ShiftIn(Value(written, writeBase), buffer, bits, d, n, readBase);
  }

  lemma WriteDigit(read: seq<nat>, readBase: nat, written: seq<nat>, writeBase: nat, buffer: u32, bits: nat, n: nat)
    requires bits < 32 && ShiftAmount(n, writeBase)
    requires Repacking(read, readBase, written, writeBase, buffer, bits + n)
    ensures Repacking(read, readBase, written + [And(Shr(buffer, bits), writeBase - 1)], writeBase, buffer, bits)
  {
    ValueSnoc(written, And(Shr(buffer, bits), writeBase - 1), writeBase);
    TakeOut(Value(written, writeBase), buffer, bits, n, writeBase);
  }

  // ---- The encoder ----

  lemma SymbolsSnoc(digits: seq<nat>, d: nat)
    requires InBase(digits, 32) && d < 32
    ensures InBase(digits + [d], 32) && Symbols(digits + [d]) == Symbols(digits) + [ALPHABET[d]]
  {}

  lemma NatsSnoc(bytes: Bytes, i: nat)
    requires i < |bytes|
    ensures Nats(bytes[..i + 1]) == Nats(bytes[..i]) + [bytes[i] as nat]
  {}

  method EncodeCrockford(bytes: Array16) returns (output: string)
    ensures output == Encoded(bytes)
  {
    output := "";
    var buffer: u32 := 0;
    var bitsInBuffer := 0;
    ghost var digits: seq<nat> := [];
    for i := 0 to 16
      invariant 0 <= bitsInBuffer < 5 && 5 * |digits| + bitsInBuffer == 8 * i
      invariant Repacking(Nats(bytes[..i]), 256, digits, 32, buffer, bitsInBuffer)
      invariant output == Symbols(digits)
    {
      NatsSnoc(bytes, i);
      ReadDigit(Nats(bytes[..i]), 256, digits, 32, buffer, bitsInBuffer, 8, bytes[i] as nat);
      buffer := Or(Shl(buffer, 8), bytes[i] as nat);
      bitsInBuffer := bitsInBuffer + 8;
      while bitsInBuffer >= 5
        invariant 0 <= bitsInBuffer <= 12 && 5 * |digits| + bitsInBuffer == 8 * (i + 1)
        invariant Repacking(Nats(bytes[..i + 1]), 256, digits, 32, buffer, bitsInBuffer)
        invariant output == Symbols(digits)
      {
        bitsInBuffer := bitsInBuffer - 5;
        var index := And(Shr(buffer, bitsInBuffer), 0x1F);
        output := output + [ALPHABET[index]];
        WriteDigit(Nats(bytes[..i + 1]), 256, digits, 32, buffer, bitsInBuffer, 5);
        SymbolsSnoc(digits, index);
        digits := digits + [index];
      }
    }
    assert bytes[..16] == bytes;
    if bitsInBuffer > 0 {
      var index := And(Shl(buffer, 5 - bitsInBuffer), 0x1F);
      output := output + [ALPHABET[index]];
      LastSymbol(Nats(bytes), digits, buffer);
      SymbolsSnoc(digits, index);
      digits := digits + [index];
    }
    SymbolsOfSecret(bytes, digits);
  }

  lemma SymbolsOfSecret(secret: Array16, digits: seq<nat>)
    requires InBase(digits, 32) && |digits| == ENCODED_LEN && Value(digits, 32) == 4 * Value(Nats(secret), 256)
    ensures Symbols(digits) == Encoded(secret)
  {
    NumeralOfValue(digits, 32);
  }

  /** The final partial symbol carries three bits and two zeros. */
  lemma LastSymbol(read: seq<nat>, digits: seq<nat>, buffer: u32)
    requires Repacking(read, 256, digits, 32, buffer, 3)
    ensures InBase(digits + [And(Shl(buffer, 2), 0x1F)], 32)
    ensures Value(digits + [And(Shl(buffer, 2), 0x1F)], 32) == 4 * Value(read, 256)
  {
    var v, padded := Value(digits, 32), Shl(buffer, 2);
    ShiftIn(v, buffer, 3, 0, 2, 4);
    OrZero(padded);
    DoubledIs(1, 5, 32);
    DoubledIs(v, 5, 32);
    CatMask(v, padded, 5, 0x1F);
    ValueSnoc(digits, And(padded, 0x1F), 32);
  }

  method EncodeDisplay(secret: Array16) returns (text: string)
    ensures text == Displayed(secret)
  {
    var raw := EncodeCrockford(secret);
    text := raw[0..5] + "-" + raw[5..10] + "-" + raw[10..15] + "-" + raw[15..20] + "-" + raw[20..26];
  }

  // ---- The decoder ----

  lemma BytesSnoc(out: Bytes, b: byte)
    ensures Nats(out + [b]) == Nats(out) + [b as nat]
  {}

  lemma SymbolValuesSnoc(text: string, i: nat)
    requires i < |text| && AllSymbols(text[..i]) && SymbolValue(text[i]).Some?
    ensures AllSymbols(text[..i + 1])
    ensures SymbolValues(text[..i + 1]) == SymbolValues(text[..i]) + [SymbolValue(text[i]).value]
  {
    var longer := text[..i + 1];
    assert longer == text[..i] + [text[i]];
    assert forall j :: 0 <= j < i ==> longer[j] == text[..i][j];
  }

  /** After `i` symbols: their bits are those of the bytes written and the low bits of the accumulator. */
  ghost predicate DecodedSoFar(text: string, i: nat, out: Bytes, buffer: u32, bits: nat) {
    && i <= |text| && bits < 8 && 5 * i == 8 * |out| + bits && AllSymbols(text[..i])
    && Repacking(SymbolValues(text[..i]), 32, Nats(out), 256, buffer, bits)
  }

  /** Shift `n` bits of `d` into the accumulator. */
  method ShiftDigitIn(ghost read: seq<nat>, ghost readBase: nat, ghost written: seq<nat>, ghost writeBase: nat,
                      buffer: u32, ghost bits: nat, n: nat, d: nat)
    returns (shifted: u32)
    requires Repacking(read, readBase, written, writeBase, buffer, bits)
    requires ShiftAmount(n, readBase) && d < readBase && bits + n <= 32
    ensures Repacking(read + [d], readBase, written, writeBase, shifted, bits + n)
  {
    ReadDigit(read, readBase, written, writeBase, buffer, bits, n, d);
    shifted := Or(Shl(buffer, n), d);
  }

  /** Take the byte above the low `bits` bits out of the accumulator. */
  method TakeByteOut(ghost read: seq<nat>, out: Bytes, buffer: u32, bits: nat) returns (longer: Bytes)
    requires bits < 8 && Repacking(read, 32, Nats(out), 256, buffer, bits + 8)
    ensures |longer| == |out| + 1 && longer[..|out|] == out
    ensures Repacking(read, 32, Nats(longer), 256, buffer, bits)
  {
    WriteDigit(read, 32, Nats(out), 256, buffer, bits, 8);
    var b := And(Shr(buffer, bits), 0xFF) as byte;
    BytesSnoc(out, b);
    longer := out + [b];
  }

  /** One turn of the loop: a symbol is read, and a byte written if it completes one. */
  method PushSymbol(ghost text: string, ghost i: nat, buffer: u32, bitsInBuffer: nat, out: Bytes, value: nat)
    returns (buffer': u32, bitsInBuffer': nat, out': Bytes)
    requires DecodedSoFar(text, i, out, buffer, bitsInBuffer) && i < |text| && SymbolValue(text[i]) == Some(value)
    ensures DecodedSoFar(text, i + 1, out', buffer', bitsInBuffer')
  {
    SymbolValuesSnoc(text, i);
    buffer' := ShiftDigitIn(SymbolValues(text[..i]), 32, Nats(out), 256, buffer, bitsInBuffer, 5, value);
    bitsInBuffer', out' := bitsInBuffer + 5, out;
    if bitsInBuffer' >= 8 {
      bitsInBuffer' := bitsInBuffer' - 8;
      out' := TakeByteOut(SymbolValues(text[..i + 1]), out, buffer', bitsInBuffer');
    }
  }

  method Decode(input: string) returns (r: Option<Array16>)
    ensures r == Decoded(input)
  {
    var cleaned := Cleaned(input);
    if |cleaned| != ENCODED_LEN { return None; }

    var buffer: u32 := 0;
    var bitsInBuffer := 0;
    var out: Bytes := [];
    for i := 0 to |cleaned|
      invariant DecodedSoFar(cleaned, i, out, buffer, bitsInBuffer)
    {
      var value := SymbolValue(cleaned[i]);
      if value.None? {
        NotAcceptable(input, i);
        return None;
      }
      buffer, bitsInBuffer, out := PushSymbol(cleaned, i, buffer, bitsInBuffer, out, value.value);
    }
    assert cleaned[..|cleaned|] == cleaned;
    DecodedIs(input, out, buffer);
    r := None;
    if |out| == SECRET_LEN { r := Some(out); }
  }

  lemma NotAcceptable(input: string, i: nat)
    requires i < |Cleaned(input)| && SymbolValue(Cleaned(input)[i]).None?
    ensures Decoded(input).None?
  {}

  lemma DecodedIs(input: string, out: Array16, buffer: u32)
    requires Acceptable(input) && DecodedSoFar(Cleaned(input), ENCODED_LEN, out, buffer, 2)
    ensures Decoded(input) == Some(out)
  {
    assert Cleaned(input)[..ENCODED_LEN] == Cleaned(input);
    DropTwoBits(SymbolValues(Cleaned(input)), Nats(out), buffer);
    NumeralOfValue(Nats(out), 256);
    BytesOfNats(out);
  }

  /** The two bits left in the accumulator are not part of the secret. */
  lemma DropTwoBits(read: seq<nat>, written: seq<nat>, buffer: u32)
    requires Repacking(read, 32, written, 256, buffer, 2)
    ensures Value(read, 32) / 4 == Value(written, 256)
  {
    var v := Value(written, 256);
    assert Cat(v, buffer / 2, 1) == 2 * v + buffer / 2 % 2;
    assert Cat(v, buffer, 2) == 2 * Cat(v, buffer / 2, 1) + buffer % 2;
  }

  lemma BytesOfNats(bytes: Bytes)
    ensures BytesOf(Nats(bytes)) == bytes
  {}

  // ---- Theorems ----

  /** Sixteen bytes and two bits more are what twenty-six symbols hold. */
  lemma Capacity()
    ensures Pow(32, ENCODED_LEN) == 4 * Pow(256, SECRET_LEN)
  {
    assert Pow(256, 4) == 0x1_0000_0000;
    PowAdd(256, 4, 4);
    PowAdd(256, 8, 8);
    assert Pow(32, 3) == 0x8000;
    PowAdd(32, 3, 3);
    PowAdd(32, 6, 6);
    PowAdd(32, 12, 12);
    assert Pow(32, 2) == 0x400;
    PowAdd(32, 24, 2);
  }

  lemma {:induction false} PowAdd(b: nat, m: nat, n: nat)
    ensures Pow(b, m + n) == Pow(b, m) * Pow(b, n)
    decreases n
  {
    if n == 0 {
      assert Pow(b, m) * 1 == Pow(b, m);
    } else {
      PowAdd(b, m, n - 1);
      var x, y := Pow(b, m), Pow(b, n - 1);
      assert b * (x * y) == x * (b * y);
    }
  }

  /** The encoder's digits are the secret's bits and two zeros: nothing is cut off. */
  lemma EncodedDigits(secret: Array16)
    ensures Value(Numeral(4 * Value(Nats(secret), 256), 32, ENCODED_LEN), 32) == 4 * Value(Nats(secret), 256)
  {
    ValueBelowPow(Nats(secret), 256);
    Capacity();
    ValueOfNumeral(4 * Value(Nats(secret), 256), 32, ENCODED_LEN);
  }

  lemma {:induction false} CleanedConcat(x: string, y: string)
    ensures Cleaned(x + y) == Cleaned(x) + Cleaned(y)
  {
    if x == "" {
      assert x + y == y;
    } else {
      assert (x + y)[0] == x[0] && (x + y)[1..] == x[1..] + y;
      CleanedConcat(x[1..], y);
    }
  }

  lemma {:induction false} CleanedNothing(x: string)
    requires forall c :: c in x ==> !Separator(c)
    ensures Cleaned(x) == x
  {
    if x != "" {
      assert x[0] in x && forall c :: c in x[1..] ==> c in x;
      CleanedNothing(x[1..]);
    }
  }

  lemma SymbolsReadBack(digits: seq<nat>)
    requires InBase(digits, 32)
    ensures AllSymbols(Symbols(digits)) && SymbolValues(Symbols(digits)) == digits
    ensures forall c :: c in Symbols(digits) ==> !Separator(c)
    ensures Cleaned(Symbols(digits)) == Symbols(digits)
  {
    var text := Symbols(digits);
    forall i | 0 <= i < |text|
      ensures SymbolValue(text[i]) == Some(digits[i]) && !Separator(text[i])
    {
      PrintedSymbolReadsBack(digits[i]);
    }
    CleanedNothing(text);
  }

  lemma DecodedOfDigits(secret: Array16, text: string)
    requires Acceptable(text) && SymbolValues(Cleaned(text)) == Numeral(4 * Value(Nats(secret), 256), 32, ENCODED_LEN)
    ensures Decoded(text) == Some(secret)
  {
    var n := Value(Nats(secret), 256);
    EncodedDigits(secret);
    assert 4 * n / 4 == n;
    NumeralOfValue(Nats(secret), 256);
    BytesOfNats(secret);
  }

  /** Any text that cleans to the encoded symbols of a secret decodes to that secret. */
  lemma DecodedOfEncoded(secret: Array16, text: string)
    requires Cleaned(text) == Encoded(secret)
    ensures Decoded(text) == Some(secret)
  {
    SymbolsReadBack(Numeral(4 * Value(Nats(secret), 256), 32, ENCODED_LEN));
    DecodedOfDigits(secret, text);
  }

  /** Grouping adds separators only. */
  lemma CleanedDisplay(secret: Array16)
    ensures Cleaned(Displayed(secret)) == Encoded(secret)
  {
    var raw := Encoded(secret);
    SymbolsReadBack(Numeral(4 * Value(Nats(secret), 256), 32, ENCODED_LEN));
    var d1 := raw[0..5] + "-" + raw[5..10];
    var d2 := d1 + "-" + raw[10..15];
    var d3 := d2 + "-" + raw[15..20];
    CleanedGroup(raw, 0, 5);
    CleanedNextGroup(raw[0..5], raw, 5, 10);
    CleanedNextGroup(d1, raw, 10, 15);
    CleanedNextGroup(d2, raw, 15, 20);
    CleanedNextGroup(d3, raw, 20, 26);
  }

  lemma CleanedNextGroup(text: string, whole: string, lo: nat, hi: nat)
    requires lo <= hi <= |whole| && forall c :: c in whole ==> !Separator(c)
    requires Cleaned(text) == whole[..lo]
    ensures Cleaned(text + "-" + whole[lo..hi]) == whole[..hi]
  {
    CleanedGroup(whole, lo, hi);
    CleanedDashed(text, whole[lo..hi]);
    assert whole[..lo] + whole[lo..hi] == whole[..hi];
  }

  lemma CleanedGroup(whole: string, lo: nat, hi: nat)
    requires lo <= hi <= |whole| && forall c :: c in whole ==> !Separator(c)
    ensures Cleaned(whole[lo..hi]) == whole[lo..hi]
  {
    assert forall c :: c in whole[lo..hi] ==> c in whole;
    CleanedNothing(whole[lo..hi]);
  }

  lemma CleanedDashed(x: string, y: string)
    ensures Cleaned(x + "-" + y) == Cleaned(x) + Cleaned(y)
  {
    CleanedConcat(x + "-", y);
    CleanedConcat(x, "-");
    CleanedDash();
    assert Cleaned(x) + "" == Cleaned(x);
  }

  lemma CleanedDash()
    ensures Cleaned("-") == ""
  {
    assert "-"[1..] == "";
  }

  /** The round trip, for all 2^128 secrets: grouped or not, what is shown decodes to the secret. */
  lemma RoundTrip(secret: Array16)
    ensures Decoded(Displayed(secret)) == Some(secret)
    ensures Decoded(Encoded(secret)) == Some(secret)
  {
    CleanedDisplay(secret);
    DecodedOfEncoded(secret, Displayed(secret));
    SymbolsReadBack(Numeral(4 * Value(Nats(secret), 256), 32, ENCODED_LEN));
    DecodedOfEncoded(secret, Encoded(secret));
  }

  /** A typed character a person may use for a printed one: either case, `O` for `0`, `I` or `L` for `1`. */
  predicate ReadsAs(typed: char, printed: char) {
    var upper := ToAsciiUppercase(typed);
    || upper == printed
    || (printed == '0' && upper == 'O')
    || (printed == '1' && (upper == 'I' || upper == 'L'))
  }

  lemma ReadsAsSameValue(typed: char, v: nat)
    requires v < 32 && ReadsAs(typed, ALPHABET[v])
    ensures SymbolValue(typed) == Some(v)
  {
    AlphabetLetters(v);
    AlphabetPosition(v);
    if ToAsciiUppercase(typed) != ALPHABET[v] {
      AlphabetPosition(0);
      AlphabetPosition(1);
    }
  }

  lemma ReadsAsSameDigits(text: string, digits: seq<nat>)
    requires |text| == |digits| && InBase(digits, 32)
    requires forall i :: 0 <= i < |digits| ==> ReadsAs(text[i], ALPHABET[digits[i]])
    ensures AllSymbols(text) && SymbolValues(text) == digits
  {
    forall i | 0 <= i < |digits| ensures SymbolValue(text[i]) == Some(digits[i]) {
      ReadsAsSameValue(text[i], digits[i]);
    }
  }

  /** The promised tolerance: separators, case and look-alike letters do not change what is decoded. */
  lemma {:induction false} TypedFormDecodes(secret: Array16, typed: string)
    requires |Cleaned(typed)| == ENCODED_LEN
    requires forall i :: 0 <= i < ENCODED_LEN ==> ReadsAs(Cleaned(typed)[i], Encoded(secret)[i])
    ensures Decoded(typed) == Some(secret)
  {
    var digits := Numeral(4 * Value(Nats(secret), 256), 32, ENCODED_LEN);
    var text := Cleaned(typed);
    forall i | 0 <= i < ENCODED_LEN ensures ReadsAs(text[i], ALPHABET[digits[i]]) {
      assert ReadsAs(text[i], Encoded(secret)[i]);
    }
    ReadsAsSameDigits(text, digits);
    DecodedOfDigits(secret, typed);
  }

  /** Different secrets are shown differently. */
  lemma DisplayInjective(s: Array16, t: Array16)
    requires Displayed(s) == Displayed(t)
    ensures s == t
  {
    RoundTrip(s);
    RoundTrip(t);
  }

  /**
   The decoder's kernel: two accepted inputs yield one secret exactly when they
   agree on the first 25 symbol values and on the top three bits of the 26th.
   */
  lemma {:induction false} DecodeKernel(x: string, y: string)
    requires Acceptable(x) && Acceptable(y)
    ensures var u, v := SymbolValues(Cleaned(x)), SymbolValues(Cleaned(y));
            Decoded(x) == Decoded(y) <==> u[..25] == v[..25] && u[25] / 4 == v[25] / 4
  {
    var u, v := SymbolValues(Cleaned(x)), SymbolValues(Cleaned(y));
    var m, n := Value(u, 32) / 4, Value(v, 32) / 4;
    SecretNumber(u);
    SecretNumber(v);
    assert Decoded(x) == Decoded(y) <==> m == n by {
      assert Nats(Decoded(x).value) == Numeral(m, 256, SECRET_LEN);
      assert Nats(Decoded(y).value) == Numeral(n, 256, SECRET_LEN);
      BytesOfNats(Decoded(x).value);
      BytesOfNats(Decoded(y).value);
    }
    ValueInjective(u[..25], v[..25], 32);
    assert m == Value(u[..25], 32) * 8 + u[25] / 4 && n == Value(v[..25], 32) * 8 + v[25] / 4;
  }

  /** An input decodes exactly when it is acceptable, and to exactly the secret its upper 128 bits spell. */
  lemma {:induction false} DecodedExactly(input: string, secret: Array16)
    ensures Decoded(input).Some? <==> |Cleaned(input)| == 26 && AllSymbols(Cleaned(input))
    ensures Decoded(input) == Some(secret) <==>
              Acceptable(input) && Value(SymbolValues(Cleaned(input)), 32) / 4 == Value(Nats(secret), 256)
  {
    if Acceptable(input) {
      var n := Value(SymbolValues(Cleaned(input)), 32) / 4;
      SecretNumber(SymbolValues(Cleaned(input)));
      assert Nats(Decoded(input).value) == Numeral(n, 256, SECRET_LEN);
      NumeralOfValue(Nats(secret), 256);
      BytesOfNats(secret);
    }
  }

  /** The number behind 26 symbols fits sixteen bytes once the last two bits are dropped. */
  lemma SecretNumber(digits: seq<nat>)
    requires |digits| == ENCODED_LEN && InBase(digits, 32)
    ensures Value(Numeral(Value(digits, 32) / 4, 256, SECRET_LEN), 256) == Value(digits, 32) / 4
  {
    ValueBelowPow(digits, 32);
    Capacity();
    ValueOfNumeral(Value(digits, 32) / 4, 256, SECRET_LEN);
  }
}
