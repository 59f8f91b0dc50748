/**
 The TPM backend: the three-way detection, and the text by which a fresh
 `lockoutAuth` crosses the pipe to `tpm2_changeauth`.
 */
module Tpm {
  import opened Common

  datatype TpmPresence = Present | Absent | PresentButUnavailable

  datatype TpmCustodyState = LockoutDiscarded | NoTpmPresent

  /** How opening the resource-manager node ends, and which hardware-signal nodes exist. */
  datatype OpenResult = Opened | NotFound | OtherError
  datatype DeviceNodes = DeviceNodes(resourceManager: OpenResult, hardwareSignals: seq<bool>)

  /**
   How the child process ends. A failed write to its stdin has let through the
   first `passed` characters; `NotReaped` and `Exited` follow a complete write.
   */
  datatype Child = NotSpawned | WriteFailed(passed: nat) | NotReaped | Exited(success: bool)

  function Detected(nodes: DeviceNodes): TpmPresence {
    if nodes.resourceManager.Opened? then Present
    else if nodes.resourceManager.NotFound? && true !in nodes.hardwareSignals then Absent
    else PresentButUnavailable
  }

  // ---- Hex text ----

  const HEX_DIGITS := "0123456789abcdef"
  const HEX_PREFIX := "hex:"

  function HexByte(b: byte): string { [HEX_DIGITS[b as nat / 16], HEX_DIGITS[b as nat % 16]] }

  function Hex(s: Bytes): (t: string)
    ensures |t| == 2 * |s|
  {
    if s == [] then "" else Hex(s[..|s| - 1]) + HexByte(s[|s| - 1])
  }

  function HexAuth(s: Bytes): string { HEX_PREFIX + Hex(s) }

  /** What crosses the pipe: nothing, part of the auth text, or all of it. */
  function Crossed(auth: Bytes, child: Child): (texts: seq<string>)
    ensures forall t :: t in texts ==> t <= HexAuth(auth)
    ensures child.Exited? || child.NotReaped? ==> texts == [HexAuth(auth)]
    ensures child.NotSpawned? ==> texts == []
    ensures child.WriteFailed? ==> |texts| == 1 && |texts[0]| == if child.passed < |HexAuth(auth)| then child.passed
                                                                  else |HexAuth(auth)|
  {
    match child
    case NotSpawned => []
    case WriteFailed(passed) => [if passed < |HexAuth(auth)| then HexAuth(auth)[..passed] else HexAuth(auth)]
    case _ => [HexAuth(auth)]
  }

  /** The text, character by character: the prefix, then each byte's high and low digit in lower case. */
  lemma {:induction false} HexAuthLayout(s: Bytes)
    ensures |HexAuth(s)| == 4 + 2 * |s| && HexAuth(s)[..4] == "hex:"
    ensures forall i :: 0 <= i < |s| ==>
      && HexAuth(s)[4 + 2 * i] == "0123456789abcdef"[s[i] as nat / 16]
      && HexAuth(s)[5 + 2 * i] == "0123456789abcdef"[s[i] as nat % 16]
  {
    if s != [] {
      var init := s[..|s| - 1];
      HexAuthLayout(init);
      assert HexAuth(s) == HexAuth(init) + HexByte(s[|s| - 1]);
      forall i | 0 <= i < |s|
        ensures HexAuth(s)[4 + 2 * i] == "0123456789abcdef"[s[i] as nat / 16]
        ensures HexAuth(s)[5 + 2 * i] == "0123456789abcdef"[s[i] as nat % 16]
      {
        if i < |s| - 1 { assert s[i] == init[i]; }
      }
    }
  }

  // ---- Reading it back ----

  function DigitValue(c: char): Option<nat> {
    if '0' <= c <= '9' then Some(c as int - '0' as int)
    else if 'a' <= c <= 'f' then Some(c as int - 'a' as int + 10)
    else None
  }

  function ByteValue(hi: char, lo: char): Option<byte> {
    var h, l := DigitValue(hi), DigitValue(lo);
    if h.Some? && l.Some? && h.value < 16 && l.value < 16 then Some((16 * h.value + l.value) as byte) else None
  }

  function Unhex(t: string): Option<Bytes> {
    if t == "" then Some([])
    else if |t| == 1 then None
    else
      var rest, last := Unhex(t[..|t| - 2]), ByteValue(t[|t| - 2], t[|t| - 1]);
      if rest.Some? && last.Some? then Some(rest.value + [last.value]) else None
  }

  function ReadAuth(t: string): Option<Bytes> {
    if |t| >= 4 && t[..4] == HEX_PREFIX then Unhex(t[4..]) else None
  }

  lemma Nibbles(n: nat, h: nat, l: nat)
    requires h < 16 && l < 16
    ensures n == 16 * h + l <==> n / 16 == h && n % 16 == l
  {}

  lemma ByteValueIs(hi: char, lo: char, b: byte)
    ensures ByteValue(hi, lo) == Some(b) <==>
              DigitValue(hi) == Some(b as nat / 16) && DigitValue(lo) == Some(b as nat % 16)
  {
    var h, l := DigitValue(hi), DigitValue(lo);
    if h.Some? && l.Some? {
      Nibbles(b as nat, h.value, l.value);
      assert (16 * h.value + l.value) as byte == b <==> 16 * h.value + l.value == b as nat;
    }
  }

  lemma ByteRoundTrip(hi: char, lo: char, b: byte)
    ensures ByteValue(hi, lo) == Some(b) <==> HexByte(b) == [hi, lo]
  {
    ByteValueIs(hi, lo, b);
    HexByteIs(hi, lo, b);
    DigitRoundTrip(hi, b as nat / 16);
    DigitRoundTrip(lo, b as nat % 16);
  }

  lemma HexByteIs(hi: char, lo: char, b: byte)
    ensures HexByte(b) == [hi, lo] <==> HEX_DIGITS[b as nat / 16] == hi && HEX_DIGITS[b as nat % 16] == lo
  {
    if HexByte(b) == [hi, lo] {
      assert hi == HexByte(b)[0] && lo == HexByte(b)[1];
    }
  }

  lemma DigitRoundTrip(c: char, d: nat)
    requires d < 16
    ensures DigitValue(c) == Some(d) <==> HEX_DIGITS[d] == c
  {}

  lemma {:induction false} UnhexExact(t: string, s: Bytes)
    ensures Unhex(t) == Some(s) <==> t == Hex(s)
  {
    if t == "" || s == [] {
      if |t| > 1 && Unhex(t).Some? { assert |Unhex(t).value| > 0; }
    } else if |t| > 1 {
      var t', s' := t[..|t| - 2], s[..|s| - 1];
      UnhexExact(t', s');
      ByteRoundTrip(t[|t| - 2], t[|t| - 1], s[|s| - 1]);
      assert t == t' + [t[|t| - 2], t[|t| - 1]] && s == s' + [s[|s| - 1]];
      if t == Hex(s) {
        assert t' == Hex(s)[..|t| - 2] == Hex(s');
        assert HexByte(s[|s| - 1]) == Hex(s)[|t| - 2..];
      }
    }
  }

  /** The text reads back to exactly the auth value it was made from, and to no other. */
  lemma HexAuthExact(t: string, s: Bytes)
    ensures ReadAuth(t) == Some(s) <==> t == HexAuth(s)
  {
    if |t| >= 4 && t[..4] == HEX_PREFIX {
      UnhexExact(t[4..], s);
      assert t == t[..4] + t[4..];
      if t == HexAuth(s) { assert t[4..] == Hex(s); }
    } else {
      assert HexAuth(s)[..4] == HEX_PREFIX;
    }
  }

  /** No zero character, so a reader of C strings sees all of it. */
  lemma {:induction false} HexAuthHasNoNul(s: Bytes)
    ensures forall c :: c in Hex(s) ==> c in HEX_DIGITS
    ensures '\0' !in HexAuth(s)
  {
    if s != [] {
      HexAuthHasNoNul(s[..|s| - 1]);
    }
  }

  // ---- The backend ----

  class SystemTpm {
    /** What reached the stdin of each `tpm2_changeauth` child, oldest first. */
    var authTexts: seq<string>

    constructor ()
      ensures authTexts == []
    {
      authTexts := [];
    }

    /** `Absent` only when nothing hints at a TPM; changes nothing. */
    method Detect(nodes: DeviceNodes) returns (presence: TpmPresence)
      ensures presence == Detected(nodes)
      ensures presence.Absent? <==> nodes.resourceManager.NotFound? && true !in nodes.hardwareSignals
      ensures presence.Present? <==> nodes.resourceManager.Opened?
    {
      match nodes.resourceManager
      case Opened => presence := Present;
      case NotFound =>
        presence := if exists i :: 0 <= i < |nodes.hardwareSignals| && nodes.hardwareSignals[i]
        then PresentButUnavailable else Absent;
      case OtherError => presence := PresentButUnavailable;
    }

    /** Built in a buffer reserved at `4 + 2n` characters and never grown: every write is in bounds. */
    method WriteHexAuth(secret: Bytes) returns (text: string)
      ensures text == HexAuth(secret)
    {
      var buffer := new char[4 + 2 * |secret|];
      buffer[0], buffer[1], buffer[2], buffer[3] := 'h', 'e', 'x', ':';
      var len := 4;
      for i := 0 to |secret|
        invariant len == 4 + 2 * i
        invariant buffer[..len] == HexAuth(secret[..i])
      {
        assert secret[..i + 1][..i] == secret[..i];
        ghost var before := buffer[..len];
        buffer[len] := HEX_DIGITS[secret[i] as nat / 16];
        buffer[len + 1] := HEX_DIGITS[secret[i] as nat % 16];
        len := len + 2;
        assert buffer[..len] == before + HexByte(secret[i]);
      }
      assert secret[..|secret|] == secret;
      text := buffer[..len];
    }

    /** `Ok` only if a child received the whole text and exited with success; a failure may have passed part of it. */
    method DiscardLockoutAuth(auth: Array32, child: Child) returns (ok: bool)
      modifies this
      ensures ok <==> child == Exited(true)
      ensures authTexts == old(authTexts) + Crossed(auth, child)
    {
      var text := WriteHexAuth(auth);
      ok := false;
      match child
      case NotSpawned =>
      case WriteFailed(passed) =>
        authTexts := authTexts + [if passed < |text| then text[..passed] else text];
      case NotReaped =>
        authTexts := authTexts + [text];
      case Exited(success) =>
        authTexts := authTexts + [text];
        ok := success;
    }
  }
}
