/**
 The mutual proof of the local claim: what the two HMACs are computed over, and
 how `finish` judges a request. HMAC-SHA256 (section 2 of RFC 2104) and Ed25519
 (section 5.1.7 of RFC 8032) are symbolic: a tag or signature is the term it was
 computed from, so equal tags have equal keys and messages.
 */
module Handshake {
  import opened Common
  import opened ChallengeStore

  datatype Tag = Hmac(key: Bytes, message: Bytes) | Junk(bytes: Bytes)

  datatype Signature = Signed(signer: Array32, id: ChallengeId, proof: Tag) | BadSignature

  /** One handshake: the secret, and the three values of the transcript. */
  datatype Claim = Claim(secret: Bytes, nonce: Nonce, owner: Array32, boxKey: Array32)

  function Ascii(s: string): (r: Bytes)
    requires forall c :: c in s ==> c < 128 as char
    ensures |r| == |s| && forall i :: 0 <= i < |s| ==> r[i] as int == s[i] as int
  {
    seq(|s|, i requires 0 <= i < |s| => (assert s[i] in s; s[i] as byte))
  }

  const CLIENT_PROOF_LABEL: Bytes := Ascii("benix-claim/client")
  const BOX_PROOF_LABEL: Bytes := Ascii("benix-claim/box")

  /** Raw bytes at fixed lengths: 16, 32, 32. */
  function Transcript(serverNonce: Nonce, clientPubkey: Array32, boxPubkey: Array32): Bytes {
    serverNonce + clientPubkey + boxPubkey
  }

  function HmacWithLabel(secret: Bytes, prefix: Bytes, transcript: Bytes): Tag {
    Hmac(secret, prefix + transcript)
  }

  function ClientTag(c: Claim): Tag {
    HmacWithLabel(c.secret, CLIENT_PROOF_LABEL, Transcript(c.nonce, c.owner, c.boxKey))
  }

  function BoxTag(c: Claim): Tag {
    HmacWithLabel(c.secret, BOX_PROOF_LABEL, Transcript(c.nonce, c.owner, c.boxKey))
  }

  /** 80 bytes: nonce, owner key, box key, in this order. */
  lemma TranscriptLayout(nonce: Nonce, owner: Array32, boxKey: Array32)
    ensures var t := Transcript(nonce, owner, boxKey);
            |t| == 80 && t[..16] == nonce && t[16..48] == owner && t[48..] == boxKey
  {}

  /** The two texts authenticated under the secret: a role's label, then nonce, owner key and box key. */
  lemma TagMessages(c: Claim)
    ensures ClientTag(c) == Hmac(c.secret, Ascii("benix-claim/client") + c.nonce + c.owner + c.boxKey)
    ensures BoxTag(c) == Hmac(c.secret, Ascii("benix-claim/box") + c.nonce + c.owner + c.boxKey)
    ensures var m := ClientTag(c).message;
            && |m| == 98 && m[..18] == Ascii("benix-claim/client")
            && m[18..34] == c.nonce && m[34..66] == c.owner && m[66..] == c.boxKey
    ensures var m := BoxTag(c).message;
            && |m| == 95 && m[..15] == Ascii("benix-claim/box")
            && m[15..31] == c.nonce && m[31..63] == c.owner && m[63..] == c.boxKey
  {
    TranscriptLayout(c.nonce, c.owner, c.boxKey);
    var t := Transcript(c.nonce, c.owner, c.boxKey);
    var client, box := Ascii("benix-claim/client"), Ascii("benix-claim/box");
    assert client + t == client + c.nonce + c.owner + c.boxKey;
    assert box + t == box + c.nonce + c.owner + c.boxKey;
  }

  lemma TranscriptInjective(n: Nonce, o: Array32, b: Array32, n': Nonce, o': Array32, b': Array32)
    requires Transcript(n, o, b) == Transcript(n', o', b')
    ensures n == n' && o == o' && b == b'
  {
    var t, t' := Transcript(n, o, b), Transcript(n', o', b');
    assert n == t[..16] && n' == t'[..16];
    assert o == t[16..48] && o' == t'[16..48];
    assert b == t[48..] && b' == t'[48..];
  }

  /** A tag determines the handshake and the direction: the labels keep the two roles apart. */
  lemma TagsInjective(c: Claim, d: Claim)
    ensures ClientTag(c) == ClientTag(d) ==> c == d
    ensures BoxTag(c) == BoxTag(d) ==> c == d
    ensures ClientTag(c) != BoxTag(d)
  {
    var t, u := Transcript(c.nonce, c.owner, c.boxKey), Transcript(d.nonce, d.owner, d.boxKey);
    assert |CLIENT_PROOF_LABEL| == 18 && |BOX_PROOF_LABEL| == 15;
    if ClientTag(c) == ClientTag(d) {
      assert t == ClientTag(c).message[18..] && u == ClientTag(d).message[18..];
      TranscriptInjective(c.nonce, c.owner, c.boxKey, d.nonce, d.owner, d.boxKey);
    }
    if BoxTag(c) == BoxTag(d) {
      assert t == BoxTag(c).message[15..] && u == BoxTag(d).message[15..];
      TranscriptInjective(c.nonce, c.owner, c.boxKey, d.nonce, d.owner, d.boxKey);
    }
    assert |ClientTag(c).message| == 98 && |BoxTag(d).message| == 95;
  }

  // ---- Judging a finish request ----

  datatype Status =
    | Claimed200 | Malformed400 | InvalidProof401 | AlreadyClaimed409
    | ChallengeNotFound410 | RateLimited429 | Internal500

  /** A decoded request; a field that does not decode is `None`. */
  datatype FinishRequest = FinishRequest(
    wellFormed: bool,
    id: ChallengeId,
    clientPubkey: Option<Array32>,
    clientProof: Option<Tag>,
    clientSig: Option<Signature>,
    keyOnCurve: bool)

  /** The checks between the challenge lookup and the commit lock, in order; `None` when all pass. */
  function Verdict(req: FinishRequest, nonce: Nonce, boxKey: Array32, secret: Bytes): Option<Status> {
    if req.clientPubkey.None? || req.clientProof.None? then Some(Malformed400)
    else if req.clientProof.value != ClientTag(Claim(secret, nonce, req.clientPubkey.value, boxKey)) then
      Some(InvalidProof401)
    else if req.clientSig.None? || !req.keyOnCurve then Some(Malformed400)
    else if req.clientSig.value != Signed(req.clientPubkey.value, req.id, req.clientProof.value) then
      Some(InvalidProof401)
    else None
  }

  /** What each verdict means, from the request's own fields and the tag a client has to send. */
  lemma VerdictIs(req: FinishRequest, nonce: Nonce, boxKey: Array32, secret: Bytes)
    ensures var v := Verdict(req, nonce, boxKey, secret);
            var decoded := req.clientPubkey.Some? && req.clientProof.Some?;
            var tag := if decoded
                       then Hmac(secret, Ascii("benix-claim/client") + nonce + req.clientPubkey.value + boxKey)
                       else Junk([]);
            var proved := decoded && req.clientProof.value == tag;
            var signed := proved && req.clientSig == Some(Signed(req.clientPubkey.value, req.id, tag));
            && (v == Some(Malformed400) <==> !decoded || (proved && (req.clientSig.None? || !req.keyOnCurve)))
            && (v == Some(InvalidProof401) <==>
                  decoded && (!proved || (req.clientSig.Some? && req.keyOnCurve && !signed)))
            && (v.None? <==> signed && req.keyOnCurve)
  {
    if req.clientPubkey.Some? { TagMessages(Claim(secret, nonce, req.clientPubkey.value, boxKey)); }
  }
}
