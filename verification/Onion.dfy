/** Onion layers: payload encoding, sealing a layer to a relay, and peeling it. */
module Onion {
  import opened ByteStrings
  import opened Crypto
  import opened Encryption
  import opened Utf8
  import opened Wrappers

  const LAYER_OVERHEAD := KEY_SIZE + NONCE_SIZE + TAG_SIZE
  const ONION_CONTEXT := Ascii("veil-onion-layer-v1")

  datatype OnionError = FrameTooShort | LayerDecryptionFailed | Malformed

  datatype OnionPayload =
    | Forward(nextHop: Text, body: Bytes)
    | Deliver(body: Bytes)

  /** The randomness one layer consumes. */
  datatype LayerCoins = LayerCoins(ephemeral: Key, nonce: Nonce)

  function Encode(p: OnionPayload): Bytes {
    match p
    case Forward(nextHop, body) => [0] + BE16(AsU16(|nextHop|)) + nextHop + body
    case Deliver(body) => [1] + body
  }

  method EncodePayload(p: OnionPayload) returns (out: Bytes)
    ensures out == Encode(p)
  {
    match p
    case Forward(nextHop, body) =>
      out := [0];
      out := out + BE16(AsU16(|nextHop|));
      out := out + nextHop;
      out := out + body;
    case Deliver(body) =>
      out := [1];
      out := out + body;
  }

  function Decode(bytes: Bytes): Result<OnionPayload, OnionError> {
    if bytes == [] then Err(Malformed) else
    var flag, rest := bytes[0], bytes[1..];
    if flag == 0 then
      if |rest| < 2 then Err(Malformed) else
      var hopLen := FromBE16(rest[..2]);
      var tail := rest[2..];
      if |tail| < hopLen then Err(Malformed) else
      if !IsUtf8(tail[..hopLen]) then Err(Malformed) else
      Ok(Forward(tail[..hopLen], tail[hopLen..]))
    else if flag == 1 then Ok(Deliver(rest))
    else Err(Malformed)
  }

  /** The length cast is the only thing that can go wrong: exactly the hops it fits survive. */
  predicate HopFits(p: OnionPayload) {
    p.Forward? ==> |p.nextHop| < U16_LIMIT
  }

  lemma DecodeEncode(p: OnionPayload)
    ensures Decode(Encode(p)) == Ok(p) <==> HopFits(p)
    ensures p.Forward? && !HopFits(p) ==>
              Decode(Encode(p)) == Err(Malformed) || (
                Decode(Encode(p)).Ok? && Decode(Encode(p)).value.Forward? &&
                |Decode(Encode(p)).value.nextHop| < |p.nextHop|)
  {
    var bytes := Encode(p);
    if p.Forward? {
      var cast := AsU16(|p.nextHop|);
      assert bytes[1..][..2] == BE16(cast);
      BE16RoundTrip(cast);
      var tail := bytes[1..][2..];
      assert tail == p.nextHop + p.body;
      if HopFits(p) {
        assert tail[..cast] == p.nextHop && tail[cast..] == p.body;
      }
    } else {
      assert bytes[1..] == p.body;
    }
  }

  /** Every accepted byte string is the encoding of what it decodes to, so decoding is injective there. */
  lemma EncodeDecode(bytes: Bytes)
    requires Decode(bytes).Ok?
    ensures Encode(Decode(bytes).value) == bytes
    ensures HopFits(Decode(bytes).value)
  {
    if bytes[0] == 0 {
      BE16Onto(bytes[1..][..2]);
      assert bytes == [0] + bytes[1..][..2] + bytes[1..][2..];
    } else {
      assert bytes == [1] + bytes[1..];
    }
  }

  function LayerKey(cs: Crypto, own: Key, peerPublic: Key): Key {
    cs.derive(cs.agree(own, peerPublic), ONION_CONTEXT)
  }

  /** One layer for the relay with that public key. */
  function Layer(cs: Crypto, relayPublic: Key, p: OnionPayload, coins: LayerCoins): (frame: Bytes)
    ensures |frame| == LAYER_OVERHEAD + |Encode(p)|
  {
    cs.publicOf(coins.ephemeral) + coins.nonce
    + cs.seal(LayerKey(cs, coins.ephemeral, relayPublic), coins.nonce, Encode(p))
  }

  method BuildOnionLayer(cs: Crypto, relayPublic: Key, p: OnionPayload, coins: LayerCoins)
    returns (out: Bytes)
    ensures out == Layer(cs, relayPublic, p, coins)
  {
    var ephemeralPublic := cs.publicOf(coins.ephemeral);
    var key := LayerKey(cs, coins.ephemeral, relayPublic);
    var plaintext := EncodePayload(p);
    var ciphertext := cs.seal(key, coins.nonce, plaintext);
    out := [];
    out := out + ephemeralPublic;
    out := out + coins.nonce;
    out := out + ciphertext;
  }

  /** What the relay holding `secret` finds under the outer layer. */
  function Peel(cs: Crypto, secret: Key, frame: Bytes): Result<OnionPayload, OnionError> {
    if |frame| < LAYER_OVERHEAD then Err(FrameTooShort) else
    var ephemeralPublic: Key := frame[..KEY_SIZE];
    var nonce: Nonce := frame[KEY_SIZE..KEY_SIZE + NONCE_SIZE];
    var plaintext := cs.open(LayerKey(cs, secret, ephemeralPublic), nonce, frame[KEY_SIZE + NONCE_SIZE..]);
    if plaintext.None? then Err(LayerDecryptionFailed) else Decode(plaintext.value)
  }

  /** Peeling a layer built for this relay undoes the sealing and leaves the payload codec alone. */
  lemma PeelLayer(cs: Crypto, secret: Key, p: OnionPayload, coins: LayerCoins)
    ensures Peel(cs, secret, Layer(cs, cs.publicOf(secret), p, coins)) == Decode(Encode(p))
    ensures Peel(cs, secret, Layer(cs, cs.publicOf(secret), p, coins)) == Ok(p) <==> HopFits(p)
  {
    var frame := Layer(cs, cs.publicOf(secret), p, coins);
    var key := LayerKey(cs, coins.ephemeral, cs.publicOf(secret));
    assert frame[..KEY_SIZE] == cs.publicOf(coins.ephemeral);
    assert frame[KEY_SIZE..KEY_SIZE + NONCE_SIZE] == coins.nonce;
    assert frame[KEY_SIZE + NONCE_SIZE..] == cs.seal(key, coins.nonce, Encode(p));
    DecodeEncode(p);
  }

  /** A layer's own randomness stands in front of it, and the rest opens under it to the payload. */
  lemma LayerLayout(cs: Crypto, relayPublic: Key, p: OnionPayload, coins: LayerCoins)
    ensures var frame := Layer(cs, relayPublic, p, coins);
      && |frame| >= 60
      && frame[..32] == cs.publicOf(coins.ephemeral)
      && frame[32..44] == coins.nonce
      && cs.open(cs.derive(cs.agree(coins.ephemeral, relayPublic), ONION_CONTEXT), coins.nonce, frame[44..])
           == Some(Encode(p))
  {
    var frame := Layer(cs, relayPublic, p, coins);
    assert frame[44..] == cs.seal(LayerKey(cs, coins.ephemeral, relayPublic), coins.nonce, Encode(p));
  }

  /**
   A peel yields a payload exactly if the frame is long enough and its ciphertext opens, under the
   key derived from the first 32 bytes and the nonce after them, to that payload's encoding.
   */
  lemma PeelsToThePayload(cs: Crypto, secret: Key, frame: Bytes, p: OnionPayload)
    ensures Peel(cs, secret, frame) == Ok(p) <==>
            && |frame| >= 60
            && cs.open(cs.derive(cs.agree(secret, frame[..32]), ONION_CONTEXT), frame[32..44], frame[44..])
                 == Some(Encode(p))
            && HopFits(p)
  {
    if |frame| >= 60 {
      var plaintext := cs.open(LayerKey(cs, secret, frame[..32]), frame[32..44], frame[44..]);
      DecodeEncode(p);
      if plaintext.Some? && Decode(plaintext.value) == Ok(p) {
        EncodeDecode(plaintext.value);
      }
    }
  }

  /** Why a peel fails: too short for a layer, not sealed for this relay, or sealed but no payload. */
  lemma PeelFailures(cs: Crypto, secret: Key, frame: Bytes)
    ensures Peel(cs, secret, frame) == Err(FrameTooShort) <==> |frame| < 60
    ensures |frame| >= 60 ==>
      var plaintext := cs.open(cs.derive(cs.agree(secret, frame[..32]), ONION_CONTEXT), frame[32..44], frame[44..]);
      && (Peel(cs, secret, frame) == Err(LayerDecryptionFailed) <==> plaintext == None)
      && (Peel(cs, secret, frame) == Err(Malformed) <==>
            plaintext.Some? && forall p :: plaintext.value == Encode(p) ==> !HopFits(p))
  {
    if |frame| >= 60 {
      var plaintext := cs.open(LayerKey(cs, secret, frame[..32]), frame[32..44], frame[44..]);
      if plaintext.Some? {
        NoPayload(plaintext.value);
      }
    }
  }

  /** What is malformed is exactly what encodes no payload. */
  lemma NoPayload(bytes: Bytes)
    ensures Decode(bytes) == Err(Malformed) <==> forall p :: bytes == Encode(p) ==> !HopFits(p)
    ensures Decode(bytes).Ok? || Decode(bytes) == Err(Malformed)
  {
    if Decode(bytes).Ok? {
      EncodeDecode(bytes);
    }
    forall p | bytes == Encode(p) ensures Decode(bytes) == Ok(p) <==> HopFits(p) {
      DecodeEncode(p);
    }
  }

  lemma OnionContextBytes()
    ensures ONION_CONTEXT ==
            [118, 101, 105, 108, 45, 111, 110, 105, 111, 110, 45, 108, 97, 121, 101, 114, 45, 118, 49]
    ensures ONION_CONTEXT != SESSION_CONTEXT
  {
    SessionContextBytes();
    assert ONION_CONTEXT[5] == 111;
  }

  /** The payload layout, offset by offset, as the protocol specification tabulates it. */
  lemma PayloadLayout(p: OnionPayload)
    ensures var out := Encode(p);
      && out != []
      && (p.Deliver? ==> out[0] == 1 && out[1..] == p.body)
      && (p.Forward? && HopFits(p) ==>
            var n := |p.nextHop|;
            && |out| == 3 + n + |p.body| && out[0] == 0
            && n == out[1] * 256 + out[2] as int
            && out[3..3 + n] == p.nextHop && out[3 + n..] == p.body)
  {
    var out := Encode(p);
    if p.Forward? && HopFits(p) {
      BE16RoundTrip(|p.nextHop|);
      assert out[1..3] == BE16(|p.nextHop|);
    }
  }

  /** Whatever a peel yields is smaller than the frame by an exact amount. */
  lemma PeelShrinks(cs: Crypto, secret: Key, frame: Bytes)
    requires Peel(cs, secret, frame).Ok?
    ensures var p := Peel(cs, secret, frame).value;
      |frame| == |p.body| + (if p.Forward? then 63 + |p.nextHop| else 61)
  {
    var nonce: Nonce := frame[KEY_SIZE..KEY_SIZE + NONCE_SIZE];
    var plaintext := cs.open(LayerKey(cs, secret, frame[..KEY_SIZE]), nonce, frame[KEY_SIZE + NONCE_SIZE..]);
    EncodeDecode(plaintext.value);
  }
}
