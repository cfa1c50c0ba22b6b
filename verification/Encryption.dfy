/** Per-cell authenticated encryption, and the envelope that carries the sender's key beside it. */
module Encryption {
  import opened ByteStrings
  import opened Cells
  import opened Crypto
  import opened Wrappers

  const ENCRYPTED_CELL_SIZE := NONCE_SIZE + CELL_SIZE + TAG_SIZE
  const ENVELOPE_SIZE := KEY_SIZE + ENCRYPTED_CELL_SIZE

  type EncryptedCell = b: Bytes | |b| == ENCRYPTED_CELL_SIZE witness Zeros(ENCRYPTED_CELL_SIZE)

  function Ascii(s: string): Bytes {
    seq(|s|, i requires 0 <= i < |s| => s[i] as int % 256)
  }

  const SESSION_CONTEXT := Ascii("veil-sdk-session-v1")

  function SealedCell(cs: Crypto, key: Key, nonce: Nonce, cell: Cell): (out: EncryptedCell) {
    nonce + cs.seal(key, nonce, Wire(cell))
  }

  function OpenedCell(cs: Crypto, key: Key, data: EncryptedCell): Result<Cell, VeilError> {
    var plaintext := cs.open(key, data[..NONCE_SIZE], data[NONCE_SIZE..]);
    if plaintext.None? then Err(DecryptionFailed) else Parse(plaintext.value)
  }

  /** `nonce` is the one drawn for this call. */
  method EncryptCell(cs: Crypto, key: Key, cell: Cell, nonce: Nonce) returns (out: EncryptedCell)
    ensures out == SealedCell(cs, key, nonce, cell)
    ensures out[..NONCE_SIZE] == nonce
    ensures cs.open(key, nonce, out[NONCE_SIZE..]) == Some(Wire(cell))
  {
    var plaintext := ToBytes(cell);
    var ciphertext := cs.seal(key, nonce, plaintext);
    var buf := new byte[ENCRYPTED_CELL_SIZE](_ => 0);
    CopyFromSlice(buf, 0, nonce);
    assert buf[..NONCE_SIZE] == nonce;
    CopyFromSlice(buf, NONCE_SIZE, ciphertext);
    out := buf[..];
    assert out[..NONCE_SIZE] == nonce && out[NONCE_SIZE..] == ciphertext;
  }

  method DecryptCell(cs: Crypto, key: Key, data: EncryptedCell) returns (r: Result<Cell, VeilError>)
    ensures r == OpenedCell(cs, key, data)
    ensures var plaintext := cs.open(key, data[..NONCE_SIZE], data[NONCE_SIZE..]);
      && (plaintext == None ==> r == Err(DecryptionFailed))
      && forall cell: Cell :: r == Ok(cell) <==> plaintext == Some(Wire(cell))
  {
    OpensToTheCell(cs, key, data);
    var plaintext := cs.open(key, data[..NONCE_SIZE], data[NONCE_SIZE..]);
    if plaintext.None? {
      return Err(DecryptionFailed);
    }
    var buf := new byte[CELL_SIZE](_ => 0);
    CopyFromSlice(buf, 0, plaintext.value);
    assert buf[..] == plaintext.value;
    r := FromBytes(buf[..]);
  }

  /**
   A cell comes out exactly if the ciphertext opens, under this key and the nonce in front, to the
   wire image of that cell. Where it does not open, nothing of it is looked at.
   */
  lemma OpensToTheCell(cs: Crypto, key: Key, data: EncryptedCell)
    ensures var plaintext := cs.open(key, data[..NONCE_SIZE], data[NONCE_SIZE..]);
      && (plaintext == None ==> OpenedCell(cs, key, data) == Err(DecryptionFailed))
      && forall cell: Cell :: OpenedCell(cs, key, data) == Ok(cell) <==> plaintext == Some(Wire(cell))
  {
    var plaintext := cs.open(key, data[..NONCE_SIZE], data[NONCE_SIZE..]);
    if plaintext.Some? {
      CodecBijection(plaintext.value);
    }
  }

  /** The nonce drawn for the call stands in front, and the rest opens under it to the cell. */
  lemma SealedLayout(cs: Crypto, key: Key, nonce: Nonce, cell: Cell)
    ensures SealedCell(cs, key, nonce, cell)[..NONCE_SIZE] == nonce
    ensures cs.open(key, nonce, SealedCell(cs, key, nonce, cell)[NONCE_SIZE..]) == Some(Wire(cell))
  {
    assert SealedCell(cs, key, nonce, cell)[NONCE_SIZE..] == cs.seal(key, nonce, Wire(cell));
  }

  lemma DecryptEncrypt(cs: Crypto, key: Key, nonce: Nonce, cell: Cell)
    ensures OpenedCell(cs, key, SealedCell(cs, key, nonce, cell)) == Ok(cell)
  {
    var data := SealedCell(cs, key, nonce, cell);
    assert data[..NONCE_SIZE] == nonce;
    assert data[NONCE_SIZE..] == cs.seal(key, nonce, Wire(cell));
    ParseWire(cell);
  }

  datatype Envelope = Envelope(sender: Key, cell: EncryptedCell)

  datatype EnvelopeError = WrongLength(expected: nat, actual: nat)

  function EnvelopeBytes(e: Envelope): (out: Bytes)
    ensures |out| == ENVELOPE_SIZE
  {
    e.sender + e.cell
  }

  method Wrap(sender: Key, cell: EncryptedCell) returns (out: Bytes)
    ensures out == EnvelopeBytes(Envelope(sender, cell))
  {
    var buf := new byte[ENVELOPE_SIZE](_ => 0);
    CopyFromSlice(buf, 0, sender);
    assert buf[..KEY_SIZE] == sender;
    CopyFromSlice(buf, KEY_SIZE, cell);
    out := buf[..];
  }

  method Unwrap(raw: Bytes) returns (r: Result<Envelope, EnvelopeError>)
    ensures r == ParseEnvelope(raw)
  {
    if |raw| != ENVELOPE_SIZE {
      return Err(WrongLength(ENVELOPE_SIZE, |raw|));
    }
    var sender := new byte[KEY_SIZE](_ => 0);
    CopyFromSlice(sender, 0, raw[..KEY_SIZE]);
    assert sender[..] == raw[..KEY_SIZE];
    var cell := new byte[ENCRYPTED_CELL_SIZE](_ => 0);
    CopyFromSlice(cell, 0, raw[KEY_SIZE..]);
    assert cell[..] == raw[KEY_SIZE..];
    r := Ok(Envelope(sender[..], cell[..]));
  }

  function ParseEnvelope(raw: Bytes): Result<Envelope, EnvelopeError> {
    if |raw| != ENVELOPE_SIZE then Err(WrongLength(ENVELOPE_SIZE, |raw|))
    else Ok(Envelope(raw[..KEY_SIZE], raw[KEY_SIZE..]))
  }

  /** Unwrapping accepts exactly the wrapped envelopes, and recovers what was wrapped. */
  lemma EnvelopeBijection(raw: Bytes)
    ensures forall e: Envelope :: EnvelopeBytes(e) == raw <==> ParseEnvelope(raw) == Ok(e)
    ensures ParseEnvelope(raw).Ok? <==> |raw| == 572
    ensures ParseEnvelope(raw).Err? ==> ParseEnvelope(raw).error == WrongLength(572, |raw|)
  {
    forall e: Envelope ensures EnvelopeBytes(e) == raw <==> ParseEnvelope(raw) == Ok(e) {
      assert EnvelopeBytes(e)[..KEY_SIZE] == e.sender;
      assert EnvelopeBytes(e)[KEY_SIZE..] == e.cell;
    }
  }

  /** The key a sender and a recipient share: `Session::establish` on one side, `receive` on the other. */
  function SessionKey(cs: Crypto, own: Key, peerPublic: Key): Key {
    cs.derive(cs.agree(own, peerPublic), SESSION_CONTEXT)
  }

  /** The circuit body that carries one cell to a recipient. */
  function Enveloped(cs: Crypto, sender: Key, recipientPublic: Key, nonce: Nonce, cell: Cell): (out: Bytes)
    ensures |out| == ENVELOPE_SIZE
  {
    EnvelopeBytes(Envelope(cs.publicOf(sender),
                           SealedCell(cs, SessionKey(cs, sender, recipientPublic), nonce, cell)))
  }

  /** What a receiver makes of one pulled byte string; None when it is not addressed to it. */
  function OpenEnvelope(cs: Crypto, identity: Key, raw: Bytes): Option<Cell> {
    var e := ParseEnvelope(raw);
    if e.Err? then None else
    var cell := OpenedCell(cs, SessionKey(cs, identity, e.value.sender), e.value.cell);
    if cell.Ok? then Some(cell.value) else None
  }

  /** The two contexts, byte for byte; they differ, so cells and layers never share a key derivation. */
  lemma SessionContextBytes()
    ensures SESSION_CONTEXT ==
            [118, 101, 105, 108, 45, 115, 100, 107, 45, 115, 101, 115, 115, 105, 111, 110, 45, 118, 49]
  {
  }

  /**
   What a receiver takes from a pulled byte string: a cell exactly if the string is 572 bytes long
   and its cell part opens, under the key derived from the first 32 bytes, to that cell.
   */
  lemma OpensForThisIdentity(cs: Crypto, identity: Key, raw: Bytes, cell: Cell)
    ensures OpenEnvelope(cs, identity, raw) == Some(cell) <==>
            && |raw| == 572
            && cs.open(cs.derive(cs.agree(identity, raw[..32]), SESSION_CONTEXT), raw[32..44], raw[44..])
                 == Some(Wire(cell))
  {
    if |raw| == ENVELOPE_SIZE {
      var data: EncryptedCell := raw[KEY_SIZE..];
      assert data[..NONCE_SIZE] == raw[32..44] && data[NONCE_SIZE..] == raw[44..];
      OpensToTheCell(cs, SessionKey(cs, identity, raw[..KEY_SIZE]), data);
    }
  }

  /** The intended recipient, and the sender, derive the same key and recover the very cell. */
  lemma EnvelopeRoundTrip(cs: Crypto, sender: Key, recipient: Key, nonce: Nonce, cell: Cell)
    ensures OpenEnvelope(cs, recipient, Enveloped(cs, sender, cs.publicOf(recipient), nonce, cell)) == Some(cell)
  {
    var key := SessionKey(cs, sender, cs.publicOf(recipient));
    assert key == SessionKey(cs, recipient, cs.publicOf(sender));
    DecryptEncrypt(cs, key, nonce, cell);
    EnvelopeBijection(Enveloped(cs, sender, cs.publicOf(recipient), nonce, cell));
  }
}
