/** The fixed-size cell: its fields, its constructors and its 512-byte wire form. */
module Cells {
  import opened ByteStrings
  import opened Wrappers

  const CELL_SIZE := 512
  const HEADER_SIZE := 24
  const PAYLOAD_CAPACITY := CELL_SIZE - HEADER_SIZE
  const PROTOCOL_VERSION: byte := 1

  datatype VeilError =
    | PayloadTooLarge(len: nat, max: nat)
    | InvalidSequence(seqIndex: u16, seqTotal: u16)
    | UnsupportedVersion(version: byte)
    | InvalidCellType(code: byte)
    | MessageTooLarge(size: nat, limit: nat)
    | MismatchedMessageId
    | DecryptionFailed

  datatype CellType = Data | Dummy

  type MessageId = b: Bytes | |b| == 16 witness Zeros(16)

  datatype CellFields = CellFields(
    version: byte,
    cellType: CellType,
    messageId: MessageId,
    seqIndex: u16,
    seqTotal: u16,
    payloadLen: u16,
    padded: Bytes)
  {
    predicate Valid() {
      && version == PROTOCOL_VERSION
      && |padded| == PAYLOAD_CAPACITY
      && payloadLen <= PAYLOAD_CAPACITY
      && seqIndex < seqTotal
    }
  }

  /** The fields are private in the source, so only the constructors below make cells. */
  type Cell = c: CellFields | c.Valid()
    witness CellFields(PROTOCOL_VERSION, Data, Zeros(16), 0, 1, 0, Zeros(PAYLOAD_CAPACITY))

  /** The real payload, without the padding. */
  function Payload(cell: Cell): Bytes {
    cell.padded[..cell.payloadLen]
  }

  /** What `new_data` builds: the fragment followed by zero padding. */
  function DataCell(id: MessageId, index: u16, total: u16, data: Bytes): (cell: Cell)
    requires |data| <= PAYLOAD_CAPACITY && index < total
    ensures Payload(cell) == data
    ensures forall i :: |data| <= i < PAYLOAD_CAPACITY ==> cell.padded[i] == 0
  {
    CellFields(PROTOCOL_VERSION, Data, id, index, total, |data|,
               data + Zeros(PAYLOAD_CAPACITY - |data|))
  }

  method NewData(id: MessageId, index: u16, total: u16, data: Bytes)
    returns (r: Result<Cell, VeilError>)
    ensures r.Ok? <==> |data| <= PAYLOAD_CAPACITY && index < total
    ensures r.Ok? ==> r.value == DataCell(id, index, total, data)
    ensures r.Ok? ==>
      var c := r.value;
      && c.cellType == Data && c.messageId == id && c.seqIndex == index && c.seqTotal == total
      && c.payloadLen == |data| && Payload(c) == data
      && forall i :: |data| <= i < 488 ==> c.padded[i] == 0
    ensures |data| > PAYLOAD_CAPACITY ==> r == Err(PayloadTooLarge(|data|, PAYLOAD_CAPACITY))
    ensures |data| <= PAYLOAD_CAPACITY && index >= total ==> r == Err(InvalidSequence(index, total))
  {
    if |data| > PAYLOAD_CAPACITY {
      return Err(PayloadTooLarge(|data|, PAYLOAD_CAPACITY));
    }
    if total == 0 || index >= total {
      return Err(InvalidSequence(index, total));
    }
    var payload := new byte[PAYLOAD_CAPACITY](_ => 0);
    CopyFromSlice(payload, 0, data);
    assert payload[..] == data + Zeros(PAYLOAD_CAPACITY - |data|);
    r := Ok(CellFields(PROTOCOL_VERSION, Data, id, index, total, AsU16(|data|), payload[..]));
  }

  /** A cover-traffic cell, from the random bytes drawn for it. */
  function DummyCell(id: MessageId, noise: Bytes): (cell: Cell)
    requires |noise| == PAYLOAD_CAPACITY
    ensures cell.cellType == CellType.Dummy && cell.messageId == id
    ensures cell.seqIndex == 0 && cell.seqTotal == 1
    ensures Payload(cell) == noise
  {
    CellFields(PROTOCOL_VERSION, Dummy, id, 0, 1, AsU16(PAYLOAD_CAPACITY), noise)
  }

  function TypeCode(t: CellType): byte {
    match t
    case Data => 0
    case Dummy => 1
  }

  function TypeFromCode(code: byte): Result<CellType, VeilError> {
    if code == 0 then Ok(Data) else if code == 1 then Ok(Dummy) else Err(InvalidCellType(code))
  }

  function Header(cell: Cell): (h: Bytes)
    ensures |h| == HEADER_SIZE
  {
    [cell.version, TypeCode(cell.cellType)] + cell.messageId
    + BE16(cell.seqIndex) + BE16(cell.seqTotal) + BE16(cell.payloadLen)
  }

  function Wire(cell: Cell): (buf: Bytes)
    ensures |buf| == CELL_SIZE
  {
    Header(cell) + cell.padded
  }

  method ToBytes(cell: Cell) returns (buf: Bytes)
    ensures buf == Wire(cell)
  {
    var b := new byte[CELL_SIZE](_ => 0);
    b[0] := cell.version;
    b[1] := TypeCode(cell.cellType);
    CopyFromSlice(b, 2, cell.messageId);
    CopyFromSlice(b, 18, BE16(cell.seqIndex));
    CopyFromSlice(b, 20, BE16(cell.seqTotal));
    CopyFromSlice(b, 22, BE16(cell.payloadLen));
    assert b[..HEADER_SIZE] == Header(cell);
    CopyFromSlice(b, HEADER_SIZE, cell.padded);
    buf := b[..];
    assert buf == Wire(cell);
  }

  function Parse(buf: Bytes): Result<Cell, VeilError>
    requires |buf| == CELL_SIZE
  {
    if buf[0] != PROTOCOL_VERSION then Err(UnsupportedVersion(buf[0])) else
    var cellType := TypeFromCode(buf[1]);
    if cellType.Err? then Err(cellType.error) else
    var index := FromBE16(buf[18..20]);
    var total := FromBE16(buf[20..22]);
    var len := FromBE16(buf[22..24]);
    if len > PAYLOAD_CAPACITY then Err(PayloadTooLarge(len, PAYLOAD_CAPACITY)) else
    if total == 0 || index >= total then Err(InvalidSequence(index, total)) else
    Ok(CellFields(buf[0], cellType.value, buf[2..18], index, total, len, buf[HEADER_SIZE..]))
  }

  method FromBytes(buf: Bytes) returns (r: Result<Cell, VeilError>)
    requires |buf| == CELL_SIZE
    ensures r == Parse(buf)
  {
    var version := buf[0];
    if version != PROTOCOL_VERSION {
      return Err(UnsupportedVersion(version));
    }
    var cellType := TypeFromCode(buf[1]);
    if cellType.Err? {
      return Err(cellType.error);
    }
    var messageId := new byte[16](_ => 0);
    CopyFromSlice(messageId, 0, buf[2..18]);
    assert messageId[..] == buf[2..18];
    var seqIndex := FromBE16(buf[18..20]);
    var seqTotal := FromBE16(buf[20..22]);
    var payloadLen := FromBE16(buf[22..24]);
    if payloadLen > PAYLOAD_CAPACITY {
      return Err(PayloadTooLarge(payloadLen, PAYLOAD_CAPACITY));
    }
    if seqTotal == 0 || seqIndex >= seqTotal {
      return Err(InvalidSequence(seqIndex, seqTotal));
    }
    var payload := new byte[PAYLOAD_CAPACITY](_ => 0);
    CopyFromSlice(payload, 0, buf[HEADER_SIZE..]);
    assert payload[..] == buf[HEADER_SIZE..];
    r := Ok(CellFields(version, cellType.value, messageId[..], seqIndex, seqTotal, payloadLen, payload[..]));
  }

  /** The wire layout, offset by offset, as the protocol specification tabulates it. */
  lemma WireLayout(cell: Cell)
    ensures var buf := Wire(cell);
      && |buf| == 512
      && buf[0] == 1
      && buf[1] == (if cell.cellType.Data? then 0 else 1)
      && buf[2..18] == cell.messageId
      && cell.seqIndex == buf[18] * 256 + buf[19] as int
      && cell.seqTotal == buf[20] * 256 + buf[21] as int
      && cell.payloadLen == buf[22] * 256 + buf[23] as int
      && buf[24..24 + cell.payloadLen] == Payload(cell)
      && buf[18..20] == BE16(cell.seqIndex)
      && buf[20..22] == BE16(cell.seqTotal)
      && buf[22..24] == BE16(cell.payloadLen)
      && buf[24..] == cell.padded
  {
    var buf := Wire(cell);
    assert buf[18..20] == BE16(cell.seqIndex);
    assert buf[20..22] == BE16(cell.seqTotal);
    assert buf[22..24] == BE16(cell.payloadLen);
    assert buf[2..18] == cell.messageId;
    assert buf[24..] == cell.padded;
  }

  lemma ParseWire(cell: Cell)
    ensures Parse(Wire(cell)) == Ok(cell)
  {
    WireLayout(cell);
    BE16RoundTrip(cell.seqIndex);
    BE16RoundTrip(cell.seqTotal);
    BE16RoundTrip(cell.payloadLen);
  }

  lemma WireParse(buf: Bytes)
    requires |buf| == CELL_SIZE && Parse(buf).Ok?
    ensures Wire(Parse(buf).value) == buf
  {
    BE16Onto(buf[18..20]);
    BE16Onto(buf[20..22]);
    BE16Onto(buf[22..24]);
    assert buf == buf[..2] + buf[2..18] + buf[18..20] + buf[20..22] + buf[22..24] + buf[24..];
  }

  /** Why a buffer is rejected: the first of the four header checks that fails, in the code's order. */
  lemma Rejections(buf: Bytes)
    requires |buf| == CELL_SIZE
    ensures var index, total, len := buf[18] * 256 + buf[19] as int, buf[20] * 256 + buf[21] as int, buf[22] * 256 + buf[23] as int;
      Parse(buf).Err? ==>
        (Parse(buf).error ==
          if buf[0] != 1 then UnsupportedVersion(buf[0])
          else if buf[1] > 1 then InvalidCellType(buf[1])
          else if len > 488 then PayloadTooLarge(len, 488)
          else InvalidSequence(index, total))
    ensures var index, total, len := buf[18] * 256 + buf[19] as int, buf[20] * 256 + buf[21] as int, buf[22] * 256 + buf[23] as int;
      Parse(buf).Ok? <==> buf[0] == 1 && buf[1] <= 1 && len <= 488 && index < total
  {
    assert buf[18..20][0] == buf[18] && buf[18..20][1] == buf[19];
    assert buf[20..22][0] == buf[20] && buf[20..22][1] == buf[21];
    assert buf[22..24][0] == buf[22] && buf[22..24][1] == buf[23];
  }

  /** `from_bytes` accepts exactly the images of `to_bytes`, and names the one cell behind each. */
  lemma CodecBijection(buf: Bytes)
    requires |buf| == CELL_SIZE
    ensures Parse(buf).Ok? <==> exists cell: Cell :: Wire(cell) == buf
    ensures forall cell: Cell :: Wire(cell) == buf <==> Parse(buf) == Ok(cell)
  {
    forall cell: Cell ensures Wire(cell) == buf <==> Parse(buf) == Ok(cell) {
      ParseWire(cell);
      if Parse(buf).Ok? {
        WireParse(buf);
      }
    }
    if Parse(buf).Ok? {
      WireParse(buf);
      assert Wire(Parse(buf).value) == buf;
    }
  }
}
