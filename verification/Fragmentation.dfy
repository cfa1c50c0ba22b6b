/** Splitting a message into cells. */
module Fragmentation {
  import opened ByteStrings
  import opened Cells
  import opened Sequences
  import opened Wrappers

  const MAX_MESSAGE_SIZE := PAYLOAD_CAPACITY * 65535

  predicate Sendable(message: Bytes) {
    1 <= |message| <= MAX_MESSAGE_SIZE
  }

  /** `len.div_ceil(PAYLOAD_CAPACITY)` */
  function CellCount(len: nat): nat {
    (len + PAYLOAD_CAPACITY - 1) / PAYLOAD_CAPACITY
  }

  lemma CellCountBounds(len: nat)
    ensures 1 <= len <= MAX_MESSAGE_SIZE ==> 1 <= CellCount(len) < U16_LIMIT
    ensures len > 0 ==> (CellCount(len) - 1) * PAYLOAD_CAPACITY < len <= CellCount(len) * PAYLOAD_CAPACITY
  {
  }

  /** The i-th element of `message.chunks(PAYLOAD_CAPACITY)`. */
  function Chunk(message: Bytes, i: nat): (c: Bytes)
    requires i < CellCount(|message|)
    ensures 1 <= |c| <= PAYLOAD_CAPACITY
    ensures i < CellCount(|message|) - 1 ==> |c| == PAYLOAD_CAPACITY
  {
    message[i * PAYLOAD_CAPACITY..Min((i + 1) * PAYLOAD_CAPACITY, |message|)]
  }

  function Chunks(message: Bytes, n: nat): (cs: seq<Bytes>)
    requires n <= CellCount(|message|)
    ensures |cs| == n
  {
    seq(n, i requires 0 <= i < n => Chunk(message, i))
  }

  lemma {:induction false} JoinChunks(message: Bytes, n: nat)
    requires n <= CellCount(|message|)
    ensures Join(Chunks(message, n)) == message[..Min(n * PAYLOAD_CAPACITY, |message|)]
  {
    if n > 0 {
      JoinChunks(message, n - 1);
      assert Chunks(message, n)[..n - 1] == Chunks(message, n - 1);
      assert message[..Min((n - 1) * PAYLOAD_CAPACITY, |message|)] + Chunk(message, n - 1)
          == message[..Min(n * PAYLOAD_CAPACITY, |message|)];
    }
  }

  /** The cells a message is cut into. */
  function Fragments(id: MessageId, message: Bytes): (cells: seq<Cell>)
    requires Sendable(message)
    ensures |cells| == CellCount(|message|)
  {
    var n := CellCount(|message|);
    CellCountBounds(|message|);
    seq(n, i requires 0 <= i < n => DataCell(id, i, n, Chunk(message, i)))
  }

  function Payloads(cells: seq<Cell>): (ps: seq<Bytes>)
    ensures |ps| == |cells|
  {
    seq(|cells|, i requires 0 <= i < |cells| => Payload(cells[i]))
  }

  /**
   The sequence numbers are 0..n-1 of n without loss, n is the least number of cells
   that can hold the message, every cell but the last is full, none is empty,
   and the payloads in index order are the message.
   */
  lemma FragmentsPartition(id: MessageId, message: Bytes)
    requires Sendable(message)
    ensures var cells := Fragments(id, message);
      && 1 <= |cells| <= 65535
      && (|cells| - 1) * PAYLOAD_CAPACITY < |message| <= |cells| * PAYLOAD_CAPACITY
      && (forall i :: 0 <= i < |cells| ==>
            && cells[i].messageId == id
            && cells[i].cellType.Data?
            && cells[i].seqIndex == i
            && cells[i].seqTotal == |cells|
            && Payload(cells[i]) != [])
      && (forall i :: 0 <= i < |cells| - 1 ==> |Payload(cells[i])| == PAYLOAD_CAPACITY)
      && Join(Payloads(cells)) == message
  {
    var n := CellCount(|message|);
    CellCountBounds(|message|);
    JoinChunks(message, n);
    assert Payloads(Fragments(id, message)) == Chunks(message, n);
    assert message[..Min(n * PAYLOAD_CAPACITY, |message|)] == message;
  }

  /** `messageId` is the identifier drawn from the generator. */
  method FragmentMessage(message: Bytes, messageId: MessageId)
    returns (r: Result<seq<Cell>, VeilError>)
    ensures r.Ok? <==> Sendable(message)
    ensures Sendable(message) <==> 1 <= |message| <= 488 * 65535
    ensures r.Ok? ==> r.value == Fragments(messageId, message)
    ensures r.Err? ==> r.error == MessageTooLarge(|message|, MAX_MESSAGE_SIZE)
  {
    if message == [] {
      return Err(MessageTooLarge(0, MAX_MESSAGE_SIZE));
    }
    if |message| > MAX_MESSAGE_SIZE {
      return Err(MessageTooLarge(|message|, MAX_MESSAGE_SIZE));
    }
    var totalCells := CellCount(|message|);
    var seqTotal := AsU16(totalCells);
    CellCountBounds(|message|);
    var cells: seq<Cell> := [];
    for i := 0 to totalCells
      invariant cells == Fragments(messageId, message)[..i]
    {
      var cell := NewData(messageId, AsU16(i), seqTotal, Chunk(message, i));
      assert cell.Ok?;  // the source's `?` never returns here
      cells := cells + [cell.value];
    }
    r := Ok(cells);
  }
}
