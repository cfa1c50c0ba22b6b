/** Polling mailboxes, decrypting what is addressed to an identity, and reassembling it across polls. */
module Receivers {
  import opened ByteStrings
  import opened Cells
  import opened Crypto
  import opened Encryption
  import opened Reassembly
  import opened ReassemblySpec
  import opened Sequences
  import opened Wrappers

  datatype ReceiveError = Io

  function Opener(cs: Crypto, identity: Key): Bytes -> Option<Cell> {
    raw => OpenEnvelope(cs, identity, raw)
  }

  /** The cells, among some pulled byte strings, that open under the identity's key. */
  function Opened(cs: Crypto, identity: Key, raws: seq<Bytes>): seq<Cell> {
    FilterMap(Opener(cs, identity), raws)
  }

  /** What each mailbox answered to one poll: its cells, or None if talking to it failed. */
  type Pulls = seq<Option<seq<Bytes>>>

  predicate AllAnswered(pulls: Pulls) {
    forall i :: 0 <= i < |pulls| ==> pulls[i].Some?
  }

  function Answers(pulls: Pulls): (as_: seq<seq<Bytes>>)
    requires AllAnswered(pulls)
    ensures |as_| == |pulls|
  {
    seq(|pulls|, i requires 0 <= i < |pulls| => pulls[i].value)
  }

  lemma AnswersAppend(pulls: Pulls, i: nat)
    requires i < |pulls| && AllAnswered(pulls[..i]) && pulls[i].Some?
    ensures AllAnswered(pulls[..i + 1])
    ensures Join(Answers(pulls[..i + 1])) == Join(Answers(pulls[..i])) + pulls[i].value
  {
    assert Answers(pulls[..i + 1]) == Answers(pulls[..i]) + [pulls[i].value];
    JoinAppend(Answers(pulls[..i]), pulls[i].value);
  }

  /** Polls every mailbox in turn; the first failure loses what the earlier ones handed over. */
  method Receive(cs: Crypto, identity: Key, pulls: Pulls) returns (r: Result<seq<Cell>, ReceiveError>)
    ensures r.Ok? <==> AllAnswered(pulls)
    ensures r.Ok? ==> r.value == Opened(cs, identity, Join(Answers(pulls)))
  {
    var decrypted: seq<Cell> := [];
    for i := 0 to |pulls|
      invariant AllAnswered(pulls[..i])
      invariant decrypted == Opened(cs, identity, Join(Answers(pulls[..i])))
    {
      if pulls[i].None? {
        return Err(Io);
      }
      AnswersAppend(pulls, i);
      FilterMapConcat(Opener(cs, identity), Join(Answers(pulls[..i])), pulls[i].value);
      var cells := OpenAll(cs, identity, pulls[i].value);
      decrypted := decrypted + cells;
    }
    assert pulls[..|pulls|] == pulls;
    r := Ok(decrypted);
  }

  /** The inner loop, over what one mailbox returned. */
  method OpenAll(cs: Crypto, identity: Key, envelopes: seq<Bytes>) returns (cells: seq<Cell>)
    ensures cells == Opened(cs, identity, envelopes)
  {
    cells := [];
    for j := 0 to |envelopes|
      invariant cells == Opened(cs, identity, envelopes[..j])
    {
      assert envelopes[..j + 1] == envelopes[..j] + [envelopes[j]];
      FilterMapAppend(Opener(cs, identity), envelopes[..j], envelopes[j]);
      var cell := TryOpen(cs, identity, envelopes[j]);
      if cell.Some? {
        cells := cells + [cell.value];
      }
    }
    assert envelopes[..|envelopes|] == envelopes;
  }

  /** One pulled byte string: anything that is not an envelope for this identity is passed over. */
  method TryOpen(cs: Crypto, identity: Key, raw: Bytes) returns (r: Option<Cell>)
    ensures r == OpenEnvelope(cs, identity, raw)
    ensures forall cell: Cell :: r == Some(cell) <==>
              && |raw| == 572
              && cs.open(cs.derive(cs.agree(identity, raw[..32]), SESSION_CONTEXT), raw[32..44], raw[44..])
                   == Some(Wire(cell))
  {
    forall cell: Cell {
      OpensForThisIdentity(cs, identity, raw, cell);
    }
    var envelope := Unwrap(raw);
    if envelope.Err? {
      return None;
    }
    var key := cs.derive(cs.agree(identity, envelope.value.sender), SESSION_CONTEXT);
    var cell := DecryptCell(cs, key, envelope.value.cell);
    r := if cell.Ok? then Some(cell.value) else None;
  }

  /** A poll's cells as operations on the reassembler. */
  function Inserts(cells: seq<Cell>): (ops: seq<Op>)
    ensures |ops| == |cells|
  {
    seq(|cells|, i requires 0 <= i < |cells| => Op.Insert(cells[i]))
  }

  lemma InsertsAppend(h: seq<Op>, cells: seq<Cell>, i: nat)
    requires i < |cells|
    ensures h + Inserts(cells[..i + 1]) == h + Inserts(cells[..i]) + [Op.Insert(cells[i])]
  {
    assert Inserts(cells[..i + 1]) == Inserts(cells[..i]) + [Op.Insert(cells[i])];
  }

  /** Two polls one after the other feed the reassembler what one poll of everything would. */
  lemma PollsAccumulate(cs: Crypto, identity: Key, first: seq<Bytes>, second: seq<Bytes>)
    ensures Inserts(Opened(cs, identity, first + second)) ==
            Inserts(Opened(cs, identity, first)) + Inserts(Opened(cs, identity, second))
  {
    FilterMapConcat(Opener(cs, identity), first, second);
  }

  /** The messages of a list of completions, without their ids. */
  function Texts(done: seq<(MessageId, Bytes)>): (ms: seq<Bytes>)
    ensures |ms| == |done|
  {
    seq(|done|, i requires 0 <= i < |done| => done[i].1)
  }

  lemma CompletionStep(h: seq<Op>, cell: Cell)
    ensures var a := Answer(Pending(Project(h, cell.messageId)), cell);
      Texts(Completions(h + [Op.Insert(cell)])) ==
      Texts(Completions(h)) + (if a.Ok? && a.value.Some? then [a.value.value] else [])
  {
    var h' := h + [Op.Insert(cell)];
    assert h'[..|h|] == h;
  }

  class Receiver {
    const cs: Crypto
    const identity: Key
    const reassembler: Reassembler

    constructor (cs: Crypto, identity: Key)
      ensures this.cs == cs && this.identity == identity
      ensures fresh(reassembler) && reassembler.Valid() && reassembler.history == []
    {
      this.cs, this.identity := cs, identity;
      reassembler := new Reassembler();
    }

    /** Feeds one cell; a rejected one is dropped without aborting the poll. */
    method Feed(cell: Cell) returns (completed: seq<Bytes>)
      requires reassembler.Valid()
      modifies reassembler
      ensures reassembler.Valid()
      ensures reassembler.history == old(reassembler.history) + [Op.Insert(cell)]
      ensures Texts(Completions(reassembler.history)) == Texts(Completions(old(reassembler.history))) + completed
    {
      CompletionStep(reassembler.history, cell);
      var outcome := reassembler.Insert(cell);
      completed := if outcome.Ok? && outcome.value.Some? then [outcome.value.value] else [];
    }

    /** Messages completed by this poll, possibly with cells kept from earlier ones. */
    method Poll(pulls: Pulls) returns (r: Result<seq<Bytes>, ReceiveError>)
      requires reassembler.Valid()
      modifies reassembler
      ensures reassembler.Valid()
      ensures r.Ok? <==> AllAnswered(pulls)
      ensures r.Err? ==> reassembler.history == old(reassembler.history)
      ensures r.Err? ==> reassembler.inFlight == old(reassembler.inFlight)
      ensures r.Ok? ==>
        && reassembler.history ==
             old(reassembler.history) + Inserts(Opened(cs, identity, Join(Answers(pulls))))
        && Texts(Completions(reassembler.history)) == Texts(Completions(old(reassembler.history))) + r.value
    {
      var received := Receive(cs, identity, pulls);
      if received.Err? {
        return Err(Io);
      }
      var completed := FeedAll(received.value);
      r := Ok(completed);
    }

    method FeedAll(cells: seq<Cell>) returns (completed: seq<Bytes>)
      requires reassembler.Valid()
      modifies reassembler
      ensures reassembler.Valid()
      ensures reassembler.history == old(reassembler.history) + Inserts(cells)
      ensures Texts(Completions(reassembler.history)) == Texts(Completions(old(reassembler.history))) + completed
    {
      completed := [];
      ghost var h, before := reassembler.history, Texts(Completions(reassembler.history));
      for i := 0 to |cells|
        invariant reassembler.Valid()
        invariant reassembler.history == h + Inserts(cells[..i])
        invariant Texts(Completions(reassembler.history)) == before + completed
      {
        InsertsAppend(h, cells, i);
        var message := Feed(cells[i]);
        Regroup(before, completed, message);
        completed := completed + message;
      }
      assert cells[..|cells|] == cells;
    }

    function PendingCount(): nat
      reads reassembler
    {
      reassembler.PendingCount()
    }
  }
}
