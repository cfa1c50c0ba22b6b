/** The reassembler: a map of partial messages that refines the history specification. */
module Reassembly {
  import opened ByteStrings
  import opened Cells
  import opened ReassemblySpec
  import opened Sequences
  import opened Wrappers

  datatype PartialMessage = PartialMessage(
    seqTotal: u16,
    received: nat,
    fragments: seq<Option<Bytes>>)

  function CountPresent(slots: seq<Option<Bytes>>): nat {
    if slots == [] then 0 else
    CountPresent(slots[..|slots| - 1]) + (if slots[|slots| - 1].Some? then 1 else 0)
  }

  lemma {:induction false} CountPresentBounds(slots: seq<Option<Bytes>>)
    ensures CountPresent(slots) <= |slots|
    ensures CountPresent(slots) == |slots| <==> AllPresent(slots)
    ensures CountPresent(slots) == 0 <==> forall i :: 0 <= i < |slots| ==> slots[i].None?
  {
    if slots != [] {
      CountPresentBounds(slots[..|slots| - 1]);
    }
  }

  lemma {:induction false} CountPresentFill(slots: seq<Option<Bytes>>, i: nat, v: Bytes)
    requires i < |slots| && slots[i].None?
    ensures CountPresent(slots[i := Some(v)]) == CountPresent(slots) + 1
  {
    var filled := slots[i := Some(v)];
    var front := slots[..|slots| - 1];
    if i == |slots| - 1 {
      assert filled[..|filled| - 1] == front;
    } else {
      CountPresentFill(front, i, v);
      assert filled[..|filled| - 1] == front[i := Some(v)];
    }
  }

  /** The entry that stands for a non-empty list of pending cells. */
  function Represent(s: seq<Cell>): PartialMessage
    requires s != []
  {
    PartialMessage(s[0].seqTotal, CountPresent(Slots(s)), Slots(s))
  }

  function EmptySlots(n: nat): (slots: seq<Option<Bytes>>)
    ensures |slots| == n
  {
    seq(n, _ => None)
  }

  function EmptyEntry(seqTotal: u16): PartialMessage {
    PartialMessage(seqTotal, 0, EmptySlots(seqTotal))
  }

  /** The entry once the cell is in: a slot is written once, and later cells for it are ignored. */
  function Fill(e: PartialMessage, c: Cell): PartialMessage
    requires |e.fragments| == c.seqTotal
  {
    if e.fragments[c.seqIndex].Some? then e else
    e.(fragments := e.fragments[c.seqIndex as int := Some(Payload(c))], received := e.received + 1)
  }

  lemma FirstPayloadNext(open: seq<Cell>, c: Cell, i: nat)
    ensures FirstPayload(open + [c], i) ==
            if FirstPayload(open, i).Some? then FirstPayload(open, i)
            else if c.seqIndex == i then Some(Payload(c)) else None
  {
    assert (open + [c])[..|open|] == open;
  }

  /** The entry a cell is put into, when the cells in `open` are pending. */
  function EntryBefore(open: seq<Cell>, c: Cell): (e: PartialMessage)
    requires !Clashes(open, c)
    ensures |e.fragments| == e.seqTotal == c.seqTotal
  {
    if open == [] then EmptyEntry(c.seqTotal) else Represent(open)
  }

  lemma FillSlotAt(open: seq<Cell>, c: Cell, i: nat)
    requires !Clashes(open, c) && i < c.seqTotal as int
    ensures (open + [c])[0].seqTotal == c.seqTotal
    ensures Slots(open + [c])[i] == Fill(EntryBefore(open, c), c).fragments[i]
  {
    FirstPayloadNext(open, c, i);
    assert EntryBefore(open, c).fragments[i] == FirstPayload(open, i);
  }

  lemma FillSlots(open: seq<Cell>, c: Cell)
    requires !Clashes(open, c)
    ensures Slots(open + [c]) == Fill(EntryBefore(open, c), c).fragments
  {
    var expected := Fill(EntryBefore(open, c), c).fragments;
    assert (open + [c])[0].seqTotal == c.seqTotal;
    forall i: nat | i < c.seqTotal as int ensures Slots(open + [c])[i] == expected[i] {
      FillSlotAt(open, c, i);
    }
  }

  lemma FillRepresents(open: seq<Cell>, c: Cell)
    requires !Clashes(open, c)
    ensures Fill(EntryBefore(open, c), c) == Represent(open + [c])
  {
    var e := EntryBefore(open, c);
    FillSlots(open, c);
    CountPresentBounds(EmptySlots(c.seqTotal));
    if e.fragments[c.seqIndex].None? {
      CountPresentFill(e.fragments, c.seqIndex, Payload(c));
    }
  }

  /** The counter reaches the total exactly when every fragment is present. */
  lemma FullMeansCovers(s: seq<Cell>)
    requires s != []
    ensures Represent(s).received == Represent(s).seqTotal <==> Covers(s)
    ensures Covers(s) ==> AllPresent(Slots(s)) && MessageOf(s) == Join(Contents(Slots(s)))
  {
    CountPresentBounds(Slots(s));
    CoversMeansAllPresent(s);
  }

  function Lookup(m: map<MessageId, PartialMessage>, id: MessageId): Option<PartialMessage> {
    if id in m then Some(m[id]) else None
  }

  function Entry(open: seq<Cell>): Option<PartialMessage> {
    if open == [] then None else Some(Represent(open))
  }

  /** Each entry is the one its id's own history calls for, and there are no others. */
  ghost predicate Reflects(m: map<MessageId, PartialMessage>, h: seq<Op>) {
    forall id: MessageId :: Lookup(m, id) == Entry(Pending(Project(h, id)))
  }

  lemma ReflectsStep(m: map<MessageId, PartialMessage>, h: seq<Op>, op: Op, m': map<MessageId, PartialMessage>)
    requires Reflects(m, h)
    requires Lookup(m', Target(op)) == Entry(NextPending(Pending(Project(h, Target(op))), EventOf(op)))
    requires forall id: MessageId :: id != Target(op) ==> Lookup(m', id) == Lookup(m, id)
    ensures Reflects(m', h + [op])
  {
    forall id: MessageId ensures Lookup(m', id) == Entry(Pending(Project(h + [op], id))) {
      PendingStep(h, op, id);
    }
  }

  /** The entry after an accepted cell, and whether it is complete. */
  lemma AcceptedEntry(m: map<MessageId, PartialMessage>, open: seq<Cell>, c: Cell)
    requires Lookup(m, c.messageId) == Entry(open) && !Clashes(open, c)
    ensures var e := if c.messageId in m then m[c.messageId] else EmptyEntry(c.seqTotal);
      && |e.fragments| == e.seqTotal == c.seqTotal
      && Fill(e, c) == Represent(open + [c])
      && (Fill(e, c).received == c.seqTotal <==> Covers(open + [c]))
  {
    FillRepresents(open, c);
    FullMeansCovers(open + [c]);
  }

  lemma AcceptedReflects(m: map<MessageId, PartialMessage>, h: seq<Op>, c: Cell)
    requires Reflects(m, h) && !Clashes(Pending(Project(h, c.messageId)), c)
    ensures var now := Pending(Project(h, c.messageId)) + [c];
      Reflects(if Covers(now) then m - {c.messageId} else m[c.messageId := Represent(now)], h + [Op.Insert(c)])
  {
    var id, now := c.messageId, Pending(Project(h, c.messageId)) + [c];
    if Covers(now) {
      ReflectsStep(m, h, Op.Insert(c), m - {id});
    } else {
      ReflectsStep(m, h, Op.Insert(c), m[id := Represent(now)]);
    }
  }

  /** What one insertion must do to the map, and answer. */
  lemma InsertCorrect(m: map<MessageId, PartialMessage>, h: seq<Op>, c: Cell)
    requires Reflects(m, h)
    ensures var id, answer, h' := c.messageId, Answer(Pending(Project(h, c.messageId)), c), h + [Op.Insert(c)];
      var e := if id in m then m[id] else EmptyEntry(c.seqTotal);
      && |e.fragments| == e.seqTotal
      && (e.seqTotal != c.seqTotal ==> answer == Err(MismatchedMessageId) && Reflects(m, h'))
      && (e.seqTotal == c.seqTotal ==>
            var e' := Fill(e, c);
            && (e'.received == e'.seqTotal ==>
                  && AllPresent(e'.fragments)
                  && answer == Ok(Some(Join(Contents(e'.fragments))))
                  && Reflects(m - {id}, h'))
            && (e'.received != e'.seqTotal ==>
                  && answer == Ok(None)
                  && Reflects(m[id := e'], h')))
  {
    var open := Pending(Project(h, c.messageId));
    assert Lookup(m, c.messageId) == Entry(open);
    if Clashes(open, c) {
      ReflectsStep(m, h, Op.Insert(c), m);
    } else {
      AcceptedEntry(m, open, c);
      AcceptedReflects(m, h, c);
      FullMeansCovers(open + [c]);
    }
  }

  class Reassembler {
    var inFlight: map<MessageId, PartialMessage>
    ghost var history: seq<Op>

    ghost predicate Valid()
      reads this
    {
      Reflects(inFlight, history)
    }

    constructor ()
      ensures Valid() && history == [] && inFlight == map[]
    {
      inFlight := map[];
      history := [];
    }

    method Insert(cell: Cell) returns (r: Result<Option<Bytes>, VeilError>)
      requires Valid()
      modifies this
      ensures Valid()
      ensures history == old(history) + [Op.Insert(cell)]
      ensures r == Answer(Pending(Project(old(history), cell.messageId)), cell)
      ensures r.Err? ==> inFlight == old(inFlight)
      ensures r.Ok? && r.value.Some? ==> inFlight == old(inFlight) - {cell.messageId}
    {
      InsertCorrect(inFlight, history, cell);
      history := history + [Op.Insert(cell)];

      var id := cell.messageId;
      var seqTotal := cell.seqTotal;
      // `entry` is the source's reference into the map; it is written back once, at the end.
      var entry := if id in inFlight then inFlight[id] else EmptyEntry(seqTotal);
      if entry.seqTotal != seqTotal {
        return Err(MismatchedMessageId);
      }
      entry := FillSlot(entry, cell);
      if entry.received == entry.seqTotal {
        inFlight := inFlight - {id};
        var message := Assemble(entry.fragments);
        return Ok(Some(message));
      }
      inFlight := inFlight[id := entry];
      return Ok(None);
    }

    method Evict(id: MessageId)
      requires Valid()
      modifies this
      ensures Valid()
      ensures history == old(history) + [Op.Evict(id)]
      ensures inFlight == old(inFlight) - {id}
    {
      ReflectsStep(inFlight, history, Op.Evict(id), inFlight - {id});
      inFlight := inFlight - {id};
      history := history + [Op.Evict(id)];
    }

    /** Number of messages still waiting for fragments. */
    function PendingCount(): nat
      reads this
    {
      |inFlight|
    }
  }

  method FillSlot(entry: PartialMessage, cell: Cell) returns (e: PartialMessage)
    requires |entry.fragments| == cell.seqTotal
    ensures e == Fill(entry, cell)
  {
    e := entry;
    var seqIndex := cell.seqIndex as int;
    if e.fragments[seqIndex].None? {
      e := e.(fragments := e.fragments[seqIndex := Some(Payload(cell))]);
      e := e.(received := e.received + 1);
    }
  }

  /** The loop that concatenates the fragments; no slot is empty when it runs. */
  method Assemble(fragments: seq<Option<Bytes>>) returns (message: Bytes)
    requires AllPresent(fragments)
    ensures message == Join(Contents(fragments))
  {
    message := [];
    for i := 0 to |fragments|
      invariant message == Join(Contents(fragments)[..i])
    {
      message := message + fragments[i].value;
      assert Contents(fragments)[..i + 1] == Contents(fragments)[..i] + [fragments[i].value];
      JoinAppend(Contents(fragments)[..i], fragments[i].value);
    }
    assert Contents(fragments)[..|fragments|] == Contents(fragments);
  }

  lemma OpenEntryWellFormed(open: seq<Cell>)
    requires open != [] && !Covers(open)
    ensures 1 <= Represent(open).received < Represent(open).seqTotal
  {
    var i := open[0].seqIndex;
    CoversMeansAllPresent(open);
    CountPresentBounds(Slots(open));
    assert Has(open, i);
    FirstPayloadIsFirst(open, i);
    assert Slots(open)[i].Some?;
  }

  /** What every in-flight entry satisfies, so that no index is out of bounds and no `expect` fails. */
  lemma EntriesAreWellFormed(r: Reassembler, id: MessageId)
    requires r.Valid() && id in r.inFlight
    ensures var p := r.inFlight[id];
      && |p.fragments| == p.seqTotal
      && p.received == CountPresent(p.fragments)
      && 1 <= p.received < p.seqTotal
  {
    var open := Pending(Project(r.history, id));
    assert Lookup(r.inFlight, id) == Entry(open);
    PendingIsOpen(Project(r.history, id));
    OpenEntryWellFormed(open);
  }

  /** The ids counted by `pending_count` are those with accepted cells still waiting. */
  lemma InFlightIds(r: Reassembler, id: MessageId)
    requires r.Valid()
    ensures id in r.inFlight <==> Pending(Project(r.history, id)) != []
  {
    assert Lookup(r.inFlight, id) == Entry(Pending(Project(r.history, id)));
  }

  /** `pending_count` is the number of ids with accepted cells waiting. */
  lemma PendingCountIsIds(r: Reassembler, ids: set<MessageId>)
    requires r.Valid()
    requires forall id: MessageId :: id in ids <==> Pending(Project(r.history, id)) != []
    ensures r.PendingCount() == |ids|
  {
    forall id: MessageId ensures id in ids <==> id in r.inFlight.Keys {
      InFlightIds(r, id);
    }
    assert ids == r.inFlight.Keys;
    assert |r.inFlight.Keys| == |r.inFlight|;
  }

  /** `pending_count` is zero exactly when no id has accepted cells waiting. */
  lemma NothingInFlight(r: Reassembler)
    requires r.Valid()
    ensures r.PendingCount() == 0 <==> forall id: MessageId :: Pending(Project(r.history, id)) == []
  {
    forall id: MessageId ensures id in r.inFlight <==> Pending(Project(r.history, id)) != [] {
      InFlightIds(r, id);
    }
    assert r.PendingCount() == |r.inFlight.Keys|;
    if r.inFlight.Keys != {} {
      var id :| id in r.inFlight.Keys;
      assert Pending(Project(r.history, id)) != [];
    }
  }
}
