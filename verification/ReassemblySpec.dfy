/**
 What reassembly means, told from the history of calls alone.

 For one message id the history is a list of events. Read from the left, it falls apart
 into blocks: a block ends as soon as the cells it accepted cover every index (the message
 is emitted) or when the id is evicted. `Block` and `Decomposes` below say that without
 reference to any machine state; `DecompositionDecides` shows it determines what the
 step-by-step reading (`Pending`, `Emitted`) yields, and `Decompose` that it always exists.
 */
module ReassemblySpec {
  import opened ByteStrings
  import opened Cells
  import opened Sequences
  import opened Wrappers

  datatype Op = Insert(cell: Cell) | Evict(id: MessageId)

  datatype Event = Arrive(cell: Cell) | Drop

  function Target(op: Op): MessageId {
    match op
    case Insert(c) => c.messageId
    case Evict(id) => id
  }

  function EventOf(op: Op): Event {
    match op
    case Insert(c) => Arrive(c)
    case Evict(_) => Drop
  }

  /** The part of a history that concerns one message id. */
  function Project(h: seq<Op>, id: MessageId): seq<Event> {
    if h == [] then [] else
    var rest := Project(h[..|h| - 1], id);
    var op := h[|h| - 1];
    if Target(op) == id then rest + [EventOf(op)] else rest
  }

  lemma ProjectStep(h: seq<Op>, op: Op, id: MessageId)
    ensures Project(h + [op], id) ==
            if Target(op) == id then Project(h, id) + [EventOf(op)] else Project(h, id)
  {
    assert (h + [op])[..|h|] == h;
  }

  // ----- one block's worth of accepted cells -----

  ghost predicate Has(s: seq<Cell>, i: nat) {
    exists j :: 0 <= j < |s| && s[j].seqIndex == i
  }

  /** Every index of the first cell's sequence is present. */
  ghost predicate Covers(s: seq<Cell>) {
    s != [] && forall i: nat :: i < s[0].seqTotal ==> Has(s, i)
  }

  predicate Clashes(s: seq<Cell>, c: Cell) {
    s != [] && s[0].seqTotal != c.seqTotal
  }

  /** The payload of the first cell that carries index i. */
  function FirstPayload(s: seq<Cell>, i: nat): Option<Bytes> {
    if s == [] then None else
    var earlier := FirstPayload(s[..|s| - 1], i);
    if earlier.Some? then earlier
    else if s[|s| - 1].seqIndex == i then Some(Payload(s[|s| - 1]))
    else None
  }

  lemma {:induction false} FirstPayloadIsFirst(s: seq<Cell>, i: nat)
    ensures FirstPayload(s, i).Some? <==> Has(s, i)
    ensures FirstPayload(s, i).Some? ==>
      exists j :: 0 <= j < |s| && s[j].seqIndex == i && FirstPayload(s, i) == Some(Payload(s[j]))
        && forall k :: 0 <= k < j ==> s[k].seqIndex != i
  {
    if s != [] {
      var front := s[..|s| - 1];
      FirstPayloadIsFirst(front, i);
      if FirstPayload(front, i).Some? {
        var j :| 0 <= j < |front| && front[j].seqIndex == i && FirstPayload(front, i) == Some(Payload(front[j]))
          && forall k :: 0 <= k < j ==> front[k].seqIndex != i;
        assert s[j].seqIndex == i;
      } else {
        assert forall k :: 0 <= k < |front| ==> s[k] == front[k];
        assert !Has(front, i);
        assert forall k :: 0 <= k < |front| ==> front[k].seqIndex != i;
      }
    }
  }

  function Slots(s: seq<Cell>): (slots: seq<Option<Bytes>>)
    requires s != []
    ensures |slots| == s[0].seqTotal
  {
    seq(s[0].seqTotal, i requires 0 <= i < s[0].seqTotal => FirstPayload(s, i))
  }

  ghost predicate AllPresent(slots: seq<Option<Bytes>>) {
    forall i :: 0 <= i < |slots| ==> slots[i].Some?
  }

  function Contents(slots: seq<Option<Bytes>>): (parts: seq<Bytes>)
    requires AllPresent(slots)
    ensures |parts| == |slots|
  {
    seq(|slots|, i requires 0 <= i < |slots| => slots[i].value)
  }

  lemma CoversMeansAllPresent(s: seq<Cell>)
    requires s != []
    ensures Covers(s) <==> AllPresent(Slots(s))
  {
    forall i: nat | i < s[0].seqTotal ensures Slots(s)[i].Some? <==> Has(s, i) {
      FirstPayloadIsFirst(s, i);
    }
    if AllPresent(Slots(s)) {
      forall i: nat | i < s[0].seqTotal ensures Has(s, i) {
        assert Slots(s)[i].Some?;
      }
    }
  }

  /** The message a covering block spells: first payload seen for each index, in index order. */
  ghost function MessageOf(s: seq<Cell>): Bytes
    requires Covers(s)
  {
    CoversMeansAllPresent(s);
    Join(Contents(Slots(s)))
  }

  // ----- reading a history step by step -----

  /** What one event does to the cells accepted for its id and not yet turned into a message. */
  ghost function NextPending(open: seq<Cell>, e: Event): seq<Cell> {
    match e
    case Drop => []
    case Arrive(c) =>
      if Clashes(open, c) then open
      else if Covers(open + [c]) then []
      else open + [c]
  }

  ghost function Pending(es: seq<Event>): seq<Cell> {
    if es == [] then [] else NextPending(Pending(es[..|es| - 1]), es[|es| - 1])
  }

  lemma PendingStep(h: seq<Op>, op: Op, id: MessageId)
    ensures Pending(Project(h + [op], id)) ==
            if Target(op) == id then NextPending(Pending(Project(h, id)), EventOf(op))
            else Pending(Project(h, id))
  {
    ProjectStep(h, op, id);
    assert (Project(h, id) + [EventOf(op)])[..|Project(h, id)|] == Project(h, id);
  }

  /** What one insertion answers, given the pending cells of its id. */
  ghost function Answer(open: seq<Cell>, c: Cell): Result<Option<Bytes>, VeilError> {
    if Clashes(open, c) then Err(MismatchedMessageId)
    else if Covers(open + [c]) then Ok(Some(MessageOf(open + [c])))
    else Ok(None)
  }

  ghost function EmittedBy(open: seq<Cell>, e: Event): seq<Bytes> {
    match e
    case Drop => []
    case Arrive(c) =>
      var a := Answer(open, c);
      if a.Ok? && a.value.Some? then [a.value.value] else []
  }

  /** The messages emitted over an id's history, in order. */
  ghost function Emitted(es: seq<Event>): seq<Bytes> {
    if es == [] then [] else
    var front := es[..|es| - 1];
    Emitted(front) + EmittedBy(Pending(front), es[|es| - 1])
  }

  /** Pending cells never clash with one another and never cover. */
  lemma {:induction false} PendingIsOpen(es: seq<Event>)
    ensures !Covers(Pending(es))
    ensures forall j :: 0 <= j < |Pending(es)| ==> Pending(es)[j].seqTotal == Pending(es)[0].seqTotal
  {
    if es != [] {
      PendingIsOpen(es[..|es| - 1]);
    }
  }

  // ----- the history cut into blocks -----

  function Arrivals(cells: seq<Cell>): (es: seq<Event>)
    ensures |es| == |cells|
  {
    seq(|cells|, i requires 0 <= i < |cells| => Arrive(cells[i]))
  }

  /** Those cells of a block that agree with its first cell on the number of fragments. */
  function Accepted(cells: seq<Cell>): seq<Cell> {
    if cells == [] then [] else
    var earlier := Accepted(cells[..|cells| - 1]);
    var c := cells[|cells| - 1];
    if c.seqTotal == cells[0].seqTotal then earlier + [c] else earlier
  }

  /** No prefix of the block completes a message. */
  ghost predicate NeverCovers(cells: seq<Cell>) {
    !Covers(Accepted(cells)) && (cells != [] ==> NeverCovers(cells[..|cells| - 1]))
  }

  /** A block: cells up to and including the one that completes a message, or cells up to an eviction. */
  datatype Block = Completed(cells: seq<Cell>) | Evicted(cells: seq<Cell>)

  ghost predicate Minimal(b: Block) {
    match b
    case Completed(cells) =>
      && cells != []
      && Covers(Accepted(cells))
      && NeverCovers(cells[..|cells| - 1])
    case Evicted(cells) => NeverCovers(cells)
  }

  function BlockEvents(b: Block): seq<Event> {
    match b
    case Completed(cells) => Arrivals(cells)
    case Evicted(cells) => Arrivals(cells) + [Drop]
  }

  function Events(blocks: seq<Block>): seq<Event> {
    if blocks == [] then []
    else Events(blocks[..|blocks| - 1]) + BlockEvents(blocks[|blocks| - 1])
  }

  ghost predicate AllMinimal(blocks: seq<Block>) {
    forall b :: b in blocks ==> Minimal(b)
  }

  /** `es` is the blocks one after another, followed by cells that complete nothing. */
  ghost predicate Decomposes(es: seq<Event>, blocks: seq<Block>, tail: seq<Cell>) {
    && AllMinimal(blocks)
    && NeverCovers(tail)
    && es == Events(blocks) + Arrivals(tail)
  }

  ghost function Messages(blocks: seq<Block>): seq<Bytes>
    requires AllMinimal(blocks)
  {
    if blocks == [] then [] else
    var earlier := Messages(blocks[..|blocks| - 1]);
    var b := blocks[|blocks| - 1];
    assert Minimal(b);
    if b.Completed? then earlier + [MessageOf(Accepted(b.cells))] else earlier
  }

  lemma ArrivalsAppend(es: seq<Event>, cells: seq<Cell>)
    requires cells != []
    ensures es + Arrivals(cells) == (es + Arrivals(cells[..|cells| - 1])) + [Arrive(cells[|cells| - 1])]
  {
  }

  lemma {:induction false} AcceptedFirst(cells: seq<Cell>)
    requires cells != []
    ensures Accepted(cells) != [] && Accepted(cells)[0] == cells[0]
  {
    if |cells| > 1 {
      AcceptedFirst(cells[..|cells| - 1]);
    }
  }

  /** What the last of a block's cells does, once the others are accepted and pending. */
  lemma ArriveNext(es: seq<Event>, cells: seq<Cell>)
    requires cells != [] && Pending(es) == Accepted(cells[..|cells| - 1])
    ensures var last := cells[|cells| - 1];
      var es' := es + [Arrive(last)];
      && (!Covers(Accepted(cells)) ==> Pending(es') == Accepted(cells) && Emitted(es') == Emitted(es))
      && (Covers(Accepted(cells)) && last.seqTotal == cells[0].seqTotal ==>
            Pending(es') == [] && Emitted(es') == Emitted(es) + [MessageOf(Accepted(cells))])
  {
    var last := cells[|cells| - 1];
    var es' := es + [Arrive(last)];
    assert es'[..|es'| - 1] == es;
    if |cells| > 1 {
      AcceptedFirst(cells[..|cells| - 1]);
    }
  }

  /** From a point with nothing pending, cells that complete nothing simply accumulate. */
  lemma {:induction false} QuietRun(es: seq<Event>, cells: seq<Cell>)
    requires Pending(es) == [] && NeverCovers(cells)
    ensures Pending(es + Arrivals(cells)) == Accepted(cells)
    ensures Emitted(es + Arrivals(cells)) == Emitted(es)
  {
    if cells == [] {
      assert es + Arrivals(cells) == es;
    } else {
      var front := cells[..|cells| - 1];
      QuietRun(es, front);
      ArrivalsAppend(es, cells);
      ArriveNext(es + Arrivals(front), cells);
    }
  }

  /** A completed block leaves nothing pending and emits its message. */
  lemma CompletedRun(es: seq<Event>, cells: seq<Cell>)
    requires Pending(es) == [] && Minimal(Completed(cells))
    ensures Pending(es + Arrivals(cells)) == []
    ensures Emitted(es + Arrivals(cells)) == Emitted(es) + [MessageOf(Accepted(cells))]
  {
    var front := cells[..|cells| - 1];
    QuietRun(es, front);
    ArrivalsAppend(es, cells);
    ArriveNext(es + Arrivals(front), cells);
  }

  /** An evicted block leaves nothing pending and emits nothing. */
  lemma EvictedRun(es: seq<Event>, cells: seq<Cell>)
    requires Pending(es) == [] && NeverCovers(cells)
    ensures Pending(es + (Arrivals(cells) + [Drop])) == []
    ensures Emitted(es + (Arrivals(cells) + [Drop])) == Emitted(es)
  {
    QuietRun(es, cells);
    DropStep(es + Arrivals(cells));
    Regroup(es, Arrivals(cells), [Drop]);
  }

  lemma DropStep(es: seq<Event>)
    ensures Pending(es + [Drop]) == []
    ensures Emitted(es + [Drop]) == Emitted(es)
  {
    assert (es + [Drop])[..|es|] == es;
    assert Emitted(es) + [] == Emitted(es);
  }

  /** The cut into minimal blocks decides what is emitted and what stays pending. */
  lemma {:induction false} DecompositionDecides(es: seq<Event>, blocks: seq<Block>, tail: seq<Cell>)
    requires Decomposes(es, blocks, tail)
    ensures Emitted(es) == Messages(blocks)
    ensures Pending(es) == Accepted(tail)
  {
    BlocksRun(blocks);
    QuietRun(Events(blocks), tail);
  }

  lemma {:induction false} BlocksRun(blocks: seq<Block>)
    requires AllMinimal(blocks)
    ensures Pending(Events(blocks)) == []
    ensures Emitted(Events(blocks)) == Messages(blocks)
  {
    if blocks != [] {
      var before, b := blocks[..|blocks| - 1], blocks[|blocks| - 1];
      BlocksRun(before);
      assert Minimal(b);
      match b
      case Completed(cells) => CompletedRun(Events(before), cells);
      case Evicted(cells) => EvictedRun(Events(before), cells);
    }
  }

  lemma EventsAppend(before: seq<Block>, b: Block)
    ensures Events(before + [b]) == Events(before) + BlockEvents(b)
  {
    assert (before + [b])[..|before|] == before;
  }

  lemma CloseBlock(before: seq<Block>, b: Block, es: seq<Event>)
    requires AllMinimal(before) && Minimal(b) && es == Events(before) + BlockEvents(b)
    ensures Decomposes(es, before + [b], [])
  {
    EventsAppend(before, b);
    assert es == es + Arrivals([]);
  }

  /** Every history can be cut that way. */
  lemma {:induction false} Decompose(es: seq<Event>) returns (blocks: seq<Block>, tail: seq<Cell>)
    ensures Decomposes(es, blocks, tail)
  {
    if es == [] {
      blocks, tail := [], [];
    } else {
      var e := es[|es| - 1];
      blocks, tail := Decompose(es[..|es| - 1]);
      assert es == (Events(blocks) + Arrivals(tail)) + [e];
      Regroup(Events(blocks), Arrivals(tail), [e]);
      if e.Drop? {
        CloseBlock(blocks, Evicted(tail), es);
        blocks, tail := blocks + [Evicted(tail)], [];
      } else {
        assert (tail + [e.cell])[..|tail|] == tail;
        ArrivalsAppend(Events(blocks), tail + [e.cell]);
        if Covers(Accepted(tail + [e.cell])) {
          CloseBlock(blocks, Completed(tail + [e.cell]), es);
          blocks, tail := blocks + [Completed(tail + [e.cell])], [];
        } else {
          tail := tail + [e.cell];
        }
      }
    }
  }

  /**
   The refinement theorem: every history of an id has a cut into minimal blocks, and any
   such cut names exactly the messages emitted, in order, and the cells still pending.
   */
  lemma HistoryIsItsBlocks(es: seq<Event>)
    ensures exists blocks, tail :: Decomposes(es, blocks, tail)
    ensures forall blocks, tail ::
              Decomposes(es, blocks, tail) ==> Emitted(es) == Messages(blocks) && Pending(es) == Accepted(tail)
  {
    var cut, rest := Decompose(es);
    forall blocks, tail | Decomposes(es, blocks, tail)
      ensures Emitted(es) == Messages(blocks) && Pending(es) == Accepted(tail)
    {
      DecompositionDecides(es, blocks, tail);
    }
  }

  /**
   What the next cell of an id is answered, told from any cut of its history: an error exactly if
   the open block started with another total, a message exactly if it completes the block.
   */
  lemma AnswerFromCut(es: seq<Event>, blocks: seq<Block>, tail: seq<Cell>, c: Cell)
    requires Decomposes(es, blocks, tail)
    ensures var answer, clash := Answer(Pending(es), c), tail != [] && tail[0].seqTotal != c.seqTotal;
      && (answer == Err(MismatchedMessageId) <==> clash)
      && (!clash && NeverCovers(tail + [c]) ==> answer == Ok(None))
      && (!clash && !NeverCovers(tail + [c]) ==>
            Minimal(Completed(tail + [c])) && answer == Ok(Some(MessageOf(Accepted(tail + [c])))))
  {
    DecompositionDecides(es, blocks, tail);
    assert (tail + [c])[..|tail|] == tail;
    if tail != [] {
      AcceptedFirst(tail);
    }
  }

  // ----- whole histories, many ids at once -----

  /** The messages emitted over a whole history, in order, each with the id it completed. */
  ghost function Completions(h: seq<Op>): seq<(MessageId, Bytes)> {
    if h == [] then [] else
    var front, op := h[..|h| - 1], h[|h| - 1];
    Completions(front) + Tag(Target(op), EmittedBy(Pending(Project(front, Target(op))), EventOf(op)))
  }

  function Tag(id: MessageId, ms: seq<Bytes>): (r: seq<(MessageId, Bytes)>)
    ensures |r| == |ms|
  {
    seq(|ms|, i requires 0 <= i < |ms| => (id, ms[i]))
  }

  /** The messages in a list of completions that belong to one id. */
  function For(id: MessageId, done: seq<(MessageId, Bytes)>): seq<Bytes> {
    if done == [] then [] else
    var earlier := For(id, done[..|done| - 1]);
    var last := done[|done| - 1];
    if last.0 == id then earlier + [last.1] else earlier
  }

  lemma ForAppend(id: MessageId, done: seq<(MessageId, Bytes)>, id': MessageId, ms: seq<Bytes>)
    requires |ms| <= 1
    ensures For(id, done + Tag(id', ms)) == (if id == id' then For(id, done) + ms else For(id, done))
  {
    if ms == [] {
      assert done + Tag(id', ms) == done;
    } else {
      assert (done + Tag(id', ms))[..|done|] == done;
    }
  }

  /** The outputs for an id are those of its own events: other ids cannot interfere. */
  lemma {:induction false} CompletionsPerId(h: seq<Op>, id: MessageId)
    ensures For(id, Completions(h)) == Emitted(Project(h, id))
  {
    if h != [] {
      var front, op := h[..|h| - 1], h[|h| - 1];
      CompletionsPerId(front, id);
      ForAppend(id, Completions(front), Target(op),
                EmittedBy(Pending(Project(front, Target(op))), EventOf(op)));
      if Target(op) == id {
        var es := Project(front, id) + [EventOf(op)];
        assert es[..|es| - 1] == Project(front, id);
      }
    }
  }

  /** A history with the operations on all other ids taken out. */
  function Alone(h: seq<Op>, id: MessageId): seq<Op> {
    if h == [] then [] else
    var rest := Alone(h[..|h| - 1], id);
    if Target(h[|h| - 1]) == id then rest + [h[|h| - 1]] else rest
  }

  lemma {:induction false} ProjectAlone(h: seq<Op>, id: MessageId)
    ensures Project(Alone(h, id), id) == Project(h, id)
  {
    if h != [] {
      var front, op := h[..|h| - 1], h[|h| - 1];
      ProjectAlone(front, id);
      if Target(op) == id {
        assert (Alone(front, id) + [op])[..|Alone(front, id)|] == Alone(front, id);
      }
    }
  }

  /** Non-interference: running an id's operations alone emits the same messages for it. */
  lemma NonInterference(h: seq<Op>, id: MessageId)
    ensures For(id, Completions(h)) == For(id, Completions(Alone(h, id)))
    ensures Pending(Project(h, id)) == Pending(Project(Alone(h, id), id))
  {
    CompletionsPerId(h, id);
    CompletionsPerId(Alone(h, id), id);
    ProjectAlone(h, id);
  }
}
