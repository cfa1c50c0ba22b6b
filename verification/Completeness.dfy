/** From cells to messages: what comes out of some or all of the cells of a set of messages. */
module Completeness {
  import opened ByteStrings
  import opened Cells
  import opened Fragmentation
  import opened ReassemblySpec
  import opened Receivers
  import opened RoundTrip
  import opened Sequences
  import opened Wrappers

  datatype Message = Message(id: MessageId, text: Bytes)

  ghost predicate Distinct(msgs: seq<Message>) {
    && (forall i :: 0 <= i < |msgs| ==> Sendable(msgs[i].text))
    && (forall i, j :: 0 <= i < j < |msgs| ==> msgs[i].id != msgs[j].id)
  }

  /** All cells of all messages. */
  function AllFragments(msgs: seq<Message>): seq<Cell>
    requires forall i :: 0 <= i < |msgs| ==> Sendable(msgs[i].text)
  {
    if msgs == [] then [] else
    AllFragments(msgs[..|msgs| - 1]) + Fragments(msgs[|msgs| - 1].id, msgs[|msgs| - 1].text)
  }

  // ----- cells in any order, sorted out by id -----

  function OwnCell(id: MessageId): Cell -> Option<Cell> {
    (c: Cell) => if c.messageId == id then Some(c) else None
  }

  function CellsOf(id: MessageId, cells: seq<Cell>): seq<Cell> {
    FilterMap(OwnCell(id), cells)
  }

  /** Inserting cells makes, for each id, the history of that id's cells. */
  lemma {:induction false} ProjectInserts(cells: seq<Cell>, id: MessageId)
    ensures Project(Inserts(cells), id) == Arrivals(CellsOf(id, cells))
  {
    if cells != [] {
      var front, c := cells[..|cells| - 1], cells[|cells| - 1];
      ProjectInserts(front, id);
      assert Inserts(cells) == Inserts(front) + [Op.Insert(c)];
      ProjectStep(Inserts(front), Op.Insert(c), id);
      assert Arrivals(CellsOf(id, front) + [c]) == Arrivals(CellsOf(id, front)) + [Arrive(c)];
    }
  }

  lemma {:induction false} CellsOfOneMessage(cells: seq<Cell>, owner: MessageId, id: MessageId)
    requires forall i :: 0 <= i < |cells| ==> cells[i].messageId == owner
    ensures CellsOf(id, cells) == if id == owner then cells else []
  {
    if cells != [] {
      CellsOfOneMessage(cells[..|cells| - 1], owner, id);
      assert cells == cells[..|cells| - 1] + [cells[|cells| - 1]];
    }
  }

  /** The message with that id, if there is one. */
  function Find(msgs: seq<Message>, id: MessageId): Option<Bytes> {
    if msgs == [] then None
    else if msgs[|msgs| - 1].id == id then Some(msgs[|msgs| - 1].text)
    else Find(msgs[..|msgs| - 1], id)
  }

  lemma {:induction false} FindNone(msgs: seq<Message>, id: MessageId)
    requires forall i :: 0 <= i < |msgs| ==> msgs[i].id != id
    ensures Find(msgs, id) == None
  {
    if msgs != [] {
      FindNone(msgs[..|msgs| - 1], id);
    }
  }

  lemma FragmentsOfOne(m: Message, id: MessageId)
    requires Sendable(m.text)
    ensures CellsOf(id, Fragments(m.id, m.text)) == if id == m.id then Fragments(m.id, m.text) else []
  {
    FragmentsPartition(m.id, m.text);
    CellsOfOneMessage(Fragments(m.id, m.text), m.id, id);
  }

  lemma {:induction false} FragmentsOf(msgs: seq<Message>, id: MessageId)
    requires Distinct(msgs)
    ensures var found := Find(msgs, id);
      && (found.Some? ==> Sendable(found.value))
      && CellsOf(id, AllFragments(msgs)) == if found.Some? then Fragments(id, found.value) else []
  {
    if msgs != [] {
      var front, m := msgs[..|msgs| - 1], msgs[|msgs| - 1];
      FragmentsOf(front, id);
      FragmentsOfOne(m, id);
      FilterMapConcat(OwnCell(id), AllFragments(front), Fragments(m.id, m.text));
      if m.id == id {
        FindNone(front, id);
      }
    }
  }

  /** The message with that id is complete: it exists, and all its cells are there. */
  ghost predicate Complete(msgs: seq<Message>, cells: seq<Cell>, id: MessageId)
    requires Distinct(msgs)
  {
    var found := Find(msgs, id);
    FragmentsOf(msgs, id);
    found.Some? && AllIn(id, found.value, cells)
  }

  /** The cells of one id among some of them, in whatever order they came. */
  lemma OwnCells(msgs: seq<Message>, cells: seq<Cell>, id: MessageId)
    requires Distinct(msgs) && multiset(cells) <= multiset(AllFragments(msgs))
    ensures var own, found := CellsOf(id, cells), Find(msgs, id);
      && (found.None? ==> own == [])
      && (found.Some? ==> Sendable(found.value) && multiset(own) <= multiset(Fragments(id, found.value)))
  {
    FilterMapSub(OwnCell(id), cells, AllFragments(msgs));
    FragmentsOf(msgs, id);
    assert |multiset(CellsOf(id, cells))| == |CellsOf(id, cells)|;
  }

  /** Looking for a message's cells among its own or among all is the same. */
  lemma AllInOwn(id: MessageId, message: Bytes, cells: seq<Cell>)
    requires Sendable(message)
    ensures AllIn(id, message, CellsOf(id, cells)) <==> AllIn(id, message, cells)
  {
    forall c | c in Fragments(id, message) ensures c in CellsOf(id, cells) <==> c in cells {
      FragmentFields(c, id, message);
      OwnCellMember(id, cells, c);
    }
  }

  lemma OwnCellMember(id: MessageId, cells: seq<Cell>, c: Cell)
    requires c.messageId == id
    ensures c in CellsOf(id, cells) <==> c in cells
  {
    FilterMapMember(OwnCell(id), cells, c);
    if c in cells {
      var i :| 0 <= i < |cells| && cells[i] == c;
      assert OwnCell(id)(cells[i]) == Some(c);
    }
  }

  /**
   Some or all cells of the messages, each at most once, in any order: an id's message is emitted,
   once, exactly if all its cells are there, and otherwise those that are there stay pending.
   */
  lemma EmittedPerId(msgs: seq<Message>, cells: seq<Cell>, id: MessageId)
    requires Distinct(msgs) && multiset(cells) <= multiset(AllFragments(msgs))
    ensures var es := Project(Inserts(cells), id);
      if Complete(msgs, cells, id) then Emitted(es) == Yield(Find(msgs, id)) && Pending(es) == []
      else Emitted(es) == [] && Pending(es) == CellsOf(id, cells)
  {
    var own, found := CellsOf(id, cells), Find(msgs, id);
    ProjectInserts(cells, id);
    OwnCells(msgs, cells, id);
    if found.Some? {
      AllInOwn(id, found.value, cells);
      PartialRoundTrip(own, id, found.value);
    }
  }

  // ----- the completions as a whole -----

  function AsPair(m: Message): (MessageId, Bytes) {
    (m.id, m.text)
  }

  function Pairs(msgs: seq<Message>): (ps: seq<(MessageId, Bytes)>)
    ensures |ps| == |msgs|
  {
    seq(|msgs|, i requires 0 <= i < |msgs| => AsPair(msgs[i]))
  }

  function MessageTexts(msgs: seq<Message>): (ts: seq<Bytes>)
    ensures |ts| == |msgs|
  {
    seq(|msgs|, i requires 0 <= i < |msgs| => msgs[i].text)
  }

  lemma {:induction false} ForCounts(id: MessageId, done: seq<(MessageId, Bytes)>, text: Bytes)
    ensures multiset(For(id, done))[text] == multiset(done)[(id, text)]
  {
    if done != [] {
      var front, last := done[..|done| - 1], done[|done| - 1];
      ForCounts(id, front, text);
      assert done == front + [last];
    }
  }

  lemma {:induction false} ForPairs(msgs: seq<Message>, id: MessageId)
    requires Distinct(msgs)
    ensures For(id, Pairs(msgs)) == Yield(Find(msgs, id))
  {
    if msgs != [] {
      var front, m := msgs[..|msgs| - 1], msgs[|msgs| - 1];
      ForPairs(front, id);
      assert Pairs(msgs)[..|msgs| - 1] == Pairs(front);
      if m.id == id {
        FindNone(front, id);
      }
    }
  }

  lemma {:induction false} FindHit(msgs: seq<Message>, i: nat)
    requires Distinct(msgs) && i < |msgs|
    ensures Find(msgs, msgs[i].id) == Some(msgs[i].text)
  {
    if i < |msgs| - 1 {
      FindHit(msgs[..|msgs| - 1], i);
    }
  }

  /** A completion occurs once if it is that of a complete message, and otherwise never. */
  lemma CompletionCount(msgs: seq<Message>, cells: seq<Cell>, p: (MessageId, Bytes))
    requires Distinct(msgs) && multiset(cells) <= multiset(AllFragments(msgs))
    ensures multiset(Completions(Inserts(cells)))[p] ==
            if Complete(msgs, cells, p.0) && Find(msgs, p.0) == Some(p.1) then 1 else 0
  {
    CompletionsPerId(Inserts(cells), p.0);
    EmittedPerId(msgs, cells, p.0);
    ForCounts(p.0, Completions(Inserts(cells)), p.1);
  }

  lemma PairCount(msgs: seq<Message>, p: (MessageId, Bytes))
    requires Distinct(msgs)
    ensures multiset(Pairs(msgs))[p] == if Find(msgs, p.0) == Some(p.1) then 1 else 0
  {
    ForPairs(msgs, p.0);
    ForCounts(p.0, Pairs(msgs), p.1);
  }

  /**
   At any moment: from some of the cells of a set of messages, each at most once and in any
   order, no message is completed that was not sent, none twice, and a message is completed
   exactly if all its cells are there. In flight is exactly what is there of the others.
   */
  lemma OnlyCompleteMessages(msgs: seq<Message>, cells: seq<Cell>)
    requires Distinct(msgs) && multiset(cells) <= multiset(AllFragments(msgs))
    ensures multiset(Completions(Inserts(cells))) <= multiset(Pairs(msgs))
    ensures forall i :: 0 <= i < |msgs| ==>
              (AsPair(msgs[i]) in Completions(Inserts(cells)) <==> AllIn(msgs[i].id, msgs[i].text, cells))
    ensures forall id: MessageId :: Pending(Project(Inserts(cells), id)) ==
              if Complete(msgs, cells, id) then [] else CellsOf(id, cells)
  {
    var done := Completions(Inserts(cells));
    forall p ensures multiset(done)[p] <= multiset(Pairs(msgs))[p] {
      CompletionCount(msgs, cells, p);
      PairCount(msgs, p);
    }
    forall i | 0 <= i < |msgs|
      ensures AsPair(msgs[i]) in done <==> AllIn(msgs[i].id, msgs[i].text, cells)
    {
      FindHit(msgs, i);
      CompletionCount(msgs, cells, AsPair(msgs[i]));
      assert AsPair(msgs[i]) in done <==> multiset(done)[AsPair(msgs[i])] > 0;
    }
    forall id: MessageId
      ensures Pending(Project(Inserts(cells), id)) == if Complete(msgs, cells, id) then [] else CellsOf(id, cells)
    {
      EmittedPerId(msgs, cells, id);
    }
  }

  /** With all the cells there, every message is complete, and no cell belongs to any other id. */
  lemma EverythingThere(msgs: seq<Message>, cells: seq<Cell>, id: MessageId)
    requires Distinct(msgs) && multiset(cells) == multiset(AllFragments(msgs))
    ensures Find(msgs, id).Some? ==> Complete(msgs, cells, id)
    ensures Find(msgs, id).None? ==> CellsOf(id, cells) == []
  {
    var found := Find(msgs, id);
    FragmentsOf(msgs, id);
    OwnCells(msgs, cells, id);
    FilterMapPermutes(OwnCell(id), cells, AllFragments(msgs));
    if found.Some? {
      SameMembers(CellsOf(id, cells), Fragments(id, found.value));
      AllInOwn(id, found.value, cells);
    }
  }

  /**
   All the cells of a set of messages, in any order: exactly those messages are completed, under
   their ids, each once, and nothing is left in flight.
   */
  lemma AllMessagesComplete(msgs: seq<Message>, cells: seq<Cell>)
    requires Distinct(msgs) && multiset(cells) == multiset(AllFragments(msgs))
    ensures multiset(Completions(Inserts(cells))) == multiset(Pairs(msgs))
    ensures forall id: MessageId :: Pending(Project(Inserts(cells), id)) == []
  {
    var done := Completions(Inserts(cells));
    forall p ensures multiset(done)[p] == multiset(Pairs(msgs))[p] {
      CompletionCount(msgs, cells, p);
      PairCount(msgs, p);
      EverythingThere(msgs, cells, p.0);
    }
    forall id: MessageId ensures Pending(Project(Inserts(cells), id)) == [] {
      EmittedPerId(msgs, cells, id);
      EverythingThere(msgs, cells, id);
    }
  }

  function TextOf(p: (MessageId, Bytes)): Option<Bytes> {
    Some(p.1)
  }

  /** The same without the ids, as a poll returns them. */
  lemma TextsOfPairs(done: seq<(MessageId, Bytes)>, msgs: seq<Message>)
    requires multiset(done) == multiset(Pairs(msgs))
    ensures multiset(Texts(done)) == multiset(MessageTexts(msgs))
  {
    FilterMapPermutes(TextOf, done, Pairs(msgs));
    FilterMapTotal(TextOf, done, Texts(done));
    FilterMapTotal(TextOf, Pairs(msgs), MessageTexts(msgs));
  }
}
