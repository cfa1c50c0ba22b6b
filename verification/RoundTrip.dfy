/** Fragmentation followed by reassembly, in any order of arrival. */
module RoundTrip {
  import opened ByteStrings
  import opened Cells
  import opened Fragmentation
  import opened ReassemblySpec
  import opened Sequences
  import opened Wrappers

  ghost predicate AllFrom(s: seq<Cell>, id: MessageId, message: Bytes)
    requires Sendable(message)
  {
    forall j :: 0 <= j < |s| ==> s[j] in Fragments(id, message)
  }

  lemma FragmentFields(c: Cell, id: MessageId, message: Bytes)
    requires Sendable(message) && c in Fragments(id, message)
    ensures c.messageId == id && c.seqTotal == |Fragments(id, message)|
    ensures c == Fragments(id, message)[c.seqIndex]
  {
    FragmentsPartition(id, message);
  }

  lemma AllFromFront(s: seq<Cell>, id: MessageId, message: Bytes)
    requires Sendable(message) && AllFrom(s, id, message) && s != []
    ensures AllFrom(s[..|s| - 1], id, message)
    ensures s[|s| - 1] in Fragments(id, message)
  {
    var front := s[..|s| - 1];
    forall j | 0 <= j < |front| ensures front[j] in Fragments(id, message) {
      assert front[j] == s[j];
    }
  }

  lemma {:induction false} FragmentsAreAccepted(s: seq<Cell>, id: MessageId, message: Bytes)
    requires Sendable(message) && AllFrom(s, id, message)
    ensures Accepted(s) == s
  {
    if s != [] {
      var front, last := s[..|s| - 1], s[|s| - 1];
      AllFromFront(s, id, message);
      FragmentsAreAccepted(front, id, message);
      FragmentFields(s[0], id, message);
      FragmentFields(last, id, message);
      assert s == front + [last];
    }
  }

  lemma {:induction false} FragmentSlots(s: seq<Cell>, id: MessageId, message: Bytes, i: nat)
    requires Sendable(message) && AllFrom(s, id, message) && i < CellCount(|message|)
    ensures FirstPayload(s, i).Some? ==> FirstPayload(s, i) == Some(Chunk(message, i))
  {
    if s != [] {
      AllFromFront(s, id, message);
      FragmentSlots(s[..|s| - 1], id, message, i);
      FragmentFields(s[|s| - 1], id, message);
    }
  }

  lemma CoveringFragmentsSpellTheMessage(s: seq<Cell>, id: MessageId, message: Bytes)
    requires Sendable(message) && AllFrom(s, id, message) && Covers(s)
    ensures MessageOf(s) == message
  {
    var n := CellCount(|message|);
    FragmentFields(s[0], id, message);
    CoversMeansAllPresent(s);
    forall i: nat | i < n ensures Slots(s)[i] == Some(Chunk(message, i)) {
      FragmentSlots(s, id, message, i);
    }
    assert Contents(Slots(s)) == Chunks(message, n);
    CellCountBounds(|message|);
    JoinChunks(message, n);
  }

  lemma CoversFront(s: seq<Cell>)
    requires s != [] && Covers(s[..|s| - 1]) && s[|s| - 1].seqTotal == s[0].seqTotal
    ensures Covers(s)
  {
    var front := s[..|s| - 1];
    forall i: nat | i < s[0].seqTotal ensures Has(s, i) {
      assert Has(front, i);
      var j :| 0 <= j < |front| && front[j].seqIndex == i;
      assert s[j].seqIndex == i;
    }
  }

  lemma {:induction false} FragmentsNeverCover(s: seq<Cell>, id: MessageId, message: Bytes)
    requires Sendable(message) && AllFrom(s, id, message) && !Covers(s)
    ensures NeverCovers(s)
  {
    FragmentsAreAccepted(s, id, message);
    if s != [] {
      AllFromFront(s, id, message);
      FragmentFields(s[0], id, message);
      FragmentFields(s[|s| - 1], id, message);
      if Covers(s[..|s| - 1]) {
        CoversFront(s);
      }
      FragmentsNeverCover(s[..|s| - 1], id, message);
    }
  }

  /**
   Feed cells of one message in any order, with any repetitions, up to the one that supplies
   the last missing index: nothing is emitted before it, the message is emitted by it,
   and nothing stays pending for the id.
   */
  lemma OrderIndependentRoundTrip(es: seq<Event>, s: seq<Cell>, id: MessageId, message: Bytes)
    requires Sendable(message) && AllFrom(s, id, message)
    requires Pending(es) == []
    requires Covers(s) && !Covers(s[..|s| - 1])
    ensures Emitted(es + Arrivals(s)) == Emitted(es) + [message]
    ensures Pending(es + Arrivals(s)) == []
    ensures forall k :: 0 <= k < |s| ==>
              Emitted(es + Arrivals(s[..k])) == Emitted(es) && Pending(es + Arrivals(s[..k])) == s[..k]
  {
    AllFromFront(s, id, message);
    FragmentsNeverCover(s[..|s| - 1], id, message);
    FragmentsAreAccepted(s, id, message);
    CompletedRun(es, s);
    CoveringFragmentsSpellTheMessage(s, id, message);
    forall k | 0 <= k < |s|
      ensures Emitted(es + Arrivals(s[..k])) == Emitted(es) && Pending(es + Arrivals(s[..k])) == s[..k]
    {
      QuietPrefix(es, s[..|s| - 1], id, message, k);
      CutTwice(s, k, |s| - 1);
    }
  }

  lemma {:induction false} NeverCoversPrefix(s: seq<Cell>, k: nat)
    requires NeverCovers(s) && k <= |s|
    ensures NeverCovers(s[..k])
    decreases |s|
  {
    if k < |s| {
      NeverCoversPrefix(s[..|s| - 1], k);
      CutTwice(s, k, |s| - 1);
    } else {
      assert s[..k] == s;
    }
  }

  lemma QuietPrefix(es: seq<Event>, s: seq<Cell>, id: MessageId, message: Bytes, k: nat)
    requires Sendable(message) && AllFrom(s, id, message)
    requires Pending(es) == [] && NeverCovers(s) && k <= |s|
    ensures Emitted(es + Arrivals(s[..k])) == Emitted(es) && Pending(es + Arrivals(s[..k])) == s[..k]
  {
    NeverCoversPrefix(s, k);
    AllFromPart(s, 0, k, id, message);
    FragmentsAreAccepted(s[..k], id, message);
    QuietRun(es, s[..k]);
  }

  lemma OnceInFragments(i: nat, id: MessageId, message: Bytes)
    requires Sendable(message) && i < |Fragments(id, message)|
    ensures multiset(Fragments(id, message))[Fragments(id, message)[i]] == 1
  {
    var cells := Fragments(id, message);
    FragmentsPartition(id, message);
    assert cells == cells[..i] + [cells[i]] + cells[i + 1..];
    assert cells[i] !in cells[..i];
    assert cells[i] !in cells[i + 1..];
  }

  /** Cells of a message, none of them twice, cover it only if they are all of its cells. */
  lemma CoveringIsEverything(s: seq<Cell>, id: MessageId, message: Bytes)
    requires Sendable(message) && AllFrom(s, id, message) && Covers(s)
    requires multiset(s) <= multiset(Fragments(id, message))
    ensures multiset(s) == multiset(Fragments(id, message))
  {
    var cells := Fragments(id, message);
    FragmentFields(s[0], id, message);
    forall c | c in cells ensures c in s {
      FragmentFields(c, id, message);
      assert Has(s, c.seqIndex);
      var j :| 0 <= j < |s| && s[j].seqIndex == c.seqIndex;
      FragmentFields(s[j], id, message);
    }
    AllOfThem(s, id, message);
  }

  /** Every cell of the message is among these. */
  ghost predicate AllIn(id: MessageId, message: Bytes, cells: seq<Cell>)
    requires Sendable(message)
  {
    forall c :: c in Fragments(id, message) ==> c in cells
  }

  lemma AllOfThem(s: seq<Cell>, id: MessageId, message: Bytes)
    requires Sendable(message) && AllIn(id, message, s)
    requires multiset(s) <= multiset(Fragments(id, message))
    ensures multiset(s) == multiset(Fragments(id, message))
  {
    var cells := Fragments(id, message);
    forall c ensures multiset(s)[c] == multiset(cells)[c] {
      if c in cells {
        FragmentFields(c, id, message);
        OnceInFragments(c.seqIndex, id, message);
        assert c in s;
      }
    }
  }

  lemma SubFromFragments(s: seq<Cell>, id: MessageId, message: Bytes)
    requires Sendable(message) && multiset(s) <= multiset(Fragments(id, message))
    ensures AllFrom(s, id, message)
  {
    forall j | 0 <= j < |s| ensures s[j] in Fragments(id, message) {
      assert multiset(s)[s[j]] > 0;
    }
  }

  lemma SameMembers(s: seq<Cell>, t: seq<Cell>)
    requires multiset(s) == multiset(t)
    ensures forall c :: c in t ==> c in s
  {
    forall c | c in t ensures c in s {
      assert multiset(t)[c] > 0;
    }
  }

  lemma AllOfThemCover(s: seq<Cell>, id: MessageId, message: Bytes)
    requires Sendable(message) && AllFrom(s, id, message) && AllIn(id, message, s)
    ensures s != [] && Covers(s)
  {
    var cells := Fragments(id, message);
    CellCountBounds(|message|);
    assert cells[0] in s;
    FragmentFields(s[0], id, message);
    forall i: nat | i < s[0].seqTotal ensures Has(s, i) {
      assert cells[i] in s;
      var j :| 0 <= j < |s| && s[j] == cells[i];
      FragmentsPartition(id, message);
    }
  }

  /** A permutation of a message's cells ends with the cell that supplies the last missing index. */
  lemma PermutationCoversAtTheEnd(s: seq<Cell>, id: MessageId, message: Bytes)
    requires Sendable(message) && multiset(s) == multiset(Fragments(id, message))
    ensures AllFrom(s, id, message) && s != []
    ensures Covers(s) && !Covers(s[..|s| - 1])
  {
    SubFromFragments(s, id, message);
    SameMembers(s, Fragments(id, message));
    AllOfThemCover(s, id, message);
    AllFromFront(s, id, message);
    FrontIsLess(s);
    if Covers(s[..|s| - 1]) {
      CoveringIsEverything(s[..|s| - 1], id, message);
    }
  }

  lemma FrontIsLess(s: seq<Cell>)
    requires s != []
    ensures multiset(s[..|s| - 1]) < multiset(s)
  {
    var front, last := s[..|s| - 1], s[|s| - 1];
    Snoc(s);
    MultisetConcat(front, [last]);
    assert multiset(s)[last] == multiset(front)[last] + 1;
  }

  /** Every order of arrival of a message's cells yields the message, at the last cell. */
  lemma PermutationRoundTrip(es: seq<Event>, s: seq<Cell>, id: MessageId, message: Bytes)
    requires Sendable(message) && multiset(s) == multiset(Fragments(id, message))
    requires Pending(es) == []
    ensures Emitted(es + Arrivals(s)) == Emitted(es) + [message]
    ensures Pending(es + Arrivals(s)) == []
    ensures forall k :: 0 <= k < |s| ==> Emitted(es + Arrivals(s[..k])) == Emitted(es)
  {
    PermutationCoversAtTheEnd(s, id, message);
    OrderIndependentRoundTrip(es, s, id, message);
  }

  /**
   Some or all cells of a message, each at most once, in any order: the message comes out exactly
   if they are all there, and otherwise all of them stay pending.
   */
  lemma PartialRoundTrip(s: seq<Cell>, id: MessageId, message: Bytes)
    requires Sendable(message) && multiset(s) <= multiset(Fragments(id, message))
    ensures AllIn(id, message, s) ==> Emitted(Arrivals(s)) == [message] && Pending(Arrivals(s)) == []
    ensures !AllIn(id, message, s) ==> Emitted(Arrivals(s)) == [] && Pending(Arrivals(s)) == s
  {
    assert [] + Arrivals(s) == Arrivals(s);
    SubFromFragments(s, id, message);
    if AllIn(id, message, s) {
      AllOfThem(s, id, message);
      PermutationRoundTrip([], s, id, message);
    } else {
      if Covers(s) {
        CoveringIsEverything(s, id, message);
        SameMembers(s, Fragments(id, message));
      }
      FragmentsNeverCover(s, id, message);
      FragmentsAreAccepted(s, id, message);
      QuietRun([], s);
    }
  }

  lemma {:induction false} ProjectConcat(h: seq<Op>, ops: seq<Op>, id: MessageId)
    ensures Project(h + ops, id) == Project(h, id) + Project(ops, id)
  {
    if ops == [] {
      assert h + ops == h;
    } else {
      var front, op := ops[..|ops| - 1], ops[|ops| - 1];
      ProjectConcat(h, front, id);
      ConcatSnoc(h, ops);
      ProjectStep(h + front, op, id);
      Regroup(Project(h, id), Project(front, id), [EventOf(op)]);
    }
  }

  /**
   The same on a whole history: the cells of one message, in any order and with repetitions
   before the last missing one, arrive among operations on any other ids. Nothing comes out for
   the id as long as one of them is still to come; then the message comes out, once, and the id
   is no longer in flight.
   */
  lemma InterleavedRoundTrip(h: seq<Op>, ops: seq<Op>, s: seq<Cell>, id: MessageId, message: Bytes)
    requires Sendable(message) && AllFrom(s, id, message)
    requires Covers(s) && !Covers(s[..|s| - 1])
    requires Pending(Project(h, id)) == [] && Project(ops, id) == Arrivals(s)
    ensures For(id, Completions(h + ops)) == For(id, Completions(h)) + [message]
    ensures Pending(Project(h + ops, id)) == []
    ensures forall k :: 0 <= k <= |ops| && Project(ops[..k], id) != Arrivals(s) ==>
              For(id, Completions(h + ops[..k])) == For(id, Completions(h))
  {
    CompletionsPerId(h, id);
    CompletionsPerId(h + ops, id);
    ProjectConcat(h, ops, id);
    OrderIndependentRoundTrip(Project(h, id), s, id, message);
    forall k | 0 <= k <= |ops| && Project(ops[..k], id) != Arrivals(s)
      ensures For(id, Completions(h + ops[..k])) == For(id, Completions(h))
    {
      SomeCellsOnly(ops, s, id, k);
      var j :| 0 <= j < |s| && Project(ops[..k], id) == Arrivals(s[..j]);
      CompletionsPerId(h + ops[..k], id);
      ProjectConcat(h, ops[..k], id);
    }
  }

  /** As long as not all cells of the id have come, those that have are a proper prefix. */
  lemma SomeCellsOnly(ops: seq<Op>, s: seq<Cell>, id: MessageId, k: nat)
    requires k <= |ops| && Project(ops, id) == Arrivals(s) && Project(ops[..k], id) != Arrivals(s)
    ensures exists j :: 0 <= j < |s| && Project(ops[..k], id) == Arrivals(s[..j])
  {
    var now := Project(ops[..k], id);
    ProjectConcat(ops[..k], ops[k..], id);
    assert ops == ops[..k] + ops[k..];
    assert now <= Arrivals(s);
    assert now == Arrivals(s[..|now|]);
  }

  /** There is no memory of completed messages: all cells arriving once more emit the message once more. */
  lemma ResentMessageComesOutAgain(es: seq<Event>, s: seq<Cell>, t: seq<Cell>, id: MessageId, message: Bytes)
    requires Sendable(message) && Pending(es) == []
    requires multiset(s) == multiset(t) == multiset(Fragments(id, message))
    ensures Emitted(es + Arrivals(s) + Arrivals(t)) == Emitted(es) + [message] + [message]
  {
    PermutationRoundTrip(es, s, id, message);
    PermutationRoundTrip(es + Arrivals(s), t, id, message);
  }

  lemma {:induction false} EmittedGrows(es: seq<Event>, s: seq<Cell>)
    ensures |Emitted(es)| <= |Emitted(es + Arrivals(s))|
  {
    if s == [] {
      assert es + Arrivals(s) == es;
    } else {
      EmittedGrows(es, s[..|s| - 1]);
      ArrivalsAppend(es, s);
      var es' := es + Arrivals(s);
      assert es'[..|es'| - 1] == es + Arrivals(s[..|s| - 1]);
    }
  }

  /** How far one has to read to have every index, as short as possible. */
  lemma {:induction false} FirstCover(s: seq<Cell>, id: MessageId, message: Bytes) returns (k: nat)
    requires Sendable(message) && AllFrom(s, id, message) && Covers(s)
    ensures 0 < k <= |s| && Covers(s[..k]) && !Covers(s[..k - 1])
    decreases |s|
  {
    assert s[..|s|] == s;
    if Covers(s[..|s| - 1]) {
      AllFromFront(s, id, message);
      k := FirstCover(s[..|s| - 1], id, message);
      assert s[..|s| - 1][..k] == s[..k] && s[..|s| - 1][..k - 1] == s[..k - 1];
    } else {
      k := |s|;
    }
  }

  lemma AllFromPart(s: seq<Cell>, i: nat, j: nat, id: MessageId, message: Bytes)
    requires Sendable(message) && AllFrom(s, id, message) && i <= j <= |s|
    ensures AllFrom(s[i..j], id, message)
  {
    forall m | 0 <= m < |s[i..j]| ensures s[i..j][m] in Fragments(id, message) {
      assert s[i..j][m] == s[i + m];
    }
  }

  /** From a point with nothing pending, cells of a message emit something exactly if they cover it. */
  lemma CoversIfEmits(es: seq<Event>, s: seq<Cell>, id: MessageId, message: Bytes)
    requires Sendable(message) && AllFrom(s, id, message) && Pending(es) == []
    ensures Covers(s) ==> |Emitted(es + Arrivals(s))| > |Emitted(es)|
    ensures !Covers(s) ==> Emitted(es + Arrivals(s)) == Emitted(es)
  {
    if Covers(s) {
      var k := FirstCover(s, id, message);
      AllFromPart(s, 0, k, id, message);
      assert s[..k][..k - 1] == s[..k - 1];
      OrderIndependentRoundTrip(es, s[..k], id, message);
      EmittedGrows(es + Arrivals(s[..k]), s[k..]);
      ArrivalsSplit(es, s, k);
    } else {
      FragmentsNeverCover(s, id, message);
      QuietRun(es, s);
    }
  }

  lemma ArrivalsSplit(es: seq<Event>, s: seq<Cell>, k: nat)
    requires k <= |s|
    ensures es + Arrivals(s) == (es + Arrivals(s[..k])) + Arrivals(s[k..])
  {
  }

  /** Cells that complete the message with their last, and then some more of it. */
  lemma CoveredThenMore(t: seq<Cell>, u: seq<Cell>, id: MessageId, message: Bytes)
    requires Sendable(message) && AllFrom(t, id, message) && AllFrom(u, id, message)
    requires Covers(t) && !Covers(t[..|t| - 1])
    ensures Emitted(Arrivals(t) + Arrivals(u)) == [message] <==> !Covers(u)
  {
    assert [] + Arrivals(t) == Arrivals(t);
    OrderIndependentRoundTrip([], t, id, message);
    CoversIfEmits(Arrivals(t), u, id, message);
  }

  /**
   Exactly when a message comes out once. Among cells of one message, in any order and with any
   repetitions, let k be how far one has to read to have every index. The message is emitted once
   if, and only if, the cells after the k-th do not cover it again.
   */
  lemma OnceUnlessCoveredAgain(s: seq<Cell>, k: nat, id: MessageId, message: Bytes)
    requires Sendable(message) && AllFrom(s, id, message)
    requires 0 < k <= |s| && Covers(s[..k]) && !Covers(s[..k - 1])
    ensures Emitted(Arrivals(s)) == [message] <==> !Covers(s[k..])
  {
    AllFromPart(s, 0, k, id, message);
    AllFromPart(s, k, |s|, id, message);
    CutTwice(s, k - 1, k);
    TwoParts(s, k);
    CoveredThenMore(s[..k], s[k..], id, message);
  }

  lemma TwoParts(s: seq<Cell>, k: nat)
    requires k <= |s|
    ensures s[0..k] == s[..k] && s[k..|s|] == s[k..]
    ensures Arrivals(s) == Arrivals(s[..k]) + Arrivals(s[k..])
  {
  }

  // ----- cells that stand alone -----

  /**
   A cell that claims to be all of its message, as every dummy does: it is handed out as a message
   if nothing is pending for its id, and otherwise rejected.
   */
  lemma LoneCell(es: seq<Event>, c: Cell)
    requires c.seqTotal == 1
    ensures Answer(Pending(es), c) ==
            if Pending(es) == [] then Ok(Some(Payload(c))) else Err(MismatchedMessageId)
  {
    var open := Pending(es);
    if open == [] {
      assert open + [c] == [c];
      LoneCellCovers(c);
    } else {
      OneCovers(open);
      PendingIsOpen(es);
    }
  }

  lemma OneCovers(s: seq<Cell>)
    requires s != []
    ensures s[0].seqTotal == 1 ==> Covers(s)
  {
    if s[0].seqTotal == 1 {
      assert s[0].seqIndex == 0;
      assert Has(s, 0);
    }
  }

  lemma LoneCellCovers(c: Cell)
    requires c.seqTotal == 1
    ensures Covers([c]) && MessageOf([c]) == Payload(c)
  {
    assert [c][0].seqIndex == 0;
    assert [c][..0] == [];
    CoversMeansAllPresent([c]);
    assert FirstPayload([c], 0) == Some(Payload(c));
    assert Contents(Slots([c])) == [Payload(c)];
    JoinAppend([], Payload(c));
    assert [] + [Payload(c)] == [Payload(c)];
  }

  /** A dummy that opens is treated like any other cell: its noise is a message unless its id is in flight. */
  lemma DummyIsNotFiltered(es: seq<Event>, id: MessageId, noise: Bytes)
    requires |noise| == PAYLOAD_CAPACITY
    ensures Answer(Pending(es), DummyCell(id, noise)) ==
            if Pending(es) == [] then Ok(Some(noise)) else Err(MismatchedMessageId)
  {
    LoneCell(es, DummyCell(id, noise));
  }
}
