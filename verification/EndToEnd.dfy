/** From messages sent to messages received: the network and both its ends put together. */
module EndToEnd {
  import opened ByteStrings
  import opened Cells
  import opened Circuits
  import opened Completeness
  import opened Crypto
  import opened Encryption
  import opened Fragmentation
  import opened Network
  import opened Reassembly
  import opened ReassemblySpec
  import opened Receivers
  import opened RoundTrip
  import opened Sequences
  import opened Wrappers

  // ----- what each send carries -----

  /** The body is an envelope for this identity around this cell. */
  ghost predicate Envelops(cs: Crypto, identity: Key, body: Bytes, cell: Cell) {
    exists sender: Key, nonce: Nonce :: body == Enveloped(cs, sender, cs.publicOf(identity), nonce, cell)
  }

  /**
   `cargos` tells for each send which cell it carries to the identity, if any. Sends that carry
   one take a path the relays can serve. Of the others only this is asked: that what the
   receiver has been handed of them does not open under its key.
   */
  ghost predicate Manifest(
    cs: Crypto, relays: Directory, identity: Key, s: Net, cargos: seq<Option<Cell>>)
  {
    && |cargos| == |s.sent|
    && (forall k :: 0 <= k < |cargos| && cargos[k].Some? ==>
          Good(cs, relays, s.sent[k]) && Envelops(cs, identity, s.sent[k].body, cargos[k].value))
    && (forall p :: p in s.polled && p.tag < |cargos| && cargos[p.tag].None? ==>
          OpenEnvelope(cs, identity, p.bytes) == None)
  }

  function CargoOf(cargos: seq<Option<Cell>>): nat -> Option<Cell> {
    (t: nat) => if t < |cargos| then cargos[t] else None
  }

  /** The cells carried, in the order of the sends. */
  function CellsIn(cargos: seq<Option<Cell>>): seq<Cell> {
    FilterMap(CargoOf(cargos), Range(|cargos|))
  }

  /** The receiver has been handed the parcel that carries this cell. */
  ghost predicate HandedOver(s: Net, cargos: seq<Option<Cell>>, c: Cell) {
    exists p :: p in s.polled && CargoOf(cargos)(p.tag) == Some(c)
  }

  /** The receiver has been handed every cell of this message. */
  ghost predicate AllHandedOver(s: Net, cargos: seq<Option<Cell>>, id: MessageId, message: Bytes)
    requires Sendable(message)
  {
    forall c :: c in Fragments(id, message) ==> HandedOver(s, cargos, c)
  }

  /** The cells the receiver has found among everything polled so far. */
  function Found(cs: Crypto, identity: Key, s: Net): seq<Cell> {
    Opened(cs, identity, Bodies(s.polled))
  }

  lemma ParcelOpens(
    cs: Crypto, relays: Directory, identity: Key, s: Net, cargos: seq<Option<Cell>>, p: Parcel)
    requires Manifest(cs, relays, identity, s, cargos) && DeliveredOk(cs, relays, s.sent, p) && p in s.polled
    ensures Opener(cs, identity)(p.bytes) == CargoOf(cargos)(p.tag)
  {
    if cargos[p.tag].Some? {
      var sender: Key, nonce: Nonce :|
        s.sent[p.tag].body == Enveloped(cs, sender, cs.publicOf(identity), nonce, cargos[p.tag].value);
      EnvelopeRoundTrip(cs, sender, identity, nonce, cargos[p.tag].value);
    }
  }

  lemma {:induction false} OpenedIsCargo(
    cs: Crypto, relays: Directory, identity: Key, s: Net, cargos: seq<Option<Cell>>, ps: seq<Parcel>)
    requires Manifest(cs, relays, identity, s, cargos) && AllDelivered(cs, relays, s.sent, ps)
    requires forall p :: p in ps ==> p in s.polled
    ensures Opened(cs, identity, Bodies(ps)) == FilterMap(CargoOf(cargos), Tags(ps))
  {
    if ps != [] {
      var front, p := ps[..|ps| - 1], ps[|ps| - 1];
      OpenedIsCargo(cs, relays, identity, s, cargos, front);
      ParcelOpens(cs, relays, identity, s, cargos, p);
      assert Bodies(ps)[..|ps| - 1] == Bodies(front);
      assert Tags(ps)[..|ps| - 1] == Tags(front);
    }
  }

  /** What is found is what the parcels handed over carry. */
  lemma FoundIsCargo(cs: Crypto, relays: Directory, identity: Key, es: seq<Network.Event>, cargos: seq<Option<Cell>>)
    requires Manifest(cs, relays, identity, After(cs, relays, es), cargos)
    ensures Found(cs, identity, After(cs, relays, es)) ==
            FilterMap(CargoOf(cargos), Tags(After(cs, relays, es).polled))
  {
    RunsKeepInv(cs, relays, es);
    OpenedIsCargo(cs, relays, identity, After(cs, relays, es), cargos, After(cs, relays, es).polled);
  }

  lemma HandedOverByTag(f: nat -> Option<Cell>, ps: seq<Parcel>, c: Cell)
    ensures (exists p :: p in ps && f(p.tag) == Some(c)) <==> c in FilterMap(f, Tags(ps))
  {
    FilterMapMember(f, Tags(ps), c);
    if p :| p in ps && f(p.tag) == Some(c) {
      var i :| 0 <= i < |ps| && ps[i] == p;
      assert f(Tags(ps)[i]) == Some(c);
    }
    if i :| 0 <= i < |ps| && f(Tags(ps)[i]) == Some(c) {
      assert ps[i] in ps && f(ps[i].tag) == Some(c);
    }
  }

  lemma FoundIfHandedOver(
    cs: Crypto, relays: Directory, identity: Key, es: seq<Network.Event>, cargos: seq<Option<Cell>>, c: Cell)
    requires Manifest(cs, relays, identity, After(cs, relays, es), cargos)
    ensures c in Found(cs, identity, After(cs, relays, es)) <==> HandedOver(After(cs, relays, es), cargos, c)
  {
    FoundIsCargo(cs, relays, identity, es, cargos);
    HandedOverByTag(CargoOf(cargos), After(cs, relays, es).polled, c);
  }

  /** Nothing is found that was not sent, and nothing more often than it was sent. */
  lemma FoundWasSent(cs: Crypto, relays: Directory, identity: Key, es: seq<Network.Event>, cargos: seq<Option<Cell>>)
    requires Manifest(cs, relays, identity, After(cs, relays, es), cargos)
    ensures multiset(Found(cs, identity, After(cs, relays, es))) <= multiset(CellsIn(cargos))
  {
    var s := After(cs, relays, es);
    FoundIsCargo(cs, relays, identity, es, cargos);
    forall t: nat ensures multiset(Tags(s.polled))[t] <= multiset(Range(|cargos|))[t] {
      PolledAtMostOnce(cs, relays, es, t);
    }
    FilterMapSub(CargoOf(cargos), Tags(s.polled), Range(|cargos|));
  }

  /** Without failures, once nothing is in transit, everything sent is found. */
  lemma SentIsFound(cs: Crypto, relays: Directory, identity: Key, es: seq<Network.Event>, cargos: seq<Option<Cell>>)
    requires Manifest(cs, relays, identity, After(cs, relays, es), cargos)
    requires Lossless(es) && Quiet(After(cs, relays, es))
    ensures multiset(Found(cs, identity, After(cs, relays, es))) == multiset(CellsIn(cargos))
  {
    var s := After(cs, relays, es);
    FoundWasSent(cs, relays, identity, es, cargos);
    FoundIsCargo(cs, relays, identity, es, cargos);
    forall t: nat | CargoOf(cargos)(t).Some?
      ensures multiset(Range(|cargos|))[t] <= multiset(Tags(s.polled))[t]
    {
      GoodArePolled(cs, relays, es, t);
      CountIsMultiplicity(s.polled, t);
      RangeMultiplicity(|cargos|, t);
    }
    FilterMapSub(CargoOf(cargos), Range(|cargos|), Tags(s.polled));
  }

  // ----- safety and delivery -----

  /**
   The receiver's account in state s. The completed messages, with their ids, are among these,
   none twice; one is completed exactly if the receiver has been handed every one of its cells;
   and what is pending is exactly the cells found of the other ones.
   */
  ghost predicate Accurate(
    cs: Crypto, identity: Key, s: Net, cargos: seq<Option<Cell>>, msgs: seq<Message>)
    requires Distinct(msgs)
  {
    var cells := Found(cs, identity, s);
    && multiset(Completions(Inserts(cells))) <= multiset(Pairs(msgs))
    && (forall i :: 0 <= i < |msgs| ==>
          (AsPair(msgs[i]) in Completions(Inserts(cells)) <==>
           AllHandedOver(s, cargos, msgs[i].id, msgs[i].text)))
    && forall id: MessageId :: Pending(Project(Inserts(cells), id)) ==
         if Complete(msgs, cells, id) then [] else CellsOf(id, cells)
  }

  /**
   Safety, in every reachable state, whatever links fail and pulls break off, and however much is
   still to be sent. The completed messages, with their ids, are among those sent, none twice; a
   message is completed exactly if the receiver has been handed every one of its cells; and the
   reassembler holds exactly the cells found of the other ones.
   */
  lemma OnlyWhatWasSent(
    cs: Crypto, relays: Directory, identity: Key, es: seq<Network.Event>,
    cargos: seq<Option<Cell>>, msgs: seq<Message>)
    requires Distinct(msgs)
    requires Manifest(cs, relays, identity, After(cs, relays, es), cargos)
    requires multiset(CellsIn(cargos)) <= multiset(AllFragments(msgs))
    ensures Accurate(cs, identity, After(cs, relays, es), cargos, msgs)
  {
    FoundWasSent(cs, relays, identity, es, cargos);
    AllFoundIfHandedOver(cs, relays, identity, es, cargos);
    OnlyWhatWasFound(cs, identity, After(cs, relays, es), cargos, msgs);
  }

  lemma AllFoundIfHandedOver(
    cs: Crypto, relays: Directory, identity: Key, es: seq<Network.Event>, cargos: seq<Option<Cell>>)
    requires Manifest(cs, relays, identity, After(cs, relays, es), cargos)
    ensures var s := After(cs, relays, es); forall c: Cell :: c in Found(cs, identity, s) <==> HandedOver(s, cargos, c)
  {
    forall c: Cell
      ensures c in Found(cs, identity, After(cs, relays, es)) <==> HandedOver(After(cs, relays, es), cargos, c)
    {
      FoundIfHandedOver(cs, relays, identity, es, cargos, c);
    }
  }

  lemma OnlyWhatWasFound(
    cs: Crypto, identity: Key, s: Net, cargos: seq<Option<Cell>>, msgs: seq<Message>)
    requires Distinct(msgs) && multiset(Found(cs, identity, s)) <= multiset(AllFragments(msgs))
    requires forall c: Cell :: c in Found(cs, identity, s) <==> HandedOver(s, cargos, c)
    ensures Accurate(cs, identity, s, cargos, msgs)
  {
    OnlyCompleteMessages(msgs, Found(cs, identity, s));
    forall i | 0 <= i < |msgs|
      ensures AllIn(msgs[i].id, msgs[i].text, Found(cs, identity, s)) <==>
              AllHandedOver(s, cargos, msgs[i].id, msgs[i].text)
    {
    }
  }

  /**
   End to end. Take any messages with distinct ids, any senders, nonces, paths and layer
   randomness, any other traffic that does not open under the receiver's key, and any
   interleaving of sends, relay steps, mailbox pushes and polls in which no link fails and every
   pull succeeds. Once nothing is in transit, the messages completed over all polls are exactly
   those sent, under their ids, each once, and the reassembler holds nothing back.
   */
  lemma EndToEndDelivery(
    cs: Crypto, relays: Directory, identity: Key, es: seq<Network.Event>,
    cargos: seq<Option<Cell>>, msgs: seq<Message>)
    requires Distinct(msgs)
    requires Lossless(es) && Quiet(After(cs, relays, es))
    requires Manifest(cs, relays, identity, After(cs, relays, es), cargos)
    requires multiset(CellsIn(cargos)) == multiset(AllFragments(msgs))
    ensures var received := Inserts(Found(cs, identity, After(cs, relays, es)));
      && multiset(Completions(received)) == multiset(Pairs(msgs))
      && forall id: MessageId :: Pending(Project(received, id)) == []
  {
    SentIsFound(cs, relays, identity, es, cargos);
    AllMessagesComplete(msgs, Found(cs, identity, After(cs, relays, es)));
  }

  // ----- the receiver's end -----

  /** What the receiver's reassembler has been fed once the network has reached state s. */
  function FedSoFar(cs: Crypto, identity: Key, s: Net): seq<Op> {
    Inserts(Found(cs, identity, s))
  }

  /** A poll that finishes in the network feeds the receiver as `Receiver.Poll` says, and no other event does. */
  lemma PollsFeedTheReceiver(cs: Crypto, relays: Directory, identity: Key, s: Net, e: Network.Event)
    requires Enabled(s, e)
    ensures FedSoFar(cs, identity, Apply(cs, relays, s, e)) ==
            if e.FinishPoll? then FedSoFar(cs, identity, s) + Inserts(Opened(cs, identity, Bodies(s.pulled)))
            else FedSoFar(cs, identity, s)
  {
    if e.FinishPoll? {
      assert Bodies(s.polled + s.pulled) == Bodies(s.polled) + Bodies(s.pulled);
      PollsAccumulate(cs, identity, Bodies(s.polled), Bodies(s.pulled));
    }
  }

  /** The answers to the pulls so far of the poll in progress. */
  ghost predicate PollSoFar(s: Net, pulls: Pulls) {
    AllAnswered(pulls) && Join(Answers(pulls)) == Bodies(s.pulled)
  }

  lemma OnePullMore(s: Net, pulls: Pulls, got: seq<Parcel>)
    requires PollSoFar(s, pulls)
    ensures AllAnswered(pulls + [Some(Bodies(got))])
    ensures Join(Answers(pulls + [Some(Bodies(got))])) == Bodies(s.pulled + got)
  {
    var pulls' := pulls + [Some(Bodies(got))];
    assert pulls'[..|pulls|] == pulls && pulls'[..|pulls| + 1] == pulls';
    AnswersAppend(pulls', |pulls|);
    assert Bodies(s.pulled + got) == Bodies(s.pulled) + Bodies(got);
  }

  /**
   A receiver that polls along a run of the network: each poll's pulls answer what the network's
   do, up to the one that fails, if one does. From a new receiver on, its history is what the
   network has handed over, and its polls have returned the messages that completes.
   */
  method PollAlong(receiver: Receiver, relays: Directory, es: seq<Network.Event>) returns (got: seq<Bytes>)
    requires receiver.reassembler.Valid() && receiver.reassembler.history == []
    modifies receiver.reassembler
    ensures receiver.reassembler.Valid()
    ensures receiver.reassembler.history == FedSoFar(receiver.cs, receiver.identity, After(receiver.cs, relays, es))
    ensures got == Texts(Completions(receiver.reassembler.history))
  {
    var s, pulls: Pulls := Network.Init, [];
    got := [];
    assert es[..0] == [];
    for i := 0 to |es|
      invariant s == After(receiver.cs, relays, es[..i]) && PollSoFar(s, pulls)
      invariant receiver.reassembler.Valid()
      invariant receiver.reassembler.history == FedSoFar(receiver.cs, receiver.identity, s)
      invariant got == Texts(Completions(receiver.reassembler.history))
    {
      assert es[..i + 1][..i] == es[..i];
      if Enabled(s, es[i]) {
        var more: seq<Bytes>;
        more, pulls := FollowEvent(receiver, relays, s, es[i], pulls);
        got := got + more;
        s := Apply(receiver.cs, relays, s, es[i]);
      }
    }
    assert es[..|es|] == es;
  }

  /** The receiver's part in one event: it learns the answer to a pull, or a poll returns. */
  method FollowEvent(receiver: Receiver, relays: Directory, s: Net, e: Network.Event, pulls: Pulls)
    returns (more: seq<Bytes>, pulls': Pulls)
    requires receiver.reassembler.Valid() && Enabled(s, e) && PollSoFar(s, pulls)
    requires receiver.reassembler.history == FedSoFar(receiver.cs, receiver.identity, s)
    modifies receiver.reassembler
    ensures receiver.reassembler.Valid()
    ensures PollSoFar(Apply(receiver.cs, relays, s, e), pulls')
    ensures receiver.reassembler.history ==
            FedSoFar(receiver.cs, receiver.identity, Apply(receiver.cs, relays, s, e))
    ensures Texts(Completions(receiver.reassembler.history)) ==
            Texts(Completions(old(receiver.reassembler.history))) + more
  {
    PollsFeedTheReceiver(receiver.cs, relays, receiver.identity, s, e);
    more, pulls' := [], pulls;
    match e
    case Pull(mailbox, ok) =>
      if ok {
        OnePullMore(s, pulls, InMailbox(s.mailboxes, mailbox));
        pulls' := pulls + [Some(Bodies(InMailbox(s.mailboxes, mailbox)))];
      } else {
        pulls' := pulls + [None];
        assert pulls'[|pulls|].None?;
        var r := receiver.Poll(pulls');
        pulls' := [];
      }
    case FinishPoll =>
      var r := receiver.Poll(pulls);
      more := r.value;
      pulls' := [];
    case _ =>
  }

  /** The receiver's own view: its polls have returned exactly the messages, and its pending count is zero. */
  lemma ReceiverHasEverything(
    receiver: Receiver, relays: Directory, es: seq<Network.Event>, cargos: seq<Option<Cell>>, msgs: seq<Message>)
    requires receiver.reassembler.Valid()
    requires receiver.reassembler.history ==
             FedSoFar(receiver.cs, receiver.identity, After(receiver.cs, relays, es))
    requires Distinct(msgs)
    requires Lossless(es) && Quiet(After(receiver.cs, relays, es))
    requires Manifest(receiver.cs, relays, receiver.identity, After(receiver.cs, relays, es), cargos)
    requires multiset(CellsIn(cargos)) == multiset(AllFragments(msgs))
    ensures multiset(Texts(Completions(receiver.reassembler.history))) == multiset(MessageTexts(msgs))
    ensures receiver.PendingCount() == 0
  {
    EndToEndDelivery(receiver.cs, relays, receiver.identity, es, cargos, msgs);
    TextsOfPairs(Completions(receiver.reassembler.history), msgs);
    NothingInFlight(receiver.reassembler);
  }
}
