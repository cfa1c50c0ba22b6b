/** The senders' end: what any number of calls of `VeilClient.Send` put on the network. */
module Senders {
  import opened ByteStrings
  import opened Cells
  import opened Circuits
  import opened Clients
  import opened Completeness
  import opened Crypto
  import opened Encryption
  import opened EndToEnd
  import opened Fragmentation
  import opened Network
  import opened ReassemblySpec
  import opened Sequences
  import opened Topologies
  import opened Wrappers

  /** A call of `Send`, by some client in a session of its own, with what it drew and wrote. */
  datatype Call = Call(client: VeilClient, secret: Key, message: Message, draws: seq<Draws>, out: seq<Sent>)

  function SessionOf(cs: Crypto, identity: Key, call: Call): Session {
    Establish(cs, call.secret, cs.publicOf(identity))
  }

  /** What `Send` promises of a call to the holder of this identity, whether it ran to its end or broke off. */
  ghost predicate Returned(cs: Crypto, identity: Key, call: Call)
    reads call.client.topology
  {
    && call.client.cs == cs
    && Sendable(call.message.text)
    && |call.out| <= |call.draws| && |call.out| <= CellCount(|call.message.text|)
    && call.client.CarriesAll(
         SessionOf(cs, identity, call), Fragments(call.message.id, call.message.text), call.draws, call.out)
  }

  /** The client's topology tells the truth: each address leads to the holder of the key filed with it. */
  ghost predicate Truthful(cs: Crypto, relays: Directory, topology: Topology)
    reads topology
  {
    forall r :: topology.Filed(r) ==>
      r.address in relays && r.publicKey == cs.publicOf(relays[r.address]) && |r.address| < U16_LIMIT
  }

  ghost predicate FramesFit(call: Call) {
    forall i :: 0 <= i < |call.out| ==> |call.out[i].frame| < U32_LIMIT
  }

  /** The i-th frame of a call as a send of the network, with the cell it carries. */
  function Load(cs: Crypto, identity: Key, call: Call, i: nat): (Sending, Cell)
    requires Sendable(call.message.text) && |call.out| <= |call.draws| && |call.out| <= CellCount(|call.message.text|)
    requires i < |call.out|
  {
    var cell := Fragments(call.message.id, call.message.text)[i];
    (Sending(call.out[i].path, call.draws[i].layers,
             CellBody(cs, SessionOf(cs, identity, call), cell, call.draws[i].nonce)), cell)
  }

  /** What `VeilClient.Send` hands to the first relay for a cell is a send of the network that carries that cell. */
  lemma ClientSendsCargo(
    client: VeilClient, secret: Key, identity: Key, cell: Cell, d: Draws, sent: Sent)
    requires client.Carries(Establish(client.cs, secret, client.cs.publicOf(identity)), cell, d, sent)
    ensures var body := CellBody(client.cs, Establish(client.cs, secret, client.cs.publicOf(identity)), cell, d.nonce);
      && Envelops(client.cs, identity, body, cell)
      && sent.to == sent.path[0].address
      && sent.frame == Circuit(client.cs, sent.path, body, d.layers)
  {
    var body := CellBody(client.cs, Establish(client.cs, secret, client.cs.publicOf(identity)), cell, d.nonce);
    assert body == Enveloped(client.cs, secret, client.cs.publicOf(identity), d.nonce, cell);
  }

  /** With a truthful topology, the client's sends are good ones. */
  lemma ClientSendsAreGood(
    client: VeilClient, relays: Directory, session: Session, cell: Cell, d: Draws, sent: Sent)
    requires client.Carries(session, cell, d, sent) && |sent.frame| < U32_LIMIT
    requires Truthful(client.cs, relays, client.topology)
    ensures Good(client.cs, relays, Sending(sent.path, d.layers, CellBody(client.cs, session, cell, d.nonce)))
  {
    forall i | 0 <= i < |sent.path| ensures client.topology.Filed(sent.path[i]) {
      assert sent.path[i] in sent.path;
    }
  }

  /** The pair is a good send and a cell that its body carries to the identity. */
  ghost predicate GoodLoad(cs: Crypto, relays: Directory, identity: Key, load: (Sending, Cell)) {
    Good(cs, relays, load.0) && Envelops(cs, identity, load.0.body, load.1)
  }

  lemma LoadIsGood(cs: Crypto, relays: Directory, identity: Key, call: Call, i: nat)
    requires Returned(cs, identity, call) && i < |call.out|
    requires Truthful(cs, relays, call.client.topology) && |call.out[i].frame| < U32_LIMIT
    ensures GoodLoad(cs, relays, identity, Load(cs, identity, call, i))
  {
    var session := SessionOf(cs, identity, call);
    var cells := Fragments(call.message.id, call.message.text);
    call.client.CarriesEach(session, cells, call.draws, call.out, i);
    ClientSendsCargo(call.client, call.secret, identity, cells[i], call.draws[i], call.out[i]);
    ClientSendsAreGood(call.client, relays, session, cells[i], call.draws[i], call.out[i]);
  }

  /**
   What `Send` reports to its caller is where the cell surfaces. With a truthful topology, the id it
   gives for the i-th cell is that of the relay at which the relays, run on the i-th frame from the
   address it was handed to, deliver the cell's body.
   */
  lemma ReportedExit(cs: Crypto, relays: Directory, identity: Key, call: Call, i: nat)
    requires Returned(cs, identity, call) && i < |call.out|
    requires Truthful(cs, relays, call.client.topology)
    ensures exists exit ::
      && call.client.topology.Filed(exit) && exit.id == ExitIds(call.out)[i]
      && Run(cs, relays, call.out[i].to, call.out[i].frame).fate
           == Delivered(exit.address, Load(cs, identity, call, i).0.body)
  {
    var session := SessionOf(cs, identity, call);
    var sent, d := call.out[i], call.draws[i];
    call.client.CarriesEach(session, Fragments(call.message.id, call.message.text), call.draws, call.out, i);
    TruthfulPath(cs, relays, call.client.topology, sent.path);
    CircuitExecution(cs, relays, sent.path, Load(cs, identity, call, i).0.body, d.layers);
    ExitIdAt(call.out, i);
    assert sent.path[|sent.path| - 1] in sent.path;
  }

  lemma TruthfulPath(cs: Crypto, relays: Directory, topology: Topology, path: seq<RelayInfo>)
    requires Truthful(cs, relays, topology) && forall r :: r in path ==> topology.Filed(r)
    ensures Resolves(cs, relays, path) && HopsFit(path)
  {
    forall i | 0 <= i < |path| ensures topology.Filed(path[i]) {
      assert path[i] in path;
    }
  }

  // ----- many calls -----

  /** Calls whose promises hold, made with topologies that tell the truth. */
  ghost predicate AllReturned(cs: Crypto, relays: Directory, identity: Key, calls: seq<Call>)
    reads set call | call in calls :: call.client.topology
  {
    forall call :: call in calls ==>
      Returned(cs, identity, call) && Truthful(cs, relays, call.client.topology) && FramesFit(call)
  }

  function Loads(cs: Crypto, identity: Key, call: Call): (ls: seq<(Sending, Cell)>)
    requires Sendable(call.message.text) && |call.out| <= |call.draws| && |call.out| <= CellCount(|call.message.text|)
    ensures |ls| == |call.out|
  {
    seq(|call.out|, i requires 0 <= i < |call.out| => Load(cs, identity, call, i))
  }

  ghost predicate Wellformed(calls: seq<Call>) {
    forall call :: call in calls ==>
      Sendable(call.message.text) && |call.out| <= |call.draws| && |call.out| <= CellCount(|call.message.text|)
  }

  /** Everything the calls have put on the network. */
  function AllLoads(cs: Crypto, identity: Key, calls: seq<Call>): seq<(Sending, Cell)>
    requires Wellformed(calls)
  {
    if calls == [] then [] else
    AllLoads(cs, identity, calls[..|calls| - 1]) + Loads(cs, identity, calls[|calls| - 1])
  }

  function MessagesOf(calls: seq<Call>): (msgs: seq<Message>)
    ensures |msgs| == |calls|
  {
    seq(|calls|, i requires 0 <= i < |calls| => calls[i].message)
  }

  lemma LoadsAreGood(cs: Crypto, relays: Directory, identity: Key, call: Call, load: (Sending, Cell))
    requires Returned(cs, identity, call) && Truthful(cs, relays, call.client.topology) && FramesFit(call)
    requires load in Loads(cs, identity, call)
    ensures GoodLoad(cs, relays, identity, load)
  {
    var i :| 0 <= i < |call.out| && Load(cs, identity, call, i) == load;
    LoadIsGood(cs, relays, identity, call, i);
  }

  lemma {:induction false} AllLoadsAreGood(
    cs: Crypto, relays: Directory, identity: Key, calls: seq<Call>, load: (Sending, Cell))
    requires Wellformed(calls) && AllReturned(cs, relays, identity, calls)
    requires load in AllLoads(cs, identity, calls)
    ensures GoodLoad(cs, relays, identity, load)
  {
    var front, call := calls[..|calls| - 1], calls[|calls| - 1];
    assert call in calls && forall c :: c in front ==> c in calls;
    if load in AllLoads(cs, identity, front) {
      AllLoadsAreGood(cs, relays, identity, front, load);
    } else {
      LoadsAreGood(cs, relays, identity, call, load);
    }
  }

  function CellOf(load: (Sending, Cell)): Option<Cell> {
    Some(load.1)
  }

  lemma CellsOfCall(cs: Crypto, identity: Key, call: Call)
    requires Wellformed([call])
    ensures FilterMap(CellOf, Loads(cs, identity, call)) ==
            Fragments(call.message.id, call.message.text)[..|call.out|]
  {
    assert call in [call];
    FilterMapTotal(CellOf, Loads(cs, identity, call),
                   Fragments(call.message.id, call.message.text)[..|call.out|]);
  }

  ghost predicate AllWhole(calls: seq<Call>) {
    forall call :: call in calls ==> |call.out| == CellCount(|call.message.text|)
  }

  /** The cells the calls have sent. */
  function SentCells(calls: seq<Call>): seq<Cell>
    requires Wellformed(calls)
  {
    if calls == [] then [] else
    var call := calls[|calls| - 1];
    SentCells(calls[..|calls| - 1]) + Fragments(call.message.id, call.message.text)[..|call.out|]
  }

  /** The cells of the calls' messages. */
  function AllCells(calls: seq<Call>): seq<Cell>
    requires Wellformed(calls)
  {
    if calls == [] then [] else
    var call := calls[|calls| - 1];
    AllCells(calls[..|calls| - 1]) + Fragments(call.message.id, call.message.text)
  }

  lemma {:induction false} LoadsCarrySent(cs: Crypto, identity: Key, calls: seq<Call>)
    requires Wellformed(calls)
    ensures FilterMap(CellOf, AllLoads(cs, identity, calls)) == SentCells(calls)
  {
    if calls != [] {
      var front, call := calls[..|calls| - 1], calls[|calls| - 1];
      LoadsCarrySent(cs, identity, front);
      CellsOfCall(cs, identity, call);
      FilterMapConcat(CellOf, AllLoads(cs, identity, front), Loads(cs, identity, call));
    }
  }

  lemma {:induction false} MessagesHaveAllCells(calls: seq<Call>)
    requires Wellformed(calls) && Distinct(MessagesOf(calls))
    ensures AllFragments(MessagesOf(calls)) == AllCells(calls)
  {
    if calls != [] {
      var front := calls[..|calls| - 1];
      MessagesOfFront(calls);
      MessagesHaveAllCells(front);
    }
  }

  lemma MessagesOfFront(calls: seq<Call>)
    requires calls != []
    ensures MessagesOf(calls)[..|calls| - 1] == MessagesOf(calls[..|calls| - 1])
    ensures Distinct(MessagesOf(calls)) ==> Distinct(MessagesOf(calls[..|calls| - 1]))
  {
    var msgs, front := MessagesOf(calls), MessagesOf(calls[..|calls| - 1]);
    assert forall i :: 0 <= i < |front| ==> front[i] == msgs[i];
  }

  lemma SubConcat<T>(a: seq<T>, b: seq<T>, c: seq<T>, d: seq<T>)
    requires multiset(a) <= multiset(b) && multiset(c) <= multiset(d)
    ensures multiset(a + c) <= multiset(b + d)
  {
    MultisetConcat(a, c);
    MultisetConcat(b, d);
  }

  /** The cells sent by calls are cells of their messages. */
  lemma {:induction false} SentAreCells(calls: seq<Call>)
    requires Wellformed(calls)
    ensures multiset(SentCells(calls)) <= multiset(AllCells(calls))
  {
    if calls != [] {
      var front, call := calls[..|calls| - 1], calls[|calls| - 1];
      var cells := Fragments(call.message.id, call.message.text);
      SentAreCells(front);
      PrefixIsLess(cells, |call.out|);
      SubConcat(SentCells(front), AllCells(front), cells[..|call.out|], cells);
    }
  }

  /** When no call broke off they are all of them. */
  lemma {:induction false} WholeCallsSendAll(calls: seq<Call>)
    requires Wellformed(calls) && AllWhole(calls)
    ensures SentCells(calls) == AllCells(calls)
  {
    if calls != [] {
      var call := calls[|calls| - 1];
      WholeCallsSendAll(calls[..|calls| - 1]);
      assert call in calls;
      var cells := Fragments(call.message.id, call.message.text);
      assert cells[..|call.out|] == cells;
    }
  }

  lemma PrefixIsLess<T>(s: seq<T>, n: nat)
    requires n <= |s|
    ensures multiset(s[..n]) <= multiset(s)
  {
    assert s == s[..n] + s[n..];
    MultisetConcat(s[..n], s[n..]);
  }

  // ----- on the network -----

  /** The sends that carry something, each with what it carries. */
  function Carrying(sent: seq<Sending>, cargos: seq<Option<Cell>>): seq<(Sending, Cell)>
    requires |sent| == |cargos|
  {
    if sent == [] then [] else
    var n := |sent| - 1;
    var earlier := Carrying(sent[..n], cargos[..n]);
    if cargos[n].Some? then earlier + [(sent[n], cargos[n].value)] else earlier
  }

  lemma {:induction false} CarryingHas(sent: seq<Sending>, cargos: seq<Option<Cell>>, k: nat)
    requires |sent| == |cargos| && k < |sent| && cargos[k].Some?
    ensures (sent[k], cargos[k].value) in Carrying(sent, cargos)
    decreases |sent|
  {
    if k < |sent| - 1 {
      CarryingHas(sent[..|sent| - 1], cargos[..|sent| - 1], k);
    }
  }

  lemma CarryingStep(sent: seq<Sending>, cargos: seq<Option<Cell>>)
    requires |sent| == |cargos| > 0
    ensures var n := |sent| - 1;
      FilterMap(CellOf, Carrying(sent, cargos)) ==
      FilterMap(CellOf, Carrying(sent[..n], cargos[..n])) + Yield(cargos[n])
  {
    var n := |sent| - 1;
    var earlier := Carrying(sent[..n], cargos[..n]);
    if cargos[n].Some? {
      FilterMapAppend(CellOf, earlier, (sent[n], cargos[n].value));
    } else {
      assert FilterMap(CellOf, earlier) + [] == FilterMap(CellOf, earlier);
    }
  }

  lemma RangeStep(f: nat -> Option<Cell>, n: nat)
    ensures FilterMap(f, Range(n + 1)) == FilterMap(f, Range(n)) + Yield(f(n))
  {
    assert Range(n + 1) == Range(n) + [n];
    FilterMapAppend<nat, Cell>(f, Range(n), n);
  }

  lemma {:induction false} CarryingCells(sent: seq<Sending>, cargos: seq<Option<Cell>>, n: nat)
    requires |sent| == |cargos| && n <= |sent|
    ensures FilterMap(CellOf, Carrying(sent[..n], cargos[..n])) == FilterMap(CargoOf(cargos), Range(n))
  {
    if n > 0 {
      CarryingCells(sent, cargos, n - 1);
      CarryingStep(sent[..n], cargos[..n]);
      CutTwice(sent, n - 1, n);
      CutTwice(cargos, n - 1, n);
      RangeStep(CargoOf(cargos), n - 1);
    }
  }

  /** The sends that carry something are those of the calls, in any order and among any other traffic. */
  ghost predicate FromCalls(
    cs: Crypto, identity: Key, calls: seq<Call>, sent: seq<Sending>, cargos: seq<Option<Cell>>)
  {
    && Wellformed(calls) && |cargos| == |sent|
    && multiset(Carrying(sent, cargos)) == multiset(AllLoads(cs, identity, calls))
  }

  /**
   The join at the senders' end. When what the network was given to carry to the identity is what
   the calls wrote, it has a manifest, and the cells carried are cells of the calls' messages: all
   of them, when no call broke off.
   */
  lemma CallsMakeManifest(
    cs: Crypto, relays: Directory, identity: Key, s: Net, cargos: seq<Option<Cell>>, calls: seq<Call>)
    requires FromCalls(cs, identity, calls, s.sent, cargos) && AllReturned(cs, relays, identity, calls)
    requires Distinct(MessagesOf(calls))
    requires forall p :: p in s.polled && p.tag < |cargos| && cargos[p.tag].None? ==>
               OpenEnvelope(cs, identity, p.bytes) == None
    ensures Manifest(cs, relays, identity, s, cargos)
    ensures multiset(CellsIn(cargos)) <= multiset(AllFragments(MessagesOf(calls)))
    ensures AllWhole(calls) ==> multiset(CellsIn(cargos)) == multiset(AllFragments(MessagesOf(calls)))
  {
    forall k | 0 <= k < |cargos| && cargos[k].Some?
      ensures GoodLoad(cs, relays, identity, (s.sent[k], cargos[k].value))
    {
      CarryingHas(s.sent, cargos, k);
      assert (s.sent[k], cargos[k].value) in multiset(AllLoads(cs, identity, calls));
      AllLoadsAreGood(cs, relays, identity, calls, (s.sent[k], cargos[k].value));
    }
    CarriedCells(cs, identity, calls, s.sent, cargos);
    LoadsCarrySent(cs, identity, calls);
    MessagesHaveAllCells(calls);
    SentAreCells(calls);
    if AllWhole(calls) {
      WholeCallsSendAll(calls);
    }
  }

  lemma CarriedCells(cs: Crypto, identity: Key, calls: seq<Call>, sent: seq<Sending>, cargos: seq<Option<Cell>>)
    requires FromCalls(cs, identity, calls, sent, cargos)
    ensures multiset(CellsIn(cargos)) == multiset(FilterMap(CellOf, AllLoads(cs, identity, calls)))
  {
    CarryingCells(sent, cargos, |sent|);
    assert sent[..|sent|] == sent && cargos[..|sent|] == cargos;
    FilterMapPermutes(CellOf, Carrying(sent, cargos), AllLoads(cs, identity, calls));
  }

  /**
   From calls of `Send` to messages received: any number of senders with topologies that tell the
   truth, and any run of the network that was given their frames, in any order and among any
   other traffic. At every moment the receiver has completed only messages of these calls, under
   their ids, and none twice. If no call broke off, no link failed and every pull succeeded, then
   once nothing is in transit it has completed all of them, and holds nothing back.
   */
  lemma CallsReachTheReceiver(
    cs: Crypto, relays: Directory, identity: Key, es: seq<Network.Event>,
    cargos: seq<Option<Cell>>, calls: seq<Call>)
    requires FromCalls(cs, identity, calls, After(cs, relays, es).sent, cargos)
    requires AllReturned(cs, relays, identity, calls) && Distinct(MessagesOf(calls))
    requires forall p :: p in After(cs, relays, es).polled && p.tag < |cargos| && cargos[p.tag].None? ==>
               OpenEnvelope(cs, identity, p.bytes) == None
    ensures var received := FedSoFar(cs, identity, After(cs, relays, es));
      && multiset(Completions(received)) <= multiset(Pairs(MessagesOf(calls)))
      && (AllWhole(calls) && Lossless(es) && Quiet(After(cs, relays, es)) ==>
            && multiset(Completions(received)) == multiset(Pairs(MessagesOf(calls)))
            && forall id: MessageId :: Pending(Project(received, id)) == [])
  {
    CallsMakeManifest(cs, relays, identity, After(cs, relays, es), cargos, calls);
    OnlyWhatWasSent(cs, relays, identity, es, cargos, MessagesOf(calls));
    if AllWhole(calls) && Lossless(es) && Quiet(After(cs, relays, es)) {
      EndToEndDelivery(cs, relays, identity, es, cargos, MessagesOf(calls));
    }
  }
}
