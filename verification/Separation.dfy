/**
 How far fresh paths keep the cells of a message apart. The architecture document promises
 that no relay sees more than one fragment of a message; here is when that is so.
 */
module Separation {
  import opened ByteStrings
  import opened Cells
  import opened Circuits
  import opened Clients
  import opened Crypto
  import opened Fragmentation
  import opened Onion
  import opened PathPreference
  import opened PathSelection
  import opened Sequences
  import opened Topologies
  import opened Utf8
  import opened Wrappers

  ghost function PathIds(path: seq<RelayInfo>): set<Text> {
    set r | r in path :: r.id
  }

  /** The ids of all relays on the paths of these sends. */
  ghost function AllIds(out: seq<Sent>): set<Text> {
    if out == [] then {} else AllIds(out[..|out| - 1]) + PathIds(out[|out| - 1].path)
  }

  /** No relay is on the paths of two of these sends. */
  ghost predicate NoSharedRelay(out: seq<Sent>) {
    forall i, j, r :: 0 <= i < j < |out| && r in out[i].path ==> r !in out[j].path
  }

  lemma {:induction false} PathIdsSize(path: seq<RelayInfo>)
    requires DistinctIds(path)
    ensures |PathIds(path)| == |path|
  {
    if path != [] {
      var front, last := path[..|path| - 1], path[|path| - 1];
      PathIdsSize(front);
      Snoc(path);
      assert PathIds(path) == PathIds(front) + {last.id};
    }
  }

  /** A path of h distinct relays that are filed under their ids. */
  ghost predicate Drawn(relays: map<Text, RelayInfo>, h: nat, path: seq<RelayInfo>) {
    |path| == h && DistinctIds(path) && forall r :: r in path ==> r.id in relays && relays[r.id] == r
  }

  ghost predicate AllDrawn(relays: map<Text, RelayInfo>, h: nat, out: seq<Sent>) {
    out == [] || (AllDrawn(relays, h, out[..|out| - 1]) && Drawn(relays, h, out[|out| - 1].path))
  }

  /** An id among those of some paths names a relay on one of them. */
  lemma {:induction false} IdFromPath(relays: map<Text, RelayInfo>, h: nat, out: seq<Sent>, id: Text)
    requires AllDrawn(relays, h, out) && id in AllIds(out)
    ensures id in relays && exists i :: 0 <= i < |out| && relays[id] in out[i].path
  {
    var n := |out| - 1;
    if id in PathIds(out[n].path) {
      var r :| r in out[n].path && r.id == id;
      assert relays[id] in out[n].path;
    } else {
      IdFromPath(relays, h, out[..n], id);
      var i :| 0 <= i < n && relays[id] in out[..n][i].path;
      assert relays[id] in out[i].path;
    }
  }

  lemma LastApart(relays: map<Text, RelayInfo>, h: nat, out: seq<Sent>)
    requires out != [] && AllDrawn(relays, h, out) && NoSharedRelay(out)
    ensures AllIds(out[..|out| - 1]) !! PathIds(out[|out| - 1].path)
    ensures NoSharedRelay(out[..|out| - 1])
  {
    var n := |out| - 1;
    forall id | id in PathIds(out[n].path) ensures id !in AllIds(out[..n]) {
      var r :| r in out[n].path && r.id == id;
      if id in AllIds(out[..n]) {
        IdFromPath(relays, h, out[..n], id);
      }
    }
    forall i, j, r | 0 <= i < j < n && r in out[..n][i].path ensures r !in out[..n][j].path {
      assert r in out[i].path;
    }
  }

  lemma OneMore(n: nat, h: nat)
    ensures n * h + h == (n + 1) * h
  {
  }

  lemma {:induction false} ApartSize(relays: map<Text, RelayInfo>, h: nat, out: seq<Sent>)
    requires AllDrawn(relays, h, out) && NoSharedRelay(out)
    ensures |AllIds(out)| == |out| * h
  {
    if out != [] {
      var n := |out| - 1;
      LastApart(relays, h, out);
      ApartSize(relays, h, out[..n]);
      PathIdsSize(out[n].path);
      var a, b := AllIds(out[..n]), PathIds(out[n].path);
      assert |a + b| == |a| + |b| == n * h + h;
      OneMore(n, h);
    }
  }

  /** Paths that share no relay take as many relays as they have hops together. */
  lemma ApartNeedsRelays(relays: map<Text, RelayInfo>, h: nat, out: seq<Sent>)
    requires AllDrawn(relays, h, out) && NoSharedRelay(out)
    ensures |out| * h <= |relays|
  {
    ApartSize(relays, h, out);
    forall id | id in AllIds(out) ensures id in relays.Keys {
      IdFromPath(relays, h, out, id);
    }
    SubsetSize(AllIds(out), relays.Keys);
    assert |relays.Keys| == |relays|;
  }

  lemma {:induction false} PathsAreDrawn(
    client: VeilClient, session: Session, cells: seq<Cell>, draws: seq<Draws>, out: seq<Sent>)
    requires |out| <= |cells| && |out| <= |draws| && client.CarriesAll(session, cells, draws, out)
    ensures AllDrawn(client.topology.relays, client.hopCount, out)
    decreases out
  {
    if out != [] {
      PathsAreDrawn(client, session, cells, draws, out[..|out| - 1]);
    }
  }

  /** Whatever is drawn: as soon as the cells need more hops than there are relays, two of them share a relay. */
  lemma SomeRelaySeesTwoCells(
    client: VeilClient, session: Session, cells: seq<Cell>, draws: seq<Draws>, out: seq<Sent>)
    requires |out| <= |cells| && |out| <= |draws| && client.CarriesAll(session, cells, draws, out)
    ensures |out| * client.hopCount > |client.topology.relays| ==>
              exists i, j, r :: 0 <= i < j < |out| && r in out[i].path && r in out[j].path
  {
    if NoSharedRelay(out) {
      PathsAreDrawn(client, session, cells, draws, out);
      ApartNeedsRelays(client.topology.relays, client.hopCount, out);
    }
  }

  // ----- the exact condition -----

  /** `out` is what a send of these cells puts on the wire when it succeeds with these draws. */
  ghost predicate CompleteSend(
    client: VeilClient, session: Session, cells: seq<Cell>, draws: seq<Draws>, out: seq<Sent>)
    reads client.topology
  {
    && |out| == |cells| == |draws|
    && (forall i :: 0 <= i < |draws| ==> client.Usable(draws[i]))
    && client.CarriesAll(session, cells, draws, out)
  }

  /** The documented promise for one message: whatever the send draws, no relay sees two of its cells. */
  ghost predicate KeepsApart(client: VeilClient, session: Session, id: MessageId, message: Bytes)
    requires Sendable(message)
    reads client.topology
  {
    forall draws: seq<Draws>, out: seq<Sent> ::
      CompleteSend(client, session, Fragments(id, message), draws, out) ==> NoSharedRelay(out)
  }

  ghost predicate CanRoute(client: VeilClient)
    reads client.topology
  {
    client.topology.Valid() && 1 <= client.hopCount <= |client.topology.relays|
  }

  /** Any usable draws lead to a complete send. */
  lemma {:induction false} SendFor(
    client: VeilClient, session: Session, cells: seq<Cell>, draws: seq<Draws>, n: nat) returns (out: seq<Sent>)
    requires CanRoute(client) && n <= |cells| && n <= |draws|
    requires forall i :: 0 <= i < |draws| ==> client.Usable(draws[i])
    ensures |out| == n && client.CarriesAll(session, cells, draws, out)
  {
    if n == 0 {
      out := [];
    } else {
      var front := SendFor(client, session, cells, draws, n - 1);
      var sent := SendOne(client, session, cells[n - 1], draws[n - 1]);
      out := front + [sent];
      assert out[..n - 1] == front;
    }
  }

  lemma SendOne(client: VeilClient, session: Session, cell: Cell, d: Draws) returns (sent: Sent)
    requires CanRoute(client) && client.Usable(d)
    ensures client.Carries(session, cell, d, sent)
  {
    var path := DiversePath(d.shuffled, client.hopCount, client.subnetKey);
    ShuffleSize(d.shuffled, client.topology);
    DiversePathIsDiverse(d.shuffled, client.hopCount, client.subnetKey);
    sent := Sent(path, path[0].address,
                 Circuit(client.cs, path, CellBody(client.cs, session, cell, d.nonce), d.layers));
  }

  /** The relays filed under some ids, in some order. */
  lemma {:induction false} SomeOrder(relays: map<Text, RelayInfo>, ids: set<Text>) returns (s: seq<RelayInfo>)
    requires ids <= relays.Keys && forall id :: id in ids ==> relays[id].id == id
    ensures DistinctIds(s)
    ensures forall r :: r in s <==> r.id in ids && relays[r.id] == r
    decreases ids
  {
    if ids == {} {
      s := [];
    } else {
      var id :| id in ids;
      s := SomeOrder(relays, ids - {id});
      s := s + [relays[id]];
    }
  }

  lemma SomeUsableDraws(client: VeilClient) returns (d: Draws)
    requires CanRoute(client)
    ensures client.Usable(d)
  {
    var shuffled := SomeOrder(client.topology.relays, client.topology.relays.Keys);
    var coins := LayerCoins(Zeros(KEY_SIZE), Zeros(NONCE_SIZE));
    d := Draws(Zeros(NONCE_SIZE), shuffled, seq(client.hopCount, _ => coins));
  }

  /** Nothing keeps two cells from drawing the same shuffle, and then they take the same path. */
  lemma SameDrawsSamePath(client: VeilClient, session: Session, cells: seq<Cell>)
    returns (draws: seq<Draws>, out: seq<Sent>)
    requires CanRoute(client) && |cells| >= 2
    ensures CompleteSend(client, session, cells, draws, out)
    ensures out[0].path == out[1].path != []
  {
    var d := SomeUsableDraws(client);
    draws := seq(|cells|, _ => d);
    out := SendAll(client, session, cells, draws);
  }

  lemma SendAll(client: VeilClient, session: Session, cells: seq<Cell>, draws: seq<Draws>) returns (out: seq<Sent>)
    requires CanRoute(client) && |draws| == |cells| >= 2
    requires forall i :: 0 <= i < |draws| ==> client.Usable(draws[i])
    ensures CompleteSend(client, session, cells, draws, out)
    ensures out[0].path == DiversePath(draws[0].shuffled, client.hopCount, client.subnetKey) != []
    ensures out[1].path == DiversePath(draws[1].shuffled, client.hopCount, client.subnetKey)
  {
    out := SendFor(client, session, cells, draws, |cells|);
    client.CarriesEach(session, cells, draws, out, 0);
    client.CarriesEach(session, cells, draws, out, 1);
  }

  lemma TwoCellsCanMeet(client: VeilClient, session: Session, id: MessageId, message: Bytes)
    requires CanRoute(client) && Sendable(message) && |Fragments(id, message)| >= 2
    ensures !KeepsApart(client, session, id, message)
  {
    var draws, out := SameDrawsSamePath(client, session, Fragments(id, message));
    assert out[0].path[0] in out[0].path && out[0].path[0] in out[1].path;
    assert !NoSharedRelay(out);
  }

  /**
   The exact condition. Whatever the topology, the promise holds for a message if, and only if,
   it fits one cell: a message of two cells or more has draws that show two of them to one relay.
   */
  lemma KeptApartIffOneCell(client: VeilClient, session: Session, id: MessageId, message: Bytes)
    requires CanRoute(client) && Sendable(message)
    ensures KeepsApart(client, session, id, message) <==> |message| <= PAYLOAD_CAPACITY
  {
    CellCountBounds(|message|);
    if |message| > PAYLOAD_CAPACITY {
      TwoCellsCanMeet(client, session, id, message);
    } else {
      assert |Fragments(id, message)| == 1;
    }
  }

  // ----- one input for which the promise fails -----

  const A := RelayInfo([97], [97, 58, 49], Zeros(KEY_SIZE))
  const B := RelayInfo([98], [98, 58, 49], Zeros(KEY_SIZE))
  const C := RelayInfo([99], [99, 58, 49], Zeros(KEY_SIZE))

  lemma {:induction false} AllNew(relays: seq<RelayInfo>, subnetKey: Classifier)
    requires forall a :: subnetKey(a) == None
    ensures SortOut(relays, subnetKey) == Sorting(relays, [], [])
  {
    if relays != [] {
      AllNew(relays[..|relays| - 1], subnetKey);
      Snoc(relays);
    }
  }

  /** One byte more than a cell holds. */
  const TwoCellMessage := Zeros(PAYLOAD_CAPACITY + 1)

  lemma TwoCells(id: MessageId)
    ensures Sendable(TwoCellMessage) && |Fragments(id, TwoCellMessage)| == 2
  {
  }

  /** A complete send of the two cells that enters at a and at c, and takes both to b. */
  ghost predicate BothReachB(client: VeilClient, session: Session, cells: seq<Cell>, draws: seq<Draws>, out: seq<Sent>)
    reads client.topology
  {
    && CompleteSend(client, session, cells, draws, out)
    && |out| == 2 && out[0].path == [A, B] && out[1].path == [C, B]
  }

  /**
   Three relays, two hops and a message of 489 bytes. The two cells draw different shuffles and
   enter at different relays, and still relay b sees both.
   */
  lemma TwoCellsThroughB(client: VeilClient, session: Session, id: MessageId)
    returns (draws: seq<Draws>, out: seq<Sent>)
    requires client.hopCount == 2 && forall a :: client.subnetKey(a) == None
    requires KnowsOnly(client.topology, A, B, C)
    ensures Sendable(TwoCellMessage)
    ensures BothReachB(client, session, Fragments(id, TwoCellMessage), draws, out)
  {
    DistinctABC();
    TwoCells(id);
    draws, out := TwoOrders(client, session, Fragments(id, TwoCellMessage), A, B, C);
  }

  lemma TwoOrders(client: VeilClient, session: Session, cells: seq<Cell>, x: RelayInfo, y: RelayInfo, z: RelayInfo)
    returns (draws: seq<Draws>, out: seq<Sent>)
    requires client.hopCount == 2 && forall a :: client.subnetKey(a) == None
    requires KnowsOnly(client.topology, x, y, z)
    requires x.id != y.id && x.id != z.id && y.id != z.id && |cells| == 2
    ensures CompleteSend(client, session, cells, draws, out)
    ensures out[0].path == [x, y] && out[1].path == [z, y]
  {
    ThreeRelays(x, y, z, client);
    ThreeRelays(z, y, x, client);
    PathOfThree(x, y, z, client.subnetKey);
    PathOfThree(z, y, x, client.subnetKey);
    draws := [AnyCoins([x, y, z]), AnyCoins([z, y, x])];
    out := SendAll(client, session, cells, draws);
  }

  lemma DistinctABC()
    ensures A.id != B.id && A.id != C.id && B.id != C.id
  {
    assert A.id[0] == 97 && B.id[0] == 98 && C.id[0] == 99;
  }

  function AnyCoins(shuffled: seq<RelayInfo>): Draws {
    var coins := LayerCoins(Zeros(KEY_SIZE), Zeros(NONCE_SIZE));
    Draws(Zeros(NONCE_SIZE), shuffled, [coins, coins])
  }

  /** The topology knows these relays and no others. */
  ghost predicate KnowsOnly(topology: Topology, x: RelayInfo, y: RelayInfo, z: RelayInfo)
    reads topology
  {
    && topology.relays.Keys == {x.id, y.id, z.id}
    && topology.relays[x.id] == x && topology.relays[y.id] == y && topology.relays[z.id] == z
  }

  lemma ThreeRelays(x: RelayInfo, y: RelayInfo, z: RelayInfo, client: VeilClient)
    requires KnowsOnly(client.topology, x, y, z)
    requires x.id != y.id && x.id != z.id && y.id != z.id && client.hopCount == 2
    ensures CanRoute(client) && client.Usable(AnyCoins([x, y, z]))
  {
    var relays := client.topology.relays;
    assert |relays.Keys| == |relays|;
    forall r ensures r in [x, y, z] <==> client.topology.Filed(r) {
      OneOfThree(x, y, z, client.topology, r);
    }
  }

  lemma OneOfThree(x: RelayInfo, y: RelayInfo, z: RelayInfo, topology: Topology, r: RelayInfo)
    requires KnowsOnly(topology, x, y, z)
    ensures r in [x, y, z] <==> topology.Filed(r)
  {
    assert r in [x, y, z] <==> r == x || r == y || r == z;
    assert r.id in topology.relays.Keys <==> r.id == x.id || r.id == y.id || r.id == z.id;
  }

  lemma PathOfThree(x: RelayInfo, y: RelayInfo, z: RelayInfo, subnetKey: Classifier)
    requires forall a :: subnetKey(a) == None
    ensures DiversePath([x, y, z], 2, subnetKey) == [x, y]
  {
    AllNew([x, y, z], subnetKey);
  }
}
