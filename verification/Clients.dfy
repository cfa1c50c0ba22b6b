/** Sending a message: fragment, encrypt, wrap, and route every cell on its own. */
module Clients {
  import opened ByteStrings
  import opened Cells
  import opened Circuits
  import opened Crypto
  import opened Encryption
  import opened Fragmentation
  import opened Onion
  import opened PathPreference
  import opened PathSelection
  import opened Sequences
  import opened Topologies
  import opened Utf8
  import opened Wrappers

  datatype ClientError = Core(core: VeilError) | PathSelection(selection: PathSelectionError) | Routing | Io

  /** A sender's session with one recipient: the ephemeral secret and the derived key. */
  datatype Session = Session(secret: Key, cellKey: Key)

  function Establish(cs: Crypto, secret: Key, recipientPublic: Key): Session {
    Session(secret, SessionKey(cs, secret, recipientPublic))
  }

  /** The random draws one cell costs: its nonce, a shuffle of the relays, and a pair per layer. */
  datatype Draws = Draws(nonce: Nonce, shuffled: seq<RelayInfo>, layers: seq<LayerCoins>)

  /** A frame handed to the relay at `to`, and the path it was built for. */
  datatype Sent = Sent(path: seq<RelayInfo>, to: Text, frame: Bytes)

  /** The relay a sent cell will surface at, as reported back to the caller. */
  function ExitId(sent: Sent): Text {
    if sent.path == [] then [] else sent.path[|sent.path| - 1].id
  }

  function ExitIds(out: seq<Sent>): (ids: seq<Text>)
    ensures |ids| == |out|
  {
    if out == [] then [] else ExitIds(out[..|out| - 1]) + [ExitId(out[|out| - 1])]
  }

  /** The i-th id reported is that of the last relay on the i-th path. */
  lemma {:induction false} ExitIdAt(out: seq<Sent>, i: nat)
    requires i < |out| && out[i].path != []
    ensures ExitIds(out)[i] == out[i].path[|out[i].path| - 1].id
  {
    if i < |out| - 1 {
      ExitIdAt(out[..|out| - 1], i);
    }
  }

  /** The body of a cell's circuit: the sender's public key and the encrypted cell. */
  function CellBody(cs: Crypto, session: Session, cell: Cell, nonce: Nonce): Bytes {
    EnvelopeBytes(Envelope(cs.publicOf(session.secret), SealedCell(cs, session.cellKey, nonce, cell)))
  }

  /** The sender's public key, then the nonce drawn for this cell, then what opens under it to the cell. */
  lemma CellBodyLayout(cs: Crypto, session: Session, cell: Cell, nonce: Nonce)
    ensures var body := CellBody(cs, session, cell, nonce);
      && |body| == 572
      && body[..32] == cs.publicOf(session.secret)
      && body[32..44] == nonce
      && cs.open(session.cellKey, nonce, body[44..]) == Some(Wire(cell))
  {
    var body, sealed := CellBody(cs, session, cell, nonce), SealedCell(cs, session.cellKey, nonce, cell);
    SealedLayout(cs, session.cellKey, nonce, cell);
    assert body[32..] == sealed;
    assert body[32..44] == sealed[..12] && body[44..] == sealed[12..];
  }

  class VeilClient {
    const cs: Crypto
    const topology: Topology
    const hopCount: nat
    const subnetKey: Classifier

    constructor (cs: Crypto, topology: Topology, hopCount: nat, subnetKey: Classifier)
      ensures this.cs == cs && this.topology == topology && this.hopCount == hopCount
      ensures this.subnetKey == subnetKey
    {
      this.cs, this.topology, this.hopCount, this.subnetKey := cs, topology, hopCount, subnetKey;
    }

    /** A draw that fits the topology and the hop count. */
    ghost predicate Usable(d: Draws)
      reads topology
    {
      IsShuffleOf(d.shuffled, topology) && |d.layers| == hopCount
    }

    /** The path `Send` chooses: of full length, of distinct known relays, as diverse as any. */
    ghost predicate Chosen(path: seq<RelayInfo>, shuffled: seq<RelayInfo>)
      reads topology
    {
      && path == DiversePath(shuffled, hopCount, subnetKey)
      && |path| == hopCount
      && DistinctIds(path)
      && (forall r :: r in path ==> topology.Filed(r))
      && Diversity(Elems(path), subnetKey) == Min(hopCount, Diversity(Elems(shuffled), subnetKey))
    }

    /** `sent` is the onion of the cell over the path `Send` chooses. */
    ghost predicate Carries(session: Session, cell: Cell, d: Draws, sent: Sent)
      reads topology
    {
      && Chosen(sent.path, d.shuffled)
      && |sent.path| == |d.layers| > 0
      && sent.to == sent.path[0].address
      && sent.frame == Circuit(cs, sent.path, CellBody(cs, session, cell, d.nonce), d.layers)
    }

    /** What one turn of the loop builds for a cell. */
    method Prepare(session: Session, cell: Cell, d: Draws) returns (r: Result<Sent, ClientError>)
      requires topology.Valid() && Usable(d)
      ensures r.Ok? <==> 1 <= hopCount <= |topology.relays|
      ensures r.Ok? ==> Carries(session, cell, d, r.value)
      ensures hopCount > |topology.relays| ==>
                r == Err(PathSelection(InsufficientRelays(hopCount, |topology.relays|)))
      ensures hopCount == 0 ==> r == Err(Routing)
    {
      ShuffleSize(d.shuffled, topology);
      var encrypted := EncryptCell(cs, session.cellKey, cell, d.nonce);
      var enveloped := Wrap(cs.publicOf(session.secret), encrypted);
      var selected := SelectDiversePath(topology, hopCount, d.shuffled, subnetKey);
      if selected.Err? {
        return Err(PathSelection(selected.error));
      }
      var path := selected.value;
      var onion := BuildCircuit(cs, path, enveloped, d.layers);
      if onion.Err? {
        return Err(Routing);
      }
      r := Ok(Sent(path, path[0].address, onion.value));
    }

    /** The first cells of a message went out, each on its own circuit. */
    ghost predicate CarriesAll(session: Session, cells: seq<Cell>, draws: seq<Draws>, out: seq<Sent>)
      requires |out| <= |cells| && |out| <= |draws|
      reads topology
      decreases out
    {
      out == [] ||
        var n := |out| - 1;
        CarriesAll(session, cells, draws, out[..n]) && Carries(session, cells[n], draws[n], out[n])
    }

    lemma CarriesMore(session: Session, cells: seq<Cell>, draws: seq<Draws>, out: seq<Sent>, sent: Sent)
      requires |out| < |cells| && |out| < |draws| && CarriesAll(session, cells, draws, out)
      requires Carries(session, cells[|out|], draws[|out|], sent)
      ensures CarriesAll(session, cells, draws, out + [sent])
      ensures ExitIds(out + [sent]) == ExitIds(out) + [ExitId(sent)]
    {
      assert (out + [sent])[..|out|] == out;
    }

    lemma {:induction false} CarriesEach(session: Session, cells: seq<Cell>, draws: seq<Draws>, out: seq<Sent>, i: nat)
      requires i < |out| <= |cells| && |out| <= |draws| && CarriesAll(session, cells, draws, out)
      ensures Carries(session, cells[i], draws[i], out[i])
      decreases out
    {
      if i < |out| - 1 {
        CarriesEach(session, cells, draws, out[..|out| - 1], i);
      }
    }

    /**
     Connecting and writing to a first hop succeeds for `reach` cells before it fails for one;
     `out` is everything that was written whole.
     */
    method Send(session: Session, message: Bytes, messageId: MessageId, draws: seq<Draws>, reach: nat)
      returns (r: Result<seq<Text>, ClientError>, out: seq<Sent>)
      requires topology.Valid()
      requires |draws| >= CellCount(|message|)
      requires forall i :: 0 <= i < |draws| ==> Usable(draws[i])
      ensures !Sendable(message) ==> r == Err(Core(MessageTooLarge(|message|, MAX_MESSAGE_SIZE))) && out == []
      ensures r.Ok? <==> Sendable(message) && 1 <= hopCount <= |topology.relays| && CellCount(|message|) <= reach
      ensures Sendable(message) && 1 <= hopCount <= |topology.relays| ==> |out| == Min(reach, CellCount(|message|))
      ensures |out| <= |draws| && |out| <= CellCount(|message|)
      ensures Sendable(message) ==> CarriesAll(session, Fragments(messageId, message), draws, out)
      ensures r.Ok? ==> |out| == CellCount(|message|) && r.value == ExitIds(out)
      ensures r.Ok? ==> forall i :: 0 <= i < |out| ==>
                out[i].path != [] && r.value[i] == out[i].path[|out[i].path| - 1].id
      ensures Sendable(message) ==> Explained(r, CellCount(|message|), reach) && (Routable() || out == [])
    {
      var fragmented := FragmentMessage(message, messageId);
      if fragmented.Err? {
        r, out := Err(Core(fragmented.error)), [];
        return;
      }
      CellCountBounds(|message|);
      r, out := SendCells(session, fragmented.value, draws, reach);
      if r.Ok? {
        forall i | 0 <= i < |out|
          ensures out[i].path != [] && r.value[i] == out[i].path[|out[i].path| - 1].id
        {
          CarriesEach(session, fragmented.value, draws, out, i);
          ExitIdAt(out, i);
        }
      }
    }

    /** The topology has relays enough for a path, and paths have a hop at least. */
    predicate Routable()
      reads topology
    {
      1 <= hopCount <= |topology.relays|
    }

    /** Why a send of n cells fails, if it does: no path to be had, or a first hop that does not take its frame. */
    ghost predicate Explained(r: Result<seq<Text>, ClientError>, n: nat, reach: nat)
      reads topology
    {
      if hopCount > |topology.relays| then
        r == Err(PathSelection(InsufficientRelays(hopCount, |topology.relays|)))
      else if hopCount == 0 then r == Err(Routing)
      else if n > reach then r == Err(Io)
      else r.Ok?
    }

    /** The loop of `Send`: it stops at the first cell that cannot be routed or sent. */
    method SendCells(session: Session, cells: seq<Cell>, draws: seq<Draws>, reach: nat)
      returns (r: Result<seq<Text>, ClientError>, out: seq<Sent>)
      requires topology.Valid()
      requires |draws| >= |cells| > 0
      requires forall i :: 0 <= i < |draws| ==> Usable(draws[i])
      ensures r.Ok? <==> 1 <= hopCount <= |topology.relays| && |cells| <= reach
      ensures 1 <= hopCount <= |topology.relays| ==> |out| == Min(reach, |cells|)
      ensures |out| <= |cells| && CarriesAll(session, cells, draws, out)
      ensures r.Ok? ==> |out| == |cells| && r.value == ExitIds(out)
      ensures Explained(r, |cells|, reach) && (Routable() || out == [])
    {
      out := [];
      var exits: seq<Text> := [];
      for i := 0 to |cells|
        invariant |out| == i && exits == ExitIds(out)
        invariant i > 0 ==> 1 <= hopCount <= |topology.relays|
        invariant i <= reach
        invariant CarriesAll(session, cells, draws, out)
      {
        var prepared := Prepare(session, cells[i], draws[i]);
        if prepared.Err? {
          r := Err(prepared.error);
          return;
        }
        if i == reach {
          r := Err(Io);
          return;
        }
        CarriesMore(session, cells, draws, out, prepared.value);
        out := out + [prepared.value];
        exits := exits + [ExitId(prepared.value)];
      }
      r := Ok(exits);
    }
  }
}
