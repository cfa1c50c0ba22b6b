/** Building a circuit from the exit backwards, and what the relays make of it from the front. */
module Circuits {
  import opened ByteStrings
  import opened Crypto
  import opened Onion
  import opened Sequences
  import opened Topologies
  import opened Utf8
  import opened Wrappers

  datatype CircuitError = EmptyPath

  /** The onion for a path, read from the entry relay: each layer names the next hop and hides the rest. */
  function Circuit(cs: Crypto, path: seq<RelayInfo>, body: Bytes, coins: seq<LayerCoins>): Bytes
    requires |path| == |coins| > 0
  {
    var payload := if |path| == 1 then Deliver(body)
                   else Forward(path[1].address, Circuit(cs, path[1..], body, coins[1..]));
    Layer(cs, path[0].publicKey, payload, coins[0])
  }

  /** `coins[i]` is the randomness drawn for the layer of `path[i]`. */
  method BuildCircuit(cs: Crypto, path: seq<RelayInfo>, finalBody: Bytes, coins: seq<LayerCoins>)
    returns (r: Result<Bytes, CircuitError>)
    requires |coins| == |path|
    ensures r.Err? <==> path == []
    ensures r.Ok? ==> path != [] && r.value == Circuit(cs, path, finalBody, coins)
  {
    if path == [] {
      return Err(EmptyPath);
    }
    var last := |path| - 1;
    var exit, innerHops := path[last], path[..last];
    var layer := BuildOnionLayer(cs, exit.publicKey, Deliver(finalBody), coins[last]);
    assert path[last..] == [exit];
    for i := |innerHops| downto 0
      invariant layer == Circuit(cs, path[i..], finalBody, coins[i..])
    {
      var hop := innerHops[i];
      var nextHopAddr := if i + 1 < |innerHops| then innerHops[i + 1].address else exit.address;
      ghost var inner := layer;
      layer := BuildOnionLayer(cs, hop.publicKey, Forward(nextHopAddr, layer), coins[i]);
      assert path[i..][1..] == path[i + 1..] && coins[i..][1..] == coins[i + 1..];
      assert path[i..][1].address == nextHopAddr;
    }
    assert path[0..] == path && coins[0..] == coins;
    r := Ok(layer);
  }

  /** Who holds which secret: the relay that answers at each address. */
  type Directory = map<Text, Key>

  datatype Fate =
    | Delivered(at: Text, body: Bytes)
    | Dropped(at: Text)
    | Unreachable(at: Text)

  datatype Trace = Trace(visited: seq<Text>, fate: Fate)

  /** Relays peeling one after another, starting at `at`, until one delivers or drops the frame. */
  function Run(cs: Crypto, relays: Directory, at: Text, frame: Bytes): Trace
    decreases |frame|
  {
    if at !in relays then Trace([], Unreachable(at)) else
    var peeled := Peel(cs, relays[at], frame);
    if peeled.Err? then Trace([at], Dropped(at)) else
    match peeled.value
    case Deliver(body) => Trace([at], Delivered(at, body))
    case Forward(nextHop, body) =>
      PeelShrinks(cs, relays[at], frame);
      var rest := Run(cs, relays, nextHop, body);
      Trace([at] + rest.visited, rest.fate)
  }

  /** The relay at each path address holds the secret behind the key the sender used for it. */
  ghost predicate Resolves(cs: Crypto, relays: Directory, path: seq<RelayInfo>) {
    forall i :: 0 <= i < |path| ==>
      path[i].address in relays && path[i].publicKey == cs.publicOf(relays[path[i].address])
  }

  function Addresses(path: seq<RelayInfo>): (as_: seq<Text>)
    ensures |as_| == |path|
  {
    seq(|path|, i requires 0 <= i < |path| => path[i].address)
  }

  /** Every address that has to be written into a layer fits its 16-bit length. */
  ghost predicate HopsFit(path: seq<RelayInfo>) {
    forall i :: 1 <= i < |path| ==> |path[i].address| < U16_LIMIT
  }

  lemma SuffixResolves(cs: Crypto, relays: Directory, path: seq<RelayInfo>)
    requires path != [] && Resolves(cs, relays, path)
    ensures Resolves(cs, relays, path[1..])
    ensures |path| > 1 ==> (HopsFit(path) <==> |path[1].address| < U16_LIMIT && HopsFit(path[1..]))
  {
    forall i | 0 <= i < |path[1..]|
      ensures path[1..][i].address in relays
           && path[1..][i].publicKey == cs.publicOf(relays[path[1..][i].address])
    {
      assert path[1..][i] == path[i + 1];
    }
    if |path| > 1 && |path[1].address| < U16_LIMIT && HopsFit(path[1..]) {
      forall i | 1 <= i < |path| ensures |path[i].address| < U16_LIMIT {
        assert i > 1 ==> path[1..][i - 1] == path[i];
      }
    }
    if |path| > 1 && HopsFit(path) {
      forall i | 1 <= i < |path[1..]| ensures |path[1..][i].address| < U16_LIMIT {
        assert path[1..][i] == path[i + 1];
      }
    }
  }

  /** The relays execute the onion as built: along exactly the path, delivering exactly the body at its end. */
  ghost predicate Executes(
    cs: Crypto, relays: Directory, path: seq<RelayInfo>, body: Bytes, coins: seq<LayerCoins>)
    requires |path| == |coins| > 0
  {
    Run(cs, relays, path[0].address, Circuit(cs, path, body, coins))
      == Trace(Addresses(path), Delivered(path[|path| - 1].address, body))
  }

  /**
   Compile and execute. Run on the relays, the onion for a path visits exactly the path, in
   order, and delivers exactly the body at its last relay: if, and only if, the addresses fit.
   */
  lemma {:induction false} CircuitExecution(
    cs: Crypto, relays: Directory, path: seq<RelayInfo>, body: Bytes, coins: seq<LayerCoins>)
    requires |path| == |coins| > 0 && Resolves(cs, relays, path)
    ensures Executes(cs, relays, path, body, coins) <==> HopsFit(path)
    decreases |path|
  {
    if |path| == 1 {
      PeelLayer(cs, relays[path[0].address], Deliver(body), coins[0]);
      assert Addresses(path) == [path[0].address];
    } else {
      SuffixResolves(cs, relays, path);
      FirstHop(cs, relays, path, body, coins);
      if |path[1].address| < U16_LIMIT {
        CircuitExecution(cs, relays, path[1..], body, coins[1..]);
      }
    }
  }

  /** The entry relay hands over to the rest of the path, if it reads the next address right. */
  lemma FirstHop(cs: Crypto, relays: Directory, path: seq<RelayInfo>, body: Bytes, coins: seq<LayerCoins>)
    requires |path| == |coins| > 1 && Resolves(cs, relays, path)
    ensures |path[1].address| < U16_LIMIT ==>
              (Executes(cs, relays, path, body, coins) <==> Executes(cs, relays, path[1..], body, coins[1..]))
    ensures |path[1].address| >= U16_LIMIT ==> !Executes(cs, relays, path, body, coins)
  {
    var at, frame := path[0].address, Circuit(cs, path, body, coins);
    var inner := Circuit(cs, path[1..], body, coins[1..]);
    var payload := Forward(path[1].address, inner);
    PeelLayer(cs, relays[at], payload, coins[0]);
    if HopFits(payload) {
      RunForward(cs, relays, at, frame, path[1].address, inner);
      AddressesFirst(path);
      PrependSame(at, Run(cs, relays, path[1].address, inner).visited, Addresses(path[1..]));
    } else {
      DecodeEncode(payload);
      Derailed(cs, relays, at, frame, path[1].address);
      assert Addresses(path)[1] == path[1].address;
    }
  }

  lemma AddressesFirst(path: seq<RelayInfo>)
    requires path != []
    ensures Addresses(path) == [path[0].address] + Addresses(path[1..])
  {
  }

  /** One relay's part in a run. */
  lemma RunForward(cs: Crypto, relays: Directory, at: Text, frame: Bytes, nextHop: Text, inner: Bytes)
    requires at in relays && Peel(cs, relays[at], frame) == Ok(Forward(nextHop, inner))
    ensures var rest := Run(cs, relays, nextHop, inner);
      Run(cs, relays, at, frame) == Trace([at] + rest.visited, rest.fate)
  {
  }

  lemma PrependSame(a: Text, s: seq<Text>, t: seq<Text>)
    ensures [a] + s == [a] + t <==> s == t
  {
    assert ([a] + s)[1..] == s;
    assert ([a] + t)[1..] == t;
  }

  /** A relay that reads another next hop than the intended one never sends the frame there. */
  lemma Derailed(cs: Crypto, relays: Directory, at: Text, frame: Bytes, intended: Text)
    requires at in relays
    requires var p := Peel(cs, relays[at], frame); p.Err? || (p.value.Forward? && p.value.nextHop != intended)
    ensures var v := Run(cs, relays, at, frame).visited; |v| == 1 || (|v| > 1 && v[1] != intended)
  {
  }

  // ----- what each relay on the way gets to see -----

  /** One forwarding step: where the frame goes next and what arrives there. */
  function Step(cs: Crypto, relays: Directory, at: Text, frame: Bytes): Option<(Text, Bytes)> {
    if at !in relays then None else
    var peeled := Peel(cs, relays[at], frame);
    if peeled.Ok? && peeled.value.Forward? then Some((peeled.value.nextHop, peeled.value.body)) else None
  }

  /** The address reached, and the frame received there, after n forwarding steps. */
  function FrameAt(cs: Crypto, relays: Directory, at: Text, frame: Bytes, n: nat): Option<(Text, Bytes)>
    decreases n
  {
    if n == 0 then Some((at, frame)) else
    var next := Step(cs, relays, at, frame);
    if next.None? then None else FrameAt(cs, relays, next.value.0, next.value.1, n - 1)
  }

  /** The i-th relay receives the circuit for the rest of the path, byte for byte. */
  lemma {:induction false} ViewAtHop(
    cs: Crypto, relays: Directory, path: seq<RelayInfo>, body: Bytes, coins: seq<LayerCoins>, i: nat)
    requires i < |path| == |coins| && Resolves(cs, relays, path) && HopsFit(path)
    ensures FrameAt(cs, relays, path[0].address, Circuit(cs, path, body, coins), i)
         == Some((path[i].address, Circuit(cs, path[i..], body, coins[i..])))
    decreases i
  {
    if i == 0 {
      assert path[0..] == path && coins[0..] == coins;
    } else {
      SuffixResolves(cs, relays, path);
      ViewAtHop(cs, relays, path[1..], body, coins[1..], i - 1);
      ViewNext(cs, relays, path, body, coins, i);
    }
  }

  lemma ViewNext(
    cs: Crypto, relays: Directory, path: seq<RelayInfo>, body: Bytes, coins: seq<LayerCoins>, i: nat)
    requires 0 < i < |path| == |coins| && Resolves(cs, relays, path) && HopsFit(path)
    ensures FrameAt(cs, relays, path[0].address, Circuit(cs, path, body, coins), i)
         == FrameAt(cs, relays, path[1].address, Circuit(cs, path[1..], body, coins[1..]), i - 1)
    ensures path[1..][i - 1] == path[i]
    ensures path[1..][i - 1..] == path[i..] && coins[1..][i - 1..] == coins[i..]
  {
    FirstStep(cs, relays, path, body, coins);
    FrameAtNext(cs, relays, path[0].address, Circuit(cs, path, body, coins), i);
    DropTwice(path, i);
    DropTwice(coins, i);
  }

  lemma FrameAtNext(cs: Crypto, relays: Directory, at: Text, frame: Bytes, n: nat)
    requires n > 0 && Step(cs, relays, at, frame).Some?
    ensures var next := Step(cs, relays, at, frame).value;
      FrameAt(cs, relays, at, frame, n) == FrameAt(cs, relays, next.0, next.1, n - 1)
  {
  }

  /** The entry relay forwards the circuit for the rest of the path. */
  lemma FirstStep(cs: Crypto, relays: Directory, path: seq<RelayInfo>, body: Bytes, coins: seq<LayerCoins>)
    requires |path| == |coins| > 1 && Resolves(cs, relays, path) && HopsFit(path)
    ensures Step(cs, relays, path[0].address, Circuit(cs, path, body, coins))
         == Some((path[1].address, Circuit(cs, path[1..], body, coins[1..])))
  {
    PeelLayer(cs, relays[path[0].address],
              Forward(path[1].address, Circuit(cs, path[1..], body, coins[1..])), coins[0]);
  }

  /**
   The frame the i-th relay receives starts with the randomness drawn for its layer, and no other
   layer's: with the ephemeral key and the nonce of `coins[i]`.
   */
  lemma CoinsAtHop(
    cs: Crypto, relays: Directory, path: seq<RelayInfo>, body: Bytes, coins: seq<LayerCoins>, i: nat)
    requires i < |path| == |coins| && Resolves(cs, relays, path) && HopsFit(path)
    ensures var f := FrameAt(cs, relays, path[0].address, Circuit(cs, path, body, coins), i);
      && f.Some? && |f.value.1| >= 60
      && f.value.1[..32] == cs.publicOf(coins[i].ephemeral)
      && f.value.1[32..44] == coins[i].nonce
  {
    ViewAtHop(cs, relays, path, body, coins, i);
    CircuitStarts(cs, path[i..], body, coins[i..]);
  }

  lemma CircuitStarts(cs: Crypto, path: seq<RelayInfo>, body: Bytes, coins: seq<LayerCoins>)
    requires |path| == |coins| > 0
    ensures var frame := Circuit(cs, path, body, coins);
      |frame| >= 60 && frame[..32] == cs.publicOf(coins[0].ephemeral) && frame[32..44] == coins[0].nonce
  {
    var payload := if |path| == 1 then Deliver(body)
                   else Forward(path[1].address, Circuit(cs, path[1..], body, coins[1..]));
    LayerLayout(cs, path[0].publicKey, payload, coins[0]);
  }

  /** What a relay receives depends on nothing before it: two circuits that agree from there on look alike. */
  lemma SuffixOnlyView(
    cs: Crypto, relays: Directory, body: Bytes,
    path: seq<RelayInfo>, coins: seq<LayerCoins>, i: nat,
    path': seq<RelayInfo>, coins': seq<LayerCoins>, j: nat)
    requires i < |path| == |coins| && Resolves(cs, relays, path) && HopsFit(path)
    requires j < |path'| == |coins'| && Resolves(cs, relays, path') && HopsFit(path')
    requires path[i..] == path'[j..] && coins[i..] == coins'[j..]
    ensures FrameAt(cs, relays, path[0].address, Circuit(cs, path, body, coins), i)
         == FrameAt(cs, relays, path'[0].address, Circuit(cs, path', body, coins'), j)
  {
    ViewAtHop(cs, relays, path, body, coins, i);
    ViewAtHop(cs, relays, path', body, coins', j);
    assert path[i..][0] == path'[j..][0];
  }

  /** What the layers before the exit add for the addresses they name. */
  function HopCost(path: seq<RelayInfo>): nat {
    if |path| <= 1 then 0 else 63 + |path[1].address| + HopCost(path[1..])
  }

  /** The size of an onion is a function of the body size and the path's addresses alone. */
  lemma {:induction false} CircuitSize(cs: Crypto, path: seq<RelayInfo>, body: Bytes, coins: seq<LayerCoins>)
    requires |path| == |coins| > 0
    ensures |Circuit(cs, path, body, coins)| == |body| + 61 + HopCost(path)
    decreases |path|
  {
    if |path| > 1 {
      CircuitSize(cs, path[1..], body, coins[1..]);
    }
  }

  /**
   The size of the frame each relay receives: bodies of one size give frames of one size
   at every hop, and each hop takes at least 63 bytes off.
   */
  lemma FrameSizeAtHop(
    cs: Crypto, relays: Directory, path: seq<RelayInfo>, body: Bytes, coins: seq<LayerCoins>, i: nat)
    requires i < |path| == |coins| && Resolves(cs, relays, path) && HopsFit(path)
    ensures var f := FrameAt(cs, relays, path[0].address, Circuit(cs, path, body, coins), i);
      f.Some? && |f.value.1| == |body| + 61 + HopCost(path[i..])
    ensures i + 1 < |path| ==> HopCost(path[i..]) == HopCost(path[i + 1..]) + 63 + |path[i + 1].address|
  {
    ViewAtHop(cs, relays, path, body, coins, i);
    CircuitSize(cs, path[i..], body, coins[i..]);
    assert i + 1 < |path| ==> path[i..][1..] == path[i + 1..];
  }
}
