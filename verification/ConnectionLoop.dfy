/** What a relay does with the frames of one inbound connection. */
module ConnectionLoop {
  import opened ByteStrings
  import opened Crypto
  import opened Framing
  import opened Onion
  import opened Utf8
  import opened Sequences
  import opened Wrappers

  /** How the loop ends: the peer closed, a frame was cut short, or a forward failed. */
  datatype Ending = PeerClosed | BodyCutShort | ForwardFailed

  /** What serving a list of frames amounts to. */
  datatype Tally = Tally(
    read: nat,
    delivered: seq<Bytes>,
    forwarded: seq<(Text, Bytes)>,
    peelFailures: nat,
    broke: bool)

  /**
   Serving frames in order until a forward fails. `link(k)` says whether the relay's k-th
   forward attempt gets through; the attempts here are numbered from `k`.
   */
  function Serve(cs: Crypto, secret: Key, link: nat -> bool, k: nat, frames: seq<Bytes>): Tally
    decreases frames
  {
    if frames == [] then Tally(0, [], [], 0, false) else
    var p := Peel(cs, secret, frames[0]);
    if p.Ok? && p.value.Forward? && !link(k) then Tally(1, [], [], 0, true) else
    var t := Serve(cs, secret, link, if p.Ok? && p.value.Forward? then k + 1 else k, frames[1..]);
    if p.Err? then t.(read := t.read + 1, peelFailures := t.peelFailures + 1)
    else match p.value
      case Deliver(body) => t.(read := t.read + 1, delivered := [body] + t.delivered)
      case Forward(nextHop, body) => t.(read := t.read + 1, forwarded := [(nextHop, body)] + t.forwarded)
  }

  function Deliveries(cs: Crypto, secret: Key, frames: seq<Bytes>): seq<Bytes> {
    if frames == [] then [] else
    var p := Peel(cs, secret, frames[0]);
    (if p.Ok? && p.value.Deliver? then [p.value.body] else []) + Deliveries(cs, secret, frames[1..])
  }

  function Forwards(cs: Crypto, secret: Key, frames: seq<Bytes>): seq<(Text, Bytes)> {
    if frames == [] then [] else
    var p := Peel(cs, secret, frames[0]);
    (if p.Ok? && p.value.Forward? then [(p.value.nextHop, p.value.body)] else [])
    + Forwards(cs, secret, frames[1..])
  }

  function Failures(cs: Crypto, secret: Key, frames: seq<Bytes>): nat {
    if frames == [] then 0 else
    (if Peel(cs, secret, frames[0]).Err? then 1 else 0) + Failures(cs, secret, frames[1..])
  }

  predicate IsForward(cs: Crypto, secret: Key, frame: Bytes) {
    var p := Peel(cs, secret, frame);
    p.Ok? && p.value.Forward?
  }

  /** What the first frame adds to serving the others. */
  lemma ServeStep(cs: Crypto, secret: Key, link: nat -> bool, k: nat, frames: seq<Bytes>)
    requires frames != [] && !(IsForward(cs, secret, frames[0]) && !link(k))
    ensures var p, t := Peel(cs, secret, frames[0]), Serve(cs, secret, link, k, frames);
      var t' := Serve(cs, secret, link, if IsForward(cs, secret, frames[0]) then k + 1 else k, frames[1..]);
      && t.read == t'.read + 1 && t.broke == t'.broke
      && t.delivered == (if p.Ok? && p.value.Deliver? then [p.value.body] else []) + t'.delivered
      && t.forwarded == (if p.Ok? && p.value.Forward? then [(p.value.nextHop, p.value.body)] else []) + t'.forwarded
      && t.peelFailures == (if p.Err? then 1 else 0) + t'.peelFailures
  {
  }

  /** Where reading stops: at the end, or at the first forward that fails. */
  lemma {:induction false} ServeStops(cs: Crypto, secret: Key, link: nat -> bool, k: nat, frames: seq<Bytes>)
    ensures var t := Serve(cs, secret, link, k, frames);
      && t.read <= |frames|
      && (t.broke ==> t.read > 0 && IsForward(cs, secret, frames[t.read - 1]) && !link(k + |t.forwarded|))
      && (!t.broke ==> t.read == |frames|)
      && t.read == |t.delivered| + |t.forwarded| + t.peelFailures + (if t.broke then 1 else 0)
    decreases frames
  {
    if frames != [] && !(IsForward(cs, secret, frames[0]) && !link(k)) {
      var k' := if IsForward(cs, secret, frames[0]) then k + 1 else k;
      ServeStops(cs, secret, link, k', frames[1..]);
      ServeStep(cs, secret, link, k, frames);
    }
  }

  /** Every forward that was made got through. */
  lemma {:induction false} ServeLinks(cs: Crypto, secret: Key, link: nat -> bool, k: nat, frames: seq<Bytes>)
    ensures forall j :: k <= j < k + |Serve(cs, secret, link, k, frames).forwarded| ==> link(j)
    decreases frames
  {
    if frames != [] && !(IsForward(cs, secret, frames[0]) && !link(k)) {
      ServeLinks(cs, secret, link, if IsForward(cs, secret, frames[0]) then k + 1 else k, frames[1..]);
    }
  }

  /** One frame more at the front. */
  lemma ActsStep(cs: Crypto, secret: Key, frames: seq<Bytes>, n: nat)
    requires n < |frames|
    ensures var p, acted, rest := Peel(cs, secret, frames[0]), frames[..n + 1], frames[1..][..n];
      && Deliveries(cs, secret, acted) ==
           (if p.Ok? && p.value.Deliver? then [p.value.body] else []) + Deliveries(cs, secret, rest)
      && Forwards(cs, secret, acted) ==
           (if p.Ok? && p.value.Forward? then [(p.value.nextHop, p.value.body)] else []) + Forwards(cs, secret, rest)
      && Failures(cs, secret, acted) == (if p.Err? then 1 else 0) + Failures(cs, secret, rest)
  {
    assert frames[..n + 1][1..] == frames[1..][..n];
  }

  /** How many frames were acted on: all that were read, but for one that could not be forwarded. */
  function Acted(t: Tally): nat {
    if t.broke && t.read > 0 then t.read - 1 else t.read
  }

  /** What was done is what these frames call for, in their order. */
  predicate CalledFor(cs: Crypto, secret: Key, frames: seq<Bytes>, t: Tally) {
    && t.delivered == Deliveries(cs, secret, frames)
    && t.forwarded == Forwards(cs, secret, frames)
    && t.peelFailures == Failures(cs, secret, frames)
  }

  lemma ActedStep(cs: Crypto, secret: Key, link: nat -> bool, k: nat, frames: seq<Bytes>)
    requires frames != [] && !(IsForward(cs, secret, frames[0]) && !link(k))
    ensures var k' := if IsForward(cs, secret, frames[0]) then k + 1 else k;
      Acted(Serve(cs, secret, link, k, frames)) == Acted(Serve(cs, secret, link, k', frames[1..])) + 1
  {
    ServeStops(cs, secret, link, if IsForward(cs, secret, frames[0]) then k + 1 else k, frames[1..]);
    ServeStep(cs, secret, link, k, frames);
  }

  lemma CalledForStep(cs: Crypto, secret: Key, link: nat -> bool, k: nat, frames: seq<Bytes>, n: nat)
    requires n < |frames| && !(IsForward(cs, secret, frames[0]) && !link(k))
    requires var k' := if IsForward(cs, secret, frames[0]) then k + 1 else k;
      CalledFor(cs, secret, frames[1..][..n], Serve(cs, secret, link, k', frames[1..]))
    ensures CalledFor(cs, secret, frames[..n + 1], Serve(cs, secret, link, k, frames))
  {
    ActsStep(cs, secret, frames, n);
    ServeStep(cs, secret, link, k, frames);
  }

  lemma {:induction false} ServeActs(cs: Crypto, secret: Key, link: nat -> bool, k: nat, frames: seq<Bytes>)
    ensures var t := Serve(cs, secret, link, k, frames);
      Acted(t) <= |frames| && CalledFor(cs, secret, frames[..Acted(t)], t)
    decreases frames
  {
    if frames != [] && !(IsForward(cs, secret, frames[0]) && !link(k)) {
      var k' := if IsForward(cs, secret, frames[0]) then k + 1 else k;
      ServeActs(cs, secret, link, k', frames[1..]);
      ActedStep(cs, secret, link, k, frames);
      CalledForStep(cs, secret, link, k, frames, Acted(Serve(cs, secret, link, k', frames[1..])));
    } else {
      assert Acted(Serve(cs, secret, link, k, frames)) == 0;
      assert frames[..0] == [];
    }
  }

  /**
   Every frame read is accounted for once: forwarded, delivered, failed to peel, or the one
   forward that failed and ended the connection. Up to there the relay did exactly what the
   frames call for, in their order.
   */
  lemma ServeAccounts(cs: Crypto, secret: Key, link: nat -> bool, k: nat, frames: seq<Bytes>)
    ensures var t := Serve(cs, secret, link, k, frames);
      && t.read <= |frames|
      && t.read == |t.delivered| + |t.forwarded| + t.peelFailures + (if t.broke then 1 else 0)
      && (forall j :: k <= j < k + |t.forwarded| ==> link(j))
      && (!t.broke ==>
            && t.read == |frames|
            && CalledFor(cs, secret, frames, t))
      && (t.broke ==>
            && t.read > 0
            && IsForward(cs, secret, frames[t.read - 1])
            && !link(k + |t.forwarded|)
            && CalledFor(cs, secret, frames[..t.read - 1], t))
  {
    ServeStops(cs, secret, link, k, frames);
    ServeLinks(cs, secret, link, k, frames);
    ServeActs(cs, secret, link, k, frames);
    assert frames[..|frames|] == frames;
  }

  /** A relay's fields, and whether a forward has broken the connection off. */
  datatype Standing = Standing(
    queue: seq<Bytes>,
    forwarded: seq<(Text, Bytes)>,
    cellsDelivered: int,
    cellsForwarded: int,
    decryptFailures: int,
    attempts: nat,
    broke: bool)

  class RelayNode {
    const cs: Crypto
    const secret: Key
    /** Whether the relay's k-th forward gets through; the outbound sockets decide. */
    const link: nat -> bool
    var attempts: nat
    var forwarded: seq<(Text, Bytes)>
    var deliveryQueue: seq<Bytes>
    var cellsForwarded: nat
    var cellsDelivered: nat
    var decryptFailures: nat

    constructor (cs: Crypto, secret: Key, link: nat -> bool)
      ensures this.cs == cs && this.secret == secret && this.link == link
      ensures attempts == 0 && forwarded == [] && deliveryQueue == []
      ensures cellsForwarded == cellsDelivered == decryptFailures == 0
    {
      this.cs, this.secret, this.link := cs, secret, link;
      attempts, forwarded, deliveryQueue := 0, [], [];
      cellsForwarded, cellsDelivered, decryptFailures := 0, 0, 0;
    }

    /** The outcome of `forward`; how it comes about is the subject of `ForwardPool`. */
    method Forward(nextHop: Text, body: Bytes) returns (ok: bool)
      modifies this`attempts, this`forwarded
      ensures ok == link(old(attempts)) && attempts == old(attempts) + 1
      ensures forwarded == if ok then old(forwarded) + [(nextHop, body)] else old(forwarded)
    {
      ok := link(attempts);
      attempts := attempts + 1;
      if ok {
        forwarded := forwarded + [(nextHop, body)];
      }
    }

    /** The state that serving `frames` from here on leads to, and whether it breaks off. */
    function Outcome(frames: seq<Bytes>): Standing
      reads this
    {
      var t := Serve(cs, secret, link, attempts, frames);
      Standing(
        deliveryQueue + t.delivered, forwarded + t.forwarded,
        cellsDelivered + |t.delivered|, cellsForwarded + |t.forwarded|, decryptFailures + t.peelFailures,
        attempts + |t.forwarded| + (if t.broke then 1 else 0), t.broke)
    }

    /** Peels one frame and acts on it; false when it had to be forwarded and that failed. */
    method ServeFrame(frame: Bytes, ghost more: seq<Bytes>) returns (ok: bool)
      modifies this
      ensures ok ==> Outcome(more) == old(Outcome([frame] + more))
      ensures !ok ==> Outcome([]).(broke := true) == old(Outcome([frame] + more))
    {
      ghost var all := [frame] + more;
      assert all[0] == frame && all[1..] == more;
      ghost var t := Serve(cs, secret, link, attempts, all);
      var payload := Peel(cs, secret, frame);
      if payload.Err? {
        decryptFailures := decryptFailures + 1;
        return true;
      }
      match payload.value
      case Forward(nextHop, body) =>
        ghost var sent := forwarded;
        ok := Forward(nextHop, body);
        if ok {
          cellsForwarded := cellsForwarded + 1;
          Regroup(sent, [(nextHop, body)], Serve(cs, secret, link, attempts, more).forwarded);
        }
      case Deliver(body) =>
        Regroup(deliveryQueue, [body], Serve(cs, secret, link, attempts, more).delivered);
        deliveryQueue := deliveryQueue + [body];
        cellsDelivered := cellsDelivered + 1;
        ok := true;
    }

    /** Reads frames until the stream ends or a forward fails. */
    method HandleConnection(stream: Socket) returns (ending: Ending)
      modifies this, stream`inbox
      ensures var cut := Split(old(stream.inbox));
        var t := Serve(cs, secret, link, old(attempts), cut.frames);
        && deliveryQueue == old(deliveryQueue) + t.delivered
        && forwarded == old(forwarded) + t.forwarded
        && cellsDelivered == old(cellsDelivered) + |t.delivered|
        && cellsForwarded == old(cellsForwarded) + |t.forwarded|
        && decryptFailures == old(decryptFailures) + t.peelFailures
        && attempts == old(attempts) + |t.forwarded| + (if t.broke then 1 else 0)
        && (ending.ForwardFailed? <==> t.broke)
        && (ending.PeerClosed? <==> !t.broke && |cut.rest| < 4)
        && (ending.BodyCutShort? <==> !t.broke && |cut.rest| >= 4)
    {
      ghost var goal := Outcome(Split(stream.inbox).frames);
      while true
        invariant Outcome(Split(stream.inbox).frames) == goal
        invariant Split(stream.inbox).rest == old(Split(stream.inbox).rest)
        decreases |stream.inbox|
      {
        var reading := NextFrame(stream);
        if reading.NoHeader? {
          return PeerClosed;
        }
        if reading.Truncated? {
          return BodyCutShort;
        }
        var ok := ServeFrame(reading.body, Split(stream.inbox).frames);
        if !ok {
          return ForwardFailed;
        }
      }
    }
  }

  /** The two reads at the top of the loop: a missing header and a missing body end it differently. */
  method NextFrame(stream: Socket) returns (r: Reading)
    modifies stream`inbox
    ensures r == ReadOne(old(stream.inbox))
    ensures r.Frame? ==> stream.inbox == r.rest
  {
    ghost var s := stream.inbox;
    var lenBuf := stream.ReadExact(4);
    if lenBuf.None? {
      return NoHeader;
    }
    var len := FromBE32(lenBuf.value);
    assert |stream.inbox| >= len ==> stream.inbox[..len] == s[4..4 + len] && stream.inbox[len..] == s[4 + len..];
    var frame := stream.ReadExact(len);
    if frame.None? {
      return Truncated;
    }
    r := Frame(frame.value, stream.inbox);
  }
}
