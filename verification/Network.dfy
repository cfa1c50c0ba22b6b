/**
 The relay network as a step system: sends, relay steps, delivery queues, mailboxes and polls
 by one receiver, interleaved in any order, with losses as explicit events.

 Every step works on bytes: a relay peels what it received and acts on what it finds. A parcel's
 `tag` is the number of the send it stems from; no step looks at it, it only lets the theorems
 speak of the same cell in different places.
 */
module Network {
  import opened ByteStrings
  import opened Circuits
  import opened Crypto
  import opened Framing
  import opened Onion
  import opened Sequences
  import opened Topologies
  import opened Utf8
  import opened Wrappers

  /** One call of `send` for one cell: the path, the layers' randomness and the circuit body. */
  datatype Sending = Sending(path: seq<RelayInfo>, coins: seq<LayerCoins>, body: Bytes)

  /** Bytes at, or on their way to, the relay at an address. */
  datatype Parcel = Parcel(tag: nat, at: Text, bytes: Bytes)

  datatype Net = Net(
    sent: seq<Sending>,
    links: seq<Parcel>,      // frames in flight to the relay at `at`
    queues: seq<Parcel>,     // delivered at `at`, not yet in its mailbox
    mailboxes: seq<Parcel>,  // in the mailbox of the relay at `at`
    pulled: seq<Parcel>,     // handed to the poll in progress
    polled: seq<Parcel>,     // handed to the receiver by finished polls
    lost: seq<Parcel>)

  const Init := Net([], [], [], [], [], [], [])

  datatype Event =
    | Send(sending: Sending)
    | Relay(i: nat)                   // the relay that link i leads to reads the frame
    | Cut(i: nat)                     // the frame on link i is never read
    | Enqueue(i: nat)                 // a delivered body moves from the channel to the mailbox
    | Pull(mailbox: Text, ok: bool)   // the poll in progress drains one mailbox; not ok: it fails there
    | FinishPoll                      // every pull of the poll succeeded

  function Remove<T>(s: seq<T>, i: nat): seq<T>
    requires i < |s|
  {
    s[..i] + s[i + 1..]
  }

  function InMailbox(ps: seq<Parcel>, a: Text): seq<Parcel> {
    if ps == [] then [] else
    InMailbox(ps[..|ps| - 1], a) + (if ps[|ps| - 1].at == a then [ps[|ps| - 1]] else [])
  }

  function Elsewhere(ps: seq<Parcel>, a: Text): seq<Parcel> {
    if ps == [] then [] else
    Elsewhere(ps[..|ps| - 1], a) + (if ps[|ps| - 1].at == a then [] else [ps[|ps| - 1]])
  }

  /** What the next hop reads when a frame is written to it. */
  function Carried(frame: Bytes): (body: Bytes)
    ensures |body| < U32_LIMIT
  {
    var r := ReadOne(FrameBytes(frame));
    if r.Frame? then WrittenRead(FrameBytes(frame)); r.body else []
  }

  predicate Enabled(s: Net, e: Event) {
    match e
    case Send(sending) => |sending.path| == |sending.coins| > 0
    case Relay(i) => i < |s.links|
    case Cut(i) => i < |s.links|
    case Enqueue(i) => i < |s.queues| && forall j :: 0 <= j < i ==> s.queues[j].at != s.queues[i].at
    case Pull(_, _) => true
    case FinishPoll => true
  }

  /** What becomes of a frame that a relay reads. */
  datatype Handling = Onward(next: Parcel) | Arrived(delivered: Parcel) | Gone(dropped: Parcel)

  /** `handle_connection`, for one frame: forward, deliver, or drop what does not peel. */
  function Handle(cs: Crypto, relays: Directory, p: Parcel): (h: Handling)
    ensures match h
      case Onward(q) => q.tag == p.tag
      case Arrived(q) => q.tag == p.tag && q.at == p.at
      case Gone(q) => q == p
  {
    if p.at !in relays then Gone(p) else
    var peeled := Peel(cs, relays[p.at], p.bytes);
    if peeled.Err? then Gone(p) else
    match peeled.value
    case Forward(nextHop, body) => Onward(Parcel(p.tag, nextHop, Carried(body)))
    case Deliver(body) => Arrived(Parcel(p.tag, p.at, body))
  }

  function Relayed(s: Net, i: nat, h: Handling): Net
    requires i < |s.links|
  {
    var rest := Remove(s.links, i);
    match h
    case Onward(q) => s.(links := rest + [q])
    case Arrived(q) => s.(links := rest, queues := s.queues + [q])
    case Gone(q) => s.(links := rest, lost := s.lost + [q])
  }

  function Apply(cs: Crypto, relays: Directory, s: Net, e: Event): Net
    requires Enabled(s, e)
  {
    match e
    case Send(x) =>
      s.(sent := s.sent + [x],
         links := s.links + [Parcel(|s.sent|, x.path[0].address, Carried(Circuit(cs, x.path, x.body, x.coins)))])
    case Relay(i) => Relayed(s, i, Handle(cs, relays, s.links[i]))
    case Cut(i) => s.(links := Remove(s.links, i), lost := s.lost + [s.links[i]])
    case Enqueue(i) => s.(queues := Remove(s.queues, i), mailboxes := s.mailboxes + [s.queues[i]])
    case Pull(a, ok) =>
      var got := s.pulled + InMailbox(s.mailboxes, a);
      var s' := s.(mailboxes := Elsewhere(s.mailboxes, a));
      if ok then s'.(pulled := got) else s'.(pulled := [], lost := s.lost + got)
    case FinishPoll => s.(pulled := [], polled := s.polled + s.pulled)
  }

  /** The state after a run of events; an event that cannot happen changes nothing. */
  function After(cs: Crypto, relays: Directory, es: seq<Event>): Net {
    if es == [] then Init else
    var s := After(cs, relays, es[..|es| - 1]);
    if Enabled(s, es[|es| - 1]) then Apply(cs, relays, s, es[|es| - 1]) else s
  }

  // ----- conservation -----

  /** How many of these parcels stem from send number t. */
  function Count(ps: seq<Parcel>, t: nat): nat {
    if ps == [] then 0 else Count(ps[..|ps| - 1], t) + (if ps[|ps| - 1].tag == t then 1 else 0)
  }

  /** In how many places the cell of send number t is. */
  function Places(s: Net, t: nat): nat {
    Count(s.links, t) + Count(s.queues, t) + Count(s.mailboxes, t)
    + Count(s.pulled, t) + Count(s.polled, t) + Count(s.lost, t)
  }

  lemma CountAppend(ps: seq<Parcel>, p: Parcel, t: nat)
    ensures Count(ps + [p], t) == Count(ps, t) + (if p.tag == t then 1 else 0)
  {
    assert (ps + [p])[..|ps|] == ps;
  }

  lemma {:induction false} CountConcat(a: seq<Parcel>, b: seq<Parcel>, t: nat)
    ensures Count(a + b, t) == Count(a, t) + Count(b, t)
  {
    if b == [] {
      assert a + b == a;
    } else {
      CountConcat(a, b[..|b| - 1], t);
      assert (a + b)[..|a + b| - 1] == a + b[..|b| - 1];
    }
  }

  lemma CountRemove(ps: seq<Parcel>, i: nat, t: nat)
    requires i < |ps|
    ensures Count(Remove(ps, i), t) == Count(ps, t) - (if ps[i].tag == t then 1 else 0)
  {
    var before, after := ps[..i], ps[i + 1..];
    assert ps == (before + [ps[i]]) + after;
    CountConcat(before + [ps[i]], after, t);
    CountAppend(before, ps[i], t);
    CountConcat(before, after, t);
  }

  lemma {:induction false} CountPartition(ps: seq<Parcel>, a: Text, t: nat)
    ensures Count(ps, t) == Count(InMailbox(ps, a), t) + Count(Elsewhere(ps, a), t)
  {
    if ps != [] {
      var front, p := ps[..|ps| - 1], ps[|ps| - 1];
      CountPartition(front, a, t);
      CountAppend(InMailbox(front, a), p, t);
      CountAppend(Elsewhere(front, a), p, t);
      assert InMailbox(front, a) + [] == InMailbox(front, a);
      assert Elsewhere(front, a) + [] == Elsewhere(front, a);
    }
  }

  lemma RelayConserves(s: Net, i: nat, h: Handling, t: nat)
    requires i < |s.links|
    requires s.links[i].tag == (match h case Onward(q) => q.tag case Arrived(q) => q.tag case Gone(q) => q.tag)
    ensures Places(Relayed(s, i, h), t) == Places(s, t)
  {
    CountRemove(s.links, i, t);
    match h
    case Onward(q) => CountAppend(Remove(s.links, i), q, t);
    case Arrived(q) => CountAppend(s.queues, q, t);
    case Gone(q) => CountAppend(s.lost, q, t);
  }

  /** Each event moves cells between places; only a send adds one, with the next number. */
  lemma EventConserves(cs: Crypto, relays: Directory, s: Net, e: Event, t: nat)
    requires Enabled(s, e)
    ensures Places(Apply(cs, relays, s, e), t) == Places(s, t) + (if e.Send? && t == |s.sent| then 1 else 0)
  {
    match e
    case Send(x) => CountAppend(s.links, Apply(cs, relays, s, e).links[|s.links|], t);
    case Relay(i) => RelayConserves(s, i, Handle(cs, relays, s.links[i]), t);
    case Cut(i) =>
      CountRemove(s.links, i, t);
      CountAppend(s.lost, s.links[i], t);
    case Enqueue(i) =>
      CountRemove(s.queues, i, t);
      CountAppend(s.mailboxes, s.queues[i], t);
    case Pull(a, ok) =>
      CountPartition(s.mailboxes, a, t);
      CountConcat(s.pulled, InMailbox(s.mailboxes, a), t);
      CountConcat(s.lost, s.pulled + InMailbox(s.mailboxes, a), t);
    case FinishPoll =>
      CountConcat(s.polled, s.pulled, t);
  }

  /** Conservation: after every run each cell sent is in exactly one place, and nothing else is anywhere. */
  lemma {:induction false} EveryCellIsInOnePlace(cs: Crypto, relays: Directory, es: seq<Event>, t: nat)
    ensures Places(After(cs, relays, es), t) == if t < |After(cs, relays, es).sent| then 1 else 0
  {
    if es != [] {
      EveryCellIsInOnePlace(cs, relays, es[..|es| - 1], t);
      var s, e := After(cs, relays, es[..|es| - 1]), es[|es| - 1];
      if Enabled(s, e) {
        EventConserves(cs, relays, s, e, t);
      }
    }
  }

  // ----- the mailboxes of the network are mailboxes -----

  lemma InMailboxAppend(ps: seq<Parcel>, p: Parcel, a: Text)
    ensures InMailbox(ps + [p], a) == if p.at == a then InMailbox(ps, a) + [p] else InMailbox(ps, a)
  {
    assert (ps + [p])[..|ps|] == ps;
    assert InMailbox(ps, a) + [] == InMailbox(ps, a);
  }

  lemma {:induction false} MailboxesApart(ps: seq<Parcel>, a: Text, b: Text)
    ensures InMailbox(Elsewhere(ps, a), b) == if a == b then [] else InMailbox(ps, b)
  {
    if ps != [] {
      var front, p := ps[..|ps| - 1], ps[|ps| - 1];
      MailboxesApart(front, a, b);
      if p.at == a {
        assert Elsewhere(ps, a) == Elsewhere(front, a) + [] == Elsewhere(front, a);
        assert InMailbox(front, b) + [] == InMailbox(front, b);
      } else {
        InMailboxAppend(Elsewhere(front, a), p, b);
      }
    }
  }

  /**
   Each relay's mailbox sees of an event just what `Mailboxes.Mailbox` does: an enqueue at its relay
   pushes at the end, a pull of it drains it whole, oldest first, and nothing else touches it.
   */
  lemma MailboxStep(cs: Crypto, relays: Directory, s: Net, e: Event, a: Text)
    requires Enabled(s, e)
    ensures InMailbox(Apply(cs, relays, s, e).mailboxes, a) ==
            match e
            case Enqueue(i) =>
              if s.queues[i].at == a then InMailbox(s.mailboxes, a) + [s.queues[i]] else InMailbox(s.mailboxes, a)
            case Pull(b, _) => if a == b then [] else InMailbox(s.mailboxes, a)
            case _ => InMailbox(s.mailboxes, a)
    ensures e.Pull? && e.ok ==>
              Apply(cs, relays, s, e).pulled == s.pulled + InMailbox(s.mailboxes, e.mailbox)
    ensures e.Pull? && !e.ok ==>
              var s' := Apply(cs, relays, s, e);
              s'.pulled == [] && s'.lost == s.lost + (s.pulled + InMailbox(s.mailboxes, e.mailbox))
  {
    match e
    case Enqueue(i) => InMailboxAppend(s.mailboxes, s.queues[i], a);
    case Pull(b, ok) => MailboxesApart(s.mailboxes, b, a);
    case _ =>
  }

  lemma {:induction false} InMailboxIsThere(ps: seq<Parcel>, a: Text)
    ensures forall p :: p in InMailbox(ps, a) <==> p in ps && p.at == a
  {
    if ps != [] {
      var front, last := ps[..|ps| - 1], ps[|ps| - 1];
      InMailboxIsThere(front, a);
      forall p ensures p in ps <==> p in front || p == last {
        Snoc(ps);
      }
    }
  }

  // ----- every cell, byte for byte -----

  /** A send whose path the relays can serve: known addresses, 16-bit hop lengths, a 32-bit frame. */
  ghost predicate Good(cs: Crypto, relays: Directory, x: Sending) {
    && |x.path| == |x.coins| > 0
    && Resolves(cs, relays, x.path)
    && HopsFit(x.path)
    && |Circuit(cs, x.path, x.body, x.coins)| < U32_LIMIT
  }

  /** The parcel is the circuit for the path from its j-th relay on, and on its way to that relay. */
  ghost predicate OnPath(cs: Crypto, x: Sending, p: Parcel, j: nat) {
    && j < |x.path| == |x.coins|
    && p.at == x.path[j].address
    && p.bytes == Circuit(cs, x.path[j..], x.body, x.coins[j..])
    && |p.bytes| < U32_LIMIT
  }

  ghost predicate LinkOk(cs: Crypto, relays: Directory, sent: seq<Sending>, p: Parcel) {
    && p.tag < |sent| && |p.bytes| < U32_LIMIT
    && (Good(cs, relays, sent[p.tag]) ==> exists j: nat :: OnPath(cs, sent[p.tag], p, j))
  }

  /** The parcel is the body that was sent, at the last relay of its path. */
  ghost predicate DeliveredOk(cs: Crypto, relays: Directory, sent: seq<Sending>, p: Parcel) {
    p.tag < |sent| && (Good(cs, relays, sent[p.tag]) ==>
      p.bytes == sent[p.tag].body && p.at == sent[p.tag].path[|sent[p.tag].path| - 1].address)
  }

  ghost predicate AllDelivered(cs: Crypto, relays: Directory, sent: seq<Sending>, ps: seq<Parcel>) {
    forall p :: p in ps ==> DeliveredOk(cs, relays, sent, p)
  }

  ghost predicate Inv(cs: Crypto, relays: Directory, s: Net) {
    && (forall p :: p in s.links ==> LinkOk(cs, relays, s.sent, p))
    && AllDelivered(cs, relays, s.sent, s.queues)
    && AllDelivered(cs, relays, s.sent, s.mailboxes)
    && AllDelivered(cs, relays, s.sent, s.pulled)
    && AllDelivered(cs, relays, s.sent, s.polled)
  }

  lemma CarriedWhole(frame: Bytes)
    requires |frame| < U32_LIMIT
    ensures Carried(frame) == frame
  {
    ReadWritten(frame, []);
    assert FrameBytes(frame) + [] == FrameBytes(frame);
  }

  /** What the j-th relay of a good send finds when it peels. */
  lemma PeelOnPath(cs: Crypto, relays: Directory, x: Sending, p: Parcel, j: nat)
    requires Good(cs, relays, x) && OnPath(cs, x, p, j)
    ensures p.at in relays
    ensures Peel(cs, relays[p.at], p.bytes) == Ok(
      if j + 1 == |x.path| then Deliver(x.body)
      else Forward(x.path[j + 1].address, Circuit(cs, x.path[j + 1..], x.body, x.coins[j + 1..])))
  {
    var path, coins := x.path[j..], x.coins[j..];
    assert path[0] == x.path[j] && x.path[j].publicKey == cs.publicOf(relays[p.at]);
    if j + 1 == |x.path| {
      PeelLayer(cs, relays[p.at], Deliver(x.body), coins[0]);
    } else {
      assert path[1] == x.path[j + 1] && path[1..] == x.path[j + 1..] && coins[1..] == x.coins[j + 1..];
      PeelLayer(cs, relays[p.at], Forward(path[1].address, Circuit(cs, path[1..], x.body, coins[1..])), coins[0]);
    }
  }

  /** A relay turns a parcel on its path into the next one on its path, or into the delivered body. */
  lemma HandleOnPath(cs: Crypto, relays: Directory, x: Sending, p: Parcel, j: nat)
    requires Good(cs, relays, x) && OnPath(cs, x, p, j)
    ensures var h := Handle(cs, relays, p);
      && (j + 1 < |x.path| ==> h.Onward? && OnPath(cs, x, h.next, j + 1))
      && (j + 1 == |x.path| ==> h == Arrived(Parcel(p.tag, x.path[j].address, x.body)))
  {
    PeelOnPath(cs, relays, x, p, j);
    if j + 1 < |x.path| {
      PeelShrinks(cs, relays[p.at], p.bytes);
      CarriedWhole(Circuit(cs, x.path[j + 1..], x.body, x.coins[j + 1..]));
    }
  }

  lemma HandleOk(cs: Crypto, relays: Directory, sent: seq<Sending>, p: Parcel)
    requires LinkOk(cs, relays, sent, p)
    ensures match Handle(cs, relays, p)
      case Onward(q) => LinkOk(cs, relays, sent, q)
      case Arrived(q) => DeliveredOk(cs, relays, sent, q)
      case Gone(q) => !Good(cs, relays, sent[p.tag])
  {
    var x := sent[p.tag];
    if Good(cs, relays, x) {
      var j: nat :| OnPath(cs, x, p, j);
      HandleOnPath(cs, relays, x, p, j);
    }
  }

  /** What a send puts on the first link. */
  lemma FirstLinkOk(cs: Crypto, relays: Directory, sent: seq<Sending>, x: Sending)
    requires |x.path| == |x.coins| > 0
    ensures LinkOk(cs, relays, sent + [x],
                   Parcel(|sent|, x.path[0].address, Carried(Circuit(cs, x.path, x.body, x.coins))))
  {
    if Good(cs, relays, x) {
      CarriedWhole(Circuit(cs, x.path, x.body, x.coins));
      assert x.path[0..] == x.path && x.coins[0..] == x.coins;
      assert OnPath(cs, x, Parcel(|sent|, x.path[0].address, Carried(Circuit(cs, x.path, x.body, x.coins))), 0);
    }
  }

  lemma LinkOkGrows(cs: Crypto, relays: Directory, sent: seq<Sending>, x: Sending, p: Parcel)
    ensures LinkOk(cs, relays, sent, p) ==> LinkOk(cs, relays, sent + [x], p)
    ensures DeliveredOk(cs, relays, sent, p) ==> DeliveredOk(cs, relays, sent + [x], p)
  {
    if p.tag < |sent| {
      assert (sent + [x])[p.tag] == sent[p.tag];
    }
  }

  lemma DeliveredOkGrows(cs: Crypto, relays: Directory, sent: seq<Sending>, x: Sending, ps: seq<Parcel>)
    requires AllDelivered(cs, relays, sent, ps)
    ensures AllDelivered(cs, relays, sent + [x], ps)
  {
    forall p | p in ps ensures DeliveredOk(cs, relays, sent + [x], p) {
      LinkOkGrows(cs, relays, sent, x, p);
    }
  }

  lemma SendKeepsInv(cs: Crypto, relays: Directory, s: Net, x: Sending)
    requires Inv(cs, relays, s) && |x.path| == |x.coins| > 0
    ensures Inv(cs, relays, Apply(cs, relays, s, Send(x)))
  {
    FirstLinkOk(cs, relays, s.sent, x);
    forall p | p in s.links ensures LinkOk(cs, relays, s.sent + [x], p) {
      LinkOkGrows(cs, relays, s.sent, x, p);
    }
    DeliveredOkGrows(cs, relays, s.sent, x, s.queues);
    DeliveredOkGrows(cs, relays, s.sent, x, s.mailboxes);
    DeliveredOkGrows(cs, relays, s.sent, x, s.pulled);
    DeliveredOkGrows(cs, relays, s.sent, x, s.polled);
  }

  lemma {:induction false} MailboxMembers(ps: seq<Parcel>, a: Text)
    ensures forall p :: p in InMailbox(ps, a) || p in Elsewhere(ps, a) ==> p in ps
  {
    if ps != [] {
      var front, last := ps[..|ps| - 1], ps[|ps| - 1];
      MailboxMembers(front, a);
      forall p | p in InMailbox(ps, a) || p in Elsewhere(ps, a) ensures p in ps {
        assert p in InMailbox(front, a) || p in Elsewhere(front, a) || p == last;
        assert p in front || p == last;
      }
    }
  }

  lemma {:induction false} MailboxSizes(ps: seq<Parcel>, a: Text)
    ensures |InMailbox(ps, a)| + |Elsewhere(ps, a)| == |ps|
  {
    if ps != [] {
      MailboxSizes(ps[..|ps| - 1], a);
    }
  }

  lemma {:induction false} EmptyMailbox(ps: seq<Parcel>, a: Text)
    requires InMailbox(ps, a) == []
    ensures Elsewhere(ps, a) == ps
  {
    if ps != [] {
      var front, last := ps[..|ps| - 1], ps[|ps| - 1];
      assert last.at != a;
      EmptyMailbox(front, a);
      Snoc(ps);
    }
  }

  lemma {:induction false} MailboxHolds(ps: seq<Parcel>, a: Text, i: nat)
    requires i < |ps| && ps[i].at == a
    ensures InMailbox(ps, a) != []
    decreases |ps|
  {
    if i < |ps| - 1 {
      MailboxHolds(ps[..|ps| - 1], a, i);
    }
  }

  lemma EventKeepsInv(cs: Crypto, relays: Directory, s: Net, e: Event)
    requires Inv(cs, relays, s) && Enabled(s, e)
    ensures Inv(cs, relays, Apply(cs, relays, s, e))
  {
    match e
    case Send(x) => SendKeepsInv(cs, relays, s, x);
    case Relay(i) => HandleOk(cs, relays, s.sent, s.links[i]);
    case Cut(i) =>
    case Enqueue(i) =>
    case Pull(a, ok) => MailboxMembers(s.mailboxes, a);
    case FinishPoll =>
  }

  /** In every reachable state each cell is what its path says: a suffix circuit under way, the body once delivered. */
  lemma {:induction false} RunsKeepInv(cs: Crypto, relays: Directory, es: seq<Event>)
    ensures Inv(cs, relays, After(cs, relays, es))
  {
    if es != [] {
      RunsKeepInv(cs, relays, es[..|es| - 1]);
      var s, e := After(cs, relays, es[..|es| - 1]), es[|es| - 1];
      if Enabled(s, e) {
        EventKeepsInv(cs, relays, s, e);
      }
    }
  }

  // ----- nothing gets lost on its own -----

  predicate Lossless(es: seq<Event>) {
    forall e :: e in es ==> !e.Cut? && (e.Pull? ==> e.ok)
  }

  ghost predicate AllGood(cs: Crypto, relays: Directory, sent: seq<Sending>) {
    forall t: nat :: t < |sent| ==> Good(cs, relays, sent[t])
  }

  /** Everything lost stems from sends whose path the relays could not serve. */
  ghost predicate OnlyBadLost(cs: Crypto, relays: Directory, s: Net) {
    forall p :: p in s.lost ==> p.tag < |s.sent| && !Good(cs, relays, s.sent[p.tag])
  }

  lemma LossStep(cs: Crypto, relays: Directory, s: Net, e: Event)
    requires Inv(cs, relays, s) && OnlyBadLost(cs, relays, s) && Enabled(s, e)
    requires !e.Cut? && (e.Pull? ==> e.ok)
    ensures OnlyBadLost(cs, relays, Apply(cs, relays, s, e))
  {
    if e.Relay? {
      HandleOk(cs, relays, s.sent, s.links[e.i]);
    }
  }

  /**
   A cell on a good path is lost only where a link fails or a pull breaks off. Frames behind one
   whose forward failed, on the same connection, count as frames on a failing link: their relay
   stops reading them (`RelaySteps.LoopIsRelaySteps`).
   */
  lemma {:induction false} OnlyFailuresLose(cs: Crypto, relays: Directory, es: seq<Event>)
    requires Lossless(es)
    ensures OnlyBadLost(cs, relays, After(cs, relays, es))
  {
    if es != [] {
      var front, e := es[..|es| - 1], es[|es| - 1];
      assert Lossless(front) && e in es;
      OnlyFailuresLose(cs, relays, front);
      RunsKeepInv(cs, relays, front);
      if Enabled(After(cs, relays, front), e) {
        LossStep(cs, relays, After(cs, relays, front), e);
      }
    }
  }

  // ----- everything arrives -----

  /** How many relays are still going to read a frame in flight. */
  function Hops(cs: Crypto, relays: Directory, p: Parcel): nat {
    |Run(cs, relays, p.at, p.bytes).visited|
  }

  function TotalHops(cs: Crypto, relays: Directory, ps: seq<Parcel>): nat {
    if ps == [] then 0
    else TotalHops(cs, relays, ps[..|ps| - 1]) + Hops(cs, relays, ps[|ps| - 1])
  }

  lemma HopsAppend(cs: Crypto, relays: Directory, ps: seq<Parcel>, p: Parcel)
    ensures TotalHops(cs, relays, ps + [p]) == TotalHops(cs, relays, ps) + Hops(cs, relays, p)
  {
    assert (ps + [p])[..|ps|] == ps;
  }

  lemma {:induction false} HopsRemove(cs: Crypto, relays: Directory, ps: seq<Parcel>, i: nat)
    requires i < |ps|
    ensures TotalHops(cs, relays, Remove(ps, i)) == TotalHops(cs, relays, ps) - Hops(cs, relays, ps[i])
    decreases |ps|
  {
    var front, last := ps[..|ps| - 1], ps[|ps| - 1];
    if i == |ps| - 1 {
      assert Remove(ps, i) == front;
    } else {
      HopsRemove(cs, relays, front, i);
      assert Remove(ps, i) == Remove(front, i) + [last];
      HopsAppend(cs, relays, Remove(front, i), last);
    }
  }

  /** A relay that forwards or delivers leaves exactly one hop less to go, whoever sent the frame. */
  lemma HandleHops(cs: Crypto, relays: Directory, p: Parcel)
    requires |p.bytes| < U32_LIMIT
    ensures match Handle(cs, relays, p)
      case Onward(q) => Hops(cs, relays, p) == Hops(cs, relays, q) + 1
      case Arrived(q) => Hops(cs, relays, p) == 1
      case Gone(q) => Hops(cs, relays, p) <= 1
  {
    var h := Handle(cs, relays, p);
    if h.Onward? {
      PeelShrinks(cs, relays[p.at], p.bytes);
      CarriedWhole(Peel(cs, relays[p.at], p.bytes).value.body);
    }
  }

  lemma RelayUsesOneHop(cs: Crypto, relays: Directory, s: Net, i: nat)
    requires Inv(cs, relays, s) && i < |s.links|
    ensures var s', h := Apply(cs, relays, s, Relay(i)), Handle(cs, relays, s.links[i]);
      && (!h.Gone? ==>
            && TotalHops(cs, relays, s'.links) == TotalHops(cs, relays, s.links) - 1
            && |s'.links| + |s'.queues| == |s.links| + |s.queues|
            && |s'.links| <= |s.links|)
      && (h.Gone? ==>
            && TotalHops(cs, relays, s'.links) <= TotalHops(cs, relays, s.links)
            && |s'.links| == |s.links| - 1 && s'.queues == s.queues)
  {
    var p := s.links[i];
    assert LinkOk(cs, relays, s.sent, p);
    HandleHops(cs, relays, p);
    HopsRemove(cs, relays, s.links, i);
    match Handle(cs, relays, p)
    case Onward(q) => HopsAppend(cs, relays, Remove(s.links, i), q);
    case Arrived(q) =>
    case Gone(q) =>
  }

  /** Total remaining hops, plus what the cells still have to go through after their last relay. */
  function Transit(cs: Crypto, relays: Directory, s: Net): nat {
    TotalHops(cs, relays, s.links) + 3 * |s.links| + 3 * |s.queues| + 2 * |s.mailboxes| + |s.pulled|
  }

  predicate Quiet(s: Net) {
    s.links == [] && s.queues == [] && s.mailboxes == [] && s.pulled == []
  }

  /** Every event but a send brings some cell closer to the receiver (or to its loss), or does nothing at all. */
  lemma EventsAdvance(cs: Crypto, relays: Directory, es: seq<Event>, e: Event)
    requires Enabled(After(cs, relays, es), e) && !e.Send?
    ensures var s := After(cs, relays, es);
      Apply(cs, relays, s, e) == s || Transit(cs, relays, Apply(cs, relays, s, e)) < Transit(cs, relays, s)
    ensures e.Relay? && !Handle(cs, relays, After(cs, relays, es).links[e.i]).Gone? ==>
      var s := After(cs, relays, es);
      TotalHops(cs, relays, Apply(cs, relays, s, e).links) == TotalHops(cs, relays, s.links) - 1
  {
    RunsKeepInv(cs, relays, es);
    Advances(cs, relays, After(cs, relays, es), e);
    if e.Relay? {
      RelayUsesOneHop(cs, relays, After(cs, relays, es), e.i);
    }
  }

  lemma RelayAdvances(cs: Crypto, relays: Directory, s: Net, i: nat)
    requires Inv(cs, relays, s) && i < |s.links|
    ensures Transit(cs, relays, Apply(cs, relays, s, Relay(i))) < Transit(cs, relays, s)
  {
    RelayUsesOneHop(cs, relays, s, i);
    var s', h := Apply(cs, relays, s, Relay(i)), Handle(cs, relays, s.links[i]);
    assert s'.mailboxes == s.mailboxes && s'.pulled == s.pulled;
  }

  lemma CutAdvances(cs: Crypto, relays: Directory, s: Net, i: nat)
    requires i < |s.links|
    ensures Transit(cs, relays, Apply(cs, relays, s, Event.Cut(i))) < Transit(cs, relays, s)
  {
    HopsRemove(cs, relays, s.links, i);
  }

  lemma EnqueueAdvances(cs: Crypto, relays: Directory, s: Net, i: nat)
    requires Enabled(s, Enqueue(i))
    ensures Transit(cs, relays, Apply(cs, relays, s, Enqueue(i))) < Transit(cs, relays, s)
  {
  }

  /** A pull moves what the mailbox holds; only one that finds nothing, and succeeds or has nothing to lose, does nothing. */
  lemma PullAdvances(cs: Crypto, relays: Directory, s: Net, a: Text, ok: bool)
    ensures var s' := Apply(cs, relays, s, Pull(a, ok));
      s' == s || Transit(cs, relays, s') < Transit(cs, relays, s)
  {
    var got := InMailbox(s.mailboxes, a);
    MailboxSizes(s.mailboxes, a);
    if got == [] {
      EmptyMailbox(s.mailboxes, a);
      assert s.pulled + got == s.pulled;
      assert s.lost + [] == s.lost;
    }
  }

  lemma PollAdvances(cs: Crypto, relays: Directory, s: Net)
    ensures var s' := Apply(cs, relays, s, FinishPoll);
      s' == s || Transit(cs, relays, s') < Transit(cs, relays, s)
  {
    assert s.polled + [] == s.polled;
  }

  lemma Advances(cs: Crypto, relays: Directory, s: Net, e: Event)
    requires Inv(cs, relays, s) && Enabled(s, e) && !e.Send?
    ensures Apply(cs, relays, s, e) == s || Transit(cs, relays, Apply(cs, relays, s, e)) < Transit(cs, relays, s)
  {
    match e
    case Relay(i) => RelayAdvances(cs, relays, s, i);
    case Cut(i) => CutAdvances(cs, relays, s, i);
    case Enqueue(i) => EnqueueAdvances(cs, relays, s, i);
    case Pull(a, ok) => PullAdvances(cs, relays, s, a, ok);
    case FinishPoll => PollAdvances(cs, relays, s);
  }

  /** The next thing that can happen, without loss, to some cell in transit. */
  function NextStep(s: Net): Event {
    if s.links != [] then Relay(0)
    else if s.queues != [] then Enqueue(0)
    else if s.mailboxes != [] then Pull(s.mailboxes[0].at, true)
    else FinishPoll
  }

  lemma PullBrings(cs: Crypto, relays: Directory, s: Net)
    requires s.mailboxes != []
    ensures Transit(cs, relays, Apply(cs, relays, s, Pull(s.mailboxes[0].at, true))) < Transit(cs, relays, s)
  {
    var a := s.mailboxes[0].at;
    MailboxSizes(s.mailboxes, a);
    MailboxHolds(s.mailboxes, a, 0);
  }

  /** No cell gets stuck: while anything is in transit, a lossless step is possible that brings it closer. */
  lemma NothingGetsStuck(cs: Crypto, relays: Directory, es: seq<Event>)
    requires !Quiet(After(cs, relays, es))
    ensures var s := After(cs, relays, es);
      && Enabled(s, NextStep(s))
      && Lossless([NextStep(s)]) && !NextStep(s).Send?
      && Transit(cs, relays, Apply(cs, relays, s, NextStep(s))) < Transit(cs, relays, s)
  {
    RunsKeepInv(cs, relays, es);
    NextStepAdvances(cs, relays, After(cs, relays, es));
  }

  lemma NextStepAdvances(cs: Crypto, relays: Directory, s: Net)
    requires Inv(cs, relays, s) && !Quiet(s)
    ensures Enabled(s, NextStep(s))
    ensures Transit(cs, relays, Apply(cs, relays, s, NextStep(s))) < Transit(cs, relays, s)
  {
    if s.links != [] {
      RelayAdvances(cs, relays, s, 0);
    } else if s.queues != [] {
      EnqueueAdvances(cs, relays, s, 0);
    } else if s.mailboxes != [] {
      PullBrings(cs, relays, s);
    }
  }

  /** From every reachable state some run without failures and without new sends leaves nothing in transit. */
  lemma {:induction false} CanSettle(cs: Crypto, relays: Directory, es: seq<Event>) returns (more: seq<Event>)
    ensures Lossless(more) && forall e :: e in more ==> !e.Send?
    ensures Quiet(After(cs, relays, es + more))
    ensures After(cs, relays, es + more).sent == After(cs, relays, es).sent
    decreases Transit(cs, relays, After(cs, relays, es))
  {
    var s := After(cs, relays, es);
    if Quiet(s) {
      more := [];
      assert es + more == es;
    } else {
      var e := NextStep(s);
      NothingGetsStuck(cs, relays, es);
      assert (es + [e])[..|es|] == es;
      more := CanSettle(cs, relays, es + [e]);
      Regroup(es, [e], more);
      assert Lossless([e] + more) by {
        assert e in [e];
      }
      more := [e] + more;
    }
  }

  /** An event that is no send and does something. */
  ghost predicate Effective(cs: Crypto, relays: Directory, s: Net, e: Event) {
    Enabled(s, e) && !e.Send? && Apply(cs, relays, s, e) != s
  }

  /** From the state after `es`, each of these events does something in its turn. */
  ghost predicate EffectiveRun(cs: Crypto, relays: Directory, es: seq<Event>, more: seq<Event>) {
    more == [] ||
      var n := |more| - 1;
      EffectiveRun(cs, relays, es, more[..n]) && Effective(cs, relays, After(cs, relays, es + more[..n]), more[n])
  }

  /** However the network is scheduled, and whatever fails, it comes to rest unless something is sent. */
  lemma {:induction false} RunsAreBounded(cs: Crypto, relays: Directory, es: seq<Event>, more: seq<Event>)
    requires EffectiveRun(cs, relays, es, more)
    ensures |more| + Transit(cs, relays, After(cs, relays, es + more)) <= Transit(cs, relays, After(cs, relays, es))
  {
    if more == [] {
      assert es + more == es;
    } else {
      var front, e := more[..|more| - 1], more[|more| - 1];
      RunsAreBounded(cs, relays, es, front);
      EventsAdvance(cs, relays, es + front, e);
      Snoc(more);
      Regroup(es, front, [e]);
      assert ((es + front) + [e])[..|es + front|] == es + front;
    }
  }

  /** At rest is where nothing is in transit, and nowhere else. */
  lemma OnlyQuietIsFinal(cs: Crypto, relays: Directory, es: seq<Event>)
    ensures (forall e :: !Effective(cs, relays, After(cs, relays, es), e)) <==> Quiet(After(cs, relays, es))
  {
    var s := After(cs, relays, es);
    if Quiet(s) {
      forall e ensures !Effective(cs, relays, s, e) {
        NothingLeftToDo(cs, relays, s, e);
      }
    } else {
      NothingGetsStuck(cs, relays, es);
      assert Effective(cs, relays, s, NextStep(s));
    }
  }

  lemma NothingLeftToDo(cs: Crypto, relays: Directory, s: Net, e: Event)
    requires Quiet(s)
    ensures !Effective(cs, relays, s, e)
  {
    if e.Pull? {
      assert InMailbox(s.mailboxes, e.mailbox) == [] && Elsewhere(s.mailboxes, e.mailbox) == [];
      assert s.lost + [] == s.lost;
    } else if e.FinishPoll? {
      assert s.polled + [] == s.polled;
    }
  }

  // ----- what the receiver has in the end -----

  function SentBodies(sent: seq<Sending>): (bs: seq<Bytes>)
    ensures |bs| == |sent|
  {
    seq(|sent|, i requires 0 <= i < |sent| => sent[i].body)
  }

  function Bodies(ps: seq<Parcel>): (bs: seq<Bytes>)
    ensures |bs| == |ps|
  {
    seq(|ps|, i requires 0 <= i < |ps| => ps[i].bytes)
  }

  function Tags(ps: seq<Parcel>): (ts: seq<nat>)
    ensures |ts| == |ps|
  {
    seq(|ps|, i requires 0 <= i < |ps| => ps[i].tag)
  }

  function Range(n: nat): (r: seq<nat>)
    ensures |r| == n
  {
    seq(n, i => i)
  }

  lemma {:induction false} CountIsMultiplicity(ps: seq<Parcel>, t: nat)
    ensures multiset(Tags(ps))[t] == Count(ps, t)
  {
    if ps != [] {
      var front, last := ps[..|ps| - 1], ps[|ps| - 1];
      CountIsMultiplicity(front, t);
      assert Tags(ps) == Tags(front) + [last.tag];
    }
  }

  lemma {:induction false} RangeMultiplicity(n: nat, t: nat)
    ensures multiset(Range(n))[t] == if t < n then 1 else 0
  {
    if n > 0 {
      RangeMultiplicity(n - 1, t);
      assert Range(n) == Range(n - 1) + [n - 1];
    }
  }

  function BodyOf(sent: seq<Sending>): nat -> Option<Bytes> {
    (t: nat) => if t < |sent| then Some(sent[t].body) else None
  }

  lemma {:induction false} CountNone(ps: seq<Parcel>, t: nat)
    requires forall p :: p in ps ==> p.tag != t
    ensures Count(ps, t) == 0
  {
    if ps != [] {
      CountNone(ps[..|ps| - 1], t);
    }
  }

  /** When nothing is in transit and no link or pull failed, the polls have handed over each good send exactly once. */
  lemma GoodArePolled(cs: Crypto, relays: Directory, es: seq<Event>, t: nat)
    requires Lossless(es) && Quiet(After(cs, relays, es))
    requires t < |After(cs, relays, es).sent| && Good(cs, relays, After(cs, relays, es).sent[t])
    ensures Count(After(cs, relays, es).polled, t) == 1
  {
    EveryCellIsInOnePlace(cs, relays, es, t);
    OnlyFailuresLose(cs, relays, es);
    CountNone(After(cs, relays, es).lost, t);
  }

  /** However much was lost or is under way, no send is handed over twice. */
  lemma PolledAtMostOnce(cs: Crypto, relays: Directory, es: seq<Event>, t: nat)
    ensures multiset(Tags(After(cs, relays, es).polled))[t] <= multiset(Range(|After(cs, relays, es).sent|))[t]
  {
    EveryCellIsInOnePlace(cs, relays, es, t);
    CountIsMultiplicity(After(cs, relays, es).polled, t);
    RangeMultiplicity(|After(cs, relays, es).sent|, t);
  }

  lemma QuietTags(cs: Crypto, relays: Directory, es: seq<Event>)
    requires Lossless(es) && AllGood(cs, relays, After(cs, relays, es).sent) && Quiet(After(cs, relays, es))
    ensures multiset(Tags(After(cs, relays, es).polled)) == multiset(Range(|After(cs, relays, es).sent|))
  {
    var s := After(cs, relays, es);
    forall t: nat ensures multiset(Tags(s.polled))[t] == multiset(Range(|s.sent|))[t] {
      PolledAtMostOnce(cs, relays, es, t);
      CountIsMultiplicity(s.polled, t);
      RangeMultiplicity(|s.sent|, t);
      if t < |s.sent| {
        GoodArePolled(cs, relays, es, t);
      }
    }
  }

  /** The byte strings handed over by all polls together are exactly the bodies sent, each once. */
  lemma QuietMeansAllPolled(cs: Crypto, relays: Directory, es: seq<Event>)
    requires Lossless(es) && AllGood(cs, relays, After(cs, relays, es).sent) && Quiet(After(cs, relays, es))
    ensures multiset(Bodies(After(cs, relays, es).polled)) == multiset(SentBodies(After(cs, relays, es).sent))
  {
    var s := After(cs, relays, es);
    QuietTags(cs, relays, es);
    RunsKeepInv(cs, relays, es);
    forall i | 0 <= i < |s.polled| ensures BodyOf(s.sent)(Tags(s.polled)[i]) == Some(Bodies(s.polled)[i]) {
      assert DeliveredOk(cs, relays, s.sent, s.polled[i]);
    }
    FilterMapTotal(BodyOf(s.sent), Tags(s.polled), Bodies(s.polled));
    FilterMapTotal(BodyOf(s.sent), Range(|s.sent|), SentBodies(s.sent));
    FilterMapPermutes(BodyOf(s.sent), Tags(s.polled), Range(|s.sent|));
  }
}
