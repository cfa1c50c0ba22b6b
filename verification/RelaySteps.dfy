/**
 One relay, seen three ways: as the loop over a connection's frames, as a step of the network, and
 as concurrent tasks that write to pooled connections. Here is why these are the same relay.
 */
module RelaySteps {
  import opened ByteStrings
  import opened Circuits
  import opened ConnectionLoop
  import opened Crypto
  import opened ForwardBytes
  import opened Network
  import opened Onion
  import opened Sequences
  import opened Utf8
  import opened Wrappers
  import ForwardPool

  function DeliveredBy(cs: Crypto, relays: Directory): Parcel -> Option<Bytes> {
    (p: Parcel) => var h := Handle(cs, relays, p); if h.Arrived? then Some(h.delivered.bytes) else None
  }

  function ForwardedBy(cs: Crypto, relays: Directory): Parcel -> Option<Addressed> {
    (p: Parcel) => var h := Handle(cs, relays, p); if h.Onward? then Some((h.next.at, h.next.bytes)) else None
  }

  /** The parcels are at this relay, and their bytes came in frames. */
  ghost predicate AtRelay(relays: Directory, at: Text, ps: seq<Parcel>) {
    at in relays && forall p :: p in ps ==> p.at == at && |p.bytes| < U32_LIMIT
  }

  // ----- the connection loop and the network's steps -----

  lemma HandleIsPeel(cs: Crypto, relays: Directory, p: Parcel)
    requires p.at in relays && |p.bytes| < U32_LIMIT
    ensures var peeled := Peel(cs, relays[p.at], p.bytes);
      && DeliveredBy(cs, relays)(p) == (if peeled.Ok? && peeled.value.Deliver? then Some(peeled.value.body) else None)
      && ForwardedBy(cs, relays)(p) ==
           (if peeled.Ok? && peeled.value.Forward? then Some((peeled.value.nextHop, peeled.value.body)) else None)
  {
    var peeled := Peel(cs, relays[p.at], p.bytes);
    if peeled.Ok? && peeled.value.Forward? {
      PeelShrinks(cs, relays[p.at], p.bytes);
      CarriedWhole(peeled.value.body);
    }
  }

  /** A first element, and then the others. */
  lemma FilterMapFirst<A, B>(f: A -> Option<B>, s: seq<A>)
    requires s != []
    ensures FilterMap(f, s) == Yield(f(s[0])) + FilterMap(f, s[1..])
  {
    assert s == [s[0]] + s[1..];
    FilterMapConcat(f, [s[0]], s[1..]);
    FilterMapAppend(f, [], s[0]);
  }

  /** What the frames call for is what the network's relay step makes of them. */
  lemma {:induction false} CalledForIsHandled(cs: Crypto, relays: Directory, at: Text, ps: seq<Parcel>)
    requires AtRelay(relays, at, ps)
    ensures Deliveries(cs, relays[at], Network.Bodies(ps)) == FilterMap(DeliveredBy(cs, relays), ps)
    ensures Forwards(cs, relays[at], Network.Bodies(ps)) == FilterMap(ForwardedBy(cs, relays), ps)
    decreases |ps|
  {
    if ps != [] {
      assert ps[0] in ps;
      assert Network.Bodies(ps)[1..] == Network.Bodies(ps[1..]);
      CalledForIsHandled(cs, relays, at, ps[1..]);
      HandleIsPeel(cs, relays, ps[0]);
      FilterMapFirst(DeliveredBy(cs, relays), ps);
      FilterMapFirst(ForwardedBy(cs, relays), ps);
    }
  }

  /**
   The tally of a connection is what the network's relay steps make of its frames, in their order,
   as far as the relay acts on them: on all, unless a forward fails.
   */
  ghost predicate Matches(
    cs: Crypto, relays: Directory, ps: seq<Parcel>, t: Tally, link: nat -> bool, k: nat)
  {
    var n := Acted(t);
    && n <= |ps|
    && t.delivered == FilterMap(DeliveredBy(cs, relays), ps[..n])
    && t.forwarded == FilterMap(ForwardedBy(cs, relays), ps[..n])
    && (!t.broke ==> n == |ps|)
    && (t.broke ==> n < |ps| && Handle(cs, relays, ps[n]).Onward? && !link(k + |t.forwarded|))
  }

  /**
   The connection loop is the network's relay step, frame by frame: it delivers what the steps
   deliver and forwards what they forward, and drops the others. If a forward fails it stops for
   good at that frame; that one and all behind it, however good, are frames the network counts as
   cut.
   */
  lemma LoopIsRelaySteps(
    cs: Crypto, relays: Directory, at: Text, link: nat -> bool, k: nat, ps: seq<Parcel>)
    requires AtRelay(relays, at, ps)
    ensures Matches(cs, relays, ps, Serve(cs, relays[at], link, k, Network.Bodies(ps)), link, k)
  {
    var frames := Network.Bodies(ps);
    ServeStops(cs, relays[at], link, k, frames);
    ServeActs(cs, relays[at], link, k, frames);
    HandledTally(cs, relays, at, ps, frames, Serve(cs, relays[at], link, k, frames), link, k);
  }

  /** What the tally says of the frames, said of the relay steps. */
  lemma HandledTally(
    cs: Crypto, relays: Directory, at: Text, ps: seq<Parcel>, frames: seq<Bytes>,
    t: Tally, link: nat -> bool, k: nat)
    requires AtRelay(relays, at, ps) && frames == Network.Bodies(ps)
    requires Acted(t) <= |frames| && CalledFor(cs, relays[at], frames[..Acted(t)], t)
    requires t.broke ==>
      0 < t.read <= |frames| && IsForward(cs, relays[at], frames[t.read - 1]) && !link(k + |t.forwarded|)
    requires !t.broke ==> t.read == |frames|
    ensures Matches(cs, relays, ps, t, link, k)
  {
    HandledSoFar(cs, relays, at, ps, Acted(t), t);
    if t.broke {
      StoppedAt(cs, relays, at, ps, Acted(t));
    }
  }

  lemma HandledSoFar(cs: Crypto, relays: Directory, at: Text, ps: seq<Parcel>, n: nat, t: Tally)
    requires AtRelay(relays, at, ps) && n <= |ps| && CalledFor(cs, relays[at], Network.Bodies(ps)[..n], t)
    ensures t.delivered == FilterMap(DeliveredBy(cs, relays), ps[..n])
    ensures t.forwarded == FilterMap(ForwardedBy(cs, relays), ps[..n])
  {
    assert Network.Bodies(ps)[..n] == Network.Bodies(ps[..n]);
    CalledForIsHandled(cs, relays, at, ps[..n]);
  }

  lemma StoppedAt(cs: Crypto, relays: Directory, at: Text, ps: seq<Parcel>, n: nat)
    requires AtRelay(relays, at, ps) && n < |ps| && IsForward(cs, relays[at], Network.Bodies(ps)[n])
    ensures Handle(cs, relays, ps[n]).Onward?
  {
    assert ps[n] in ps;
    HandleIsPeel(cs, relays, ps[n]);
  }

  // ----- the forwarding tasks and the network's links -----

  /** What a call of `forward` was asked to send, and where. */
  function Asked(t: ForwardPool.Task): Addressed {
    (t.addr, t.body)
  }

  function IfFailed(t: ForwardPool.Task): Option<Addressed> {
    if t.phase == ForwardPool.Finished(false) then Some(Asked(t)) else None
  }

  function Any(t: ForwardPool.Task): Option<Addressed> {
    Some(Asked(t))
  }

  function AskedFor(tasks: seq<ForwardPool.Task>): seq<Addressed> {
    FilterMap(Any, tasks)
  }

  lemma FinishedFront(tasks: seq<ForwardPool.Task>)
    requires ForwardPool.AllFinished(tasks) && tasks != []
    ensures ForwardPool.AllFinished(tasks[..|tasks| - 1]) && tasks[|tasks| - 1].phase.Finished?
  {
    var last: ForwardPool.TaskId := |tasks| - 1;
    assert tasks[last].phase.Finished?;
  }

  lemma AskedStep(front: seq<ForwardPool.Task>, t: ForwardPool.Task, a: Addressed)
    requires t.phase.Finished?
    ensures multiset(AskedFor(front + [t]))[a] == multiset(AskedFor(front))[a] + (if Asked(t) == a then 1 else 0)
    ensures multiset(Acknowledged(front + [t]))[a] + multiset(FilterMap(IfFailed, front + [t]))[a] ==
            multiset(Acknowledged(front))[a] + multiset(FilterMap(IfFailed, front))[a]
            + (if Asked(t) == a then 1 else 0)
  {
    YieldCount(Any, front, t, a);
    YieldCount(IfOk, front, t, a);
    YieldCount(IfFailed, front, t, a);
  }

  lemma {:induction false} AskedCount(tasks: seq<ForwardPool.Task>, a: Addressed)
    requires ForwardPool.AllFinished(tasks)
    ensures multiset(AskedFor(tasks))[a] ==
            multiset(Acknowledged(tasks))[a] + multiset(FilterMap(IfFailed, tasks))[a]
  {
    if tasks != [] {
      FinishedFront(tasks);
      AskedCount(tasks[..|tasks| - 1], a);
      AskedStep(tasks[..|tasks| - 1], tasks[|tasks| - 1], a);
      Snoc(tasks);
    }
  }

  /** Once every call has returned, each was acknowledged or failed. */
  lemma OkOrFailed(tasks: seq<ForwardPool.Task>)
    requires ForwardPool.AllFinished(tasks)
    ensures multiset(AskedFor(tasks)) == multiset(Acknowledged(tasks)) + multiset(FilterMap(IfFailed, tasks))
  {
    forall a ensures multiset(AskedFor(tasks))[a] ==
                     (multiset(Acknowledged(tasks)) + multiset(FilterMap(IfFailed, tasks)))[a]
    {
      AskedCount(tasks, a);
    }
  }

  /**
   The tasks of `forward` are the network's links. When the calls made are those the relay steps
   ask for, and all have returned, then what the next hops can read off the connections, address
   by address, is what the steps put on the links, but for the calls that failed: their frames
   are the ones the network counts as cut.
   */
  lemma ConnectionsAreLinks(cs: Crypto, relays: Directory, ps: seq<Parcel>, es: seq<ForwardPool.Event>)
    requires BodiesFit(ForwardPool.After(es).tasks) && ForwardPool.AllFinished(ForwardPool.After(es).tasks)
    requires multiset(AskedFor(ForwardPool.After(es).tasks)) == multiset(FilterMap(ForwardedBy(cs, relays), ps))
    ensures var s := ForwardPool.After(es);
      multiset(FilterMap(ForwardedBy(cs, relays), ps)) ==
      multiset(ReadOff(s.conns)) + multiset(FilterMap(IfFailed, s.tasks))
  {
    WhatIsReadIsWhatSucceeded(es);
    OkOrFailed(ForwardPool.After(es).tasks);
  }
}
