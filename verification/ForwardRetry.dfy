/** When a call of `forward` gives up, and what its one retry does. */
module ForwardRetry {
  import opened ForwardPool
  import opened Sequences
  import opened Utf8
  import opened Wrappers

  /** How many writes of task t have failed during a run. */
  function FailedWrites(es: seq<Event>, t: TaskId): nat {
    if es == [] then 0 else
    var front, e := es[..|es| - 1], es[|es| - 1];
    FailedWrites(front, t) + (if e == Fail(t) && Enabled(After(front), e) then 1 else 0)
  }

  /** A dial of task t has been refused during a run. */
  predicate DialRefused(es: seq<Event>, t: TaskId) {
    es != [] &&
      var front, e := es[..|es| - 1], es[|es| - 1];
      DialRefused(front, t) || (e == Dial(t, false) && Enabled(After(front), e))
  }

  /** The connection the last failed write of task t was on. */
  function FailedOn(es: seq<Event>, t: TaskId): Option<ConnId> {
    if es == [] then None else
    var front, e := es[..|es| - 1], es[|es| - 1];
    if e == Fail(t) && Enabled(After(front), e) then Some(After(front).tasks[t].phase.conn) else FailedOn(front, t)
  }

  /** What the past of a task says about the phase it is in. */
  predicate PhaseOk(p: Phase, failed: nat, refused: bool) {
    match p
    case Connecting(retried) => !refused && failed == (if retried then 1 else 0)
    case Dialling(retried) => !refused && failed == (if retried then 1 else 0)
    case Waiting(retried, _) => !refused && failed == (if retried then 1 else 0)
    case Writing(retried, _, _) => !refused && failed == (if retried then 1 else 0)
    case Evicting => !refused && failed == 1
    case Finished(ok) =>
      if ok then !refused && failed <= 1
      else (refused && failed <= 1) || (!refused && failed == 2)
  }

  /** The step is one of task t's own. */
  predicate Own(e: Event, t: TaskId) {
    TaskEvent(e) && e.t == t
  }

  /** Other tasks, and breaking connections, leave a task as it is. */
  lemma OthersStep(s: State, e: Event, t: TaskId)
    requires Enabled(s, e) && t < |s.tasks| && !Own(e, t)
    ensures t < |Apply(s, e).tasks| && Apply(s, e).tasks[t] == s.tasks[t]
  {
  }

  lemma OwnStep(s: State, e: Event, failed: nat)
    requires TaskEvent(e) && Enabled(s, e) && PhaseOk(s.tasks[e.t].phase, failed, false)
    ensures |Apply(s, e).tasks| == |s.tasks|
    ensures PhaseOk(Apply(s, e).tasks[e.t].phase, if e.Fail? then failed + 1 else failed, e.Dial? && !e.ok)
  {
  }

  /** What is known of task t after a run. */
  ghost predicate PastOk(es: seq<Event>, t: TaskId) {
    if t < |After(es).tasks| then PhaseOk(After(es).tasks[t].phase, FailedWrites(es, t), DialRefused(es, t))
    else FailedWrites(es, t) == 0 && !DialRefused(es, t)
  }

  /** One event more, as it concerns task t. */
  lemma OneMore(front: seq<Event>, e: Event, t: TaskId)
    ensures var es, happens := front + [e], Enabled(After(front), e);
      && After(es) == (if happens then Apply(After(front), e) else After(front))
      && FailedWrites(es, t) == FailedWrites(front, t) + (if happens && e == Fail(t) then 1 else 0)
      && (DialRefused(es, t) <==> DialRefused(front, t) || (happens && e == Dial(t, false)))
      && FailedOn(es, t) ==
           (if happens && e == Fail(t) then Some(After(front).tasks[t].phase.conn) else FailedOn(front, t))
  {
    assert (front + [e])[..|front|] == front;
  }

  lemma PastStep(front: seq<Event>, e: Event, t: TaskId)
    requires PastOk(front, t)
    ensures PastOk(front + [e], t)
  {
    OneMore(front, e, t);
    var s := After(front);
    if Enabled(s, e) && t < |s.tasks| {
      if Own(e, t) {
        OwnStep(s, e, FailedWrites(front, t));
      } else {
        OthersStep(s, e, t);
      }
    }
  }

  lemma {:induction false} PastHolds(es: seq<Event>, t: TaskId)
    ensures PastOk(es, t)
  {
    if es != [] {
      PastHolds(es[..|es| - 1], t);
      PastStep(es[..|es| - 1], es[|es| - 1], t);
      Snoc(es);
    }
  }

  /**
   Exactly when `forward` returns Err: after a refused dial, or after two failed writes, never after
   one. The first failed write always leads to another attempt.
   */
  lemma GivesUpAfterRetry(es: seq<Event>, t: TaskId)
    requires t < |After(es).tasks|
    ensures After(es).tasks[t].phase == Finished(false) <==> DialRefused(es, t) || FailedWrites(es, t) == 2
    ensures FailedWrites(es, t) <= 2
    ensures After(es).tasks[t].phase == Finished(true) ==> !DialRefused(es, t) && FailedWrites(es, t) <= 1
  {
    PastHolds(es, t);
  }

  // ----- what the steps of the retry do to the pool -----

  /** Dropping the stale entry takes exactly this address out of the pool, whoever put it there. */
  lemma EvictDropsTheEntry(s: State, t: TaskId)
    requires Enabled(s, Evict(t))
    ensures var s' := Apply(s, Evict(t));
      && s.tasks[t].addr !in s'.pool
      && (forall a :: a != s.tasks[t].addr ==> (a in s'.pool <==> a in s.pool))
      && (forall a :: a in s'.pool ==> s'.pool[a] == s.pool[a])
      && s'.conns == s.conns
  {
  }

  /** A pooled connection is used as it is; only a successful dial opens one, and pools it. */
  lemma PooledIsReused(s: State, e: Event)
    requires Enabled(s, e)
    ensures e.Connect? && s.tasks[e.t].addr in s.pool ==>
              var p := Apply(s, e).tasks[e.t].phase;
              p.Waiting? && p.conn == s.pool[s.tasks[e.t].addr]
    ensures |Apply(s, e).conns| == |s.conns| + (if e.Dial? && e.ok then 1 else 0)
    ensures e.Dial? && e.ok ==>
              var s' := Apply(s, e);
              && s'.conns[|s.conns|].addr == s.tasks[e.t].addr
              && s'.pool == s.pool[s.tasks[e.t].addr := |s.conns|]
              && s'.tasks[e.t].phase.Waiting? && s'.tasks[e.t].phase.conn == |s.conns|
  {
  }

  /** A task that is at its second attempt, and the connection it is about to use, if that is settled. */
  predicate Retrying(p: Phase) {
    match p
    case Connecting(retried) => retried
    case Dialling(retried) => retried
    case Waiting(retried, _) => retried
    case Writing(retried, _, _) => retried
    case _ => false
  }

  /** The connection a task in this phase has, or would find. */
  function Prospect(s: State, task: Task): Option<ConnId> {
    match task.phase
    case Waiting(_, c) => Some(c)
    case Writing(_, c, _) => Some(c)
    case _ => if task.addr in s.pool then Some(s.pool[task.addr]) else None
  }

  /** Everything a retrying task may come to use is newer than f, what its first write failed on. */
  ghost predicate Newer(s: State, t: TaskId, f: Option<ConnId>)
    requires t < |s.tasks|
  {
    && (f.Some? ==> f.value < |s.conns|)
    && (s.tasks[t].phase.Evicting? ==> f.Some?)
    && (Retrying(s.tasks[t].phase) ==>
          f.Some? && (Prospect(s, s.tasks[t]).Some? ==> f.value < Prospect(s, s.tasks[t]).value))
  }

  ghost predicate NewerOk(es: seq<Event>, t: TaskId) {
    if t < |After(es).tasks| then Newer(After(es), t, FailedOn(es, t)) else FailedOn(es, t) == None
  }

  /** Any other event leaves the pool entry for an address, drops it, or replaces it by a new connection. */
  lemma PoolMoves(s: State, e: Event, a: Text)
    requires Enabled(s, e)
    ensures |s.conns| <= |Apply(s, e).conns|
    ensures a in Apply(s, e).pool ==> (a in s.pool && Apply(s, e).pool[a] == s.pool[a]) || Apply(s, e).pool[a] == |s.conns|
  {
  }

  lemma OthersKeepNewer(s: State, e: Event, t: TaskId, f: Option<ConnId>)
    requires Enabled(s, e) && t < |s.tasks| && !Own(e, t) && Newer(s, t, f)
    ensures t < |Apply(s, e).tasks| && Newer(Apply(s, e), t, f)
  {
    OthersStep(s, e, t);
    PoolMoves(s, e, s.tasks[t].addr);
  }

  lemma OwnKeepsNewer(s: State, e: Event, f: Option<ConnId>)
    requires TaskEvent(e) && Enabled(s, e) && Newer(s, e.t, f)
    ensures Newer(Apply(s, e), e.t, if e.Fail? then Some(s.tasks[e.t].phase.conn) else f)
  {
    match e
    case Connect(t) =>
    case Dial(t, ok) =>
    case Lock(t) =>
    case Write(t, n) =>
    case Fail(t) =>
    case Evict(t) => EvictDropsTheEntry(s, t);
  }

  lemma NewerStep(front: seq<Event>, e: Event, t: TaskId)
    requires NewerOk(front, t)
    ensures NewerOk(front + [e], t)
  {
    OneMore(front, e, t);
    var s := After(front);
    if Enabled(s, e) && t < |s.tasks| {
      if Own(e, t) {
        OwnKeepsNewer(s, e, FailedOn(front, t));
      } else {
        OthersKeepNewer(s, e, t, FailedOn(front, t));
      }
    }
  }

  lemma {:induction false} NewerHolds(es: seq<Event>, t: TaskId)
    ensures NewerOk(es, t)
  {
    if es != [] {
      NewerHolds(es[..|es| - 1], t);
      NewerStep(es[..|es| - 1], es[|es| - 1], t);
      Snoc(es);
    }
  }

  /**
   The retry is a real one. The connection of the second attempt was opened after the one the
   first attempt failed on, however other tasks dial, evict and break connections in between.
   */
  lemma RetryUsesNewerConnection(es: seq<Event>, t: TaskId)
    requires t < |After(es).tasks|
    requires var p := After(es).tasks[t].phase; (p.Waiting? || p.Writing?) && p.retried
    ensures FailedOn(es, t).Some? && FailedOn(es, t).value < After(es).tasks[t].phase.conn
  {
    NewerHolds(es, t);
  }
}
