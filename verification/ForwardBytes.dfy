/**
 What concurrent forwarding amounts to on the wire: only the bytes of the streams count here,
 read the way the next hop reads them.
 */
module ForwardBytes {
  import opened ByteStrings
  import opened ForwardPool
  import opened Framing
  import opened Sequences
  import opened Utf8
  import opened Wrappers

  /** A frame, and the address it went to or is meant for. */
  type Addressed = (Text, Bytes)

  function To(addr: Text, bodies: seq<Bytes>): (r: seq<Addressed>)
    ensures |r| == |bodies|
  {
    seq(|bodies|, i requires 0 <= i < |bodies| => (addr, bodies[i]))
  }

  /** All frames that can be read off these connections, each with the address of its connection. */
  function ReadOff(conns: seq<Conn>): seq<Addressed> {
    if conns == [] then [] else
    var k := conns[|conns| - 1];
    ReadOff(conns[..|conns| - 1]) + To(k.addr, Split(k.stream).frames)
  }

  function IfOk(t: Task): Option<Addressed> {
    if t.phase == Finished(true) then Some((t.addr, t.body)) else None
  }

  /** What the calls of `forward` that returned Ok were asked to send, and where. */
  function Acknowledged(tasks: seq<Task>): seq<Addressed> {
    FilterMap(IfOk, tasks)
  }

  ghost predicate BodiesFit(tasks: seq<Task>) {
    forall t: TaskId :: t < |tasks| ==> |tasks[t].body| < U32_LIMIT
  }

  // ----- from streams to the tasks behind them -----

  function WorkOf(tasks: seq<Task>): TaskId -> Option<Addressed> {
    (t: TaskId) => if t < |tasks| then Some((tasks[t].addr, tasks[t].body)) else None
  }

  function Logs(conns: seq<Conn>): seq<TaskId> {
    if conns == [] then [] else Logs(conns[..|conns| - 1]) + conns[|conns| - 1].log
  }

  /** The tasks that returned Ok, among the first n. */
  function OkIds(tasks: seq<Task>, n: nat): seq<TaskId>
    requires n <= |tasks|
  {
    if n == 0 then []
    else if tasks[n - 1].phase == Finished(true) then OkIds(tasks, n - 1) + [n - 1]
    else OkIds(tasks, n - 1)
  }

  lemma {:induction false} LogsCount(conns: seq<Conn>, t: TaskId)
    ensures multiset(Logs(conns))[t] == Copies(conns, t)
  {
    if conns != [] {
      LogsCount(conns[..|conns| - 1], t);
      MultisetConcat(Logs(conns[..|conns| - 1]), conns[|conns| - 1].log);
    }
  }

  lemma {:induction false} OkIdsCount(tasks: seq<Task>, n: nat, t: TaskId)
    requires n <= |tasks|
    ensures multiset(OkIds(tasks, n))[t] == if t < n && tasks[t].phase == Finished(true) then 1 else 0
  {
    if n > 0 {
      OkIdsCount(tasks, n - 1, t);
    }
  }

  lemma {:induction false} OkIdsWork(tasks: seq<Task>, n: nat)
    requires n <= |tasks|
    ensures FilterMap(WorkOf(tasks), OkIds(tasks, n)) == Acknowledged(tasks[..n])
  {
    if n > 0 {
      var m: nat := n - 1;
      OkIdsWork(tasks, m);
      OkIdsStep(tasks, m);
      AcknowledgedNext(tasks, m);
      assert n == m + 1;
    }
  }

  lemma OkIdsStep(tasks: seq<Task>, n: nat)
    requires n < |tasks|
    ensures FilterMap(WorkOf(tasks), OkIds(tasks, n + 1)) ==
            FilterMap(WorkOf(tasks), OkIds(tasks, n)) + Yield(IfOk(tasks[n]))
  {
    if tasks[n].phase == Finished(true) {
      FilterMapAppend<TaskId, Addressed>(WorkOf(tasks), OkIds(tasks, n), n);
    } else {
      assert FilterMap(WorkOf(tasks), OkIds(tasks, n)) + [] == FilterMap(WorkOf(tasks), OkIds(tasks, n));
    }
  }

  lemma AcknowledgedNext(tasks: seq<Task>, n: nat)
    requires n < |tasks|
    ensures Acknowledged(tasks[..n + 1]) == Acknowledged(tasks[..n]) + Yield(IfOk(tasks[n]))
  {
    CutTwice(tasks, n, n + 1);
  }

  /** The log of a connection names tasks whose frames are the ones that can be read off it. */
  ghost predicate LogIsRead(tasks: seq<Task>, k: Conn) {
    && Known(tasks, k.log)
    && Split(k.stream).frames == ForwardPool.Bodies(tasks, k.log)
    && forall i :: 0 <= i < |k.log| ==> tasks[k.log[i]].addr == k.addr
  }

  lemma {:induction false} ReadOffIsLogged(tasks: seq<Task>, conns: seq<Conn>)
    requires forall c: ConnId :: c < |conns| ==> LogIsRead(tasks, conns[c])
    ensures ReadOff(conns) == FilterMap(WorkOf(tasks), Logs(conns))
  {
    if conns != [] {
      var front, k := conns[..|conns| - 1], conns[|conns| - 1];
      ReadOffIsLogged(tasks, front);
      assert LogIsRead(tasks, conns[|conns| - 1]);
      FilterMapTotal(WorkOf(tasks), k.log, To(k.addr, Split(k.stream).frames));
      FilterMapConcat(WorkOf(tasks), Logs(front), k.log);
    }
  }

  lemma LoggedIsAcknowledged(s: State)
    requires CopiesOk(s)
    ensures multiset(FilterMap(WorkOf(s.tasks), Logs(s.conns))) == multiset(Acknowledged(s.tasks))
  {
    var n := |s.tasks|;
    forall t: TaskId ensures multiset(Logs(s.conns))[t] == multiset(OkIds(s.tasks, n))[t] {
      LogsCount(s.conns, t);
      OkIdsCount(s.tasks, n, t);
    }
    FilterMapPermutes(WorkOf(s.tasks), Logs(s.conns), OkIds(s.tasks, n));
    OkIdsWork(s.tasks, n);
    assert s.tasks[..n] == s.tasks;
  }

  /**
   The bytes tell who succeeded. In every reachable state, the frames that can be read off all
   connections ever opened, together with the address each was written to, are exactly the
   frames of the calls that returned Ok, each once, at its own next hop. A call that failed, or
   is still under way, has contributed none.
   */
  lemma WhatIsReadIsWhatSucceeded(es: seq<Event>)
    requires BodiesFit(After(es).tasks)
    ensures multiset(ReadOff(After(es).conns)) == multiset(Acknowledged(After(es).tasks))
  {
    var s := After(es);
    RunsKeepInv(es);
    forall c: ConnId | c < |s.conns| ensures LogIsRead(s.tasks, s.conns[c]) {
      NextHopReadsTheLog(es, c);
    }
    ReadOffIsLogged(s.tasks, s.conns);
    LoggedIsAcknowledged(s);
  }

  // ----- step by step -----

  /** The step with which a call of `forward` returns Ok. */
  predicate ReturnsOk(s: State, e: Event)
    requires Enabled(s, e)
  {
    e.Write? && s.tasks[e.t].phase.done + e.n == |TaskFrame(s.tasks[e.t])|
  }

  /** A step of a task that does not return Ok leaves what it is good for as it was: nothing. */
  lemma TaskStep(s: State, e: Event)
    requires Enabled(s, e) && TaskEvent(e)
    ensures e.t < |s.tasks| && |Apply(s, e).tasks| == |s.tasks|
    ensures Apply(s, e).tasks == s.tasks[e.t := Apply(s, e).tasks[e.t]]
    ensures IfOk(s.tasks[e.t]) == None
    ensures IfOk(Apply(s, e).tasks[e.t]) ==
            if ReturnsOk(s, e) then Some((s.tasks[e.t].addr, s.tasks[e.t].body)) else None
  {
  }

  lemma AcknowledgedStep(s: State, e: Event)
    requires Enabled(s, e)
    ensures !ReturnsOk(s, e) ==> Acknowledged(Apply(s, e).tasks) == Acknowledged(s.tasks)
    ensures ReturnsOk(s, e) ==>
              (multiset(Acknowledged(Apply(s, e).tasks)) ==
               multiset(Acknowledged(s.tasks)) + multiset{(s.tasks[e.t].addr, s.tasks[e.t].body)})
  {
    if TaskEvent(e) {
      TaskStep(s, e);
      FilterMapUpdate(IfOk, s.tasks, e.t, Apply(s, e).tasks[e.t]);
    } else if e.Spawn? {
      FilterMapAppend(IfOk, s.tasks, Apply(s, e).tasks[|s.tasks|]);
    }
  }

  /**
   One step of one task at a time: the step with which `forward` returns Ok makes exactly one
   more frame readable, its own, at its next hop. No other step of any task, and no breaking
   connection, makes a frame appear or disappear, however they interleave.
   */
  lemma ForwardWritesOneCopy(es: seq<Event>, e: Event)
    requires Enabled(After(es), e) && BodiesFit(Apply(After(es), e).tasks)
    ensures var s := After(es);
      multiset(ReadOff(Apply(s, e).conns)) == multiset(ReadOff(s.conns)) +
        (if ReturnsOk(s, e) then multiset{(s.tasks[e.t].addr, s.tasks[e.t].body)} else multiset{})
  {
    var s := After(es);
    assert (es + [e])[..|es|] == es;
    BodiesFitBefore(s, e);
    WhatIsReadIsWhatSucceeded(es);
    WhatIsReadIsWhatSucceeded(es + [e]);
    AcknowledgedStep(s, e);
  }

  lemma BodiesFitBefore(s: State, e: Event)
    requires Enabled(s, e) && BodiesFit(Apply(s, e).tasks)
    ensures BodiesFit(s.tasks)
  {
    forall t: TaskId | t < |s.tasks| ensures |s.tasks[t].body| < U32_LIMIT {
      assert |Apply(s, e).tasks[t].body| < U32_LIMIT;
    }
  }
}
