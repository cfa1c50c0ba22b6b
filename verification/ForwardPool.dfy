/**
 Forwarding over pooled connections, with any number of tasks at once.

 Each call of `forward` is a task. It takes the pool lock and finds the connection for its next
 hop, or keeps the lock while it dials one; it waits for the connection's lock, writes the frame
 piece by piece, and on a failed first write lets go of the connection, takes the pool lock again
 to drop the entry, and starts over once. A connection can break at any moment and stays broken.
 A write fails only before the whole frame is out.
 */
module ForwardPool {
  import opened ByteStrings
  import opened Framing
  import opened Utf8
  import opened Sequences
  import opened Wrappers

  type ConnId = nat
  type TaskId = nat

  /** `log` lists the tasks whose frame went out whole, in order; the code does not keep it. */
  datatype Conn = Conn(addr: Text, stream: Bytes, log: seq<TaskId>, holder: Option<TaskId>, broken: bool)

  datatype Phase =
    | Connecting(retried: bool)                          // wants the pool lock
    | Dialling(retried: bool)                            // holds the pool lock
    | Waiting(retried: bool, conn: ConnId)               // wants the connection's lock
    | Writing(retried: bool, conn: ConnId, done: nat)    // holds the connection's lock
    | Evicting                                           // wants the pool lock
    | Finished(ok: bool)

  datatype Task = Task(addr: Text, body: Bytes, phase: Phase)

  datatype State = State(conns: seq<Conn>, pool: map<Text, ConnId>, poolHolder: Option<TaskId>, tasks: seq<Task>)

  datatype Event =
    | Spawn(addr: Text, body: Bytes)
    | Connect(t: TaskId)
    | Dial(t: TaskId, ok: bool)
    | Lock(t: TaskId)
    | Write(t: TaskId, n: nat)
    | Fail(t: TaskId)
    | Evict(t: TaskId)
    | Break(c: ConnId)

  const Init := State([], map[], None, [])

  function TaskFrame(t: Task): Bytes {
    FrameBytes(t.body)
  }

  function SetPhase(s: State, t: TaskId, p: Phase): State
    requires t < |s.tasks|
  {
    s.(tasks := s.tasks[t := s.tasks[t].(phase := p)])
  }

  function SetConn(s: State, c: ConnId, k: Conn): State
    requires c < |s.conns|
  {
    s.(conns := s.conns[c := k])
  }

  /** When an event can happen. */
  predicate Enabled(s: State, e: Event) {
    match e
    case Spawn(_, _) => true
    case Break(c) => c < |s.conns|
    case Connect(t) => t < |s.tasks| && s.tasks[t].phase.Connecting? && s.poolHolder.None?
    case Dial(t, _) => t < |s.tasks| && s.tasks[t].phase.Dialling?
    case Evict(t) => t < |s.tasks| && s.tasks[t].phase.Evicting? && s.poolHolder.None?
    case Lock(t) =>
      && t < |s.tasks| && s.tasks[t].phase.Waiting?
      && s.tasks[t].phase.conn < |s.conns| && s.conns[s.tasks[t].phase.conn].holder.None?
    case Write(t, n) =>
      && t < |s.tasks| && s.tasks[t].phase.Writing?
      && s.tasks[t].phase.conn < |s.conns| && !s.conns[s.tasks[t].phase.conn].broken
      && 0 < n <= |TaskFrame(s.tasks[t])| - s.tasks[t].phase.done
    case Fail(t) =>
      && t < |s.tasks| && s.tasks[t].phase.Writing?
      && s.tasks[t].phase.conn < |s.conns|
  }

  /** The first half of `get_or_connect`: the pooled connection, or a dial under the pool lock. */
  function Connected(s: State, t: TaskId): State
    requires Enabled(s, Connect(t))
  {
    var task := s.tasks[t];
    if task.addr in s.pool then SetPhase(s, t, Waiting(task.phase.retried, s.pool[task.addr]))
    else SetPhase(s.(poolHolder := Some(t)), t, Dialling(task.phase.retried))
  }

  /** Its second half: a fresh connection enters the pool, or the dial is refused; the lock is released. */
  function Dialled(s: State, t: TaskId, ok: bool): State
    requires Enabled(s, Dial(t, ok))
  {
    var task := s.tasks[t];
    if ok then
      SetPhase(s.(conns := s.conns + [Fresh(task.addr)],
                  pool := s.pool[task.addr := |s.conns|],
                  poolHolder := None),
               t, Waiting(task.phase.retried, |s.conns|))
    else SetPhase(s.(poolHolder := None), t, Finished(false))
  }

  /** The next n bytes of the frame go out; with the last of them the lock is released and the task done. */
  function Wrote(s: State, t: TaskId, n: nat): State
    requires Enabled(s, Write(t, n))
  {
    var task := s.tasks[t];
    var p, k := task.phase, s.conns[task.phase.conn];
    var stream := k.stream + TaskFrame(task)[p.done..p.done + n];
    if p.done + n < |TaskFrame(task)|
    then SetPhase(SetConn(s, p.conn, k.(stream := stream)), t, p.(done := p.done + n))
    else SetPhase(SetConn(s, p.conn, k.(stream := stream, log := k.log + [t], holder := None)), t, Finished(true))
  }

  function Apply(s: State, e: Event): State
    requires Enabled(s, e)
  {
    match e
    case Spawn(addr, body) => s.(tasks := s.tasks + [Task(addr, body, Connecting(false))])
    case Break(c) => SetConn(s, c, s.conns[c].(broken := true))
    case Connect(t) => Connected(s, t)
    case Dial(t, ok) => Dialled(s, t, ok)
    case Lock(t) =>
      var p := s.tasks[t].phase;
      SetPhase(SetConn(s, p.conn, s.conns[p.conn].(holder := Some(t))), t, Writing(p.retried, p.conn, 0))
    case Write(t, n) => Wrote(s, t, n)
    case Fail(t) =>
      var p := s.tasks[t].phase;
      SetPhase(SetConn(s, p.conn, s.conns[p.conn].(holder := None, broken := true)), t,
               if p.retried then Finished(false) else Evicting)
    case Evict(t) =>
      SetPhase(s.(pool := s.pool - {s.tasks[t].addr}), t, Connecting(true))
  }

  /** The state after a run of events; an event that cannot happen changes nothing. */
  function After(es: seq<Event>): State {
    if es == [] then Init else
    var s := After(es[..|es| - 1]);
    if Enabled(s, es[|es| - 1]) then Apply(s, es[|es| - 1]) else s
  }

  // ----- the invariant -----

  ghost predicate Known(tasks: seq<Task>, log: seq<TaskId>) {
    forall i :: 0 <= i < |log| ==> log[i] < |tasks|
  }

  function Bodies(tasks: seq<Task>, log: seq<TaskId>): (bs: seq<Bytes>)
    requires Known(tasks, log)
    ensures |bs| == |log|
  {
    seq(|log|, i requires 0 <= i < |log| => tasks[log[i]].body)
  }

  /** `tail` is the beginning of some task's frame, but not all of it. */
  ghost predicate Torn(tasks: seq<Task>, tail: Bytes) {
    tail == [] || exists t: TaskId ::
      t < |tasks| && |tail| < |TaskFrame(tasks[t])| && tail == TaskFrame(tasks[t])[..|tail|]
  }

  predicate Holds(task: Task, c: ConnId) {
    task.phase.Writing? && task.phase.conn == c
  }

  ghost predicate LockOk(tasks: seq<Task>, c: ConnId, k: Conn) {
    && (k.holder.Some? ==> k.holder.value < |tasks|)
    && (forall t: TaskId :: t < |tasks| ==> (Holds(tasks[t], c) <==> k.holder == Some(t)))
  }

  ghost predicate LogOk(tasks: seq<Task>, k: Conn) {
    && Known(tasks, k.log)
    && (forall i :: 0 <= i < |k.log| ==>
          tasks[k.log[i]].phase == Finished(true) && tasks[k.log[i]].addr == k.addr)
  }

  /** What the holder of an unbroken connection has written of its frame. */
  function Unfinished(tasks: seq<Task>, k: Conn): Bytes {
    if k.holder.Some? && k.holder.value < |tasks| then Begun(tasks[k.holder.value]) else []
  }

  function Begun(t: Task): Bytes {
    if t.phase.Writing? && t.phase.done <= |TaskFrame(t)| then TaskFrame(t)[..t.phase.done] else []
  }

  /** The stream is the logged frames, whole and in order, and then at most one torn frame. */
  ghost predicate StreamOk(tasks: seq<Task>, k: Conn)
    requires Known(tasks, k.log)
  {
    exists tail: Bytes ::
      && k.stream == Written(Bodies(tasks, k.log)) + tail
      && Torn(tasks, tail)
      && (!k.broken ==> tail == Unfinished(tasks, k))
  }

  ghost predicate ConnOk(tasks: seq<Task>, c: ConnId, k: Conn) {
    LockOk(tasks, c, k) && LogOk(tasks, k) && StreamOk(tasks, k)
  }

  ghost predicate TaskOk(conns: seq<Conn>, t: Task) {
    match t.phase
    case Waiting(_, c) => c < |conns| && conns[c].addr == t.addr
    case Writing(_, c, done) => c < |conns| && conns[c].addr == t.addr && done < |TaskFrame(t)|
    case _ => true
  }

  /** How many complete copies of task t's frame were written, over all connections. */
  function Copies(conns: seq<Conn>, t: TaskId): nat {
    if conns == [] then 0
    else Copies(conns[..|conns| - 1], t) + multiset(conns[|conns| - 1].log)[t]
  }

  predicate Succeeded(s: State, t: TaskId) {
    t < |s.tasks| && s.tasks[t].phase == Finished(true)
  }

  ghost predicate CopiesOk(s: State) {
    forall t: TaskId :: Copies(s.conns, t) == if Succeeded(s, t) then 1 else 0
  }

  ghost predicate PoolOk(conns: seq<Conn>, pool: map<Text, ConnId>) {
    forall a :: a in pool ==> pool[a] < |conns| && conns[pool[a]].addr == a
  }

  ghost predicate Inv(s: State) {
    && PoolOk(s.conns, s.pool)
    && (forall t: TaskId :: t < |s.tasks| ==> TaskOk(s.conns, s.tasks[t]))
    && (forall c: ConnId :: c < |s.conns| ==> ConnOk(s.tasks, c, s.conns[c]))
    && CopiesOk(s)
  }

  // ----- every event keeps the invariant -----

  lemma {:induction false} CopiesUpdate(conns: seq<Conn>, c: ConnId, k: Conn, t: TaskId)
    requires c < |conns|
    ensures Copies(conns[c := k], t) == Copies(conns, t) - multiset(conns[c].log)[t] + multiset(k.log)[t]
  {
    var front := conns[..|conns| - 1];
    if c == |conns| - 1 {
      assert conns[c := k][..|conns| - 1] == front;
    } else {
      CopiesUpdate(front, c, k, t);
      assert conns[c := k][..|conns| - 1] == front[c := k];
    }
  }

  /** `tasks'` has all the tasks of `tasks` under the same numbers, with the same work to do. */
  ghost predicate Extends(tasks: seq<Task>, tasks': seq<Task>) {
    && |tasks| <= |tasks'|
    && forall t: TaskId :: t < |tasks| ==> tasks'[t].body == tasks[t].body && tasks'[t].addr == tasks[t].addr
  }

  lemma TornExtends(tasks: seq<Task>, tasks': seq<Task>, tail: Bytes)
    requires Extends(tasks, tasks') && Torn(tasks, tail)
    ensures Torn(tasks', tail)
  {
    if tail != [] {
      var t: TaskId :| t < |tasks| && |tail| < |TaskFrame(tasks[t])| && tail == TaskFrame(tasks[t])[..|tail|];
      assert TaskFrame(tasks'[t]) == TaskFrame(tasks[t]);
    }
  }

  lemma BodiesExtend(tasks: seq<Task>, tasks': seq<Task>, log: seq<TaskId>)
    requires Extends(tasks, tasks') && Known(tasks, log)
    ensures Known(tasks', log) && Bodies(tasks', log) == Bodies(tasks, log)
  {
  }

  /** A connection does not notice what tasks that neither hold it nor finished on it do. */
  lemma ConnUndisturbed(tasks: seq<Task>, tasks': seq<Task>, c: ConnId, k: Conn)
    requires ConnOk(tasks, c, k) && Extends(tasks, tasks')
    requires forall t: TaskId :: t < |tasks| && (Holds(tasks[t], c) || tasks[t].phase == Finished(true)) ==>
               tasks'[t] == tasks[t]
    requires forall t: TaskId :: t < |tasks'| && (t < |tasks| ==> !Holds(tasks[t], c)) ==> !Holds(tasks'[t], c)
    ensures ConnOk(tasks', c, k)
  {
    BodiesExtend(tasks, tasks', k.log);
    var tail: Bytes :|
      && k.stream == Written(Bodies(tasks, k.log)) + tail
      && Torn(tasks, tail)
      && (!k.broken ==> tail == Unfinished(tasks, k));
    TornExtends(tasks, tasks', tail);
    if k.holder.Some? {
      assert Holds(tasks[k.holder.value], c);
    }
    assert Unfinished(tasks', k) == Unfinished(tasks, k);
  }

  lemma ConnsIgnore(s: State, t: TaskId, p: Phase)
    requires Inv(s) && t < |s.tasks|
    requires !s.tasks[t].phase.Writing? && !p.Writing? && s.tasks[t].phase != Finished(true)
    ensures forall c: ConnId :: c < |s.conns| ==> ConnOk(SetPhase(s, t, p).tasks, c, s.conns[c])
  {
    forall c: ConnId | c < |s.conns| ensures ConnOk(SetPhase(s, t, p).tasks, c, s.conns[c]) {
      ConnUndisturbed(s.tasks, SetPhase(s, t, p).tasks, c, s.conns[c]);
    }
  }

  /** Task t moves on and touches no connection. */
  lemma TaskMoves(s: State, t: TaskId, p: Phase)
    requires Inv(s) && t < |s.tasks|
    requires !s.tasks[t].phase.Writing? && !p.Writing?
    requires s.tasks[t].phase != Finished(true) && p != Finished(true)
    requires TaskOk(s.conns, s.tasks[t].(phase := p))
    ensures Inv(SetPhase(s, t, p))
  {
    ConnsIgnore(s, t, p);
    CopiesStay(s, SetPhase(s, t, p));
  }

  /** One more copy of t's frame if t has just succeeded, and no other change to the counts. */
  lemma CopiesMove(s: State, t: TaskId, p: Phase, c: ConnId, k: Conn)
    requires CopiesOk(s) && t < |s.tasks| && c < |s.conns|
    requires s.tasks[t].phase != Finished(true)
    requires k.log == s.conns[c].log + (if p == Finished(true) then [t] else [])
    ensures CopiesOk(SetPhase(SetConn(s, c, k), t, p))
  {
    var s' := SetPhase(SetConn(s, c, k), t, p);
    forall u: TaskId ensures Copies(s'.conns, u) == if Succeeded(s', u) then 1 else 0 {
      CopiesUpdate(s.conns, c, k, u);
      assert Copies(s.conns, u) == if Succeeded(s, u) then 1 else 0;
    }
  }

  /** The other connections do not notice. */
  lemma OtherConnsIgnore(s: State, t: TaskId, p: Phase, c: ConnId, k: Conn)
    requires Inv(s) && t < |s.tasks| && c < |s.conns|
    requires s.tasks[t].phase.Writing? ==> s.tasks[t].phase.conn == c
    requires p.Writing? ==> p.conn == c
    requires s.tasks[t].phase != Finished(true)
    requires ConnOk(s.tasks[t := s.tasks[t].(phase := p)], c, k)
    ensures var s' := SetPhase(SetConn(s, c, k), t, p);
      forall d: ConnId :: d < |s'.conns| ==> ConnOk(s'.tasks, d, s'.conns[d])
  {
    var s' := SetPhase(SetConn(s, c, k), t, p);
    forall d: ConnId | d < |s.conns| && d != c ensures ConnOk(s'.tasks, d, s'.conns[d]) {
      assert ConnOk(s.tasks, d, s.conns[d]);
      ConnUndisturbed(s.tasks, s'.tasks, d, s.conns[d]);
    }
  }

  /** Nor do the other tasks. */
  lemma OtherTasksIgnore(s: State, t: TaskId, p: Phase, c: ConnId, k: Conn)
    requires Inv(s) && t < |s.tasks| && c < |s.conns|
    requires k.addr == s.conns[c].addr
    requires TaskOk(s.conns, s.tasks[t].(phase := p))
    ensures var s' := SetPhase(SetConn(s, c, k), t, p);
      && PoolOk(s'.conns, s'.pool)
      && forall u: TaskId :: u < |s'.tasks| ==> TaskOk(s'.conns, s'.tasks[u])
  {
    var s' := SetPhase(SetConn(s, c, k), t, p);
    forall u: TaskId | u < |s.tasks| ensures TaskOk(s'.conns, s'.tasks[u]) {
      assert u != t ==> TaskOk(s.conns, s.tasks[u]);
    }
  }

  /** Task t moves on and connection c with it; everything else stays. */
  lemma TaskAndConnMove(s: State, t: TaskId, p: Phase, c: ConnId, k: Conn)
    requires Inv(s) && t < |s.tasks| && c < |s.conns|
    requires s.tasks[t].phase.Writing? ==> s.tasks[t].phase.conn == c
    requires p.Writing? ==> p.conn == c
    requires s.tasks[t].phase != Finished(true)
    requires k.addr == s.conns[c].addr
    requires k.log == s.conns[c].log + (if p == Finished(true) then [t] else [])
    requires TaskOk(s.conns, s.tasks[t].(phase := p))
    requires ConnOk(s.tasks[t := s.tasks[t].(phase := p)], c, k)
    ensures Inv(SetPhase(SetConn(s, c, k), t, p))
  {
    CopiesMove(s, t, p, c, k);
    OtherConnsIgnore(s, t, p, c, k);
    OtherTasksIgnore(s, t, p, c, k);
  }

  /** Nothing changes in the counts when no log grows and no task succeeds. */
  lemma CopiesStay(s: State, s': State)
    requires CopiesOk(s)
    requires forall u: TaskId :: Copies(s'.conns, u) == Copies(s.conns, u) && Succeeded(s', u) == Succeeded(s, u)
    ensures CopiesOk(s')
  {
    forall u: TaskId ensures Copies(s'.conns, u) == if Succeeded(s', u) then 1 else 0 {
      assert Copies(s.conns, u) == if Succeeded(s, u) then 1 else 0;
    }
  }

  lemma ConnsIgnoreNew(s: State, task: Task)
    requires Inv(s) && task.phase.Connecting?
    ensures forall c: ConnId :: c < |s.conns| ==> ConnOk(s.tasks + [task], c, s.conns[c])
  {
    forall c: ConnId | c < |s.conns| ensures ConnOk(s.tasks + [task], c, s.conns[c]) {
      ConnUndisturbed(s.tasks, s.tasks + [task], c, s.conns[c]);
    }
  }

  lemma SpawnKeeps(s: State, addr: Text, body: Bytes)
    requires Inv(s)
    ensures Inv(Apply(s, Spawn(addr, body)))
  {
    ConnsIgnoreNew(s, Task(addr, body, Connecting(false)));
    CopiesStay(s, Apply(s, Spawn(addr, body)));
  }

  lemma BreakCopies(s: State, c: ConnId)
    requires CopiesOk(s) && c < |s.conns|
    ensures CopiesOk(SetConn(s, c, s.conns[c].(broken := true)))
  {
    var s' := SetConn(s, c, s.conns[c].(broken := true));
    forall u: TaskId ensures Copies(s'.conns, u) == Copies(s.conns, u) {
      CopiesUpdate(s.conns, c, s'.conns[c], u);
    }
    CopiesStay(s, s');
  }

  lemma BreakKeeps(s: State, c: ConnId)
    requires Inv(s) && c < |s.conns|
    ensures Inv(Apply(s, Break(c)))
  {
    BreakCopies(s, c);
    BrokenOk(s.tasks, c, s.conns[c]);
  }

  lemma BrokenOk(tasks: seq<Task>, c: ConnId, k: Conn)
    requires ConnOk(tasks, c, k)
    ensures ConnOk(tasks, c, k.(broken := true))
  {
    var tail: Bytes :| k.stream == Written(Bodies(tasks, k.log)) + tail && Torn(tasks, tail);
    StreamHas(tasks, k.(broken := true), tail);
  }

  function Fresh(addr: Text): Conn {
    Conn(addr, [], [], None, false)
  }

  lemma FreshOk(tasks: seq<Task>, c: ConnId, addr: Text)
    requires forall t: TaskId :: t < |tasks| ==> !Holds(tasks[t], c)
    ensures ConnOk(tasks, c, Fresh(addr))
  {
    StreamHas(tasks, Fresh(addr), []);
  }

  /** A task that was fine stays fine, and cannot hold a connection that is only now opened. */
  lemma TaskOkGrows(conns: seq<Conn>, k: Conn, t: Task)
    requires TaskOk(conns, t)
    ensures TaskOk(conns + [k], t) && !Holds(t, |conns|)
  {
  }

  lemma CopiesGrow(conns: seq<Conn>, addr: Text, t: TaskId)
    ensures Copies(conns + [Fresh(addr)], t) == Copies(conns, t)
  {
    assert (conns + [Fresh(addr)])[..|conns|] == conns;
  }

  lemma DialCopies(s: State, s': State, addr: Text)
    requires CopiesOk(s) && s'.conns == s.conns + [Fresh(addr)] && s'.tasks == s.tasks
    ensures CopiesOk(s')
  {
    forall u: TaskId ensures Copies(s'.conns, u) == Copies(s.conns, u) {
      CopiesGrow(s.conns, addr, u);
    }
    CopiesStay(s, s');
  }

  lemma DialKeeps(s: State, addr: Text)
    requires Inv(s)
    ensures Inv(s.(conns := s.conns + [Fresh(addr)], pool := s.pool[addr := |s.conns|]))
  {
    var s' := s.(conns := s.conns + [Fresh(addr)], pool := s.pool[addr := |s.conns|]);
    forall t: TaskId | t < |s.tasks| ensures !Holds(s.tasks[t], |s.conns|) && TaskOk(s'.conns, s'.tasks[t]) {
      TaskOkGrows(s.conns, Fresh(addr), s.tasks[t]);
    }
    FreshOk(s.tasks, |s.conns|, addr);
    DialCopies(s, s', addr);
  }

  lemma ConnectKeeps(s: State, t: TaskId)
    requires Inv(s) && Enabled(s, Connect(t))
    ensures Inv(Apply(s, Connect(t)))
  {
    var task := s.tasks[t];
    if task.addr in s.pool {
      TaskMoves(s, t, Waiting(task.phase.retried, s.pool[task.addr]));
    } else {
      PoolHolderMoves(s, Some(t));
      TaskMoves(s.(poolHolder := Some(t)), t, Dialling(task.phase.retried));
    }
  }

  lemma DialEventKeeps(s: State, t: TaskId, ok: bool)
    requires Inv(s) && Enabled(s, Dial(t, ok))
    ensures Inv(Apply(s, Dial(t, ok)))
  {
    var task := s.tasks[t];
    PoolHolderMoves(s, None);
    var s0 := s.(poolHolder := None);
    if ok {
      DialKeeps(s0, task.addr);
      TaskMoves(s0.(conns := s.conns + [Fresh(task.addr)], pool := s.pool[task.addr := |s.conns|]),
                t, Waiting(task.phase.retried, |s.conns|));
    } else {
      TaskMoves(s0, t, Finished(false));
    }
  }

  /** Who holds the pool lock is no concern of the connections and their streams. */
  lemma PoolHolderMoves(s: State, h: Option<TaskId>)
    requires Inv(s)
    ensures Inv(s.(poolHolder := h))
  {
    CopiesStay(s, s.(poolHolder := h));
  }

  lemma EvictKeeps(s: State, t: TaskId)
    requires Inv(s) && Enabled(s, Evict(t))
    ensures Inv(Apply(s, Evict(t)))
  {
    var s1 := s.(pool := s.pool - {s.tasks[t].addr});
    CopiesStay(s, s1);
    TaskMoves(s1, t, Connecting(true));
  }

  /** How a stream that the lock holder extends, breaks or leaves is still well cut. */
  lemma StreamAfter(tasks: seq<Task>, tasks': seq<Task>, k: Conn, k': Conn, tail: Bytes, tail': Bytes)
    requires Extends(tasks, tasks') && Known(tasks, k.log) && k'.log == k.log
    requires k.stream == Written(Bodies(tasks, k.log)) + tail
    requires k'.stream == Written(Bodies(tasks, k.log)) + tail'
    requires Torn(tasks', tail') && (!k'.broken ==> tail' == Unfinished(tasks', k'))
    ensures Known(tasks', k'.log) && StreamOk(tasks', k')
  {
    BodiesExtend(tasks, tasks', k.log);
    StreamHas(tasks', k', tail');
  }

  /** A free connection that a waiting task takes hold of. */
  lemma TakeHold(tasks: seq<Task>, c: ConnId, k: Conn, t: TaskId, p: Phase)
    requires ConnOk(tasks, c, k) && t < |tasks| && k.holder.None?
    requires !tasks[t].phase.Writing? && tasks[t].phase != Finished(true)
    requires p.Writing? && p.conn == c && p.done == 0
    ensures ConnOk(tasks[t := tasks[t].(phase := p)], c, k.(holder := Some(t)))
  {
    var tasks', k' := tasks[t := tasks[t].(phase := p)], k.(holder := Some(t));
    var tail: Bytes :|
      && k.stream == Written(Bodies(tasks, k.log)) + tail
      && Torn(tasks, tail)
      && (!k.broken ==> tail == Unfinished(tasks, k));
    TornExtends(tasks, tasks', tail);
    StreamAfter(tasks, tasks', k, k', tail, tail);
  }

  lemma LockKeeps(s: State, t: TaskId)
    requires Inv(s) && Enabled(s, Lock(t))
    ensures Inv(Apply(s, Lock(t)))
  {
    var c := s.tasks[t].phase.conn;
    var k := s.conns[c];
    var p := Writing(s.tasks[t].phase.retried, c, 0);
    assert ConnOk(s.tasks, c, k) && TaskOk(s.conns, s.tasks[t]);
    TakeHold(s.tasks, c, k, t, p);
    TaskAndConnMove(s, t, p, c, k.(holder := Some(t)));
  }

  /** A connection that its holder lets go of, broken, is in order whatever the holder does next. */
  lemma LetGo(tasks: seq<Task>, c: ConnId, k: Conn, t: TaskId, p: Phase)
    requires ConnOk(tasks, c, k) && t < |tasks| && Holds(tasks[t], c) && !p.Writing?
    ensures ConnOk(tasks[t := tasks[t].(phase := p)], c, k.(holder := None, broken := true))
  {
    var tasks', k' := tasks[t := tasks[t].(phase := p)], k.(holder := None, broken := true);
    var tail: Bytes :|
      && k.stream == Written(Bodies(tasks, k.log)) + tail
      && Torn(tasks, tail)
      && (!k.broken ==> tail == Unfinished(tasks, k));
    TornExtends(tasks, tasks', tail);
    StreamAfter(tasks, tasks', k, k', tail, tail);
  }

  lemma FailKeeps(s: State, t: TaskId)
    requires Inv(s) && Enabled(s, Fail(t))
    ensures Inv(Apply(s, Fail(t)))
  {
    var c := s.tasks[t].phase.conn;
    var k := s.conns[c];
    var p := if s.tasks[t].phase.retried then Finished(false) else Evicting;
    assert ConnOk(s.tasks, c, k);
    LetGo(s.tasks, c, k, t, p);
    TaskAndConnMove(s, t, p, c, k.(holder := None, broken := true));
  }

  function WithPhase(tasks: seq<Task>, t: TaskId, p: Phase): (tasks': seq<Task>)
    requires t < |tasks|
    ensures |tasks'| == |tasks|
  {
    tasks[t := tasks[t].(phase := p)]
  }

  lemma StreamHas(tasks: seq<Task>, k: Conn, tail: Bytes)
    requires Known(tasks, k.log)
    requires k.stream == Written(Bodies(tasks, k.log)) + tail
    requires Torn(tasks, tail) && (!k.broken ==> tail == Unfinished(tasks, k))
    ensures StreamOk(tasks, k)
  {
  }

  /** The log only names tasks that are done, so it is unaffected by one that is not. */
  lemma LogKept(tasks: seq<Task>, k: Conn, t: TaskId, p: Phase)
    requires LogOk(tasks, k) && t < |tasks| && tasks[t].phase != Finished(true)
    ensures LogOk(WithPhase(tasks, t, p), k)
    ensures Bodies(WithPhase(tasks, t, p), k.log) == Bodies(tasks, k.log)
  {
  }

  /** Part of the frame goes out: the torn end of the stream grows and is still torn. */
  lemma PieceStream(tasks: seq<Task>, k: Conn, t: TaskId, n: nat)
    requires LogOk(tasks, k) && StreamOk(tasks, k) && t < |tasks| && !k.broken
    requires tasks[t].phase.Writing? && k.holder == Some(t)
    requires tasks[t].phase.done + n < |TaskFrame(tasks[t])|
    ensures var p := tasks[t].phase;
      var tasks' := WithPhase(tasks, t, p.(done := p.done + n));
      LogOk(tasks', k) &&
      StreamOk(tasks', k.(stream := k.stream + TaskFrame(tasks[t])[p.done..p.done + n]))
  {
    var p, frame := tasks[t].phase, TaskFrame(tasks[t]);
    var k' := k.(stream := k.stream + frame[p.done..p.done + n]);
    var tasks' := WithPhase(tasks, t, p.(done := p.done + n));
    var tail' := frame[..p.done + n];
    LogKept(tasks, k, t, p.(done := p.done + n));
    assert k.stream == Written(Bodies(tasks, k.log)) + frame[..p.done];
    Regroup(Written(Bodies(tasks, k.log)), frame[..p.done], frame[p.done..p.done + n]);
    assert tail' == frame[..p.done] + frame[p.done..p.done + n];
    assert TaskFrame(tasks'[t]) == frame;
    assert Torn(tasks', tail');
    StreamHas(tasks', k', tail');
  }

  /** The rest of the frame goes out: the stream ends in a whole frame and the log names its task. */
  lemma FrameStream(tasks: seq<Task>, k: Conn, t: TaskId)
    requires LogOk(tasks, k) && StreamOk(tasks, k) && t < |tasks| && !k.broken
    requires tasks[t].phase.Writing? && k.holder == Some(t)
    requires tasks[t].phase.done < |TaskFrame(tasks[t])| && tasks[t].addr == k.addr
    ensures var tasks' := WithPhase(tasks, t, Finished(true));
      var k' := k.(stream := k.stream + TaskFrame(tasks[t])[tasks[t].phase.done..], log := k.log + [t], holder := None);
      LogOk(tasks', k') && StreamOk(tasks', k')
  {
    var p, frame := tasks[t].phase, TaskFrame(tasks[t]);
    var tasks' := WithPhase(tasks, t, Finished(true));
    var k' := k.(stream := k.stream + frame[p.done..], log := k.log + [t], holder := None);
    LogKept(tasks, k, t, Finished(true));
    var whole := Written(Bodies(tasks, k.log));
    assert k.stream == whole + frame[..p.done];
    Regroup(whole, frame[..p.done], frame[p.done..]);
    assert frame == frame[..p.done] + frame[p.done..];
    WrittenAppend(Bodies(tasks, k.log), tasks[t].body);
    assert Bodies(tasks', k'.log) == Bodies(tasks, k.log) + [tasks[t].body];
    assert k'.stream == Written(Bodies(tasks', k'.log)) + [];
    StreamHas(tasks', k', []);
  }

  /** What the invariant says about a task that is writing and the connection it holds. */
  lemma WriterFacts(s: State, t: TaskId)
    requires Inv(s) && t < |s.tasks| && s.tasks[t].phase.Writing?
    ensures var p := s.tasks[t].phase;
      && p.conn < |s.conns|
      && ConnOk(s.tasks, p.conn, s.conns[p.conn])
      && s.conns[p.conn].holder == Some(t)
      && s.conns[p.conn].addr == s.tasks[t].addr
      && p.done < |TaskFrame(s.tasks[t])|
  {
    assert TaskOk(s.conns, s.tasks[t]);
    assert Holds(s.tasks[t], s.tasks[t].phase.conn);
  }

  /** The lock follows its holder: kept while it writes, free once it does anything else. */
  lemma LockFollows(tasks: seq<Task>, c: ConnId, k: Conn, k': Conn, t: TaskId, p: Phase)
    requires LockOk(tasks, c, k) && k.holder == Some(t)
    requires k'.holder == if p.Writing? then Some(t) else None
    requires p.Writing? ==> p.conn == c
    ensures LockOk(WithPhase(tasks, t, p), c, k')
  {
    assert forall u: TaskId :: u < |tasks| && u != t ==> !Holds(tasks[u], c);
  }

  lemma WriteSomeKeeps(s: State, t: TaskId, n: nat)
    requires Inv(s) && Enabled(s, Write(t, n))
    requires s.tasks[t].phase.done + n < |TaskFrame(s.tasks[t])|
    ensures Inv(Apply(s, Write(t, n)))
  {
    var p := s.tasks[t].phase;
    var p' := p.(done := p.done + n);
    var k := s.conns[p.conn];
    var k' := k.(stream := k.stream + TaskFrame(s.tasks[t])[p.done..p.done + n]);
    WriterFacts(s, t);
    PieceConn(s.tasks, p.conn, k, t, n);
    TaskAndConnMove(s, t, p', p.conn, k');
    assert Apply(s, Write(t, n)) == SetPhase(SetConn(s, p.conn, k'), t, p');
  }

  /** The connection of a writer that has written more, but not all. */
  lemma PieceConn(tasks: seq<Task>, c: ConnId, k: Conn, t: TaskId, n: nat)
    requires ConnOk(tasks, c, k) && t < |tasks| && !k.broken
    requires tasks[t].phase.Writing? && tasks[t].phase.conn == c && k.holder == Some(t)
    requires tasks[t].phase.done + n < |TaskFrame(tasks[t])|
    ensures var p := tasks[t].phase;
      ConnOk(WithPhase(tasks, t, p.(done := p.done + n)), c,
             k.(stream := k.stream + TaskFrame(tasks[t])[p.done..p.done + n]))
  {
    var p := tasks[t].phase;
    PieceStream(tasks, k, t, n);
    LockFollows(tasks, c, k, k.(stream := k.stream + TaskFrame(tasks[t])[p.done..p.done + n]), t,
                p.(done := p.done + n));
  }

  /** The connection of a writer that has written the last of its frame. */
  lemma FrameConn(tasks: seq<Task>, c: ConnId, k: Conn, t: TaskId)
    requires ConnOk(tasks, c, k) && t < |tasks| && !k.broken
    requires tasks[t].phase.Writing? && tasks[t].phase.conn == c && k.holder == Some(t)
    requires tasks[t].phase.done < |TaskFrame(tasks[t])| && tasks[t].addr == k.addr
    ensures ConnOk(WithPhase(tasks, t, Finished(true)), c,
                   k.(stream := k.stream + TaskFrame(tasks[t])[tasks[t].phase.done..],
                      log := k.log + [t], holder := None))
  {
    FrameStream(tasks, k, t);
    LockFollows(tasks, c, k,
                k.(stream := k.stream + TaskFrame(tasks[t])[tasks[t].phase.done..], log := k.log + [t], holder := None),
                t, Finished(true));
  }

  lemma WriteLastKeeps(s: State, t: TaskId, n: nat)
    requires Inv(s) && Enabled(s, Write(t, n))
    requires s.tasks[t].phase.done + n == |TaskFrame(s.tasks[t])|
    ensures Inv(Apply(s, Write(t, n)))
  {
    var p, frame := s.tasks[t].phase, TaskFrame(s.tasks[t]);
    var k := s.conns[p.conn];
    var k' := k.(stream := k.stream + frame[p.done..], log := k.log + [t], holder := None);
    WriterFacts(s, t);
    FrameConn(s.tasks, p.conn, k, t);
    TaskAndConnMove(s, t, Finished(true), p.conn, k');
    assert frame[p.done..] == frame[p.done..p.done + n];
    assert Apply(s, Write(t, n)) == SetPhase(SetConn(s, p.conn, k'), t, Finished(true));
  }

  lemma EventKeepsInv(s: State, e: Event)
    requires Inv(s) && Enabled(s, e)
    ensures Inv(Apply(s, e))
  {
    match e
    case Spawn(addr, body) => SpawnKeeps(s, addr, body);
    case Break(c) => BreakKeeps(s, c);
    case Connect(t) => ConnectKeeps(s, t);
    case Dial(t, ok) => DialEventKeeps(s, t, ok);
    case Lock(t) => LockKeeps(s, t);
    case Fail(t) => FailKeeps(s, t);
    case Evict(t) => EvictKeeps(s, t);
    case Write(t, n) =>
      if s.tasks[t].phase.done + n < |TaskFrame(s.tasks[t])| {
        WriteSomeKeeps(s, t, n);
      } else {
        WriteLastKeeps(s, t, n);
      }
  }

  /** The invariant holds after every run, however the tasks interleave and wherever connections break. */
  lemma {:induction false} RunsKeepInv(es: seq<Event>)
    ensures Inv(After(es))
  {
    if es != [] {
      RunsKeepInv(es[..|es| - 1]);
      var s := After(es[..|es| - 1]);
      if Enabled(s, es[|es| - 1]) {
        EventKeepsInv(s, es[|es| - 1]);
      }
    }
  }

  // ----- what it means -----

  /**
   What the next hop's connection loop reads off a connection: exactly the bodies of the
   forwards that succeeded on it, all meant for that address, in the order they finished, and
   then no further frame.
   */
  lemma NextHopReadsTheLog(es: seq<Event>, c: ConnId)
    requires c < |After(es).conns|
    requires forall t: TaskId :: t < |After(es).tasks| ==> |After(es).tasks[t].body| < U32_LIMIT
    ensures var s := After(es);
      var k := s.conns[c];
      && Known(s.tasks, k.log)
      && Split(k.stream).frames == Bodies(s.tasks, k.log)
      && Torn(s.tasks, Split(k.stream).rest)
      && (forall i :: 0 <= i < |k.log| ==>
            s.tasks[k.log[i]].phase == Finished(true) && s.tasks[k.log[i]].addr == k.addr)
  {
    RunsKeepInv(es);
    var s := After(es);
    var k := s.conns[c];
    assert ConnOk(s.tasks, c, k);
    var tail: Bytes :| k.stream == Written(Bodies(s.tasks, k.log)) + tail && Torn(s.tasks, tail);
    if tail != [] {
      var t: TaskId :|
        t < |s.tasks| && |tail| < |TaskFrame(s.tasks[t])| && tail == TaskFrame(s.tasks[t])[..|tail|];
      PartialFrameIsNoFrame(s.tasks[t].body, |tail|);
    }
    SplitWritten(Bodies(s.tasks, k.log), tail);
  }

  // ----- the pool lock, and why nobody waits for ever -----

  /** The pool lock is held by the one task that is dialling, if any, for an address not in the pool. */
  ghost predicate PoolLockOk(s: State) {
    && (s.poolHolder.Some? ==> s.poolHolder.value < |s.tasks| && s.tasks[s.poolHolder.value].addr !in s.pool)
    && (forall t: TaskId :: t < |s.tasks| ==> (s.tasks[t].phase.Dialling? <==> s.poolHolder == Some(t)))
  }

  lemma EventKeepsPoolLock(s: State, e: Event)
    requires PoolLockOk(s) && Enabled(s, e)
    ensures PoolLockOk(Apply(s, e))
  {
    var s' := Apply(s, e);
    forall u: TaskId | u < |s.tasks|
      ensures s'.tasks[u].phase.Dialling? <==> s'.poolHolder == Some(u)
    {
      assert s.tasks[u].phase.Dialling? <==> s.poolHolder == Some(u);
    }
  }

  lemma {:induction false} RunsKeepPoolLock(es: seq<Event>)
    ensures PoolLockOk(After(es))
  {
    if es != [] {
      RunsKeepPoolLock(es[..|es| - 1]);
      var s := After(es[..|es| - 1]);
      if Enabled(s, es[|es| - 1]) {
        EventKeepsPoolLock(s, es[|es| - 1]);
      }
    }
  }

  /** A step by which a task gets on: it gives up a connection only if that is broken, and a dial succeeds. */
  predicate GetsOn(s: State, e: Event) {
    && TaskEvent(e) && Enabled(s, e)
    && (e.Fail? ==> s.conns[s.tasks[e.t].phase.conn].broken)
    && (e.Dial? ==> e.ok)
  }

  lemma WriterGetsOn(s: State, t: TaskId)
    requires Inv(s) && t < |s.tasks| && s.tasks[t].phase.Writing?
    ensures GetsOn(s, Fail(t)) || GetsOn(s, Write(t, 1))
  {
    WriterFacts(s, t);
  }

  /**
   No deadlock between the pool lock, the connection locks and the retry: while a task is
   unfinished, some task can get on.
   */
  lemma SomeTaskCanStep(es: seq<Event>, t: TaskId)
    requires t < |After(es).tasks| && !After(es).tasks[t].phase.Finished?
    ensures exists e :: GetsOn(After(es), e)
  {
    RunsKeepInv(es);
    RunsKeepPoolLock(es);
    var s := After(es);
    assert TaskOk(s.conns, s.tasks[t]);
    if s.tasks[t].phase.Writing? {
      WriterGetsOn(s, t);
    } else if s.tasks[t].phase.Waiting? {
      var c := s.tasks[t].phase.conn;
      assert ConnOk(s.tasks, c, s.conns[c]);
      if s.conns[c].holder.None? {
        assert GetsOn(s, Lock(t));
      } else {
        assert Holds(s.tasks[s.conns[c].holder.value], c);
        WriterGetsOn(s, s.conns[c].holder.value);
      }
    } else if s.poolHolder.Some? {
      assert GetsOn(s, Dial(s.poolHolder.value, true));
    } else if s.tasks[t].phase.Evicting? {
      assert GetsOn(s, Evict(t));
    } else {
      assert GetsOn(s, Connect(t));
    }
  }

  predicate TaskEvent(e: Event) {
    !e.Spawn? && !e.Break?
  }

  /** How many more steps a task can take at most. */
  function Remaining(t: Task): nat {
    var len := |TaskFrame(t)|;
    match t.phase
    case Finished(_) => 0
    case Writing(true, _, done) => 1 + (if done <= len then len - done else 0)
    case Waiting(true, _) => 2 + len
    case Dialling(true) => 3 + len
    case Connecting(true) => 4 + len
    case Evicting => 5 + len
    case Writing(false, _, done) => 6 + len + (if done <= len then len - done else 0)
    case Waiting(false, _) => 7 + 2 * len
    case Dialling(false) => 8 + 2 * len
    case Connecting(false) => 9 + 2 * len
  }

  function Work(tasks: seq<Task>): nat {
    if tasks == [] then 0 else Work(tasks[..|tasks| - 1]) + Remaining(tasks[|tasks| - 1])
  }

  lemma {:induction false} WorkUpdate(tasks: seq<Task>, t: TaskId, task: Task)
    requires t < |tasks|
    ensures Work(tasks[t := task]) == Work(tasks) - Remaining(tasks[t]) + Remaining(task)
  {
    var front := tasks[..|tasks| - 1];
    if t == |tasks| - 1 {
      assert tasks[t := task][..|tasks| - 1] == front;
    } else {
      WorkUpdate(front, t, task);
      assert tasks[t := task][..|tasks| - 1] == front[t := task];
    }
  }

  lemma StepUsesBudget(s: State, e: Event)
    requires Enabled(s, e) && TaskEvent(e) && TaskOk(s.conns, s.tasks[e.t])
    ensures |Apply(s, e).tasks| == |s.tasks|
    ensures Apply(s, e).tasks == s.tasks[e.t := Apply(s, e).tasks[e.t]]
    ensures Remaining(Apply(s, e).tasks[e.t]) < Remaining(s.tasks[e.t])
  {
    var len := |TaskFrame(s.tasks[e.t])|;
    match e
    case Connect(t) =>
    case Dial(t, ok) =>
    case Lock(t) =>
    case Write(t, n) =>
    case Fail(t) =>
    case Evict(t) =>
  }

  /** Retrying is bounded: every step of a task uses up some of a finite budget, whatever the others do. */
  lemma TaskEventsTerminate(es: seq<Event>, e: Event)
    requires Enabled(After(es), e)
    ensures TaskEvent(e) ==> Work(Apply(After(es), e).tasks) < Work(After(es).tasks)
    ensures e.Break? ==> Work(Apply(After(es), e).tasks) == Work(After(es).tasks)
  {
    RunsKeepInv(es);
    var s := After(es);
    if TaskEvent(e) {
      StepUsesBudget(s, e);
      WorkUpdate(s.tasks, e.t, Apply(s, e).tasks[e.t]);
    }
  }

  ghost predicate AllFinished(tasks: seq<Task>) {
    forall t: TaskId :: t < |tasks| ==> tasks[t].phase.Finished?
  }

  /** From every reachable state the tasks can all run to their end by steps of that kind. */
  lemma {:induction false} CanFinish(es: seq<Event>) returns (more: seq<Event>)
    ensures AllFinished(After(es + more).tasks)
    ensures forall e :: e in more ==> TaskEvent(e) && (e.Dial? ==> e.ok)
    decreases Work(After(es).tasks)
  {
    var s := After(es);
    if AllFinished(s.tasks) {
      more := [];
      assert es + more == es;
    } else {
      var t: TaskId :| t < |s.tasks| && !s.tasks[t].phase.Finished?;
      SomeTaskCanStep(es, t);
      var e :| GetsOn(s, e);
      TaskEventsTerminate(es, e);
      assert (es + [e])[..|es|] == es;
      more := CanFinish(es + [e]);
      Regroup(es, [e], more);
      more := [e] + more;
    }
  }

  // ----- every run of the tasks comes to its end -----

  /** From the state after `es`, each of these events is a task's and can happen in its turn. */
  ghost predicate TaskRun(es: seq<Event>, more: seq<Event>) {
    more == [] ||
      var n := |more| - 1;
      TaskRun(es, more[..n]) && TaskEvent(more[n]) && Enabled(After(es + more[..n]), more[n])
  }

  /** However the tasks are scheduled, together they take at most as many steps as their budget allows. */
  lemma {:induction false} TaskRunsAreBounded(es: seq<Event>, more: seq<Event>)
    requires TaskRun(es, more)
    ensures |more| + Work(After(es + more).tasks) <= Work(After(es).tasks)
  {
    if more == [] {
      assert es + more == es;
    } else {
      var front, e := more[..|more| - 1], more[|more| - 1];
      TaskRunsAreBounded(es, front);
      TaskEventsTerminate(es + front, e);
      Snoc(more);
      Regroup(es, front, [e]);
      assert ((es + front) + [e])[..|es + front|] == es + front;
    }
  }

  /** No task can get on exactly when all calls have returned. */
  lemma OnlyFinishedIsFinal(es: seq<Event>)
    ensures (forall e :: !GetsOn(After(es), e)) <==> AllFinished(After(es).tasks)
  {
    var s := After(es);
    if t: TaskId :| t < |s.tasks| && !s.tasks[t].phase.Finished? {
      SomeTaskCanStep(es, t);
    }
    forall e | AllFinished(s.tasks) ensures !GetsOn(s, e) {
      if TaskEvent(e) && e.t < |s.tasks| {
        assert s.tasks[e.t].phase.Finished?;
      }
    }
  }
}
