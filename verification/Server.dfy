/**
 The whole server as a state machine: connections with their steps, the server's table of connections
 (TcpServer.cc), and the task queues of the base loop and the io loops. An action is one task run by a
 loop, one event on a channel, or one call from the application; every interleaving is a run.
 */
module Server {
  import opened CppArithmetic
  import opened NetworkOrder
  import opened ConnectionSteps
  import opened ConnectionNames

  type LoopId = nat

  /** Where the server listens, how it names its connections, the base loop, and the callbacks that are set. */
  datatype Config = Config(address: Address, naming: nat -> string, base: LoopId, cb: Callbacks)

  /** The server listens on a real address and gives the names of the code. */
  ghost predicate Listens(cfg: Config) {
    && ValidAddress(cfg.address)
    && forall id: nat {:trigger cfg.naming(id)} :: cfg.naming(id) == Name(ToIpPort(cfg.address), id)
  }

  /** All that the proofs need of the names: an int cannot number two connections alike. */
  ghost predicate ProperNames(cfg: Config) {
    forall i, j :: 0 <= i < j <= INT_MAX ==> cfg.naming(i) != cfg.naming(j)
  }

  lemma NamesAreProper(cfg: Config)
    requires Listens(cfg)
    ensures ProperNames(cfg)
  {
    forall i, j | 0 <= i < j <= INT_MAX
      ensures cfg.naming(i) != cfg.naming(j)
    {
      ServerNamesDiffer(cfg.address, i, j);
    }
  }

  /** A connection that was accepted, the loop it lives in, its name, and how often it was closed and was
      erased from the table. */
  datatype Entry = Entry(conn: Conn, loop: LoopId, name: string, closes: nat, erases: nat)

  datatype Sys = Sys(
    entries: map<ConnId, Entry>,
    table: map<string, ConnId>,
    nextId: nat,
    queues: map<LoopId, seq<(ConnId, Task)>>)

  const INITIAL := Sys(map[], map[], 1, map[])

  function Queue(s: Sys, l: LoopId): seq<(ConnId, Task)> {
    if l in s.queues then s.queues[l] else []
  }

  // ---------------------------------------------------------------- elementary changes

  function Enqueue(s: Sys, l: LoopId, id: ConnId, t: Task): Sys {
    s.(queues := s.queues[l := Queue(s, l) + [(id, t)]])
  }

  function Pop(s: Sys, l: LoopId): Sys
    requires Queue(s, l) != []
  {
    s.(queues := s.queues[l := Queue(s, l)[1..]])
  }

  function SetEntry(s: Sys, id: ConnId, e: Entry): Sys {
    s.(entries := s.entries[id := e])
  }

  function SetConn(s: Sys, id: ConnId, c: Conn): Sys
    requires id in s.entries
  {
    SetEntry(s, id, s.entries[id].(conn := c))
  }

  /** The outcome of a connection's step; what it queues goes to the connection's own loop. */
  function Apply(s: Sys, id: ConnId, e: Effect): Sys
    requires id in s.entries
  {
    var s' := SetConn(s, id, e.conn);
    match e.queued
    case None => s'
    case Some(t) => Enqueue(s', s.entries[id].loop, id, t)
  }

  /** `removeConnectionInLoop`: erase by name, queue the destruction. */
  function RemoveInLoop(s: Sys, id: ConnId): Sys
    requires id in s.entries
  {
    var e := s.entries[id];
    var erased := if e.name in s.table then 1 else 0;
    var s' := SetEntry(s, id, e.(erases := e.erases + erased)).(table := s.table - {e.name});
    Enqueue(s', e.loop, id, DestroyTask)
  }

  function Closed(e: Entry): Entry {
    e.(conn := HandleClose(e.conn), closes := e.closes + 1)
  }

  /** `handleClose` with its close callback, `removeConnection`: at once when the connection lives in
      the base loop, queued on the base loop otherwise. */
  function Close(cfg: Config, s: Sys, id: ConnId): Sys
    requires id in s.entries
  {
    var e := s.entries[id];
    var s' := SetEntry(s, id, Closed(e));
    if e.loop == cfg.base then RemoveInLoop(s', id) else Enqueue(s', cfg.base, id, RemoveTask)
  }

  function NewConnection(cfg: Config, s: Sys, loop: LoopId, reading: bool): Sys {
    var id := s.nextId;
    var name := cfg.naming(id);
    var conn := NewConn(reading);
    var established := loop == cfg.base;
    var s' := Sys(s.entries[id := Entry(if established then Establish(conn) else conn, loop, name, 0, 0)],
                  s.table[name := id], id + 1, s.queues);
    if established then s' else Enqueue(s', loop, id, EstablishTask)
  }

  // ---------------------------------------------------------------- actions

  datatype Action =
    | Accept(loop: LoopId, reading: bool)                 // TcpServer::newConnection
    | RunTask(l: LoopId, n: nat)                          // a loop runs what has waited longest
    | Readable(id: ConnId, r: int)                        // readFd returns r
    | Writable(id: ConnId, n: nat)                        // the write in handleWrite returns n
    | CallSend(id: ConnId, message: seq<byte>, inLoop: bool, n: nat)
    | CallShutDown(id: ConnId, inLoop: bool)
    | CallForceClose(id: ConnId)
    | CallForceCloseWithDelay(id: ConnId)
    | CallStartRead(id: ConnId, inLoop: bool)
    | CallStopRead(id: ConnId, inLoop: bool)

  /** A write takes at most what it is given. The counter of connections is an int. An end of file meets
      the assert of `handleClose`, and a destruction those of removing the channel, or the program stops
      there; what else is asserted is proved. */
  predicate Enabled(cfg: Config, s: Sys, a: Action) {
    match a
    case Accept(_, _) => s.nextId < INT_MAX
    case RunTask(l, n) =>
      && Queue(s, l) != []
      && var (id, t) := Queue(s, l)[0];
      && id in s.entries && (t.SendTask? ==> n <= |t.message|)
      && (t == DestroyTask ==> CanRemove(Disconnect(s.entries[id].conn)))
    case Readable(id, r) =>
      id in s.entries && -1 <= r < TWO_TO_THE_64 && (ReadBranch(r) == PeerClosed ==> Alive(s.entries[id].conn))
    case Writable(id, n) => id in s.entries && n <= |s.entries[id].conn.output|
    case CallSend(id, message, _, n) => id in s.entries && n <= |message|
    case CallShutDown(id, _) => id in s.entries
    case CallForceClose(id) => id in s.entries
    case CallForceCloseWithDelay(id) => id in s.entries
    case CallStartRead(id, _) => id in s.entries
    case CallStopRead(id, _) => id in s.entries
  }

  /** What a queued task does when it runs; user callbacks do nothing to the connection here, as what
      they call is an action of its own. */
  function Perform(cfg: Config, s: Sys, id: ConnId, t: Task, n: nat): Sys
    requires id in s.entries && (t.SendTask? ==> n <= |t.message|)
  {
    var e := s.entries[id];
    match t
    case EstablishTask => SetConn(s, id, Establish(e.conn))
    case SendTask(message) => Apply(s, id, SendInLoop(e.conn, cfg.cb, message, n))
    case ShutdownTask => SetConn(s, id, ShutdownInLoop(e.conn))
    case ForceCloseTask => if Alive(e.conn) then Close(cfg, s, id) else s
    case StartReadTask => SetConn(s, id, StartReadInLoop(e.conn))
    case StopReadTask => SetConn(s, id, StopReadInLoop(e.conn))
    case WriteCompleteTask => s
    case HighWaterTask(_) => s
    case RemoveTask => RemoveInLoop(s, id)
    case DestroyTask => SetConn(s, id, Destroy(e.conn))
  }

  function Step(cfg: Config, s: Sys, a: Action): Sys
    requires Enabled(cfg, s, a)
  {
    match a
    case Accept(loop, reading) => NewConnection(cfg, s, loop, reading)
    case RunTask(l, n) =>
      var (id, t) := Queue(s, l)[0];
      Perform(cfg, Pop(s, l), id, t, n)
    case Readable(id, r) => if ReadBranch(r) == PeerClosed then Close(cfg, s, id) else s
    case Writable(id, n) => Apply(s, id, HandleWrite(s.entries[id].conn, cfg.cb, n))
    case CallSend(id, message, inLoop, n) => Apply(s, id, Send(s.entries[id].conn, cfg.cb, message, inLoop, n))
    case CallShutDown(id, inLoop) => Apply(s, id, ShutDown(s.entries[id].conn, inLoop))
    case CallForceClose(id) => Apply(s, id, ForceClose(s.entries[id].conn))
    case CallForceCloseWithDelay(id) => SetConn(s, id, ForceCloseWithDelay(s.entries[id].conn))
    case CallStartRead(id, inLoop) =>
      if inLoop then SetConn(s, id, StartReadInLoop(s.entries[id].conn))
      else Enqueue(s, s.entries[id].loop, id, StartReadTask)
    case CallStopRead(id, inLoop) =>
      if inLoop then SetConn(s, id, StopReadInLoop(s.entries[id].conn))
      else Enqueue(s, s.entries[id].loop, id, StopReadTask)
  }

  predicate IsRun(cfg: Config, s: Sys, actions: seq<Action>)
    decreases |actions|
  {
    actions == [] || (Enabled(cfg, s, actions[0]) && IsRun(cfg, Step(cfg, s, actions[0]), actions[1..]))
  }

  function Run(cfg: Config, s: Sys, actions: seq<Action>): Sys
    requires IsRun(cfg, s, actions)
    decreases |actions|
  {
    if actions == [] then s else Run(cfg, Step(cfg, s, actions[0]), actions[1..])
  }

  // ---------------------------------------------------------------- the invariant

  /** How often a task of a connection waits on a loop. */
  ghost function Count(s: Sys, l: LoopId, id: ConnId, t: Task): nat {
    multiset(Queue(s, l))[(id, t)]
  }

  predicate InTable(s: Sys, id: ConnId) {
    id in s.entries && s.entries[id].name in s.table && s.table[s.entries[id].name] == id
  }

  /** The books of one connection: what has happened to it against what still waits for it. */
  ghost predicate Balanced(cfg: Config, s: Sys, id: ConnId)
    requires id in s.entries
  {
    var e := s.entries[id];
    && Count(s, e.loop, id, EstablishTask) == (if e.conn.stat == Connecting then 1 else 0)
    && e.closes == (if e.conn.stat == Disconnected then 1 else 0)
    && e.closes == e.erases + Count(s, cfg.base, id, RemoveTask)
    && e.erases == Count(s, e.loop, id, DestroyTask)
    && (InTable(s, id) <==> e.erases == 0)
  }

  ghost predicate EntryInv(cfg: Config, s: Sys, id: ConnId)
    requires id in s.entries
  {
    var e := s.entries[id];
    && id < s.nextId && id < INT_MAX && e.name == cfg.naming(id)
    && Balanced(cfg, s, id)
    && SendInv(e.conn) && PollInv(e.conn) && HighInv(e.conn, cfg.cb)
  }

  /** Tasks wait where `assertInLoopThread` wants them run. */
  predicate RightLoop(cfg: Config, s: Sys, l: LoopId, id: ConnId, t: Task) {
    id in s.entries && l == if t == RemoveTask then cfg.base else s.entries[id].loop
  }

  ghost predicate QueuesInv(cfg: Config, s: Sys) {
    forall l, i :: 0 <= i < |Queue(s, l)| ==> RightLoop(cfg, s, l, Queue(s, l)[i].0, Queue(s, l)[i].1)
  }

  ghost predicate Inv(cfg: Config, s: Sys) {
    && ProperNames(cfg)
    && (forall id :: id in s.entries ==> EntryInv(cfg, s, id))
    && QueuesInv(cfg, s)
  }

  // ---------------------------------------------------------------- how the changes affect the books

  lemma EnqueueCounts(s: Sys, l: LoopId, id: ConnId, t: Task, l': LoopId, id': ConnId, t': Task)
    ensures Count(Enqueue(s, l, id, t), l', id', t')
            == Count(s, l', id', t') + if (l, id, t) == (l', id', t') then 1 else 0
  {
  }

  lemma PopCounts(s: Sys, l: LoopId, l': LoopId, id': ConnId, t': Task)
    requires Queue(s, l) != []
    ensures Count(s, l', id', t')
            == Count(Pop(s, l), l', id', t') + if l == l' && Queue(s, l)[0] == (id', t') then 1 else 0
  {
    var q := Queue(s, l);
    assert q == [q[0]] + q[1..];
  }

  /** Nothing in the books of `id` differs between two states. */
  ghost predicate SameBooks(cfg: Config, s: Sys, s': Sys, id: ConnId) {
    && id in s.entries && id in s'.entries && s.entries[id] == s'.entries[id]
    && s.nextId <= s'.nextId
    && (InTable(s, id) <==> InTable(s', id))
    && var l := s.entries[id].loop;
    && Count(s, l, id, EstablishTask) == Count(s', l, id, EstablishTask)
    && Count(s, cfg.base, id, RemoveTask) == Count(s', cfg.base, id, RemoveTask)
    && Count(s, l, id, DestroyTask) == Count(s', l, id, DestroyTask)
  }

  lemma BooksCarry(cfg: Config, s: Sys, s': Sys, id: ConnId)
    requires id in s.entries && EntryInv(cfg, s, id) && SameBooks(cfg, s, s', id)
    ensures EntryInv(cfg, s', id)
  {
  }

  ghost predicate OthersInv(cfg: Config, s: Sys, id: ConnId) {
    forall id' :: id' in s.entries && id' != id ==> EntryInv(cfg, s, id')
  }

  lemma Together(cfg: Config, s: Sys, id: ConnId)
    requires ProperNames(cfg)
    requires id in s.entries && EntryInv(cfg, s, id) && OthersInv(cfg, s, id) && QueuesInv(cfg, s)
    ensures Inv(cfg, s)
  {
  }

  lemma OthersCarry(cfg: Config, s: Sys, s': Sys, id: ConnId)
    requires OthersInv(cfg, s, id)
    requires forall id' :: id' in s'.entries && id' != id ==> SameBooks(cfg, s, s', id')
    ensures OthersInv(cfg, s', id)
  {
    forall id' | id' in s'.entries && id' != id
      ensures EntryInv(cfg, s', id')
    {
      BooksCarry(cfg, s, s', id');
    }
  }

  /** A change to the entry of `id` that keeps its name leaves the books of the others as they are. */
  lemma SetEntryOthers(cfg: Config, s: Sys, id: ConnId, e: Entry)
    requires OthersInv(cfg, s, id)
    ensures OthersInv(cfg, SetEntry(s, id, e), id)
  {
    OthersCarry(cfg, s, SetEntry(s, id, e), id);
  }

  lemma EnqueueOthers(cfg: Config, s: Sys, l: LoopId, id: ConnId, t: Task)
    requires OthersInv(cfg, s, id)
    ensures OthersInv(cfg, Enqueue(s, l, id, t), id)
  {
    forall id' | id' in s.entries && id' != id
      ensures SameBooks(cfg, s, Enqueue(s, l, id, t), id')
    {
      EnqueueBooks(cfg, s, l, id, t, id');
    }
    OthersCarry(cfg, s, Enqueue(s, l, id, t), id);
  }

  lemma PopOthers(cfg: Config, s: Sys, l: LoopId, id: ConnId)
    requires OthersInv(cfg, s, id) && Queue(s, l) != [] && Queue(s, l)[0].0 == id
    ensures OthersInv(cfg, Pop(s, l), id)
  {
    forall id' | id' in s.entries && id' != id
      ensures SameBooks(cfg, s, Pop(s, l), id')
    {
      PopBooks(cfg, s, l, id');
    }
    OthersCarry(cfg, s, Pop(s, l), id);
  }

  predicate Ordinary(t: Task) {
    !t.EstablishTask? && !t.RemoveTask? && !t.DestroyTask?
  }

  lemma EnqueueBooks(cfg: Config, s: Sys, l: LoopId, id: ConnId, t: Task, id': ConnId)
    requires id' in s.entries && (id' != id || Ordinary(t))
    ensures SameBooks(cfg, s, Enqueue(s, l, id, t), id')
  {
    var l' := s.entries[id'].loop;
    EnqueueCounts(s, l, id, t, l', id', EstablishTask);
    EnqueueCounts(s, l, id, t, cfg.base, id', RemoveTask);
    EnqueueCounts(s, l, id, t, l', id', DestroyTask);
  }

  lemma PopBooks(cfg: Config, s: Sys, l: LoopId, id': ConnId)
    requires id' in s.entries && Queue(s, l) != []
    requires Queue(s, l)[0].0 != id' || Ordinary(Queue(s, l)[0].1)
    ensures SameBooks(cfg, s, Pop(s, l), id')
  {
    var l' := s.entries[id'].loop;
    PopCounts(s, l, l', id', EstablishTask);
    PopCounts(s, l, cfg.base, id', RemoveTask);
    PopCounts(s, l, l', id', DestroyTask);
  }

  lemma EnqueueQueues(cfg: Config, s: Sys, l: LoopId, id: ConnId, t: Task)
    requires QueuesInv(cfg, s) && RightLoop(cfg, s, l, id, t)
    ensures QueuesInv(cfg, Enqueue(s, l, id, t))
  {
    var s' := Enqueue(s, l, id, t);
    forall l', i | 0 <= i < |Queue(s', l')|
      ensures RightLoop(cfg, s', l', Queue(s', l')[i].0, Queue(s', l')[i].1)
    {
      if i < |Queue(s, l')| {
        assert RightLoop(cfg, s, l', Queue(s, l')[i].0, Queue(s, l')[i].1);
      }
    }
  }

  lemma PopQueues(cfg: Config, s: Sys, l: LoopId)
    requires QueuesInv(cfg, s) && Queue(s, l) != []
    ensures QueuesInv(cfg, Pop(s, l))
  {
    var s' := Pop(s, l);
    forall l', i | 0 <= i < |Queue(s', l')|
      ensures RightLoop(cfg, s', l', Queue(s', l')[i].0, Queue(s', l')[i].1)
    {
      var j := if l == l' then i + 1 else i;
      assert RightLoop(cfg, s, l', Queue(s, l')[j].0, Queue(s, l')[j].1);
    }
  }

  lemma EntryQueues(cfg: Config, s: Sys, s': Sys)
    requires QueuesInv(cfg, s) && s'.queues == s.queues
    requires forall id :: id in s.entries ==> id in s'.entries && s'.entries[id].loop == s.entries[id].loop
    ensures QueuesInv(cfg, s')
  {
    forall l, i | 0 <= i < |Queue(s', l)|
      ensures RightLoop(cfg, s', l, Queue(s', l)[i].0, Queue(s', l)[i].1)
    {
      assert RightLoop(cfg, s, l, Queue(s, l)[i].0, Queue(s, l)[i].1);
    }
  }

  lemma UnknownIsNotQueued(cfg: Config, s: Sys, l: LoopId, id: ConnId, t: Task)
    requires QueuesInv(cfg, s) && id !in s.entries
    ensures Count(s, l, id, t) == 0
  {
    forall i | 0 <= i < |Queue(s, l)|
      ensures Queue(s, l)[i] != (id, t)
    {
      assert RightLoop(cfg, s, l, Queue(s, l)[i].0, Queue(s, l)[i].1);
    }
    assert (id, t) !in Queue(s, l);
  }

  // ---------------------------------------------------------------- every change keeps the invariant

  /** A change of a connection that does not touch the life cycle. */
  ghost predicate Mild(cfg: Config, c: Conn, c': Conn) {
    && (c.stat == Connecting <==> c'.stat == Connecting)
    && (c.stat == Disconnected <==> c'.stat == Disconnected)
    && (SendInv(c) ==> SendInv(c'))
    && (PollInv(c) ==> PollInv(c'))
    && (SendInv(c) && HighInv(c, cfg.cb) ==> HighInv(c', cfg.cb))
  }

  lemma SetConnKeepsInv(cfg: Config, s: Sys, id: ConnId, c: Conn)
    requires Inv(cfg, s) && id in s.entries && Mild(cfg, s.entries[id].conn, c)
    ensures Inv(cfg, SetConn(s, id, c))
  {
    assert EntryInv(cfg, s, id);
    SetConnOthers(cfg, s, id, c);
    SetConnSelf(cfg, s, id, c);
    Together(cfg, SetConn(s, id, c), id);
  }

  lemma SetConnOthers(cfg: Config, s: Sys, id: ConnId, c: Conn)
    requires QueuesInv(cfg, s) && OthersInv(cfg, s, id) && id in s.entries
    ensures QueuesInv(cfg, SetConn(s, id, c)) && OthersInv(cfg, SetConn(s, id, c), id)
  {
    EntryQueues(cfg, s, SetConn(s, id, c));
    SetEntryOthers(cfg, s, id, s.entries[id].(conn := c));
  }

  lemma SetConnSelf(cfg: Config, s: Sys, id: ConnId, c: Conn)
    requires id in s.entries && EntryInv(cfg, s, id) && Mild(cfg, s.entries[id].conn, c)
    ensures EntryInv(cfg, SetConn(s, id, c), id)
  {
    assert InTable(s, id) <==> InTable(SetConn(s, id, c), id);
  }

  lemma EnqueueKeepsInv(cfg: Config, s: Sys, l: LoopId, id: ConnId, t: Task)
    requires Inv(cfg, s) && Ordinary(t) && RightLoop(cfg, s, l, id, t)
    ensures Inv(cfg, Enqueue(s, l, id, t))
  {
    var s' := Enqueue(s, l, id, t);
    EnqueueQueues(cfg, s, l, id, t);
    forall id' | id' in s'.entries
      ensures EntryInv(cfg, s', id')
    {
      assert EntryInv(cfg, s, id');
      EnqueueBooks(cfg, s, l, id, t, id');
    }
  }

  lemma ApplyKeepsInv(cfg: Config, s: Sys, id: ConnId, e: Effect)
    requires Inv(cfg, s) && id in s.entries && Mild(cfg, s.entries[id].conn, e.conn)
    requires e.queued.Some? ==> Ordinary(e.queued.value)
    ensures Inv(cfg, Apply(s, id, e))
  {
    SetConnKeepsInv(cfg, s, id, e.conn);
    if e.queued.Some? {
      EnqueueKeepsInv(cfg, SetConn(s, id, e.conn), s.entries[id].loop, id, e.queued.value);
    }
  }

  lemma PopKeepsInv(cfg: Config, s: Sys, l: LoopId)
    requires Inv(cfg, s) && Queue(s, l) != [] && Ordinary(Queue(s, l)[0].1)
    ensures Inv(cfg, Pop(s, l))
  {
    var s' := Pop(s, l);
    PopQueues(cfg, s, l);
    forall id' | id' in s'.entries
      ensures EntryInv(cfg, s', id')
    {
      assert EntryInv(cfg, s, id');
      PopBooks(cfg, s, l, id');
    }
  }

  /** The state in between: `id` has been closed, and its removal is neither done nor queued. */
  ghost predicate Owing(cfg: Config, s: Sys, id: ConnId) {
    ProperNames(cfg) && id in s.entries && QueuesInv(cfg, s) && OthersInv(cfg, s, id) && Owes(cfg, s, id)
  }

  ghost predicate Owes(cfg: Config, s: Sys, id: ConnId)
    requires id in s.entries
  {
    var e := s.entries[id];
    && id < s.nextId && id < INT_MAX && e.name == cfg.naming(id)
    && e.conn.stat == Disconnected && SendInv(e.conn) && PollInv(e.conn) && HighInv(e.conn, cfg.cb)
    && e.closes == 1 && e.erases == 0 && InTable(s, id)
    && Count(s, e.loop, id, EstablishTask) == 0
    && Count(s, cfg.base, id, RemoveTask) == 0 && Count(s, e.loop, id, DestroyTask) == 0
  }

  /** The counts of one connection after a task of its own is queued, or run. */
  lemma EnqueueSelf(cfg: Config, s: Sys, l: LoopId, id: ConnId, t: Task, loop: LoopId)
    ensures var s' := Enqueue(s, l, id, t);
            && Count(s', loop, id, EstablishTask)
               == Count(s, loop, id, EstablishTask) + (if l == loop && t == EstablishTask then 1 else 0)
            && Count(s', cfg.base, id, RemoveTask)
               == Count(s, cfg.base, id, RemoveTask) + (if l == cfg.base && t == RemoveTask then 1 else 0)
            && Count(s', loop, id, DestroyTask)
               == Count(s, loop, id, DestroyTask) + (if l == loop && t == DestroyTask then 1 else 0)
  {
    EnqueueCounts(s, l, id, t, loop, id, EstablishTask);
    EnqueueCounts(s, l, id, t, cfg.base, id, RemoveTask);
    EnqueueCounts(s, l, id, t, loop, id, DestroyTask);
  }

  lemma PopSelf(cfg: Config, s: Sys, l: LoopId, id: ConnId, loop: LoopId)
    requires Queue(s, l) != [] && Queue(s, l)[0].0 == id
    ensures var s', t := Pop(s, l), Queue(s, l)[0].1;
            && Count(s, loop, id, EstablishTask)
               == Count(s', loop, id, EstablishTask) + (if l == loop && t == EstablishTask then 1 else 0)
            && Count(s, cfg.base, id, RemoveTask)
               == Count(s', cfg.base, id, RemoveTask) + (if l == cfg.base && t == RemoveTask then 1 else 0)
            && Count(s, loop, id, DestroyTask)
               == Count(s', loop, id, DestroyTask) + (if l == loop && t == DestroyTask then 1 else 0)
  {
    PopCounts(s, l, loop, id, EstablishTask);
    PopCounts(s, l, cfg.base, id, RemoveTask);
    PopCounts(s, l, loop, id, DestroyTask);
  }

  /** Erasing one name leaves the others in the table, since names differ. */
  lemma EraseOthers(cfg: Config, s: Sys, id: ConnId, e: Entry)
    requires ProperNames(cfg) && OthersInv(cfg, s, id)
    requires id in s.entries && id < INT_MAX && s.entries[id].name == cfg.naming(id)
    ensures OthersInv(cfg, SetEntry(s, id, e).(table := s.table - {s.entries[id].name}), id)
  {
    var s' := SetEntry(s, id, e).(table := s.table - {s.entries[id].name});
    forall id' | id' in s'.entries && id' != id
      ensures SameBooks(cfg, s, s', id')
    {
      assert EntryInv(cfg, s, id');
      assert cfg.naming(id) != cfg.naming(id');
    }
    OthersCarry(cfg, s, s', id);
  }

  lemma RemoveSelf(cfg: Config, s: Sys, id: ConnId)
    requires id in s.entries && Owes(cfg, s, id)
    ensures EntryInv(cfg, RemoveInLoop(s, id), id)
  {
    var e := s.entries[id];
    var s1 := SetEntry(s, id, e.(erases := 1)).(table := s.table - {e.name});
    assert RemoveInLoop(s, id) == Enqueue(s1, e.loop, id, DestroyTask);
    EnqueueSelf(cfg, s1, e.loop, id, DestroyTask, e.loop);
  }

  lemma RemoveSettles(cfg: Config, s: Sys, id: ConnId)
    requires Owing(cfg, s, id)
    ensures Inv(cfg, RemoveInLoop(s, id))
  {
    var e := s.entries[id];
    var s1 := SetEntry(s, id, e.(erases := 1)).(table := s.table - {e.name});
    assert RemoveInLoop(s, id) == Enqueue(s1, e.loop, id, DestroyTask);
    EntryQueues(cfg, s, s1);
    EraseOthers(cfg, s, id, e.(erases := 1));
    EnqueueQueues(cfg, s1, e.loop, id, DestroyTask);
    EnqueueOthers(cfg, s1, e.loop, id, DestroyTask);
    RemoveSelf(cfg, s, id);
  }

  lemma QueueingSelf(cfg: Config, s: Sys, id: ConnId)
    requires id in s.entries && Owes(cfg, s, id)
    ensures EntryInv(cfg, Enqueue(s, cfg.base, id, RemoveTask), id)
  {
    EnqueueSelf(cfg, s, cfg.base, id, RemoveTask, s.entries[id].loop);
  }

  lemma QueueingSettles(cfg: Config, s: Sys, id: ConnId)
    requires Owing(cfg, s, id)
    ensures Inv(cfg, Enqueue(s, cfg.base, id, RemoveTask))
  {
    EnqueueQueues(cfg, s, cfg.base, id, RemoveTask);
    EnqueueOthers(cfg, s, cfg.base, id, RemoveTask);
    QueueingSelf(cfg, s, id);
  }

  lemma CloseSelf(cfg: Config, s: Sys, id: ConnId)
    requires id in s.entries && EntryInv(cfg, s, id) && Alive(s.entries[id].conn)
    ensures Owes(cfg, SetEntry(s, id, Closed(s.entries[id])), id)
  {
  }

  lemma CloseOthers(cfg: Config, s: Sys, id: ConnId)
    requires Inv(cfg, s) && id in s.entries
    ensures QueuesInv(cfg, SetEntry(s, id, Closed(s.entries[id])))
    ensures OthersInv(cfg, SetEntry(s, id, Closed(s.entries[id])), id)
  {
    EntryQueues(cfg, s, SetEntry(s, id, Closed(s.entries[id])));
    SetEntryOthers(cfg, s, id, Closed(s.entries[id]));
  }

  lemma CloseOwes(cfg: Config, s: Sys, id: ConnId)
    requires Inv(cfg, s) && id in s.entries && Alive(s.entries[id].conn)
    ensures Owing(cfg, SetEntry(s, id, Closed(s.entries[id])), id)
  {
    CloseOthers(cfg, s, id);
    assert EntryInv(cfg, s, id);
    CloseSelf(cfg, s, id);
  }

  lemma CloseKeepsInv(cfg: Config, s: Sys, id: ConnId)
    requires Inv(cfg, s) && id in s.entries && Alive(s.entries[id].conn)
    ensures Inv(cfg, Close(cfg, s, id))
  {
    var e := s.entries[id];
    var s' := SetEntry(s, id, Closed(e));
    CloseOwes(cfg, s, id);
    if e.loop == cfg.base {
      RemoveSettles(cfg, s', id);
    } else {
      QueueingSettles(cfg, s', id);
    }
  }

  /** Registering a new name leaves the others in the table, since names differ. */
  lemma RegisterOthers(cfg: Config, s: Sys, e: Entry)
    requires ProperNames(cfg) && OthersInv(cfg, s, s.nextId) && s.nextId < INT_MAX
    ensures OthersInv(cfg, Registered(cfg, s, e), s.nextId)
  {
    var id := s.nextId;
    var s' := Registered(cfg, s, e);
    forall id' | id' in s'.entries && id' != id
      ensures SameBooks(cfg, s, s', id')
    {
      assert EntryInv(cfg, s, id');
      assert cfg.naming(id) != cfg.naming(id');
    }
    OthersCarry(cfg, s, s', id);
  }

  function Registered(cfg: Config, s: Sys, e: Entry): Sys {
    Sys(s.entries[s.nextId := e], s.table[cfg.naming(s.nextId) := s.nextId], s.nextId + 1, s.queues)
  }

  lemma UnknownCounts(cfg: Config, s: Sys, loop: LoopId, id: ConnId)
    requires QueuesInv(cfg, s) && id !in s.entries
    ensures Unqueued(cfg, s, loop, id)
  {
    UnknownIsNotQueued(cfg, s, loop, id, EstablishTask);
    UnknownIsNotQueued(cfg, s, cfg.base, id, RemoveTask);
    UnknownIsNotQueued(cfg, s, loop, id, DestroyTask);
  }

  ghost predicate Unqueued(cfg: Config, s: Sys, loop: LoopId, id: ConnId) {
    Count(s, loop, id, EstablishTask) == 0 && Count(s, cfg.base, id, RemoveTask) == 0 && Count(s, loop, id, DestroyTask) == 0
  }

  lemma NewConnInv(cfg: Config, reading: bool)
    ensures var c := NewConn(reading); SendInv(c) && PollInv(c) && PollInv(Establish(c)) && HighInv(c, cfg.cb)
  {
  }

  lemma RegisterInBase(cfg: Config, s: Sys, reading: bool)
    requires s.nextId < INT_MAX && Unqueued(cfg, s, cfg.base, s.nextId)
    ensures EntryInv(cfg, NewConnection(cfg, s, cfg.base, reading), s.nextId)
  {
    NewConnInv(cfg, reading);
  }

  lemma RegisterElsewhere(cfg: Config, s: Sys, loop: LoopId, reading: bool)
    requires s.nextId < INT_MAX && Unqueued(cfg, s, loop, s.nextId) && loop != cfg.base
    ensures EntryInv(cfg, NewConnection(cfg, s, loop, reading), s.nextId)
  {
    var e := Entry(NewConn(reading), loop, cfg.naming(s.nextId), 0, 0);
    NewConnInv(cfg, reading);
    assert NewConnection(cfg, s, loop, reading) == Enqueue(Registered(cfg, s, e), loop, s.nextId, EstablishTask);
    EnqueueSelf(cfg, Registered(cfg, s, e), loop, s.nextId, EstablishTask, loop);
  }

  lemma NextIsUnknown(cfg: Config, s: Sys)
    requires Inv(cfg, s)
    ensures s.nextId !in s.entries
  {
    assert s.nextId in s.entries ==> EntryInv(cfg, s, s.nextId);
  }

  lemma RegisteredOthers(cfg: Config, s: Sys, e: Entry)
    requires Inv(cfg, s) && s.nextId < INT_MAX
    ensures s.nextId !in s.entries
    ensures QueuesInv(cfg, Registered(cfg, s, e)) && OthersInv(cfg, Registered(cfg, s, e), s.nextId)
  {
    NextIsUnknown(cfg, s);
    EntryQueues(cfg, s, Registered(cfg, s, e));
    RegisterOthers(cfg, s, e);
  }

  lemma AcceptInBase(cfg: Config, s: Sys, reading: bool)
    requires Inv(cfg, s) && s.nextId < INT_MAX
    ensures Inv(cfg, NewConnection(cfg, s, cfg.base, reading))
  {
    var e := Entry(Establish(NewConn(reading)), cfg.base, cfg.naming(s.nextId), 0, 0);
    RegisteredOthers(cfg, s, e);
    UnknownCounts(cfg, s, cfg.base, s.nextId);
    RegisterInBase(cfg, s, reading);
    assert NewConnection(cfg, s, cfg.base, reading) == Registered(cfg, s, e);
    Together(cfg, Registered(cfg, s, e), s.nextId);
  }

  lemma AcceptElsewhere(cfg: Config, s: Sys, loop: LoopId, reading: bool)
    requires Inv(cfg, s) && s.nextId < INT_MAX && loop != cfg.base
    ensures Inv(cfg, NewConnection(cfg, s, loop, reading))
  {
    var id := s.nextId;
    var e := Entry(NewConn(reading), loop, cfg.naming(id), 0, 0);
    var s1 := Registered(cfg, s, e);
    RegisteredOthers(cfg, s, e);
    UnknownCounts(cfg, s, loop, id);
    EnqueueQueues(cfg, s1, loop, id, EstablishTask);
    EnqueueOthers(cfg, s1, loop, id, EstablishTask);
    RegisterElsewhere(cfg, s, loop, reading);
    assert NewConnection(cfg, s, loop, reading) == Enqueue(s1, loop, id, EstablishTask);
    Together(cfg, Enqueue(s1, loop, id, EstablishTask), id);
  }

  lemma AcceptKeepsInv(cfg: Config, s: Sys, loop: LoopId, reading: bool)
    requires Inv(cfg, s) && s.nextId < INT_MAX
    ensures Inv(cfg, NewConnection(cfg, s, loop, reading))
  {
    if loop == cfg.base {
      AcceptInBase(cfg, s, reading);
    } else {
      AcceptElsewhere(cfg, s, loop, reading);
    }
  }

  /** What running a task of `id` does to everything but its own books. */
  lemma RunQueues(cfg: Config, s: Sys, l: LoopId, id: ConnId, e: Entry)
    requires QueuesInv(cfg, s) && Queue(s, l) != [] && id in s.entries && e.loop == s.entries[id].loop
    ensures QueuesInv(cfg, SetEntry(Pop(s, l), id, e))
  {
    PopQueues(cfg, s, l);
    EntryQueues(cfg, Pop(s, l), SetEntry(Pop(s, l), id, e));
  }

  lemma RunOthers(cfg: Config, s: Sys, l: LoopId, id: ConnId, e: Entry)
    requires OthersInv(cfg, s, id) && Queue(s, l) != [] && Queue(s, l)[0].0 == id
    ensures OthersInv(cfg, SetEntry(Pop(s, l), id, e), id)
  {
    PopOthers(cfg, s, l, id);
    SetEntryOthers(cfg, Pop(s, l), id, e);
  }

  lemma EstablishSelf(cfg: Config, s: Sys, l: LoopId, id: ConnId)
    requires id in s.entries && EntryInv(cfg, s, id) && l == s.entries[id].loop
    requires Queue(s, l) != [] && Queue(s, l)[0] == (id, EstablishTask)
    ensures s.entries[id].conn.stat == Connecting
    ensures EntryInv(cfg, SetConn(Pop(s, l), id, Establish(s.entries[id].conn)), id)
  {
    PopSelf(cfg, s, l, id, l);
  }

  lemma EstablishesConnecting(cfg: Config, s: Sys, l: LoopId, id: ConnId)
    requires Inv(cfg, s) && Queue(s, l) != [] && Queue(s, l)[0] == (id, EstablishTask)
    ensures id in s.entries && l == s.entries[id].loop && s.entries[id].conn.stat == Connecting
  {
    assert RightLoop(cfg, s, l, Queue(s, l)[0].0, Queue(s, l)[0].1);
    assert EntryInv(cfg, s, id);
    EstablishSelf(cfg, s, l, id);
  }

  lemma EstablishKeepsInv(cfg: Config, s: Sys, l: LoopId, id: ConnId)
    requires Inv(cfg, s) && Queue(s, l) != [] && Queue(s, l)[0] == (id, EstablishTask) && id in s.entries
    ensures l == s.entries[id].loop && s.entries[id].conn.stat == Connecting
    ensures Inv(cfg, SetConn(Pop(s, l), id, Establish(s.entries[id].conn)))
  {
    var e := s.entries[id];
    EstablishesConnecting(cfg, s, l, id);
    RunQueues(cfg, s, l, id, e.(conn := Establish(e.conn)));
    RunOthers(cfg, s, l, id, e.(conn := Establish(e.conn)));
    assert EntryInv(cfg, s, id);
    EstablishSelf(cfg, s, l, id);
    Together(cfg, SetConn(Pop(s, l), id, Establish(e.conn)), id);
  }

  lemma RemoveKeepsInv(cfg: Config, s: Sys, l: LoopId, id: ConnId)
    requires Inv(cfg, s) && Queue(s, l) != [] && Queue(s, l)[0] == (id, RemoveTask) && id in s.entries
    ensures l == cfg.base && InTable(s, id)
    ensures Inv(cfg, RemoveInLoop(Pop(s, l), id))
  {
    assert EntryInv(cfg, s, id);
    assert RightLoop(cfg, s, l, Queue(s, l)[0].0, Queue(s, l)[0].1);
    PopQueues(cfg, s, l);
    PopOthers(cfg, s, l, id);
    PopSelf(cfg, s, l, id, s.entries[id].loop);
    RemoveSettles(cfg, Pop(s, l), id);
  }

  /** A destruction is only ever asked of a closed connection, and can never complete: while an interest
      is left `Channel::remove` asserts, and when none is left the poller does. */
  lemma DestroyIsStuck(cfg: Config, s: Sys, l: LoopId, id: ConnId)
    requires Inv(cfg, s) && Queue(s, l) != [] && Queue(s, l)[0] == (id, DestroyTask) && id in s.entries
    ensures var c := s.entries[id].conn;
            && l == s.entries[id].loop && c.stat == Disconnected && Disconnect(c) == c
            && (NoInterest(c) <==> Idle(c)) && (c.index == Deleted <==> Idle(c)) && c.index != New && !CanRemove(c)
  {
    assert EntryInv(cfg, s, id);
    assert RightLoop(cfg, s, l, Queue(s, l)[0].0, Queue(s, l)[0].1);
    PopSelf(cfg, s, l, id, l);
    DestructionCompletes(s.entries[id].conn);
  }

  lemma SendIsMild(cfg: Config, c: Conn, message: seq<byte>, n: nat)
    requires n <= |message|
    ensures var e := SendInLoop(c, cfg.cb, message, n);
            Mild(cfg, c, e.conn) && (e.queued.Some? ==> Ordinary(e.queued.value))
  {
    if SendInv(c) {
      SendKeepsOrder(c, cfg.cb, message, n);
      if HighInv(c, cfg.cb) {
        SendKeepsHighs(c, cfg.cb, message, n);
      }
    }
    if PollInv(c) {
      SendKeepsPolling(c, cfg.cb, message, n);
    }
  }

  lemma HandleWriteIsMild(cfg: Config, c: Conn, n: nat)
    requires n <= |c.output|
    ensures var e := HandleWrite(c, cfg.cb, n);
            Mild(cfg, c, e.conn) && (e.queued.Some? ==> Ordinary(e.queued.value))
  {
    if SendInv(c) {
      HandleWriteKeepsOrder(c, cfg.cb, n);
      if HighInv(c, cfg.cb) {
        HandleWriteKeepsHighs(c, cfg.cb, n);
      }
    }
    if PollInv(c) {
      HandleWriteKeepsPolling(c, cfg.cb, n);
    }
  }

  lemma ReadingIsMild(cfg: Config, c: Conn)
    ensures Mild(cfg, c, StartReadInLoop(c)) && Mild(cfg, c, StopReadInLoop(c))
  {
    if PollInv(c) {
      ReadingKeepsPolling(c);
    }
  }

  lemma ClosingIsMild(cfg: Config, c: Conn, inLoop: bool)
    ensures Mild(cfg, c, ShutdownInLoop(c)) && Mild(cfg, c, ShutDown(c, inLoop).conn)
    ensures Mild(cfg, c, ForceClose(c).conn) && Mild(cfg, c, ForceCloseWithDelay(c))
  {
  }

  lemma PerformKeepsInv(cfg: Config, s: Sys, id: ConnId, t: Task, n: nat)
    requires Inv(cfg, s) && id in s.entries && Ordinary(t) && (t.SendTask? ==> n <= |t.message|)
    ensures Inv(cfg, Perform(cfg, s, id, t, n))
  {
    var c := s.entries[id].conn;
    match t
    case SendTask(message) =>
      SendIsMild(cfg, c, message, n);
      ApplyKeepsInv(cfg, s, id, SendInLoop(c, cfg.cb, message, n));
    case ShutdownTask =>
      ClosingIsMild(cfg, c, true);
      SetConnKeepsInv(cfg, s, id, ShutdownInLoop(c));
    case ForceCloseTask => if Alive(c) { CloseKeepsInv(cfg, s, id); }
    case StartReadTask => ReadingCallKeepsInv(cfg, s, id);
    case StopReadTask => ReadingCallKeepsInv(cfg, s, id);
    case WriteCompleteTask =>
    case HighWaterTask(_) =>
  }

  lemma PerformUnfolds(cfg: Config, s: Sys, id: ConnId, n: nat)
    requires id in s.entries
    ensures Perform(cfg, s, id, EstablishTask, n) == SetConn(s, id, Establish(s.entries[id].conn))
    ensures Perform(cfg, s, id, RemoveTask, n) == RemoveInLoop(s, id)
  {
  }

  lemma PerformLifeCycleKeepsInv(cfg: Config, s: Sys, l: LoopId, id: ConnId, t: Task, n: nat)
    requires Inv(cfg, s) && id in s.entries && !Ordinary(t) && t != DestroyTask
    requires Queue(s, l) != [] && Queue(s, l)[0] == (id, t)
    ensures Inv(cfg, Perform(cfg, Pop(s, l), id, t, n))
  {
    PerformUnfolds(cfg, Pop(s, l), id, n);
    match t
    case EstablishTask => EstablishKeepsInv(cfg, s, l, id);
    case RemoveTask => RemoveKeepsInv(cfg, s, l, id);
  }

  lemma PerformTaskKeepsInv(cfg: Config, s: Sys, l: LoopId, id: ConnId, t: Task, n: nat)
    requires Inv(cfg, s) && id in s.entries && (t.SendTask? ==> n <= |t.message|)
    requires Queue(s, l) != [] && Queue(s, l)[0] == (id, t)
    requires t == DestroyTask ==> CanRemove(Disconnect(s.entries[id].conn))
    ensures Inv(cfg, Perform(cfg, Pop(s, l), id, t, n))
  {
    if t == DestroyTask {
      DestroyIsStuck(cfg, s, l, id);
      assert false;
    } else if !Ordinary(t) {
      PerformLifeCycleKeepsInv(cfg, s, l, id, t, n);
    } else {
      PopKeepsInv(cfg, s, l);
      PerformKeepsInv(cfg, Pop(s, l), id, t, n);
    }
  }

  lemma EventKeepsInv(cfg: Config, s: Sys, a: Action)
    requires Inv(cfg, s) && Enabled(cfg, s, a) && (a.Readable? || a.Writable?)
    ensures Inv(cfg, Step(cfg, s, a))
  {
    match a
    case Readable(id, r) => if ReadBranch(r) == PeerClosed { CloseKeepsInv(cfg, s, id); }
    case Writable(id, n) =>
      HandleWriteIsMild(cfg, s.entries[id].conn, n);
      ApplyKeepsInv(cfg, s, id, HandleWrite(s.entries[id].conn, cfg.cb, n));
  }

  lemma SendingCallKeepsInv(cfg: Config, s: Sys, id: ConnId, message: seq<byte>, inLoop: bool, n: nat)
    requires Inv(cfg, s) && id in s.entries && n <= |message|
    ensures Inv(cfg, Apply(s, id, Send(s.entries[id].conn, cfg.cb, message, inLoop, n)))
  {
    SendIsMild(cfg, s.entries[id].conn, message, n);
    ApplyKeepsInv(cfg, s, id, Send(s.entries[id].conn, cfg.cb, message, inLoop, n));
  }

  lemma ClosingCallKeepsInv(cfg: Config, s: Sys, id: ConnId, inLoop: bool)
    requires Inv(cfg, s) && id in s.entries
    ensures Inv(cfg, Apply(s, id, ShutDown(s.entries[id].conn, inLoop)))
    ensures Inv(cfg, Apply(s, id, ForceClose(s.entries[id].conn)))
    ensures Inv(cfg, SetConn(s, id, ForceCloseWithDelay(s.entries[id].conn)))
  {
    ClosingIsMild(cfg, s.entries[id].conn, inLoop);
    ApplyKeepsInv(cfg, s, id, ShutDown(s.entries[id].conn, inLoop));
    ApplyKeepsInv(cfg, s, id, ForceClose(s.entries[id].conn));
    SetConnKeepsInv(cfg, s, id, ForceCloseWithDelay(s.entries[id].conn));
  }

  lemma ReadingCallKeepsInv(cfg: Config, s: Sys, id: ConnId)
    requires Inv(cfg, s) && id in s.entries
    ensures Inv(cfg, SetConn(s, id, StartReadInLoop(s.entries[id].conn)))
    ensures Inv(cfg, SetConn(s, id, StopReadInLoop(s.entries[id].conn)))
  {
    ReadingIsMild(cfg, s.entries[id].conn);
    SetConnKeepsInv(cfg, s, id, StartReadInLoop(s.entries[id].conn));
    SetConnKeepsInv(cfg, s, id, StopReadInLoop(s.entries[id].conn));
  }

  lemma QueuedReadingKeepsInv(cfg: Config, s: Sys, id: ConnId)
    requires Inv(cfg, s) && id in s.entries
    ensures Inv(cfg, Enqueue(s, s.entries[id].loop, id, StartReadTask))
    ensures Inv(cfg, Enqueue(s, s.entries[id].loop, id, StopReadTask))
  {
    EnqueueKeepsInv(cfg, s, s.entries[id].loop, id, StartReadTask);
    EnqueueKeepsInv(cfg, s, s.entries[id].loop, id, StopReadTask);
  }

  lemma StepKeepsInv(cfg: Config, s: Sys, a: Action)
    requires Inv(cfg, s) && Enabled(cfg, s, a)
    ensures Inv(cfg, Step(cfg, s, a))
  {
    match a
    case Accept(loop, reading) => AcceptKeepsInv(cfg, s, loop, reading);
    case RunTask(l, n) => PerformTaskKeepsInv(cfg, s, l, Queue(s, l)[0].0, Queue(s, l)[0].1, n);
    case Readable(_, _) => EventKeepsInv(cfg, s, a);
    case Writable(_, _) => EventKeepsInv(cfg, s, a);
    case CallSend(id, message, inLoop, n) => SendingCallKeepsInv(cfg, s, id, message, inLoop, n);
    case CallShutDown(id, inLoop) => ClosingCallKeepsInv(cfg, s, id, inLoop);
    case CallForceClose(id) => ClosingCallKeepsInv(cfg, s, id, true);
    case CallForceCloseWithDelay(id) => ClosingCallKeepsInv(cfg, s, id, true);
    case CallStartRead(id, _) =>
      ReadingCallKeepsInv(cfg, s, id);
      QueuedReadingKeepsInv(cfg, s, id);
    case CallStopRead(id, _) =>
      ReadingCallKeepsInv(cfg, s, id);
      QueuedReadingKeepsInv(cfg, s, id);
  }

  lemma {:induction false} RunKeepsInv(cfg: Config, s: Sys, actions: seq<Action>)
    requires Inv(cfg, s) && IsRun(cfg, s, actions)
    ensures Inv(cfg, Run(cfg, s, actions))
    decreases |actions|
  {
    if actions != [] {
      StepKeepsInv(cfg, s, actions[0]);
      RunKeepsInv(cfg, Step(cfg, s, actions[0]), actions[1..]);
    }
  }

  // ---------------------------------------------------------------- what one action does to one connection

  /** What the changes of a connection do to the entries. */
  lemma ApplyEntries(s: Sys, id': ConnId, e: Effect, id: ConnId)
    requires id' in s.entries && id in s.entries
    ensures id in Apply(s, id', e).entries
    ensures Apply(s, id', e).entries[id] == if id' == id then s.entries[id].(conn := e.conn) else s.entries[id]
  {
  }

  lemma SetConnEntries(s: Sys, id': ConnId, c: Conn, id: ConnId)
    requires id' in s.entries && id in s.entries
    ensures id in SetConn(s, id', c).entries
    ensures SetConn(s, id', c).entries[id] == if id' == id then s.entries[id].(conn := c) else s.entries[id]
  {
  }

  lemma CloseEntries(cfg: Config, s: Sys, id': ConnId, id: ConnId)
    requires id' in s.entries && id in s.entries
    ensures id in Close(cfg, s, id').entries
    ensures var e, e' := s.entries[id], Close(cfg, s, id').entries[id];
            e'.loop == e.loop && e'.conn == if id' == id then HandleClose(e.conn) else e.conn
  {
  }

  lemma RemoveEntries(s: Sys, id': ConnId, id: ConnId)
    requires id' in s.entries && id in s.entries
    ensures id in RemoveInLoop(s, id').entries
    ensures RemoveInLoop(s, id').entries[id].loop == s.entries[id].loop
    ensures RemoveInLoop(s, id').entries[id].conn == s.entries[id].conn
  {
  }

  /** What a task does to the connection whose it is. */
  function TaskOn(cfg: Config, c: Conn, t: Task, n: nat): Conn
    requires t.SendTask? ==> n <= |t.message|
  {
    match t
    case EstablishTask => Establish(c)
    case SendTask(message) => SendInLoop(c, cfg.cb, message, n).conn
    case ShutdownTask => ShutdownInLoop(c)
    case ForceCloseTask => if Alive(c) then HandleClose(c) else c
    case StartReadTask => StartReadInLoop(c)
    case StopReadTask => StopReadInLoop(c)
    case DestroyTask => Destroy(c)
    case _ => c
  }

  lemma PerformEntries(cfg: Config, s: Sys, id': ConnId, t: Task, n: nat, id: ConnId)
    requires id' in s.entries && id in s.entries && (t.SendTask? ==> n <= |t.message|)
    ensures id in Perform(cfg, s, id', t, n).entries
    ensures var e, e' := s.entries[id], Perform(cfg, s, id', t, n).entries[id];
            e'.loop == e.loop && e'.conn == if id' == id then TaskOn(cfg, e.conn, t, n) else e.conn
  {
    var c := s.entries[id'].conn;
    match t
    case SendTask(message) => ApplyEntries(s, id', SendInLoop(c, cfg.cb, message, n), id);
    case ForceCloseTask => CloseEntries(cfg, s, id', id);
    case RemoveTask => RemoveEntries(s, id', id);
    case _ => SetConnEntries(s, id', TaskOn(cfg, c, t, n), id);
  }

  /** What a call or an event does to the connection that it is about. */
  function ActionOn(cfg: Config, c: Conn, a: Action): Conn
    requires !a.Accept? && !a.RunTask?
    requires (a.Writable? ==> a.n <= |c.output|) && (a.CallSend? ==> a.n <= |a.message|)
  {
    match a
    case Readable(_, r) => if ReadBranch(r) == PeerClosed then HandleClose(c) else c
    case Writable(_, n) => HandleWrite(c, cfg.cb, n).conn
    case CallSend(_, message, inLoop, n) => Send(c, cfg.cb, message, inLoop, n).conn
    case CallShutDown(_, inLoop) => ShutDown(c, inLoop).conn
    case CallForceClose(_) => ForceClose(c).conn
    case CallForceCloseWithDelay(_) => ForceCloseWithDelay(c)
    case CallStartRead(_, inLoop) => if inLoop then StartReadInLoop(c) else c
    case CallStopRead(_, inLoop) => if inLoop then StopReadInLoop(c) else c
  }

  lemma ActionEntries(cfg: Config, s: Sys, a: Action, id: ConnId)
    requires Enabled(cfg, s, a) && !a.Accept? && !a.RunTask? && id in s.entries
    ensures id in Step(cfg, s, a).entries
    ensures var e, e' := s.entries[id], Step(cfg, s, a).entries[id];
            e'.loop == e.loop && e'.conn == if a.id == id then ActionOn(cfg, e.conn, a) else e.conn
  {
    var c := s.entries[a.id].conn;
    match a
    case Readable(id', _) => CloseEntries(cfg, s, id', id);
    case Writable(id', n) => ApplyEntries(s, id', HandleWrite(c, cfg.cb, n), id);
    case CallSend(id', message, inLoop, n) => ApplyEntries(s, id', Send(c, cfg.cb, message, inLoop, n), id);
    case CallShutDown(id', inLoop) => ApplyEntries(s, id', ShutDown(c, inLoop), id);
    case CallForceClose(id') => ApplyEntries(s, id', ForceClose(c), id);
    case CallForceCloseWithDelay(id') => SetConnEntries(s, id', ForceCloseWithDelay(c), id);
    case CallStartRead(id', inLoop) => SetConnEntries(s, id', StartReadInLoop(c), id);
    case CallStopRead(id', inLoop) => SetConnEntries(s, id', StopReadInLoop(c), id);
  }

  // ---------------------------------------------------------------- what holds after every run

  lemma ReachableInv(cfg: Config, actions: seq<Action>)
    requires Listens(cfg) && IsRun(cfg, INITIAL, actions)
    ensures Inv(cfg, Run(cfg, INITIAL, actions))
  {
    NamesAreProper(cfg);
    RunKeepsInv(cfg, INITIAL, actions);
  }

  function AcceptedOf(s: Sys, id: ConnId): seq<byte> {
    if id in s.entries then s.entries[id].conn.accepted else []
  }

  /** The message that an action hands to `sendInLoop` of a connection that is not closed. */
  function HandedBy(s: Sys, a: Action, id: ConnId): seq<byte> {
    match a
    case CallSend(id', message, inLoop, _) =>
      if id' == id && id in s.entries && inLoop && s.entries[id].conn.stat == Connected then message else []
    case RunTask(l, _) =>
      if Queue(s, l) == [] then []
      else
        var (id', t) := Queue(s, l)[0];
        if id' == id && id in s.entries && t.SendTask? && s.entries[id].conn.stat != Disconnected then t.message else []
    case _ => []
  }

  /** All messages handed to a connection in the course of a run, joined. */
  function Handed(cfg: Config, s: Sys, actions: seq<Action>, id: ConnId): seq<byte>
    requires IsRun(cfg, s, actions)
    decreases |actions|
  {
    if actions == [] then []
    else HandedBy(s, actions[0], id) + Handed(cfg, Step(cfg, s, actions[0]), actions[1..], id)
  }

  lemma TaskAccepts(cfg: Config, c: Conn, t: Task, n: nat)
    requires t.SendTask? ==> n <= |t.message|
    ensures TaskOn(cfg, c, t, n).accepted
            == c.accepted + if t.SendTask? && c.stat != Disconnected then t.message else []
  {
  }

  lemma ActionAccepts(cfg: Config, s: Sys, a: Action)
    requires Enabled(cfg, s, a) && !a.Accept? && !a.RunTask?
    ensures var c := s.entries[a.id].conn; ActionOn(cfg, c, a).accepted == c.accepted + HandedBy(s, a, a.id)
  {
    if a.CallSend? {
      SendAccepts(cfg, s.entries[a.id].conn, a);
    }
  }

  lemma SendAccepts(cfg: Config, c: Conn, a: Action)
    requires a.CallSend? && a.n <= |a.message|
    ensures ActionOn(cfg, c, a).accepted == c.accepted + if a.inLoop && c.stat == Connected then a.message else []
  {
  }

  lemma StepAccepts(cfg: Config, s: Sys, a: Action, id: ConnId)
    requires s.nextId !in s.entries && Enabled(cfg, s, a)
    ensures AcceptedOf(Step(cfg, s, a), id) == AcceptedOf(s, id) + HandedBy(s, a, id)
  {
    if id in s.entries {
      match a
      case Accept(_, _) =>
      case RunTask(l, n) =>
        PerformEntries(cfg, Pop(s, l), Queue(s, l)[0].0, Queue(s, l)[0].1, n, id);
        TaskAccepts(cfg, s.entries[id].conn, Queue(s, l)[0].1, n);
      case _ =>
        ActionEntries(cfg, s, a, id);
        ActionAccepts(cfg, s, a);
    } else if !a.Accept? {
      UnknownStays(cfg, s, a, id);
    }
  }

  lemma Joined(a: seq<byte>, b: seq<byte>, c: seq<byte>, ab: seq<byte>, bc: seq<byte>)
    requires ab == a + b && bc == b + c
    ensures ab + c == a + bc
  {
  }

  lemma {:induction false} RunAccepts(cfg: Config, s: Sys, actions: seq<Action>, id: ConnId)
    requires Inv(cfg, s) && IsRun(cfg, s, actions)
    ensures AcceptedOf(Run(cfg, s, actions), id) == AcceptedOf(s, id) + Handed(cfg, s, actions, id)
    decreases |actions|
  {
    if actions != [] {
      var s' := Step(cfg, s, actions[0]);
      NextIsUnknown(cfg, s);
      StepAccepts(cfg, s, actions[0], id);
      StepKeepsInv(cfg, s, actions[0]);
      RunAccepts(cfg, s', actions[1..], id);
      Joined(AcceptedOf(s, id), HandedBy(s, actions[0], id), Handed(cfg, s', actions[1..], id),
             AcceptedOf(s', id), Handed(cfg, s, actions, id));
    }
  }

  /** On every connection, after every run: the bytes on the wire followed by those still buffered are
      the messages handed over while it was not closed, in order, nothing lost and nothing doubled; and
      the channel asks for write events exactly while some are buffered. */
  lemma BytesInOrder(cfg: Config, actions: seq<Action>, id: ConnId)
    requires Listens(cfg) && IsRun(cfg, INITIAL, actions) && id in Run(cfg, INITIAL, actions).entries
    ensures var c := Run(cfg, INITIAL, actions).entries[id].conn;
            c.wire + c.output == Handed(cfg, INITIAL, actions, id) && (c.writeInterest <==> c.output != [])
  {
    ReachableInv(cfg, actions);
    assert EntryInv(cfg, Run(cfg, INITIAL, actions), id);
    RunAccepts(cfg, INITIAL, actions, id);
  }

  // ---------------------------------------------------------------- messages from other threads

  /** The message that a queued task would hand to connection `id`. */
  function Part(queued: (ConnId, Task), id: ConnId): seq<byte> {
    if queued.0 == id && queued.1.SendTask? then queued.1.message else []
  }

  function Waiting(q: seq<(ConnId, Task)>, id: ConnId): seq<byte> {
    if q == [] then [] else Part(q[0], id) + Waiting(q[1..], id)
  }

  /** The messages for a connection that wait on its loop, joined. */
  function WaitingOf(s: Sys, id: ConnId): seq<byte> {
    if id in s.entries then Waiting(Queue(s, s.entries[id].loop), id) else []
  }

  lemma {:induction false} WaitingSnoc(q: seq<(ConnId, Task)>, x: (ConnId, Task), id: ConnId)
    ensures Waiting(q + [x], id) == Waiting(q, id) + Part(x, id)
  {
    if q == [] {
      assert q + [x] == [x] && [x][1..] == [];
    } else {
      assert (q + [x])[1..] == q[1..] + [x];
      WaitingSnoc(q[1..], x, id);
    }
  }

  lemma {:induction false} NothingWaits(q: seq<(ConnId, Task)>, id: ConnId)
    requires forall i :: 0 <= i < |q| ==> q[i].0 != id
    ensures Waiting(q, id) == []
  {
    if q != [] {
      NothingWaits(q[1..], id);
    }
  }

  lemma EnqueueWaits(s: Sys, l: LoopId, id': ConnId, t: Task, id: ConnId)
    requires id in s.entries && (id' == id && t.SendTask? ==> l == s.entries[id].loop)
    ensures WaitingOf(Enqueue(s, l, id', t), id) == WaitingOf(s, id) + Part((id', t), id)
  {
    WaitingSnoc(Queue(s, l), (id', t), id);
  }

  lemma ApplyWaits(s: Sys, id': ConnId, e: Effect, id: ConnId)
    requires id' in s.entries && id in s.entries
    ensures WaitingOf(Apply(s, id', e), id)
            == WaitingOf(s, id) + if e.queued.Some? then Part((id', e.queued.value), id) else []
  {
    if e.queued.Some? {
      EnqueueWaits(SetConn(s, id', e.conn), s.entries[id'].loop, id', e.queued.value, id);
    }
  }

  lemma CloseWaits(cfg: Config, s: Sys, id': ConnId, id: ConnId)
    requires id' in s.entries && id in s.entries
    ensures WaitingOf(Close(cfg, s, id'), id) == WaitingOf(s, id)
  {
    var s' := SetEntry(s, id', Closed(s.entries[id']));
    if s.entries[id'].loop == cfg.base {
      RemoveWaits(s', id', id);
    } else {
      EnqueueWaits(s', cfg.base, id', RemoveTask, id);
    }
  }

  lemma RemoveWaits(s: Sys, id': ConnId, id: ConnId)
    requires id' in s.entries && id in s.entries
    ensures WaitingOf(RemoveInLoop(s, id'), id) == WaitingOf(s, id)
  {
    var e := s.entries[id'];
    var erased := if e.name in s.table then 1 else 0;
    var s' := SetEntry(s, id', e.(erases := e.erases + erased)).(table := s.table - {e.name});
    EnqueueWaits(s', e.loop, id', DestroyTask, id);
  }

  lemma PopWaits(cfg: Config, s: Sys, l: LoopId, id: ConnId)
    requires QueuesInv(cfg, s) && Queue(s, l) != [] && id in s.entries
    ensures WaitingOf(s, id) == Part(Queue(s, l)[0], id) + WaitingOf(Pop(s, l), id)
  {
    assert RightLoop(cfg, s, l, Queue(s, l)[0].0, Queue(s, l)[0].1);
  }

  lemma PerformWaits(cfg: Config, s: Sys, id': ConnId, t: Task, n: nat, id: ConnId)
    requires id' in s.entries && id in s.entries && (t.SendTask? ==> n <= |t.message|)
    ensures WaitingOf(Perform(cfg, s, id', t, n), id) == WaitingOf(s, id)
  {
    match t
    case SendTask(message) => ApplyWaits(s, id', SendInLoop(s.entries[id'].conn, cfg.cb, message, n), id);
    case ForceCloseTask => CloseWaits(cfg, s, id', id);
    case RemoveTask => RemoveWaits(s, id', id);
    case _ =>
  }

  /** The message that an action sends to a connected connection from outside its loop. */
  function SentOutsideBy(s: Sys, a: Action, id: ConnId): seq<byte> {
    if a.CallSend? && a.id == id && !a.inLoop && id in s.entries && s.entries[id].conn.stat == Connected
    then a.message else []
  }

  /** The message of the queued send that an action runs. */
  function RanBy(s: Sys, a: Action, id: ConnId): seq<byte> {
    if a.RunTask? && Queue(s, a.l) != [] then Part(Queue(s, a.l)[0], id) else []
  }

  lemma EventWaits(cfg: Config, s: Sys, a: Action, id: ConnId)
    requires Enabled(cfg, s, a) && (a.Readable? || a.Writable?) && id in s.entries
    ensures WaitingOf(Step(cfg, s, a), id) == WaitingOf(s, id)
  {
    CloseWaits(cfg, s, a.id, id);
    if a.Writable? {
      ApplyWaits(s, a.id, HandleWrite(s.entries[a.id].conn, cfg.cb, a.n), id);
    }
  }

  lemma SendWaits(cfg: Config, s: Sys, a: Action, id: ConnId)
    requires Enabled(cfg, s, a) && a.CallSend? && id in s.entries
    ensures WaitingOf(Step(cfg, s, a), id) == WaitingOf(s, id) + SentOutsideBy(s, a, id)
  {
    ApplyWaits(s, a.id, Send(s.entries[a.id].conn, cfg.cb, a.message, a.inLoop, a.n), id);
  }

  lemma CallWaits(cfg: Config, s: Sys, a: Action, id: ConnId)
    requires Enabled(cfg, s, a) && id in s.entries
    requires a.CallShutDown? || a.CallForceClose? || a.CallForceCloseWithDelay? || a.CallStartRead? || a.CallStopRead?
    ensures WaitingOf(Step(cfg, s, a), id) == WaitingOf(s, id)
  {
    var c, l := s.entries[a.id].conn, s.entries[a.id].loop;
    match a
    case CallShutDown(id', inLoop) => ApplyWaits(s, id', ShutDown(c, inLoop), id);
    case CallForceClose(id') => ApplyWaits(s, id', ForceClose(c), id);
    case CallForceCloseWithDelay(_) =>
    case CallStartRead(id', _) => EnqueueWaits(s, l, id', StartReadTask, id);
    case CallStopRead(id', _) => EnqueueWaits(s, l, id', StopReadTask, id);
  }

  lemma AcceptWaits(cfg: Config, s: Sys, loop: LoopId, reading: bool, id: ConnId)
    requires QueuesInv(cfg, s) && s.nextId !in s.entries
    ensures WaitingOf(NewConnection(cfg, s, loop, reading), id) == WaitingOf(s, id)
  {
    var s1 := NewConnection(cfg, s, loop, reading).(queues := s.queues);
    if id == s.nextId {
      forall i | 0 <= i < |Queue(s, loop)|
        ensures Queue(s, loop)[i].0 != id
      {
        assert RightLoop(cfg, s, loop, Queue(s, loop)[i].0, Queue(s, loop)[i].1);
      }
      NothingWaits(Queue(s, loop), id);
    }
    if id in s1.entries {
      EnqueueWaits(s1, loop, s.nextId, EstablishTask, id);
    }
  }

  lemma TaskWaits(cfg: Config, s: Sys, a: Action, id: ConnId)
    requires QueuesInv(cfg, s) && Enabled(cfg, s, a) && a.RunTask? && id in s.entries
    ensures WaitingOf(s, id) == RanBy(s, a, id) + WaitingOf(Step(cfg, s, a), id)
  {
    var (id', t) := Queue(s, a.l)[0];
    PopWaits(cfg, s, a.l, id);
    PerformWaits(cfg, Pop(s, a.l), id', t, a.n, id);
  }

  /** Before it exists a connection has nothing waiting, sends nothing and runs nothing. */
  lemma UnknownWaits(cfg: Config, s: Sys, a: Action, id: ConnId)
    requires QueuesInv(cfg, s) && s.nextId !in s.entries && Enabled(cfg, s, a) && id !in s.entries
    ensures WaitingOf(Step(cfg, s, a), id) == WaitingOf(s, id) == SentOutsideBy(s, a, id) == RanBy(s, a, id) == []
  {
    if a.Accept? {
      AcceptWaits(cfg, s, a.loop, a.reading, id);
    } else {
      UnknownStays(cfg, s, a, id);
    }
  }

  lemma KnownWaits(cfg: Config, s: Sys, a: Action, id: ConnId)
    requires QueuesInv(cfg, s) && s.nextId !in s.entries && Enabled(cfg, s, a) && id in s.entries
    ensures WaitingOf(s, id) + SentOutsideBy(s, a, id) == RanBy(s, a, id) + WaitingOf(Step(cfg, s, a), id)
  {
    NothingAround(WaitingOf(s, id));
    NothingAround(WaitingOf(Step(cfg, s, a), id));
    if a.Accept? {
      AcceptWaits(cfg, s, a.loop, a.reading, id);
    } else if a.RunTask? {
      TaskWaits(cfg, s, a, id);
    } else if a.CallSend? {
      SendWaits(cfg, s, a, id);
    } else if a.Readable? || a.Writable? {
      EventWaits(cfg, s, a, id);
    } else {
      CallWaits(cfg, s, a, id);
    }
  }

  lemma StepWaits(cfg: Config, s: Sys, a: Action, id: ConnId)
    requires Inv(cfg, s) && Enabled(cfg, s, a)
    ensures WaitingOf(s, id) + SentOutsideBy(s, a, id) == RanBy(s, a, id) + WaitingOf(Step(cfg, s, a), id)
  {
    NextIsUnknown(cfg, s);
    if id in s.entries {
      KnownWaits(cfg, s, a, id);
    } else {
      UnknownWaits(cfg, s, a, id);
    }
  }

  lemma UnknownStays(cfg: Config, s: Sys, a: Action, id: ConnId)
    requires Enabled(cfg, s, a) && !a.Accept? && id !in s.entries
    ensures id !in Step(cfg, s, a).entries
  {
  }

  /** All messages sent from outside in the course of a run, joined; and those that ran. */
  function SentOutside(cfg: Config, s: Sys, actions: seq<Action>, id: ConnId): seq<byte>
    requires IsRun(cfg, s, actions)
    decreases |actions|
  {
    if actions == [] then []
    else SentOutsideBy(s, actions[0], id) + SentOutside(cfg, Step(cfg, s, actions[0]), actions[1..], id)
  }

  function Ran(cfg: Config, s: Sys, actions: seq<Action>, id: ConnId): seq<byte>
    requires IsRun(cfg, s, actions)
    decreases |actions|
  {
    if actions == [] then []
    else RanBy(s, actions[0], id) + Ran(cfg, Step(cfg, s, actions[0]), actions[1..], id)
  }

  /** Those that waited and those that are sent are those that run and those that wait then. */
  ghost predicate SendsAccounted(cfg: Config, s: Sys, actions: seq<Action>, id: ConnId)
    requires IsRun(cfg, s, actions)
  {
    WaitingOf(s, id) + SentOutside(cfg, s, actions, id) == Ran(cfg, s, actions, id) + WaitingOf(Run(cfg, s, actions), id)
  }

  lemma RunAccounts(cfg: Config, s: Sys, actions: seq<Action>, id: ConnId)
    requires IsRun(cfg, s, actions) && actions != []
    requires WaitingOf(s, id) + SentOutsideBy(s, actions[0], id)
             == RanBy(s, actions[0], id) + WaitingOf(Step(cfg, s, actions[0]), id)
    requires SendsAccounted(cfg, Step(cfg, s, actions[0]), actions[1..], id)
    ensures SendsAccounted(cfg, s, actions, id)
  {
    var s' := Step(cfg, s, actions[0]);
    RunUnfolds(cfg, s, actions, id);
    Shifted(WaitingOf(s, id), SentOutsideBy(s, actions[0], id), RanBy(s, actions[0], id), WaitingOf(s', id),
            SentOutside(cfg, s', actions[1..], id), Ran(cfg, s', actions[1..], id),
            WaitingOf(Run(cfg, s', actions[1..]), id));
  }

  lemma {:induction false} RunAccountsForSends(cfg: Config, s: Sys, actions: seq<Action>, id: ConnId)
    requires Inv(cfg, s) && IsRun(cfg, s, actions)
    ensures SendsAccounted(cfg, s, actions, id)
    decreases |actions|
  {
    if actions != [] {
      StepKeepsInv(cfg, s, actions[0]);
      RunAccountsForSends(cfg, Step(cfg, s, actions[0]), actions[1..], id);
      StepAccounts(cfg, s, actions, id);
    } else {
      NothingAccounts(cfg, s, actions, id);
    }
  }

  lemma NothingAccounts(cfg: Config, s: Sys, actions: seq<Action>, id: ConnId)
    requires IsRun(cfg, s, actions) && actions == []
    ensures SendsAccounted(cfg, s, actions, id)
  {
    NothingAround(WaitingOf(s, id));
  }

  lemma NothingAround(w: seq<byte>)
    ensures w + [] == w == [] + w
  {
  }

  lemma StepAccounts(cfg: Config, s: Sys, actions: seq<Action>, id: ConnId)
    requires Inv(cfg, s) && IsRun(cfg, s, actions) && actions != []
    requires SendsAccounted(cfg, Step(cfg, s, actions[0]), actions[1..], id)
    ensures SendsAccounted(cfg, s, actions, id)
  {
    StepWaits(cfg, s, actions[0], id);
    RunAccounts(cfg, s, actions, id);
  }

  /** Messages sent to a connection from other threads reach its loop in the order of sending, and none
      is lost on the way: those that ran, followed by those that wait, are those that were sent. */
  lemma SendsRunInOrder(cfg: Config, s: Sys, actions: seq<Action>, id: ConnId)
    requires Inv(cfg, s) && IsRun(cfg, s, actions)
    ensures WaitingOf(s, id) + SentOutside(cfg, s, actions, id)
            == Ran(cfg, s, actions, id) + WaitingOf(Run(cfg, s, actions), id)
  {
    RunAccountsForSends(cfg, s, actions, id);
  }

  lemma RunUnfolds(cfg: Config, s: Sys, actions: seq<Action>, id: ConnId)
    requires IsRun(cfg, s, actions) && actions != []
    ensures var s' := Step(cfg, s, actions[0]);
            && Run(cfg, s, actions) == Run(cfg, s', actions[1..])
            && SentOutside(cfg, s, actions, id) == SentOutsideBy(s, actions[0], id) + SentOutside(cfg, s', actions[1..], id)
            && Ran(cfg, s, actions, id) == RanBy(s, actions[0], id) + Ran(cfg, s', actions[1..], id)
  {
  }

  lemma Shifted(w: seq<byte>, sent: seq<byte>, ran: seq<byte>, w': seq<byte>,
                sent': seq<byte>, ran': seq<byte>, w'': seq<byte>)
    requires w + sent == ran + w' && w' + sent' == ran' + w''
    ensures w + (sent + sent') == (ran + ran') + w''
  {
    assert w + (sent + sent') == (w + sent) + sent';
    assert (ran + w') + sent' == ran + (w' + sent');
    assert ran + (ran' + w'') == (ran + ran') + w'';
  }

  /** Every high-water notification but the last has been followed by a fall of the pending output below
      the mark, and the last one has too unless the output is at or above the mark now. */
  lemma HighWaterAlternates(cfg: Config, actions: seq<Action>, id: ConnId)
    requires Listens(cfg) && IsRun(cfg, INITIAL, actions) && id in Run(cfg, INITIAL, actions).entries
    requires cfg.cb.highWater && cfg.cb.mark > 0
    ensures var c := Run(cfg, INITIAL, actions).entries[id].conn;
            c.highs == c.drops + if |c.output| >= cfg.cb.mark then 1 else 0
  {
    ReachableInv(cfg, actions);
    assert EntryInv(cfg, Run(cfg, INITIAL, actions), id);
  }

  /** A connection is closed at most once, and every close has one removal, done or waiting, however many
      forced closes are pending: one erasure of its name, and with it one destruction queued, which then
      waits for good. Once the removal has run, the table holds the connection exactly if it was never closed. */
  lemma RemovedExactlyOnce(cfg: Config, actions: seq<Action>, id: ConnId)
    requires Listens(cfg) && IsRun(cfg, INITIAL, actions) && id in Run(cfg, INITIAL, actions).entries
    ensures var s := Run(cfg, INITIAL, actions);
            var e := s.entries[id];
            && e.closes == (if e.conn.stat == Disconnected then 1 else 0)
            && e.closes == e.erases + Count(s, cfg.base, id, RemoveTask)
            && e.erases == Count(s, e.loop, id, DestroyTask)
            && (InTable(s, id) <==> e.erases == 0)
            && (Count(s, cfg.base, id, RemoveTask) == 0 ==> (InTable(s, id) <==> e.conn.stat != Disconnected))
  {
    var s := Run(cfg, INITIAL, actions);
    ReachableInv(cfg, actions);
    assert EntryInv(cfg, s, id);
  }

  /** What the code asserts when a queued task runs: it runs in the loop it asks for; a connection is
      established from the connecting state (TcpConnection.cc:111); the name to be removed is in the
      table, with the connection to be removed (TcpServer.cc:75). */
  predicate TaskAsserts(cfg: Config, s: Sys, l: LoopId, id: ConnId, t: Task) {
    && RightLoop(cfg, s, l, id, t)
    && (t == EstablishTask ==> s.entries[id].conn.stat == Connecting)
    && (t == RemoveTask ==> InTable(s, id))
  }

  /** All of these hold; what a destruction asserts beyond them is next. */
  lemma TaskAssertsHold(cfg: Config, actions: seq<Action>, l: LoopId)
    requires Listens(cfg) && IsRun(cfg, INITIAL, actions) && Queue(Run(cfg, INITIAL, actions), l) != []
    ensures var s := Run(cfg, INITIAL, actions);
            TaskAsserts(cfg, s, l, Queue(s, l)[0].0, Queue(s, l)[0].1)
  {
    var s := Run(cfg, INITIAL, actions);
    var (id, t) := Queue(s, l)[0];
    ReachableInv(cfg, actions);
    assert RightLoop(cfg, s, l, Queue(s, l)[0].0, Queue(s, l)[0].1);
    if t == EstablishTask {
      EstablishesConnecting(cfg, s, l, id);
    } else if t == RemoveTask {
      RemoveKeepsInv(cfg, s, l, id);
    }
  }

  /** A destruction whose turn has come is of a closed connection, so its first branch is never taken. Of
      the asserts in `m_channel->remove()`, the one on Channel.cc:42 holds exactly when reading is stopped
      and nothing is buffered, the one on EpollPoller.cc:67 exactly when not: the program stops at one of
      them, and no destruction ever completes. */
  lemma DestructionNeverCompletes(cfg: Config, actions: seq<Action>, l: LoopId)
    requires Listens(cfg) && IsRun(cfg, INITIAL, actions)
    requires var s := Run(cfg, INITIAL, actions); Queue(s, l) != [] && Queue(s, l)[0].1 == DestroyTask
    ensures var s := Run(cfg, INITIAL, actions);
            var id := Queue(s, l)[0].0;
            && id in s.entries
            && var c := s.entries[id].conn;
            && c.stat == Disconnected && Disconnect(c) == c
            && (NoInterest(c) <==> Idle(c)) && c.index != New && (c.index != Deleted <==> !Idle(c))
            && forall n :: !Enabled(cfg, s, RunTask(l, n))
  {
    var s := Run(cfg, INITIAL, actions);
    ReachableInv(cfg, actions);
    assert RightLoop(cfg, s, l, Queue(s, l)[0].0, Queue(s, l)[0].1);
    DestroyIsStuck(cfg, s, l, Queue(s, l)[0].0);
  }

  predicate Notification(t: Task) {
    t.WriteCompleteTask? || t.HighWaterTask?
  }

  lemma ApplyNotifies(s: Sys, id': ConnId, e: Effect, l: LoopId, id: ConnId, t: Task)
    requires id' in s.entries
    ensures Count(Apply(s, id', e), l, id, t)
            == Count(s, l, id, t) + if id == id' && l == s.entries[id].loop && e.queued == Some(t) then 1 else 0
  {
    if e.queued.Some? {
      EnqueueCounts(SetConn(s, id', e.conn), s.entries[id'].loop, id', e.queued.value, l, id, t);
    }
  }

  lemma EnqueueIsQuiet(s: Sys, l': LoopId, id': ConnId, t': Task, l: LoopId, id: ConnId, t: Task)
    requires Notification(t) && !Notification(t')
    ensures Count(Enqueue(s, l', id', t'), l, id, t) == Count(s, l, id, t)
  {
    EnqueueCounts(s, l', id', t', l, id, t);
  }

  lemma CloseIsQuiet(cfg: Config, s: Sys, id': ConnId, l: LoopId, id: ConnId, t: Task)
    requires id' in s.entries && Notification(t)
    ensures Count(Close(cfg, s, id'), l, id, t) == Count(s, l, id, t)
  {
    var s' := SetEntry(s, id', Closed(s.entries[id']));
    if s.entries[id'].loop == cfg.base {
      RemoveIsQuiet(s', id', l, id, t);
    } else {
      EnqueueIsQuiet(s', cfg.base, id', RemoveTask, l, id, t);
    }
  }

  lemma RemoveIsQuiet(s: Sys, id': ConnId, l: LoopId, id: ConnId, t: Task)
    requires id' in s.entries && Notification(t)
    ensures Count(RemoveInLoop(s, id'), l, id, t) == Count(s, l, id, t)
  {
    var e := s.entries[id'];
    var erased := if e.name in s.table then 1 else 0;
    var s' := SetEntry(s, id', e.(erases := e.erases + erased)).(table := s.table - {e.name});
    EnqueueIsQuiet(s', e.loop, id', DestroyTask, l, id, t);
  }

  /** The step that an action makes `sendInLoop` or `handleWrite` of a connection do, if any. */
  function SendStep(cfg: Config, s: Sys, a: Action, id: ConnId): Option<Effect>
    requires Enabled(cfg, s, a) && id in s.entries
  {
    var c := s.entries[id].conn;
    match a
    case Writable(id', n) => if id' == id then Some(HandleWrite(c, cfg.cb, n)) else None
    case CallSend(id', message, inLoop, n) =>
      if id' == id && inLoop && c.stat == Connected then Some(SendInLoop(c, cfg.cb, message, n)) else None
    case RunTask(l, n) =>
      var (id', t) := Queue(s, l)[0];
      if id' == id && t.SendTask? then Some(SendInLoop(c, cfg.cb, t.message, n)) else None
    case _ => None
  }

  /** The action adds a task of the connection to its loop; */
  ghost predicate Gains(cfg: Config, s: Sys, a: Action, id: ConnId, t: Task)
    requires Enabled(cfg, s, a) && id in s.entries
  {
    Count(Step(cfg, s, a), s.entries[id].loop, id, t) > Count(s, s.entries[id].loop, id, t)
  }

  /** and it does so in a step of `sendInLoop` or `handleWrite`. */
  predicate Queues(cfg: Config, s: Sys, a: Action, id: ConnId, t: Task)
    requires Enabled(cfg, s, a) && id in s.entries
  {
    SendStep(cfg, s, a, id).Some? && SendStep(cfg, s, a, id).value.queued == Some(t)
  }

  lemma OtherTasksAreQuiet(cfg: Config, s: Sys, id': ConnId, t': Task, n: nat, l: LoopId, id: ConnId, t: Task)
    requires id' in s.entries && !t'.SendTask? && Notification(t)
    ensures Count(Perform(cfg, s, id', t', n), l, id, t) == Count(s, l, id, t)
  {
    match t'
    case ForceCloseTask => CloseIsQuiet(cfg, s, id', l, id, t);
    case RemoveTask => RemoveIsQuiet(s, id', l, id, t);
    case _ =>
  }

  lemma WritableNotifies(cfg: Config, s: Sys, a: Action, id: ConnId, t: Task)
    requires Enabled(cfg, s, a) && id in s.entries && Notification(t) && a.Writable?
    ensures Gains(cfg, s, a, id, t) <==> Queues(cfg, s, a, id, t)
  {
    ApplyNotifies(s, a.id, HandleWrite(s.entries[a.id].conn, cfg.cb, a.n), s.entries[id].loop, id, t);
  }

  lemma SendNotifies(cfg: Config, s: Sys, a: Action, id: ConnId, t: Task)
    requires Enabled(cfg, s, a) && id in s.entries && Notification(t) && a.CallSend?
    ensures Gains(cfg, s, a, id, t) <==> Queues(cfg, s, a, id, t)
  {
    var e := Send(s.entries[a.id].conn, cfg.cb, a.message, a.inLoop, a.n);
    ApplyNotifies(s, a.id, e, s.entries[id].loop, id, t);
  }

  lemma TaskNotifies(cfg: Config, s: Sys, a: Action, id: ConnId, t: Task)
    requires Enabled(cfg, s, a) && id in s.entries && Notification(t) && a.RunTask?
    ensures Gains(cfg, s, a, id, t) <==> Queues(cfg, s, a, id, t)
  {
    var (id', t') := Queue(s, a.l)[0];
    PopCounts(s, a.l, s.entries[id].loop, id, t);
    if t'.SendTask? {
      ApplyNotifies(Pop(s, a.l), id', SendInLoop(s.entries[id'].conn, cfg.cb, t'.message, a.n), s.entries[id].loop, id, t);
    } else {
      OtherTasksAreQuiet(cfg, Pop(s, a.l), id', t', a.n, s.entries[id].loop, id, t);
    }
  }

  lemma OtherActionsAreQuiet(cfg: Config, s: Sys, a: Action, l: LoopId, id: ConnId, t: Task)
    requires Enabled(cfg, s, a) && Notification(t) && !a.Writable? && !a.CallSend? && !a.RunTask? && !a.Accept?
    ensures Count(Step(cfg, s, a), l, id, t) == Count(s, l, id, t)
  {
    var c, l' := s.entries[a.id].conn, s.entries[a.id].loop;
    match a
    case Readable(id', _) => CloseIsQuiet(cfg, s, id', l, id, t);
    case CallShutDown(id', inLoop) => ApplyNotifies(s, id', ShutDown(c, inLoop), l, id, t);
    case CallForceClose(id') => ApplyNotifies(s, id', ForceClose(c), l, id, t);
    case CallForceCloseWithDelay(id') =>
    case CallStartRead(id', _) => EnqueueIsQuiet(s, l', id', StartReadTask, l, id, t);
    case CallStopRead(id', _) => EnqueueIsQuiet(s, l', id', StopReadTask, l, id, t);
  }

  lemma AcceptIsQuiet(cfg: Config, s: Sys, loop: LoopId, reading: bool, l: LoopId, id: ConnId, t: Task)
    requires Notification(t)
    ensures Count(NewConnection(cfg, s, loop, reading), l, id, t) == Count(s, l, id, t)
  {
    EnqueueIsQuiet(NewConnection(cfg, s, loop, reading).(queues := s.queues), loop, s.nextId, EstablishTask, l, id, t);
  }

  /** Only these steps notify, and all that they notify of is queued. */
  lemma NotifiedBySendStep(cfg: Config, s: Sys, a: Action, id: ConnId, t: Task)
    requires Enabled(cfg, s, a) && id in s.entries && Notification(t)
    ensures Gains(cfg, s, a, id, t) <==> Queues(cfg, s, a, id, t)
  {
    if a.Accept? {
      AcceptIsQuiet(cfg, s, a.loop, a.reading, s.entries[id].loop, id, t);
    } else if a.RunTask? {
      TaskNotifies(cfg, s, a, id, t);
    } else if a.Writable? {
      WritableNotifies(cfg, s, a, id, t);
    } else if a.CallSend? {
      SendNotifies(cfg, s, a, id, t);
    } else {
      OtherActionsAreQuiet(cfg, s, a, s.entries[id].loop, id, t);
    }
  }

  /** The bytes of a connection, as far as notifications depend on them. */
  predicate SameBytes(c: Conn, c': Conn) {
    c'.output == c.output && c'.wire == c.wire
  }

  /** An action does to a connection's bytes what its step of `sendInLoop` or `handleWrite` does, if any. */
  predicate Follows(cfg: Config, s: Sys, a: Action, id: ConnId)
    requires Enabled(cfg, s, a) && id in s.entries
  {
    && id in Step(cfg, s, a).entries
    && var c' := Step(cfg, s, a).entries[id].conn;
    && match SendStep(cfg, s, a, id)
       case Some(e) => c' == e.conn
       case None => SameBytes(s.entries[id].conn, c')
  }

  lemma TaskMoves(cfg: Config, c: Conn, t: Task, n: nat)
    requires !t.SendTask?
    ensures SameBytes(c, TaskOn(cfg, c, t, n))
  {
  }

  lemma ActionMoves(cfg: Config, s: Sys, a: Action)
    requires Enabled(cfg, s, a) && !a.Accept? && !a.RunTask?
    ensures var c := s.entries[a.id].conn;
            match SendStep(cfg, s, a, a.id)
            case Some(e) => ActionOn(cfg, c, a) == e.conn
            case None => SameBytes(c, ActionOn(cfg, c, a))
  {
  }

  lemma StepFollows(cfg: Config, s: Sys, a: Action, id: ConnId)
    requires s.nextId !in s.entries && Enabled(cfg, s, a) && id in s.entries
    ensures Follows(cfg, s, a, id)
  {
    match a
    case Accept(_, _) =>
    case RunTask(l, n) =>
      PerformEntries(cfg, Pop(s, l), Queue(s, l)[0].0, Queue(s, l)[0].1, n, id);
      if !Queue(s, l)[0].1.SendTask? {
        TaskMoves(cfg, s.entries[id].conn, Queue(s, l)[0].1, n);
      }
    case _ =>
      ActionEntries(cfg, s, a, id);
      ActionMoves(cfg, s, a);
  }

  /** What a step from `c` to `c'` that queues `queued` has to do with its notifications. */
  ghost predicate Accurate(cb: Callbacks, c: Conn, c': Conn, queued: Option<Task>) {
    && (forall pending: nat :: queued == Some(HighWaterTask(pending))
          <==> cb.highWater && |c.output| < cb.mark <= |c'.output| == pending)
    && (queued == Some(WriteCompleteTask) ==> cb.writeComplete && c'.wire == c'.accepted)
    && (cb.writeComplete && c'.wire == c'.accepted && c'.wire != c.wire ==> queued == Some(WriteCompleteTask))
  }

  lemma SendIsAccurate(c: Conn, cb: Callbacks, message: seq<byte>, n: nat)
    requires SendInv(c) && n <= |message|
    ensures var e := SendInLoop(c, cb, message, n); Accurate(cb, c, e.conn, e.queued)
  {
    SendCompletesAccurately(c, cb, message, n);
    SendKeepsOrder(c, cb, message, n);
    WholeOrPart(c.wire, c.output, c.accepted);
    HighWaterIsAccurate(c, cb, message, n);
  }

  lemma HandleWriteIsAccurate(c: Conn, cb: Callbacks, n: nat)
    requires SendInv(c) && n <= |c.output|
    ensures var e := HandleWrite(c, cb, n); Accurate(cb, c, e.conn, e.queued)
  {
    HandleWriteCompletesAccurately(c, cb, n);
    WholeOrPart(c.wire, c.output, c.accepted);
  }

  lemma SendStepIsAccurate(cfg: Config, s: Sys, a: Action, id: ConnId)
    requires Enabled(cfg, s, a) && id in s.entries && SendInv(s.entries[id].conn) && SendStep(cfg, s, a, id).Some?
    ensures var e := SendStep(cfg, s, a, id).value; Accurate(cfg.cb, s.entries[id].conn, e.conn, e.queued)
  {
    var c := s.entries[id].conn;
    match a
    case Writable(_, n) => HandleWriteIsAccurate(c, cfg.cb, n);
    case CallSend(_, message, _, n) => SendIsAccurate(c, cfg.cb, message, n);
    case RunTask(l, n) => SendIsAccurate(c, cfg.cb, Queue(s, l)[0].1.message, n);
  }

  /** An action queues high water for a connection, with a number, exactly when the callback is set and
      the pending output has just come from below the mark to that number, at or above the mark; it queues
      write-complete only when all that was accepted is on the wire, and whenever the last of it has just
      gone there and the callback is set. */
  ghost predicate NotifiesAccurately(cfg: Config, s: Sys, a: Action, id: ConnId)
    requires Enabled(cfg, s, a) && id in s.entries
  {
    && id in Step(cfg, s, a).entries
    && var c, c' := s.entries[id].conn, Step(cfg, s, a).entries[id].conn;
    && (forall pending: nat :: Gains(cfg, s, a, id, HighWaterTask(pending))
          <==> cfg.cb.highWater && |c.output| < cfg.cb.mark <= |c'.output| == pending)
    && (Gains(cfg, s, a, id, WriteCompleteTask) ==> cfg.cb.writeComplete && c'.wire == c'.accepted)
    && (cfg.cb.writeComplete && c'.wire == c'.accepted && c'.wire != c.wire
        ==> Gains(cfg, s, a, id, WriteCompleteTask))
  }

  lemma StepNotifies(cfg: Config, s: Sys, a: Action, id: ConnId)
    requires s.nextId !in s.entries && Enabled(cfg, s, a) && id in s.entries && SendInv(s.entries[id].conn)
    ensures NotifiesAccurately(cfg, s, a, id)
  {
    StepFollows(cfg, s, a, id);
    NotifiedBySendStep(cfg, s, a, id, WriteCompleteTask);
    forall pending: nat
      ensures Gains(cfg, s, a, id, HighWaterTask(pending)) <==> Queues(cfg, s, a, id, HighWaterTask(pending))
    {
      NotifiedBySendStep(cfg, s, a, id, HighWaterTask(pending));
    }
    if SendStep(cfg, s, a, id).Some? {
      SendStepIsAccurate(cfg, s, a, id);
    }
  }

  /** So does every action of every run. */
  lemma NotificationsAreAccurate(cfg: Config, actions: seq<Action>, a: Action, id: ConnId)
    requires Listens(cfg) && IsRun(cfg, INITIAL, actions)
    requires Enabled(cfg, Run(cfg, INITIAL, actions), a) && id in Run(cfg, INITIAL, actions).entries
    ensures NotifiesAccurately(cfg, Run(cfg, INITIAL, actions), a, id)
  {
    var s := Run(cfg, INITIAL, actions);
    ReachableInv(cfg, actions);
    NextIsUnknown(cfg, s);
    assert EntryInv(cfg, s, id);
    StepNotifies(cfg, s, a, id);
  }

  // ---------------------------------------------------------------- what the socket took

  /** How many bytes of a connection the socket takes in an action: in a write event while write interest
      is on, and in a send while it is off and nothing is buffered. */
  function TakenBy(s: Sys, a: Action, id: ConnId): nat {
    if id !in s.entries then 0
    else
      var c := s.entries[id].conn;
      var direct := !c.writeInterest && c.output == [];
      match a
      case Writable(id', n) => if id' == id && c.writeInterest then n else 0
      case CallSend(id', _, inLoop, n) => if id' == id && inLoop && c.stat == Connected && direct then n else 0
      case RunTask(l, n) =>
        if Queue(s, l) == [] then 0
        else
          var (id', t) := Queue(s, l)[0];
          if id' == id && t.SendTask? && c.stat != Disconnected && direct then n else 0
      case _ => 0
  }

  function Taken(cfg: Config, s: Sys, actions: seq<Action>, id: ConnId): nat
    requires IsRun(cfg, s, actions)
    decreases |actions|
  {
    if actions == [] then 0
    else TakenBy(s, actions[0], id) + Taken(cfg, Step(cfg, s, actions[0]), actions[1..], id)
  }

  function WireLength(s: Sys, id: ConnId): nat {
    if id in s.entries then |s.entries[id].conn.wire| else 0
  }

  lemma SendStepTakes(cfg: Config, s: Sys, a: Action, id: ConnId)
    requires Enabled(cfg, s, a) && id in s.entries
    ensures match SendStep(cfg, s, a, id)
            case Some(e) => |e.conn.wire| == |s.entries[id].conn.wire| + TakenBy(s, a, id)
            case None => TakenBy(s, a, id) == 0
  {
    var c := s.entries[id].conn;
    match a
    case Writable(id', n) => if id' == id { HandleWriteTakes(c, cfg.cb, n); }
    case CallSend(id', message, _, n) => if id' == id { SendTakes(c, cfg.cb, message, n); }
    case RunTask(l, n) =>
      var (id', t) := Queue(s, l)[0];
      if id' == id && t.SendTask? {
        SendTakes(c, cfg.cb, t.message, n);
      }
    case _ =>
  }

  lemma StepTakes(cfg: Config, s: Sys, a: Action, id: ConnId)
    requires s.nextId !in s.entries && Enabled(cfg, s, a)
    ensures WireLength(Step(cfg, s, a), id) == WireLength(s, id) + TakenBy(s, a, id)
  {
    if id in s.entries {
      StepFollows(cfg, s, a, id);
      SendStepTakes(cfg, s, a, id);
    } else if !a.Accept? {
      UnknownStays(cfg, s, a, id);
    }
  }

  lemma {:induction false} RunTakes(cfg: Config, s: Sys, actions: seq<Action>, id: ConnId)
    requires Inv(cfg, s) && IsRun(cfg, s, actions)
    ensures WireLength(Run(cfg, s, actions), id) == WireLength(s, id) + Taken(cfg, s, actions, id)
    decreases |actions|
  {
    if actions != [] {
      NextIsUnknown(cfg, s);
      StepTakes(cfg, s, actions[0], id);
      StepKeepsInv(cfg, s, actions[0]);
      RunTakes(cfg, Step(cfg, s, actions[0]), actions[1..], id);
    }
  }

  /** After every run, the messages handed over are on the wire just as far as the socket took them, and
      buffered from there on. */
  lemma WireIsWhatWasTaken(cfg: Config, actions: seq<Action>, id: ConnId)
    requires Listens(cfg) && IsRun(cfg, INITIAL, actions) && id in Run(cfg, INITIAL, actions).entries
    ensures var c := Run(cfg, INITIAL, actions).entries[id].conn;
            var handed, taken := Handed(cfg, INITIAL, actions, id), Taken(cfg, INITIAL, actions, id);
            taken <= |handed| && c.wire == handed[..taken] && c.output == handed[taken..]
  {
    BytesInOrder(cfg, actions, id);
    NamesAreProper(cfg);
    RunTakes(cfg, INITIAL, actions, id);
  }

  // ---------------------------------------------------------------- the life cycle over a run

  /** The order in which a connection goes through its states. */
  function Rank(stat: Stat): nat {
    match stat
    case Connecting => 0
    case Connected => 1
    case Disconnecting => 2
    case Disconnected => 3
  }

  predicate Advanced(s: Sys, s': Sys, id: ConnId) {
    id in s.entries && id in s'.entries && Rank(s.entries[id].conn.stat) <= Rank(s'.entries[id].conn.stat)
  }

  /** A connection whose turn to be established has come is connecting still. */
  predicate Ready(s: Sys, a: Action) {
    a.RunTask? && Queue(s, a.l) != [] ==>
      var (id, t) := Queue(s, a.l)[0];
      t == EstablishTask && id in s.entries ==> s.entries[id].conn.stat == Connecting
  }

  lemma ActionsAreReady(cfg: Config, s: Sys, a: Action)
    requires Inv(cfg, s)
    ensures Ready(s, a)
  {
    if a.RunTask? && Queue(s, a.l) != [] && Queue(s, a.l)[0].1 == EstablishTask {
      EstablishesConnecting(cfg, s, a.l, Queue(s, a.l)[0].0);
    }
  }

  lemma AfterAdvances(stat: Stat, event: Event)
    requires event == Establishing ==> stat == Connecting
    ensures Rank(stat) <= Rank(After(stat, event))
  {
  }

  lemma StepAdvances(cfg: Config, s: Sys, a: Action, id: ConnId)
    requires s.nextId !in s.entries && Ready(s, a) && DestroysNothing(s, a) && Enabled(cfg, s, a) && id in s.entries
    ensures Advanced(s, Step(cfg, s, a), id)
  {
    StepChangesStat(cfg, s, a, id);
    AfterAdvances(s.entries[id].conn.stat, EventOf(s, a, id));
  }

  lemma ActionAdvances(cfg: Config, s: Sys, a: Action, id: ConnId)
    requires Inv(cfg, s) && Enabled(cfg, s, a) && id in s.entries
    ensures Advanced(s, Step(cfg, s, a), id)
  {
    NextIsUnknown(cfg, s);
    ActionsAreReady(cfg, s, a);
    NothingIsDestroyed(cfg, s, a);
    StepAdvances(cfg, s, a, id);
  }

  /** In the course of any run a connection's state only goes forward: none is established twice, and
      none that was closed comes back. */
  lemma {:induction false} StatusOnlyAdvances(cfg: Config, s: Sys, actions: seq<Action>, id: ConnId)
    requires Inv(cfg, s) && IsRun(cfg, s, actions) && id in s.entries
    ensures Advanced(s, Run(cfg, s, actions), id)
    decreases |actions|
  {
    if actions != [] {
      ActionAdvances(cfg, s, actions[0], id);
      StepKeepsInv(cfg, s, actions[0]);
      StatusOnlyAdvances(cfg, Step(cfg, s, actions[0]), actions[1..], id);
    }
  }

  // ---------------------------------------------------------------- what each action does to the state

  /** What happens to a connection's state in an action, told by the action and the task it runs. */
  datatype Event = NoEvent | Establishing | AskedToClose | PeerGone | Forced

  function EventOf(s: Sys, a: Action, id: ConnId): Event {
    match a
    case RunTask(l, _) =>
      if Queue(s, l) == [] || Queue(s, l)[0].0 != id then NoEvent
      else if Queue(s, l)[0].1 == EstablishTask then Establishing
      else if Queue(s, l)[0].1 == ForceCloseTask then Forced
      else NoEvent
    case Readable(id', r) => if id' == id && r == 0 then PeerGone else NoEvent
    case CallShutDown(id', _) => if id' == id then AskedToClose else NoEvent
    case CallForceClose(id') => if id' == id then AskedToClose else NoEvent
    case CallForceCloseWithDelay(id') => if id' == id then AskedToClose else NoEvent
    case _ => NoEvent
  }

  function After(stat: Stat, event: Event): Stat {
    match event
    case NoEvent => stat
    case Establishing => Connected
    case AskedToClose => if stat == Connected then Disconnecting else stat
    case PeerGone => Disconnected
    case Forced => if stat == Connecting then Connecting else Disconnected
  }

  predicate HasStat(s: Sys, id: ConnId, stat: Stat) {
    id in s.entries && s.entries[id].conn.stat == stat
  }

  lemma TaskChangesStat(cfg: Config, c: Conn, t: Task, n: nat)
    requires t != DestroyTask && (t.SendTask? ==> n <= |t.message|)
    ensures TaskOn(cfg, c, t, n).stat == if t == EstablishTask then Connected
                                         else if t == ForceCloseTask then After(c.stat, Forced)
                                         else c.stat
  {
  }

  lemma ActionChangesStat(cfg: Config, s: Sys, a: Action)
    requires Enabled(cfg, s, a) && !a.Accept? && !a.RunTask?
    ensures var c := s.entries[a.id].conn; ActionOn(cfg, c, a).stat == After(c.stat, EventOf(s, a, a.id))
  {
    if a.CallSend? {
      SendKeepsStat(cfg, s.entries[a.id].conn, a);
    } else if a.Writable? {
      WriteKeepsStat(cfg, s.entries[a.id].conn, a);
    }
  }

  lemma SendKeepsStat(cfg: Config, c: Conn, a: Action)
    requires a.CallSend? && a.n <= |a.message|
    ensures ActionOn(cfg, c, a).stat == c.stat
  {
  }

  lemma WriteKeepsStat(cfg: Config, c: Conn, a: Action)
    requires a.Writable? && a.n <= |c.output|
    ensures ActionOn(cfg, c, a).stat == c.stat
  {
  }

  /** No destruction is ever run. */
  predicate DestroysNothing(s: Sys, a: Action) {
    a.RunTask? && Queue(s, a.l) != [] ==> Queue(s, a.l)[0].1 != DestroyTask
  }

  lemma NothingIsDestroyed(cfg: Config, s: Sys, a: Action)
    requires Inv(cfg, s) && Enabled(cfg, s, a)
    ensures DestroysNothing(s, a)
  {
    if a.RunTask? && Queue(s, a.l)[0].1 == DestroyTask {
      DestroyIsStuck(cfg, s, a.l, Queue(s, a.l)[0].0);
    }
  }

  lemma StepChangesStat(cfg: Config, s: Sys, a: Action, id: ConnId)
    requires s.nextId !in s.entries && DestroysNothing(s, a) && Enabled(cfg, s, a) && id in s.entries
    ensures HasStat(Step(cfg, s, a), id, After(s.entries[id].conn.stat, EventOf(s, a, id)))
  {
    match a
    case Accept(_, _) =>
    case RunTask(l, n) =>
      PerformEntries(cfg, Pop(s, l), Queue(s, l)[0].0, Queue(s, l)[0].1, n, id);
      TaskChangesStat(cfg, s.entries[id].conn, Queue(s, l)[0].1, n);
    case _ =>
      ActionEntries(cfg, s, a, id);
      ActionChangesStat(cfg, s, a);
  }

  /** In every reachable state, every action changes a connection's state as the event it is to it says: it is
      connected when it is established, disconnecting when it was connected and is asked to close in one of the
      three ways, disconnected at an end of file and when a forced close has its turn, and as before
      otherwise. */
  lemma StatusFollowsEvents(cfg: Config, actions: seq<Action>, a: Action, id: ConnId)
    requires Listens(cfg) && IsRun(cfg, INITIAL, actions)
    requires Enabled(cfg, Run(cfg, INITIAL, actions), a) && id in Run(cfg, INITIAL, actions).entries
    ensures var s := Run(cfg, INITIAL, actions);
            HasStat(Step(cfg, s, a), id, After(s.entries[id].conn.stat, EventOf(s, a, id)))
  {
    var s := Run(cfg, INITIAL, actions);
    ReachableInv(cfg, actions);
    NextIsUnknown(cfg, s);
    NothingIsDestroyed(cfg, s, a);
    StepChangesStat(cfg, s, a, id);
  }

  /** The actions that close a connection, or ask for it. */
  predicate Closing(a: Action, id: ConnId) {
    ((a.CallShutDown? || a.CallForceClose? || a.CallForceCloseWithDelay?) && a.id == id) || a == Readable(id, 0)
  }

  /** A connection is open, and no forced close waits for it. */
  ghost predicate Open(s: Sys, id: ConnId) {
    id in s.entries ==>
      var e := s.entries[id];
      (e.conn.stat == Connecting || e.conn.stat == Connected) && Count(s, e.loop, id, ForceCloseTask) == 0
  }

  lemma EnqueueForces(s: Sys, l': LoopId, id': ConnId, t: Task, l: LoopId, id: ConnId)
    requires t != ForceCloseTask || id' != id
    ensures Count(Enqueue(s, l', id', t), l, id, ForceCloseTask) == Count(s, l, id, ForceCloseTask)
  {
    EnqueueCounts(s, l', id', t, l, id, ForceCloseTask);
  }

  lemma ApplyForces(s: Sys, id': ConnId, e: Effect, l: LoopId, id: ConnId)
    requires id' in s.entries && (e.queued == Some(ForceCloseTask) ==> id' != id)
    ensures Count(Apply(s, id', e), l, id, ForceCloseTask) == Count(s, l, id, ForceCloseTask)
  {
    if e.queued.Some? {
      EnqueueForces(SetConn(s, id', e.conn), s.entries[id'].loop, id', e.queued.value, l, id);
    }
  }

  lemma RemoveForces(s: Sys, id': ConnId, l: LoopId, id: ConnId)
    requires id' in s.entries
    ensures Count(RemoveInLoop(s, id'), l, id, ForceCloseTask) == Count(s, l, id, ForceCloseTask)
  {
    var e := s.entries[id'];
    var erased := if e.name in s.table then 1 else 0;
    var s' := SetEntry(s, id', e.(erases := e.erases + erased)).(table := s.table - {e.name});
    EnqueueForces(s', e.loop, id', DestroyTask, l, id);
  }

  lemma CloseForces(cfg: Config, s: Sys, id': ConnId, l: LoopId, id: ConnId)
    requires id' in s.entries
    ensures Count(Close(cfg, s, id'), l, id, ForceCloseTask) == Count(s, l, id, ForceCloseTask)
  {
    var s' := SetEntry(s, id', Closed(s.entries[id']));
    if s.entries[id'].loop == cfg.base {
      RemoveForces(s', id', l, id);
    } else {
      EnqueueForces(s', cfg.base, id', RemoveTask, l, id);
    }
  }

  lemma TaskForces(cfg: Config, s: Sys, id': ConnId, t: Task, n: nat, l: LoopId, id: ConnId)
    requires id' in s.entries && (t.SendTask? ==> n <= |t.message|)
    ensures Count(Perform(cfg, s, id', t, n), l, id, ForceCloseTask) == Count(s, l, id, ForceCloseTask)
  {
    match t
    case SendTask(message) => ApplyForces(s, id', SendInLoop(s.entries[id'].conn, cfg.cb, message, n), l, id);
    case ForceCloseTask => CloseForces(cfg, s, id', l, id);
    case RemoveTask => RemoveForces(s, id', l, id);
    case _ =>
  }

  lemma ActionForces(cfg: Config, s: Sys, a: Action, l: LoopId, id: ConnId)
    requires Enabled(cfg, s, a) && !a.Accept? && !a.RunTask? && (a.CallForceClose? ==> a.id != id)
    ensures Count(Step(cfg, s, a), l, id, ForceCloseTask) == Count(s, l, id, ForceCloseTask)
  {
    var c, l' := s.entries[a.id].conn, s.entries[a.id].loop;
    match a
    case Readable(id', _) => CloseForces(cfg, s, id', l, id);
    case Writable(id', n) => ApplyForces(s, id', HandleWrite(c, cfg.cb, n), l, id);
    case CallSend(id', message, inLoop, n) => ApplyForces(s, id', Send(c, cfg.cb, message, inLoop, n), l, id);
    case CallShutDown(id', inLoop) => ApplyForces(s, id', ShutDown(c, inLoop), l, id);
    case CallForceClose(id') => ApplyForces(s, id', ForceClose(c), l, id);
    case CallForceCloseWithDelay(_) =>
    case CallStartRead(id', _) => EnqueueForces(s, l', id', StartReadTask, l, id);
    case CallStopRead(id', _) => EnqueueForces(s, l', id', StopReadTask, l, id);
  }

  lemma StepForces(cfg: Config, s: Sys, a: Action, l: LoopId, id: ConnId)
    requires Enabled(cfg, s, a) && (a.CallForceClose? ==> a.id != id)
    ensures Count(Step(cfg, s, a), l, id, ForceCloseTask) <= Count(s, l, id, ForceCloseTask)
  {
    match a
    case Accept(loop, reading) =>
      EnqueueForces(NewConnection(cfg, s, loop, reading).(queues := s.queues), loop, s.nextId, EstablishTask, l, id);
    case RunTask(l', n) =>
      PopCounts(s, l', l, id, ForceCloseTask);
      TaskForces(cfg, Pop(s, l'), Queue(s, l')[0].0, Queue(s, l')[0].1, n, l, id);
    case _ => ActionForces(cfg, s, a, l, id);
  }

  lemma LoopStays(cfg: Config, s: Sys, a: Action, id: ConnId)
    requires s.nextId !in s.entries && Enabled(cfg, s, a) && id in s.entries
    ensures id in Step(cfg, s, a).entries && Step(cfg, s, a).entries[id].loop == s.entries[id].loop
  {
    match a
    case Accept(_, _) =>
    case RunTask(l, n) => PerformEntries(cfg, Pop(s, l), Queue(s, l)[0].0, Queue(s, l)[0].1, n, id);
    case _ => ActionEntries(cfg, s, a, id);
  }

  lemma ForceWaits(cfg: Config, s: Sys, l: LoopId, id: ConnId)
    requires QueuesInv(cfg, s) && Queue(s, l) != [] && Queue(s, l)[0] == (id, ForceCloseTask)
    ensures id in s.entries && Count(s, s.entries[id].loop, id, ForceCloseTask) > 0
  {
    assert RightLoop(cfg, s, l, Queue(s, l)[0].0, Queue(s, l)[0].1);
    PopCounts(s, l, l, id, ForceCloseTask);
  }

  lemma OpenIsNotForced(cfg: Config, s: Sys, a: Action, id: ConnId)
    requires QueuesInv(cfg, s) && Open(s, id)
    ensures EventOf(s, a, id) != Forced
  {
    if a.RunTask? && Queue(s, a.l) != [] && Queue(s, a.l)[0] == (id, ForceCloseTask) {
      ForceWaits(cfg, s, a.l, id);
    }
  }

  lemma KnownStaysOpen(cfg: Config, s: Sys, a: Action, id: ConnId)
    requires s.nextId !in s.entries && DestroysNothing(s, a) && Enabled(cfg, s, a)
    requires !Closing(a, id) && EventOf(s, a, id) != Forced && id in s.entries && Open(s, id)
    ensures Open(Step(cfg, s, a), id)
  {
    StepChangesStat(cfg, s, a, id);
    LoopStays(cfg, s, a, id);
    StepForces(cfg, s, a, s.entries[id].loop, id);
  }

  lemma AcceptedIsOpen(cfg: Config, s: Sys, a: Action, id: ConnId)
    requires QueuesInv(cfg, s) && Enabled(cfg, s, a) && id !in s.entries
    ensures Open(Step(cfg, s, a), id)
  {
    if !a.Accept? {
      UnknownStays(cfg, s, a, id);
    } else if id == s.nextId {
      UnknownIsNotQueued(cfg, s, a.loop, id, ForceCloseTask);
      StepForces(cfg, s, a, a.loop, id);
    }
  }

  lemma {:induction false} RunStaysOpen(cfg: Config, s: Sys, actions: seq<Action>, id: ConnId)
    requires Inv(cfg, s) && IsRun(cfg, s, actions) && Open(s, id)
    requires forall i :: 0 <= i < |actions| ==> !Closing(actions[i], id)
    ensures Open(Run(cfg, s, actions), id)
    decreases |actions|
  {
    if actions != [] {
      assert !Closing(actions[0], id);
      if id in s.entries {
        NextIsUnknown(cfg, s);
        NothingIsDestroyed(cfg, s, actions[0]);
        OpenIsNotForced(cfg, s, actions[0], id);
        KnownStaysOpen(cfg, s, actions[0], id);
      } else {
        AcceptedIsOpen(cfg, s, actions[0], id);
      }
      StepKeepsInv(cfg, s, actions[0]);
      RunStaysOpen(cfg, Step(cfg, s, actions[0]), actions[1..], id);
    }
  }

  /** After every run in which nobody shuts a connection down or forces it to close and its peer does not end:
      it is connecting while it waits to be established, and connected otherwise. */
  lemma OpenUntilClosed(cfg: Config, actions: seq<Action>, id: ConnId)
    requires Listens(cfg) && IsRun(cfg, INITIAL, actions) && id in Run(cfg, INITIAL, actions).entries
    requires forall i :: 0 <= i < |actions| ==> !Closing(actions[i], id)
    ensures var s := Run(cfg, INITIAL, actions);
            var e := s.entries[id];
            e.conn.stat == if Count(s, e.loop, id, EstablishTask) > 0 then Connecting else Connected
  {
    NamesAreProper(cfg);
    RunStaysOpen(cfg, INITIAL, actions, id);
    ReachableInv(cfg, actions);
    assert EntryInv(cfg, Run(cfg, INITIAL, actions), id);
  }

  /** A new connection is in the table under its number. In the base loop it is connected at once; in another
      loop it is connecting, and its establishing waits there behind everything else. */
  lemma AcceptRegisters(cfg: Config, actions: seq<Action>, loop: LoopId, reading: bool)
    requires Listens(cfg) && IsRun(cfg, INITIAL, actions) && Run(cfg, INITIAL, actions).nextId < INT_MAX
    ensures var s := Run(cfg, INITIAL, actions);
            var s' := Step(cfg, s, Accept(loop, reading));
            && s.nextId !in s.entries && InTable(s', s.nextId)
            && s'.nextId == s.nextId + 1 && s'.entries[s.nextId].loop == loop
            && s'.entries[s.nextId].conn.stat == (if loop == cfg.base then Connected else Connecting)
            && Queue(s', loop) == Queue(s, loop) + if loop == cfg.base then [] else [(s.nextId, EstablishTask)]
  {
    ReachableInv(cfg, actions);
    NextIsUnknown(cfg, Run(cfg, INITIAL, actions));
  }

  // ---------------------------------------------------------------- reading, shutting down, and calls from outside

  /** Whether read interest is on after an action, told by the action and the task it runs. */
  function ReadsAfter(s: Sys, a: Action, id: ConnId): bool
    requires id in s.entries
  {
    match a
    case CallStartRead(id', inLoop) => (id' == id && inLoop) || s.entries[id].conn.readInterest
    case CallStopRead(id', inLoop) => !(id' == id && inLoop) && s.entries[id].conn.readInterest
    case RunTask(l, _) =>
      if Queue(s, l) == [] || Queue(s, l)[0].0 != id then s.entries[id].conn.readInterest
      else if Queue(s, l)[0].1 == StartReadTask || Queue(s, l)[0].1 == EstablishTask then true
      else Queue(s, l)[0].1 != StopReadTask && s.entries[id].conn.readInterest
    case _ => s.entries[id].conn.readInterest
  }

  predicate Reads(s: Sys, id: ConnId, on: bool) {
    id in s.entries && s.entries[id].conn.readInterest == on
  }

  lemma TaskReads(cfg: Config, c: Conn, t: Task, n: nat)
    requires t != DestroyTask && (t.SendTask? ==> n <= |t.message|)
    ensures TaskOn(cfg, c, t, n).readInterest
            == if t == StartReadTask || t == EstablishTask then true else t != StopReadTask && c.readInterest
  {
  }

  lemma ActionReads(cfg: Config, s: Sys, a: Action)
    requires Enabled(cfg, s, a) && !a.Accept? && !a.RunTask?
    ensures ActionOn(cfg, s.entries[a.id].conn, a).readInterest == ReadsAfter(s, a, a.id)
  {
  }

  lemma StepReads(cfg: Config, s: Sys, a: Action, id: ConnId)
    requires s.nextId !in s.entries && DestroysNothing(s, a) && Enabled(cfg, s, a) && id in s.entries
    ensures Reads(Step(cfg, s, a), id, ReadsAfter(s, a, id))
  {
    match a
    case Accept(_, _) =>
    case RunTask(l, n) =>
      PerformEntries(cfg, Pop(s, l), Queue(s, l)[0].0, Queue(s, l)[0].1, n, id);
      TaskReads(cfg, s.entries[id].conn, Queue(s, l)[0].1, n);
    case _ =>
      ActionEntries(cfg, s, a, id);
      ActionReads(cfg, s, a);
  }

  /** In every reachable state, read interest comes on when a connection is established or a call to start
      reading gets to its loop, goes off when one to stop does, and stays as it is otherwise. */
  lemma ReadingFollowsCalls(cfg: Config, actions: seq<Action>, a: Action, id: ConnId)
    requires Listens(cfg) && IsRun(cfg, INITIAL, actions)
    requires Enabled(cfg, Run(cfg, INITIAL, actions), a) && id in Run(cfg, INITIAL, actions).entries
    ensures var s := Run(cfg, INITIAL, actions); Reads(Step(cfg, s, a), id, ReadsAfter(s, a, id))
  {
    var s := Run(cfg, INITIAL, actions);
    ReachableInv(cfg, actions);
    NextIsUnknown(cfg, s);
    NothingIsDestroyed(cfg, s, a);
    StepReads(cfg, s, a, id);
  }

  /** Whether the write side is shut after an action: once shut it stays so, and a shutdown that gets to the
      loop shuts it while output is pending. */
  function ShutAfter(s: Sys, a: Action, id: ConnId): bool
    requires id in s.entries
  {
    var c := s.entries[id].conn;
    match a
    case CallShutDown(id', inLoop) => c.writeShut || (id' == id && inLoop && c.stat == Connected && c.output != [])
    case RunTask(l, _) =>
      c.writeShut || (Queue(s, l) != [] && Queue(s, l)[0] == (id, ShutdownTask) && c.output != [])
    case _ => c.writeShut
  }

  predicate Shut(s: Sys, id: ConnId, shut: bool) {
    id in s.entries && s.entries[id].conn.writeShut == shut
  }

  lemma TaskShuts(cfg: Config, c: Conn, t: Task, n: nat)
    requires SendInv(c) && (t.SendTask? ==> n <= |t.message|)
    ensures TaskOn(cfg, c, t, n).writeShut == (c.writeShut || (t == ShutdownTask && c.output != []))
  {
  }

  lemma ActionShuts(cfg: Config, s: Sys, a: Action)
    requires Enabled(cfg, s, a) && !a.Accept? && !a.RunTask? && SendInv(s.entries[a.id].conn)
    ensures ActionOn(cfg, s.entries[a.id].conn, a).writeShut == ShutAfter(s, a, a.id)
  {
  }

  lemma StepShuts(cfg: Config, s: Sys, a: Action, id: ConnId)
    requires s.nextId !in s.entries && Enabled(cfg, s, a) && id in s.entries && SendInv(s.entries[id].conn)
    ensures Shut(Step(cfg, s, a), id, ShutAfter(s, a, id))
  {
    match a
    case Accept(_, _) =>
    case RunTask(l, n) =>
      PerformEntries(cfg, Pop(s, l), Queue(s, l)[0].0, Queue(s, l)[0].1, n, id);
      TaskShuts(cfg, s.entries[id].conn, Queue(s, l)[0].1, n);
    case _ =>
      ActionEntries(cfg, s, a, id);
      if a.id == id {
        ActionShuts(cfg, s, a);
      }
  }

  /** In every reachable state the write side is shut by an action exactly when it lets a shutdown get to the
      loop while output is pending: the drained output of a closing connection is never followed by one. */
  lemma ShutdownsCutPending(cfg: Config, actions: seq<Action>, a: Action, id: ConnId)
    requires Listens(cfg) && IsRun(cfg, INITIAL, actions)
    requires Enabled(cfg, Run(cfg, INITIAL, actions), a) && id in Run(cfg, INITIAL, actions).entries
    ensures var s := Run(cfg, INITIAL, actions); Shut(Step(cfg, s, a), id, ShutAfter(s, a, id))
  {
    var s := Run(cfg, INITIAL, actions);
    ReachableInv(cfg, actions);
    NextIsUnknown(cfg, s);
    assert EntryInv(cfg, s, id);
    StepShuts(cfg, s, a, id);
  }

  /** What a call leaves waiting on the connection's loop. */
  function LeftWaiting(c: Conn, a: Action): seq<Task> {
    match a
    case CallSend(_, message, inLoop, _) => if !inLoop && c.stat == Connected then [SendTask(message)] else []
    case CallShutDown(_, inLoop) => if !inLoop && c.stat == Connected then [ShutdownTask] else []
    case CallForceClose(_) => if c.stat == Connected || c.stat == Disconnecting then [ForceCloseTask] else []
    case CallStartRead(_, inLoop) => if inLoop then [] else [StartReadTask]
    case CallStopRead(_, inLoop) => if inLoop then [] else [StopReadTask]
    case _ => []
  }

  /** A call from outside the loop waits at the end of the connection's own queue, and no other queue
      changes; a send in the loop is left to `NotificationsAreAccurate`. */
  lemma CallsWait(cfg: Config, s: Sys, a: Action, l: LoopId)
    requires Enabled(cfg, s, a) && !a.Accept? && !a.RunTask? && !a.Readable? && !a.Writable?
    requires a.CallSend? ==> !a.inLoop
    ensures var e := s.entries[a.id];
            var waiting := LeftWaiting(e.conn, a);
            Queue(Step(cfg, s, a), l)
            == Queue(s, l) + if l == e.loop && waiting != [] then [(a.id, waiting[0])] else []
  {
  }

  /** The action is of a known connection, the system call in it returns what such a call can, and it is none
      of the three at which a run stops: a connection when the counter is used up, an end of file where the
      connection is not alive, and a destruction. */
  predicate Possible(s: Sys, a: Action) {
    match a
    case Accept(_, _) => s.nextId < INT_MAX
    case RunTask(l, n) =>
      && Queue(s, l) != [] && Queue(s, l)[0].1 != DestroyTask
      && (Queue(s, l)[0].1.SendTask? ==> n <= |Queue(s, l)[0].1.message|)
    case Readable(id, r) =>
      id in s.entries && -1 <= r < TWO_TO_THE_64
      && (r == 0 ==> s.entries[id].conn.stat == Connected || s.entries[id].conn.stat == Disconnecting)
    case Writable(id, n) => id in s.entries && n <= |s.entries[id].conn.output|
    case CallSend(id, message, _, n) => id in s.entries && n <= |message|
    case _ => a.id in s.entries
  }

  lemma PossibleIsEnabled(cfg: Config, s: Sys, a: Action)
    requires Possible(s, a) && (a.RunTask? ==> Queue(s, a.l)[0].0 in s.entries)
    ensures Enabled(cfg, s, a)
  {
  }

  /** Nothing else stops a run: every loop can go on with what has waited longest, and everybody can call. */
  lemma NothingElseStops(cfg: Config, actions: seq<Action>, a: Action)
    requires Listens(cfg) && IsRun(cfg, INITIAL, actions) && Possible(Run(cfg, INITIAL, actions), a)
    ensures Enabled(cfg, Run(cfg, INITIAL, actions), a)
  {
    var s := Run(cfg, INITIAL, actions);
    if a.RunTask? {
      ReachableInv(cfg, actions);
      assert RightLoop(cfg, s, a.l, Queue(s, a.l)[0].0, Queue(s, a.l)[0].1);
    }
    PossibleIsEnabled(cfg, s, a);
  }

  // ---------------------------------------------------------------- closing over a run

  /** A closed connection takes nothing. */
  lemma {:induction false} ClosedTakesNothing(cfg: Config, s: Sys, actions: seq<Action>, id: ConnId)
    requires Inv(cfg, s) && IsRun(cfg, s, actions) && id in s.entries && s.entries[id].conn.stat == Disconnected
    ensures Handed(cfg, s, actions, id) == []
    decreases |actions|
  {
    if actions != [] {
      ActionAdvances(cfg, s, actions[0], id);
      StepKeepsInv(cfg, s, actions[0]);
      ClosedTakesNothing(cfg, Step(cfg, s, actions[0]), actions[1..], id);
    }
  }

  lemma ClosingTakesRan(cfg: Config, s: Sys, a: Action, id: ConnId)
    requires Enabled(cfg, s, a) && id in s.entries && s.entries[id].conn.stat == Disconnecting
    ensures HandedBy(s, a, id) == RanBy(s, a, id) && SentOutsideBy(s, a, id) == []
  {
  }

  /** While it is closing, it takes what its queued sends bring and nothing else. */
  lemma ClosingTakesQueued(cfg: Config, s: Sys, a: Action, id: ConnId)
    requires Inv(cfg, s) && Enabled(cfg, s, a) && id in s.entries && s.entries[id].conn.stat == Disconnecting
    ensures WaitingOf(s, id) == HandedBy(s, a, id) + WaitingOf(Step(cfg, s, a), id)
  {
    ClosingTakesRan(cfg, s, a, id);
    StepWaits(cfg, s, a, id);
    assert WaitingOf(s, id) + [] == WaitingOf(s, id);
  }

  /** From the moment on at which a shutdown or a close has been asked for, whatever is sent afterwards and
      in whatever order: the only bytes a connection still takes are those of sends that were queued by then,
      in their order, up to some point. */
  lemma {:induction false} ClosingTakesOnlyQueued(cfg: Config, s: Sys, actions: seq<Action>, id: ConnId)
    requires Inv(cfg, s) && IsRun(cfg, s, actions)
    requires id in s.entries && Rank(s.entries[id].conn.stat) >= Rank(Disconnecting)
    ensures Handed(cfg, s, actions, id) <= WaitingOf(s, id)
    decreases |actions|
  {
    if s.entries[id].conn.stat == Disconnected {
      ClosedTakesNothing(cfg, s, actions, id);
    } else if actions != [] {
      var s' := Step(cfg, s, actions[0]);
      ClosingTakesQueued(cfg, s, actions[0], id);
      ActionAdvances(cfg, s, actions[0], id);
      StepKeepsInv(cfg, s, actions[0]);
      ClosingTakesOnlyQueued(cfg, s', actions[1..], id);
      PrefixBehind(HandedBy(s, actions[0], id), Handed(cfg, s', actions[1..], id), WaitingOf(s', id));
    }
  }

  lemma PrefixBehind(head: seq<byte>, a: seq<byte>, b: seq<byte>)
    requires a <= b
    ensures head + a <= head + b
  {
  }

  /** Forcing a live connection to close leaves a task on its loop; */
  lemma ForceCloseQueues(cfg: Config, s: Sys, id: ConnId)
    requires id in s.entries && Alive(s.entries[id].conn)
    ensures var s' := Apply(s, id, ForceClose(s.entries[id].conn));
            Alive(s'.entries[id].conn) && Count(s', s.entries[id].loop, id, ForceCloseTask) > 0
  {
    var c, l := s.entries[id].conn, s.entries[id].loop;
    EnqueueCounts(SetConn(s, id, ForceClose(c).conn), l, id, ForceCloseTask, l, id, ForceCloseTask);
  }

  /** and such a task, whenever it runs, leaves the connection closed, with its one removal done or waiting. */
  lemma ForceCloseCloses(cfg: Config, s: Sys, id: ConnId)
    requires Inv(cfg, s) && id in s.entries && s.entries[id].conn.stat != Connecting
    ensures var s' := Perform(cfg, s, id, ForceCloseTask, 0);
            && id in s'.entries && s'.entries[id].conn.stat == Disconnected
            && s'.entries[id].erases + Count(s', cfg.base, id, RemoveTask) == 1
  {
    PerformKeepsInv(cfg, s, id, ForceCloseTask, 0);
    ForcedIsClosed(cfg, s, id);
    ClosedBooks(cfg, Perform(cfg, s, id, ForceCloseTask, 0), id);
  }

  lemma ForcedIsClosed(cfg: Config, s: Sys, id: ConnId)
    requires id in s.entries && s.entries[id].conn.stat != Connecting
    ensures var s' := Perform(cfg, s, id, ForceCloseTask, 0);
            id in s'.entries && s'.entries[id].conn.stat == Disconnected
  {
  }

  lemma ClosedBooks(cfg: Config, s: Sys, id: ConnId)
    requires Inv(cfg, s) && id in s.entries && s.entries[id].conn.stat == Disconnected
    ensures s.entries[id].erases + Count(s, cfg.base, id, RemoveTask) == 1
  {
    assert EntryInv(cfg, s, id);
  }

  /** The assert of `handleClose` (TcpConnection.cc:170), which a forced close tests for itself: an end of
      file meets it exactly when the connection is established and its removal is neither waiting nor
      done, for a closed connection has exactly one of the two outstanding. */
  lemma CloseAssertHoldsUntilRemoval(cfg: Config, actions: seq<Action>, id: ConnId)
    requires Listens(cfg) && IsRun(cfg, INITIAL, actions) && id in Run(cfg, INITIAL, actions).entries
    ensures var s := Run(cfg, INITIAL, actions);
            var e := s.entries[id];
            var toEstablish := Count(s, e.loop, id, EstablishTask);
            var toRemove := Count(s, cfg.base, id, RemoveTask) + Count(s, e.loop, id, DestroyTask);
            && (e.conn.stat == Connecting <==> toEstablish == 1) && (e.conn.stat == Disconnected <==> toRemove == 1)
            && toEstablish + toRemove <= 1
            && (Enabled(cfg, s, Readable(id, 0)) <==> toEstablish + toRemove == 0)
  {
    var s := Run(cfg, INITIAL, actions);
    ReachableInv(cfg, actions);
    assert EntryInv(cfg, s, id);
    OneOutstanding(cfg, s, id);
    assert Enabled(cfg, s, Readable(id, 0)) <==> Alive(s.entries[id].conn);
  }

  lemma OneOutstanding(cfg: Config, s: Sys, id: ConnId)
    requires id in s.entries && Balanced(cfg, s, id)
    ensures var e := s.entries[id];
            var toEstablish := Count(s, e.loop, id, EstablishTask);
            var toRemove := Count(s, cfg.base, id, RemoveTask) + Count(s, e.loop, id, DestroyTask);
            && toEstablish == (if e.conn.stat == Connecting then 1 else 0)
            && toRemove == (if e.conn.stat == Disconnected then 1 else 0)
  {
  }

  // ---------------------------------------------------------------- runs that end at an assert

  lemma RunOfTwo(cfg: Config, s: Sys, a: Action, b: Action) returns (s': Sys)
    requires Enabled(cfg, s, a) && Enabled(cfg, Step(cfg, s, a), b)
    ensures IsRun(cfg, s, [a, b]) && s' == Run(cfg, s, [a, b]) == Step(cfg, Step(cfg, s, a), b)
  {
    var s1 := Step(cfg, s, a);
    s' := Step(cfg, s1, b);
    assert [a, b][1..] == [b] && [b][1..] == [];
    assert IsRun(cfg, s', []) && Run(cfg, s', []) == s';
    assert IsRun(cfg, s1, [b]) && Run(cfg, s1, [b]) == s';
  }

  lemma RunFirst(cfg: Config, s: Sys, a: Action, rest: seq<Action>)
    requires Enabled(cfg, s, a) && IsRun(cfg, Step(cfg, s, a), rest)
    ensures IsRun(cfg, s, [a] + rest) && Run(cfg, s, [a] + rest) == Run(cfg, Step(cfg, s, a), rest)
  {
    assert ([a] + rest)[1..] == rest;
  }

  /** Closing leaves the channel's interests on, so a second end of file, reported before the removal has
      got to the connection's loop, fails the assert on TcpConnection.cc:170. */
  lemma CloseAssertCanFail(cfg: Config)
    ensures var l := cfg.base + 1;
            var actions := [Accept(l, false)] + [RunTask(l, 0), Readable(1, 0)];
            && IsRun(cfg, INITIAL, actions)
            && var s := Run(cfg, INITIAL, actions);
            && 1 in s.entries && s.entries[1].conn.stat == Disconnected
            && s.entries[1].conn.readInterest && s.entries[1].conn.index == Added
            && Queue(s, cfg.base) == [(1, RemoveTask)] && !Enabled(cfg, s, Readable(1, 0))
  {
    var l := cfg.base + 1;
    var s1 := Step(cfg, INITIAL, Accept(l, false));
    assert Queue(s1, l) == [(1, EstablishTask)];
    var s2 := Step(cfg, s1, RunTask(l, 0));
    assert s2.entries[1].conn == Establish(NewConn(false));
    assert Queue(s2, cfg.base) == [];
    var s3 := RunOfTwo(cfg, s1, RunTask(l, 0), Readable(1, 0));
    RunFirst(cfg, INITIAL, Accept(l, false), [RunTask(l, 0), Readable(1, 0)]);
  }

  lemma ClosedInBase(cfg: Config, s: Sys, id: ConnId)
    requires id in s.entries && s.entries[id].loop == cfg.base
    ensures var s' := Close(cfg, s, id);
            && id in s'.entries && s'.entries[id].conn == HandleClose(s.entries[id].conn)
            && Queue(s', cfg.base) == Queue(s, cfg.base) + [(id, DestroyTask)]
  {
  }

  /** A connection in the base loop is closed by its peer: the destruction finds read interest on, and the
      assert on Channel.cc:42 fails. */
  lemma RemoveAssertFails(cfg: Config)
    ensures var actions := [Accept(cfg.base, false), Readable(1, 0)];
            && IsRun(cfg, INITIAL, actions)
            && var s := Run(cfg, INITIAL, actions);
            && 1 in s.entries && Queue(s, cfg.base) == [(1, DestroyTask)]
            && s.entries[1].conn.readInterest && !NoInterest(s.entries[1].conn)
  {
    var s1 := Step(cfg, INITIAL, Accept(cfg.base, false));
    assert s1.entries[1].conn == Establish(NewConn(false)) && Queue(s1, cfg.base) == [];
    ClosedInBase(cfg, s1, 1);
    var s2 := RunOfTwo(cfg, INITIAL, Accept(cfg.base, false), Readable(1, 0));
  }

  lemma ForcedInBase(cfg: Config, s: Sys, id: ConnId)
    requires id in s.entries && s.entries[id].loop == cfg.base && Alive(s.entries[id].conn) && Queue(s, cfg.base) == []
    ensures var actions := [CallForceClose(id), RunTask(cfg.base, 0)];
            && IsRun(cfg, s, actions)
            && var s' := Run(cfg, s, actions);
            && id in s'.entries && s'.entries[id].conn == s.entries[id].conn.(stat := Disconnected)
            && Queue(s', cfg.base) == [(id, DestroyTask)]
  {
    var s1 := Step(cfg, s, CallForceClose(id));
    assert Queue(s1, cfg.base) == [(id, ForceCloseTask)] && Alive(s1.entries[id].conn);
    ClosedInBase(cfg, Pop(s1, cfg.base), id);
    var s2 := RunOfTwo(cfg, s, CallForceClose(id), RunTask(cfg.base, 0));
  }

  /** Its reading is stopped before it is closed by force: the destruction finds no interest and the
      channel out of the poller already, and the assert on EpollPoller.cc:67 fails. */
  lemma PollerAssertFails(cfg: Config)
    ensures var b := cfg.base;
            var actions := [Accept(b, false)] + ([CallStopRead(1, true)] + [CallForceClose(1), RunTask(b, 0)]);
            && IsRun(cfg, INITIAL, actions)
            && var s := Run(cfg, INITIAL, actions);
            && 1 in s.entries && Queue(s, b) == [(1, DestroyTask)]
            && NoInterest(s.entries[1].conn) && s.entries[1].conn.index == Deleted
  {
    var b := cfg.base;
    var s1 := Step(cfg, INITIAL, Accept(b, false));
    assert s1.entries[1].conn == Establish(NewConn(false)) && Queue(s1, b) == [];
    var s2 := Step(cfg, s1, CallStopRead(1, true));
    assert s2.entries[1].conn == StopReadInLoop(Establish(NewConn(false))) && Queue(s2, b) == [];
    ForcedInBase(cfg, s2, 1);
    RunFirst(cfg, s1, CallStopRead(1, true), [CallForceClose(1), RunTask(b, 0)]);
    RunFirst(cfg, INITIAL, Accept(b, false), [CallStopRead(1, true)] + [CallForceClose(1), RunTask(b, 0)]);
  }
}
