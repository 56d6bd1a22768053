/**
 The send path and the life cycle of one TCP connection (TcpConnection.cc) as steps on a value: each
 function body is one atomic step. The lemmas say what the steps keep.
 */
module ConnectionSteps {
  import opened NetworkOrder

  type ConnId = nat

  datatype Option<T> = None | Some(value: T)

  datatype Stat = Connected | Connecting | Disconnected | Disconnecting

  /** How the poller keeps a channel: not yet, among those that epoll watches, or no longer among them. */
  datatype PollIndex = New | Added | Deleted

  /** What can be queued on an event loop for a connection. */
  datatype Task =
    | EstablishTask
    | SendTask(message: seq<byte>)
    | ShutdownTask
    | ForceCloseTask
    | StartReadTask
    | StopReadTask
    | WriteCompleteTask
    | HighWaterTask(pending: nat)
    | RemoveTask
    | DestroyTask

  /** Which of the optional callbacks are set, and the mark from which on output counts as high: 64 MiB
      in the code, any number here. */
  datatype Callbacks = Callbacks(writeComplete: bool, highWater: bool, mark: nat)

  /** A connection: its status, the interests of its channel and the channel's index in the poller, its
      output buffer; and as history, all bytes it accepted for sending, all bytes that the socket took,
      whether the write side was shut, how often high water was queued and how often the output fell
      below the mark. */
  datatype Conn = Conn(
    stat: Stat, reading: bool, readInterest: bool, writeInterest: bool, index: PollIndex, output: seq<byte>,
    accepted: seq<byte>, wire: seq<byte>, writeShut: bool, highs: nat, drops: nat)

  /** A step on a connection, and what it queues on the connection's loop. */
  datatype Effect = Effect(conn: Conn, queued: Option<Task>)

  // ---------------------------------------------------------------- the steps

  /** `m_reading` is left uninitialised. */
  function NewConn(reading: bool): Conn {
    Conn(Connecting, reading, false, false, New, [], [], [], false, 0, 0)
  }

  predicate NoInterest(c: Conn) {
    !c.readInterest && !c.writeInterest
  }

  /** `EpollPoller::updateChannel`, which every change of an interest ends in: a channel that is not
      watched is added, whatever it asks for; a watched one that asks for nothing is taken out. */
  function Updated(c: Conn): Conn {
    c.(index := if c.index == Added && NoInterest(c) then Deleted else Added)
  }

  function Establish(c: Conn): Conn {
    Updated(c.(stat := Connected, readInterest := true))
  }

  predicate Alive(c: Conn) {
    c.stat == Connected || c.stat == Disconnecting
  }

  /** A message is written straight to the socket when nothing waits. */
  predicate WritesDirectly(c: Conn) {
    !c.writeInterest && c.output == []
  }

  /** `sendInLoop`, where `n` is what the direct write returns, if there is one. */
  function SendInLoop(c: Conn, cb: Callbacks, message: seq<byte>, n: nat): Effect
    requires n <= |message|
  {
    if c.stat == Disconnected then Effect(c, None)
    else
      var written := if WritesDirectly(c) then n else 0;
      var c' := c.(accepted := c.accepted + message, wire := c.wire + message[..written]);
      if written < |message| then KeepRest(c', cb, message[written..])
      else Effect(c', if WritesDirectly(c) && cb.writeComplete then Some(WriteCompleteTask) else None)
  }

  /** The end of `sendInLoop`: the rest of the message waits in the output buffer. */
  function KeepRest(c: Conn, cb: Callbacks, rest: seq<byte>): Effect {
    var pending := |c.output| + |rest|;
    var high := pending >= cb.mark && |c.output| < cb.mark && cb.highWater;
    var c' := c.(output := c.output + rest, writeInterest := true, highs := if high then c.highs + 1 else c.highs);
    Effect(if c.writeInterest then c' else Updated(c'),
           if high then Some(HighWaterTask(pending)) else None)
  }

  /** `handleWrite`, where `n` is what the write returns. */
  function HandleWrite(c: Conn, cb: Callbacks, n: nat): Effect
    requires n <= |c.output|
  {
    if !c.writeInterest || n == 0 then Effect(c, None)
    else
      var rest := c.output[n..];
      var c' := c.(output := rest, wire := c.wire + c.output[..n],
                   drops := if |rest| < cb.mark <= |c.output| then c.drops + 1 else c.drops);
      if rest != [] then Effect(c', None) else Drained(c', cb)
  }

  /** The end of `handleWrite`: the output is empty. The shutdown comes when write interest is off already. */
  function Drained(c: Conn, cb: Callbacks): Effect {
    var c' := Updated(c.(writeInterest := false));
    Effect(if c.stat == Disconnecting then ShutdownInLoop(c') else c',
           if cb.writeComplete then Some(WriteCompleteTask) else None)
  }

  function ShutdownInLoop(c: Conn): Conn {
    if c.writeInterest then c.(writeShut := true) else c
  }

  /** `handleClose` up to its callbacks; the code asserts `Alive`. */
  function HandleClose(c: Conn): Conn {
    c.(stat := Disconnected)
  }

  function ForceClose(c: Conn): Effect {
    if Alive(c) then Effect(c.(stat := Disconnecting), Some(ForceCloseTask)) else Effect(c, None)
  }

  /** `forceCloseWithDelay` before its timer runs `forceClose`. */
  function ForceCloseWithDelay(c: Conn): Conn {
    if Alive(c) then c.(stat := Disconnecting) else c
  }

  /** `send` from any thread. */
  function Send(c: Conn, cb: Callbacks, message: seq<byte>, inLoop: bool, n: nat): Effect
    requires n <= |message|
  {
    if c.stat != Connected then Effect(c, None)
    else if inLoop then SendInLoop(c, cb, message, n)
    else Effect(c, Some(SendTask(message)))
  }

  function ShutDown(c: Conn, inLoop: bool): Effect {
    if c.stat != Connected then Effect(c, None)
    else
      var c' := c.(stat := Disconnecting);
      if inLoop then Effect(ShutdownInLoop(c'), None) else Effect(c', Some(ShutdownTask))
  }

  function StartReadInLoop(c: Conn): Conn {
    if !c.reading || !c.readInterest then Updated(c.(reading := true, readInterest := true)) else c
  }

  function StopReadInLoop(c: Conn): Conn {
    if c.reading || c.readInterest then Updated(c.(reading := false, readInterest := false)) else c
  }

  /** `connectionDestory` before it removes the channel. */
  function Disconnect(c: Conn): Conn {
    if c.stat == Connected then Updated(c.(stat := Disconnected, readInterest := false, writeInterest := false)) else c
  }

  /** What is asserted when a channel is removed: it asks for nothing (Channel.cc:42), the poller knows
      it (EpollPoller.cc:64) and has not taken it out (EpollPoller.cc:67). */
  predicate CanRemove(c: Conn) {
    NoInterest(c) && c.index != New && c.index != Deleted
  }

  /** `connectionDestory`; the code asserts `CanRemove` in between. */
  function Destroy(c: Conn): Conn {
    Disconnect(c).(index := Deleted)
  }

  // ---------------------------------------------------------------- what the steps keep

  /** What went to the socket followed by what is still buffered is what was accepted; and the channel
      asks for write events exactly while something is buffered. */
  ghost predicate SendInv(c: Conn) {
    c.wire + c.output == c.accepted && (c.writeInterest <==> c.output != [])
  }

  /** Once established, a channel is out of the poller exactly while it asks for nothing; and the flag
      for reading is never on without the interest. */
  predicate PollInv(c: Conn) {
    c.stat != Connecting ==> c.index != New && (c.index == Deleted <==> NoInterest(c)) && (c.reading ==> c.readInterest)
  }

  /** Every high-water notification is matched by a fall below the mark, but for the last one while the
      output is still at or above the mark. */
  ghost predicate HighInv(c: Conn, cb: Callbacks) {
    cb.highWater && cb.mark > 0 ==> c.highs == c.drops + if |c.output| >= cb.mark then 1 else 0
  }

  /** A message is accepted unless the connection is closed; the order of bytes is kept. */
  lemma SendKeepsOrder(c: Conn, cb: Callbacks, message: seq<byte>, n: nat)
    requires SendInv(c) && n <= |message|
    ensures var c' := SendInLoop(c, cb, message, n).conn;
            SendInv(c') && c'.accepted == if c.stat == Disconnected then c.accepted else c.accepted + message
  {
    if WritesDirectly(c) {
      TakenInOrder(c.wire, [], c.accepted, message, n);
    } else {
      TakenInOrder(c.wire, c.output, c.accepted, message, 0);
    }
  }

  /** The first `n` bytes of a message onto the wire, when nothing waits or `n` is 0, the rest behind the output. */
  lemma TakenInOrder(wire: seq<byte>, output: seq<byte>, accepted: seq<byte>, message: seq<byte>, n: nat)
    requires wire + output == accepted && n <= |message| && (n == 0 || output == [])
    ensures (wire + message[..n]) + (output + message[n..]) == accepted + message
  {
    assert message == message[..n] + message[n..];
  }

  lemma HandleWriteKeepsOrder(c: Conn, cb: Callbacks, n: nat)
    requires SendInv(c) && n <= |c.output|
    ensures var c' := HandleWrite(c, cb, n).conn; SendInv(c') && c'.accepted == c.accepted
  {
    assert c.output == c.output[..n] + c.output[n..];
  }

  lemma SendKeepsHighs(c: Conn, cb: Callbacks, message: seq<byte>, n: nat)
    requires SendInv(c) && HighInv(c, cb) && n <= |message|
    ensures HighInv(SendInLoop(c, cb, message, n).conn, cb)
  {
  }

  lemma HandleWriteKeepsHighs(c: Conn, cb: Callbacks, n: nat)
    requires SendInv(c) && HighInv(c, cb) && n <= |c.output|
    ensures HighInv(HandleWrite(c, cb, n).conn, cb)
  {
  }

  /** What the socket takes of a message, when it is written to directly, goes onto the wire, and the rest
      behind what is buffered already. */
  lemma SendTakes(c: Conn, cb: Callbacks, message: seq<byte>, n: nat)
    requires n <= |message|
    ensures var c' := SendInLoop(c, cb, message, n).conn;
            var taken := if !c.writeInterest && c.output == [] then n else 0;
            if c.stat == Disconnected then c' == c
            else c'.wire == c.wire + message[..taken] && c'.output == c.output + message[taken..]
  {
  }

  /** What the socket takes in a write event leaves the front of the buffer for the wire. */
  lemma HandleWriteTakes(c: Conn, cb: Callbacks, n: nat)
    requires n <= |c.output|
    ensures var c' := HandleWrite(c, cb, n).conn;
            var taken := if c.writeInterest then n else 0;
            c'.wire == c.wire + c.output[..taken] && c'.output == c.output[taken..]
  {
  }

  /** Every step keeps the poller's index in line with the interests. */
  lemma SendKeepsPolling(c: Conn, cb: Callbacks, message: seq<byte>, n: nat)
    requires PollInv(c) && n <= |message|
    ensures PollInv(SendInLoop(c, cb, message, n).conn)
  {
  }

  lemma HandleWriteKeepsPolling(c: Conn, cb: Callbacks, n: nat)
    requires PollInv(c) && n <= |c.output|
    ensures PollInv(HandleWrite(c, cb, n).conn)
  {
  }

  lemma ReadingKeepsPolling(c: Conn)
    requires PollInv(c)
    ensures c.stat == Connecting ==> PollInv(Establish(c))
    ensures PollInv(StartReadInLoop(c)) && PollInv(StopReadInLoop(c))
  {
  }

  /** Reading is stopped and nothing is buffered. */
  predicate Idle(c: Conn) {
    !c.readInterest && c.output == []
  }

  /** Once established, a connection can be destroyed exactly when it is still connected and idle. The
      assert in `Channel::remove` fails for one that is closing or closed and not idle; the one in the
      poller for one that is closing or closed and idle, and for one that is connected and not idle. */
  lemma DestructionCompletes(c: Conn)
    requires SendInv(c) && PollInv(c) && c.stat != Connecting
    ensures var c' := Disconnect(c);
            && (NoInterest(c') <==> c.stat == Connected || Idle(c))
            && c'.index != New && (c'.index != Deleted <==> (c.stat == Connected <==> Idle(c)))
            && (CanRemove(c') <==> c.stat == Connected && Idle(c))
  {
  }

  /** Write-complete is queued, if its callback is set, exactly when a step has brought everything that
      was accepted onto the wire: a direct write of the whole message, */
  lemma SendCompletesAccurately(c: Conn, cb: Callbacks, message: seq<byte>, n: nat)
    requires SendInv(c) && n <= |message|
    ensures var e := SendInLoop(c, cb, message, n);
            e.queued == Some(WriteCompleteTask)
            <==> cb.writeComplete && c.stat != Disconnected && c.wire == c.accepted
                 && e.conn.wire == e.conn.accepted == c.accepted + message
  {
    var c' := SendInLoop(c, cb, message, n).conn;
    SendKeepsOrder(c, cb, message, n);
    WholeOrPart(c.wire, c.output, c.accepted);
    WholeOrPart(c'.wire, c'.output, c'.accepted);
  }

  /** or the write of the last of the output. */
  lemma HandleWriteCompletesAccurately(c: Conn, cb: Callbacks, n: nat)
    requires SendInv(c) && n <= |c.output|
    ensures var e := HandleWrite(c, cb, n);
            e.queued == Some(WriteCompleteTask)
            <==> cb.writeComplete && c.wire != c.accepted && e.conn.wire == e.conn.accepted
  {
    var c' := HandleWrite(c, cb, n).conn;
    HandleWriteKeepsOrder(c, cb, n);
    WholeOrPart(c.wire, c.output, c.accepted);
    WholeOrPart(c'.wire, c'.output, c'.accepted);
  }

  lemma WholeOrPart(wire: seq<byte>, output: seq<byte>, accepted: seq<byte>)
    requires wire + output == accepted
    ensures wire == accepted <==> output == []
  {
    assert |accepted| == |wire| + |output|;
  }

  /** High water is queued, if its callback is set, exactly when the pending output crosses the mark upward. */
  lemma HighWaterIsAccurate(c: Conn, cb: Callbacks, message: seq<byte>, n: nat)
    requires SendInv(c) && n <= |message|
    ensures var e := SendInLoop(c, cb, message, n);
            (e.queued.Some? && e.queued.value.HighWaterTask?
             <==> cb.highWater && |c.output| < cb.mark <= |e.conn.output|)
            && (e.queued.Some? && e.queued.value.HighWaterTask? ==> e.queued.value.pending == |e.conn.output|)
  {
  }

  /** Shutting down shuts the write side exactly when output is still pending, and then at once: a
      drained connection's write side stays open. */
  lemma ShutdownOnlyCutsPending(c: Conn, cb: Callbacks, n: nat)
    requires SendInv(c) && !c.writeShut
    ensures ShutdownInLoop(c).writeShut <==> c.output != []
    ensures n <= |c.output| ==> !HandleWrite(c, cb, n).conn.writeShut
  {
  }

  // ---------------------------------------------------------------- failed system calls

  const TWO_TO_THE_64: int := 0x1_0000_0000_0000_0000

  /** A `ssize_t` stored in a `size_t`. */
  function ToSize(r: int): (n: nat)
    ensures n < TWO_TO_THE_64
    ensures 0 <= r < TWO_TO_THE_64 ==> n == r
  {
    r % TWO_TO_THE_64
  }

  /** `remianing -= nwroted` in `size_t`. */
  function Remaining(len: nat, r: int): nat {
    (len - ToSize(r)) % TWO_TO_THE_64
  }

  /** The assert behind the direct write holds exactly when the write did not fail: the branch meant for
      a failed write is never taken, since a `size_t` is never negative. */
  lemma SendAssertMeansSuccess(len: nat, r: int)
    requires len < TWO_TO_THE_64 - 1 && -1 <= r <= len
    ensures ToSize(r) >= 0
    ensures Remaining(len, r) <= len <==> r >= 0
  {
  }

  /** In `handleWrite` a failed write counts as positive, and the assert of `Buffer::retrieve` fails. */
  lemma RetrieveAssertMeansSuccess(readable: nat, r: int)
    requires readable < TWO_TO_THE_64 - 1 && -1 <= r <= readable
    ensures ToSize(r) > 0 && !(ToSize(r) <= readable) <==> r == -1
  {
  }

  datatype ReadOutcome = Message | PeerClosed | ReadError

  /** The branches of `handleRead`, on what `readFd` returned. */
  function ReadBranch(r: int): ReadOutcome {
    var n := ToSize(r);
    if n > 0 then Message else if n == 0 then PeerClosed else ReadError
  }

  /** A failed read takes the branch of a message; the error branch is never taken. */
  lemma FailedReadIsMessage(r: int)
    requires -1 <= r < TWO_TO_THE_64
    ensures ReadBranch(r) == if r == 0 then PeerClosed else Message
  {
  }
}
