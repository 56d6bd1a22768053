/**
 A TCP connection in the form of the code (TcpConnection.cc): its fields updated in place, its output in
 a `Buffer`, its tasks on an event loop. Every method does what its step in `ConnectionSteps` says.
 */
module Connection {
  import opened NetworkOrder
  import opened ByteBuffer
  import opened Steps = ConnectionSteps

  /** An event loop, seen by the tasks that wait on it, first in first out. */
  class EventLoop {
    var tasks: seq<(ConnId, Task)>

    constructor ()
      ensures tasks == []
    {
      tasks := [];
    }

    method QueueInLoop(id: ConnId, task: Task)
      modifies this
      ensures tasks == old(tasks) + [(id, task)]
    {
      tasks := tasks + [(id, task)];
    }
  }

  function Tagged(id: ConnId, queued: Option<Task>): seq<(ConnId, Task)> {
    match queued
    case None => []
    case Some(task) => [(id, task)]
  }

  class TcpConnection {
    const id: ConnId
    const name: string
    const loop: EventLoop
    const cb: Callbacks
    var stat: Stat
    var reading: bool
    var readInterest: bool   // the two bits of the channel's event mask
    var writeInterest: bool
    var index: PollIndex     // the channel's index in the poller
    const inputBuffer: Buffer
    const outputBuffer: Buffer
    var writeShut: bool      // the socket's write side
    ghost var accepted: seq<byte>
    ghost var wire: seq<byte>
    ghost var highs: nat
    ghost var drops: nat

    ghost predicate Valid()
      reads this, inputBuffer, outputBuffer
    {
      && inputBuffer.Valid() && outputBuffer.Valid()
      && inputBuffer != outputBuffer && inputBuffer.data != outputBuffer.data
    }

    ghost function View(): Conn
      requires Valid()
      reads this, inputBuffer, outputBuffer, outputBuffer.data
    {
      Conn(stat, reading, readInterest, writeInterest, index, outputBuffer.Contents(),
           accepted, wire, writeShut, highs, drops)
    }

    constructor (id: ConnId, name: string, loop: EventLoop, cb: Callbacks, reading: bool)
      ensures this.id == id && this.name == name && this.loop == loop && this.cb == cb
      ensures fresh(outputBuffer) && fresh(outputBuffer.data) && fresh(inputBuffer) && fresh(inputBuffer.data)
      ensures Valid() && View() == NewConn(reading)
    {
      this.id, this.name, this.loop, this.cb, this.reading := id, name, loop, cb, reading;
      stat := Connecting;
      readInterest, writeInterest, index, writeShut := false, false, New, false;
      inputBuffer := new Buffer();
      outputBuffer := new Buffer();
      accepted, wire, highs, drops := [], [], 0, 0;
    }

    /** `Channel::update`, through to the poller. */
    method UpdateChannel()
      modifies this`index
      ensures index == if old(index) == Added && !readInterest && !writeInterest then Deleted else Added
    {
      if index == New || index == Deleted {
        index := Added;
      } else if !readInterest && !writeInterest {
        index := Deleted;
      }
    }

    method ConnectionEstablished()
      requires Valid() && stat == Connecting
      modifies this
      ensures Valid() && View() == Establish(old(View()))
    {
      stat := Connected;
      readInterest := true;
      UpdateChannel();
    }

    /** `handleRead` up to the callback it leads to: the user's with what has been read, or those of a
        close. The result of `readFd` is stored in a `size_t`. */
    method HandleRead(result: ReadResult) returns (branch: ReadOutcome)
      requires Valid()
      requires result.Delivered? ==>
                 var room := inputBuffer.GetShape().Writable();
                 |result.bytes| <= room + (if room < EXTRA_BUFFER then EXTRA_BUFFER else 0)
                 && |result.bytes| < TWO_TO_THE_64 / 2  // it is reported as a ssize_t
      requires result == Delivered([]) ==> stat == Connected || stat == Disconnecting
      modifies this`stat, inputBuffer, inputBuffer.data
      ensures Valid() && branch == if result == Delivered([]) then PeerClosed else Message
      ensures View() == if branch == PeerClosed then Steps.HandleClose(old(View())) else old(View())
      ensures inputBuffer.Contents() == old(inputBuffer.Contents()) + if result.Delivered? then result.bytes else []
    {
      var r, savedErrno := inputBuffer.ReadFd(result, 0);
      var n := ToSize(r);
      assert n == 0 <==> result == Delivered([]);
      if n > 0 {
        branch := Message;
      } else if n == 0 {
        HandleClose();
        branch := PeerClosed;
      } else {
        branch := ReadError;
      }
    }

    /** `n` is the result of the write to the socket, if it comes to one. */
    method SendInLoop(message: seq<byte>, n: nat)
      requires Valid() && n <= |message|
      modifies this, outputBuffer, outputBuffer.data, loop
      ensures Valid() && (outputBuffer.data == old(outputBuffer.data) || fresh(outputBuffer.data))
      ensures View() == Steps.SendInLoop(old(View()), cb, message, n).conn
      ensures loop.tasks == old(loop.tasks) + Tagged(id, Steps.SendInLoop(old(View()), cb, message, n).queued)
    {
      if stat == Disconnected {
        return;
      }
      var written := WriteDirectly(message, n);
      accepted := accepted + message;
      wire := wire + message[..written];
      if |message| - written > 0 {
        KeepRest(message[written..]);
      }
    }

    /** The beginning of `sendInLoop`: when nothing waits, the message goes to the socket at once. */
    method WriteDirectly(message: seq<byte>, n: nat) returns (written: nat)
      requires Valid() && n <= |message|
      modifies loop
      ensures written == if WritesDirectly(View()) then n else 0
      ensures loop.tasks == old(loop.tasks) + Tagged(id,
                if WritesDirectly(View()) && n == |message| && cb.writeComplete then Some(WriteCompleteTask) else None)
    {
      written := 0;
      var readable := outputBuffer.ReadableBytes();
      if !writeInterest && readable == 0 {
        written := n;
        if |message| - written == 0 && cb.writeComplete {
          loop.QueueInLoop(id, WriteCompleteTask);
        }
      }
    }

    method KeepRest(rest: seq<byte>)
      requires Valid()
      modifies this`writeInterest, this`index, this`highs, outputBuffer, outputBuffer.data, loop
      ensures Valid() && (outputBuffer.data == old(outputBuffer.data) || fresh(outputBuffer.data))
      ensures View() == Steps.KeepRest(old(View()), cb, rest).conn
      ensures loop.tasks == old(loop.tasks) + Tagged(id, Steps.KeepRest(old(View()), cb, rest).queued)
    {
      NotifyHighWater(|rest|);
      outputBuffer.Append(rest);
      if !writeInterest {
        EnableWrite();
      }
    }

    method NotifyHighWater(remaining: nat)
      requires Valid()
      modifies this`highs, loop
      ensures var pending := |outputBuffer.Contents()| + remaining;
              var high := pending >= cb.mark && |outputBuffer.Contents()| < cb.mark && cb.highWater;
              && highs == (if high then old(highs) + 1 else old(highs))
              && loop.tasks == old(loop.tasks) + Tagged(id, if high then Some(HighWaterTask(pending)) else None)
    {
      var oldLen := outputBuffer.ReadableBytes();
      if oldLen + remaining >= cb.mark && oldLen < cb.mark && cb.highWater {
        loop.QueueInLoop(id, HighWaterTask(oldLen + remaining));
        highs := highs + 1;
      }
    }

    /** The code updates twice. */
    method EnableWrite()
      modifies this`writeInterest, this`index
      ensures writeInterest && index == Added
    {
      writeInterest := true;
      UpdateChannel();
      UpdateChannel();
    }

    method HandleWrite(n: nat)
      requires Valid() && n <= |outputBuffer.Contents()|
      modifies this, outputBuffer, loop
      ensures Valid() && outputBuffer.data == old(outputBuffer.data)
      ensures View() == Steps.HandleWrite(old(View()), cb, n).conn
      ensures loop.tasks == old(loop.tasks) + Tagged(id, Steps.HandleWrite(old(View()), cb, n).queued)
    {
      if writeInterest {
        if n > 0 {
          ghost var output := outputBuffer.Contents();
          outputBuffer.Retrieve(n);
          wire := wire + output[..n];
          drops := if |output| - n < cb.mark <= |output| then drops + 1 else drops;
          var readable := outputBuffer.ReadableBytes();
          if readable == 0 {
            FinishWrite();
          }
        }
      }
    }

    /** The end of `handleWrite`, when the output is empty. */
    method FinishWrite()
      requires Valid()
      modifies this`writeInterest, this`index, this`writeShut, loop
      ensures Valid() && View() == Drained(old(View()), cb).conn
      ensures loop.tasks == old(loop.tasks) + Tagged(id, Drained(old(View()), cb).queued)
    {
      writeInterest := false;
      UpdateChannel();
      if cb.writeComplete {
        loop.QueueInLoop(id, WriteCompleteTask);
      }
      if stat == Disconnecting {
        ShutdownInLoop();
      }
    }

    method ShutdownInLoop()
      requires Valid()
      modifies this`writeShut
      ensures Valid() && View() == Steps.ShutdownInLoop(old(View()))
    {
      if writeInterest {
        writeShut := true;
      }
    }

    /** Its callbacks come next: the user's, then `TcpServer::removeConnection`. */
    method HandleClose()
      requires Valid() && (stat == Connected || stat == Disconnecting)
      modifies this`stat
      ensures Valid() && View() == Steps.HandleClose(old(View()))
    {
      stat := Disconnected;
    }

    method ForceClose()
      requires Valid()
      modifies this`stat, loop
      ensures Valid() && View() == Steps.ForceClose(old(View())).conn
      ensures loop.tasks == old(loop.tasks) + Tagged(id, Steps.ForceClose(old(View())).queued)
    {
      if stat == Connected || stat == Disconnecting {
        stat := Disconnecting;
        loop.QueueInLoop(id, ForceCloseTask);
      }
    }

    /** Whether `handleClose` ran. */
    method ForceCloseInLoop() returns (closed: bool)
      requires Valid()
      modifies this`stat
      ensures Valid() && closed == Alive(old(View()))
      ensures View() == if closed then Steps.HandleClose(old(View())) else old(View())
    {
      if stat == Connected || stat == Disconnecting {
        HandleClose();
        return true;
      }
      closed := false;
    }

    method Send(message: seq<byte>, inLoop: bool, n: nat)
      requires Valid() && n <= |message|
      modifies this, outputBuffer, outputBuffer.data, loop
      ensures Valid() && (outputBuffer.data == old(outputBuffer.data) || fresh(outputBuffer.data))
      ensures View() == Steps.Send(old(View()), cb, message, inLoop, n).conn
      ensures loop.tasks == old(loop.tasks) + Tagged(id, Steps.Send(old(View()), cb, message, inLoop, n).queued)
    {
      if stat == Connected {
        if inLoop {
          SendInLoop(message, n);
        } else {
          loop.QueueInLoop(id, SendTask(message));
        }
      }
    }

    method ShutDown(inLoop: bool)
      requires Valid()
      modifies this, loop
      ensures Valid() && View() == Steps.ShutDown(old(View()), inLoop).conn
      ensures loop.tasks == old(loop.tasks) + Tagged(id, Steps.ShutDown(old(View()), inLoop).queued)
    {
      if stat == Connected {
        stat := Disconnecting;
        if inLoop {
          ShutdownInLoop();
        } else {
          loop.QueueInLoop(id, ShutdownTask);
        }
      }
    }

    method StartReadInLoop()
      requires Valid()
      modifies this`reading, this`readInterest, this`index
      ensures Valid() && View() == Steps.StartReadInLoop(old(View()))
    {
      if !reading || !readInterest {
        readInterest := true;
        UpdateChannel();
        reading := true;
      }
    }

    method StopReadInLoop()
      requires Valid()
      modifies this`reading, this`readInterest, this`index
      ensures Valid() && View() == Steps.StopReadInLoop(old(View()))
    {
      if reading || readInterest {
        readInterest := false;
        UpdateChannel();
        reading := false;
      }
    }

    /** The code asserts `CanRemove` on the way of its last step. */
    method ConnectionDestory()
      requires Valid() && CanRemove(Disconnect(View()))
      modifies this
      ensures Valid() && View() == Steps.Destroy(old(View()))
    {
      if stat == Connected {
        stat := Disconnected;
        readInterest, writeInterest := false, false;
        UpdateChannel();
      }
      assert !readInterest && !writeInterest;        // Channel.cc:42
      assert index != New && index != Deleted;       // EpollPoller.cc:64, 67
      index := Deleted;
    }
  }
}
