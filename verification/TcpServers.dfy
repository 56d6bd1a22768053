/**
 The server's table of connections in the form of the code (TcpServer.cc): a map from names to
 connection objects, updated in the base loop.
 */
module TcpServers {
  import opened CppArithmetic
  import opened ConnectionSteps
  import opened Connection
  import opened ConnectionNames

  class TcpServer {
    const loop: EventLoop
    const ipPort: string
    const cb: Callbacks
    var nextConnId: nat
    var connections: map<string, TcpConnection>

    /** The table of connection objects, read as the table of connection numbers that `Server` works with. */
    ghost function Table(): map<string, ConnId>
      reads this
    {
      map name | name in connections :: connections[name].id
    }

    constructor (loop: EventLoop, ipPort: string, cb: Callbacks)
      ensures this.loop == loop && this.ipPort == ipPort && this.cb == cb
      ensures nextConnId == 1 && connections == map[]
    {
      this.loop, this.ipPort, this.cb := loop, ipPort, cb;
      nextConnId := 1;
      connections := map[];
    }

    /** A new connection in `ioLoop`; it is established at once if that is the loop this runs in. */
    method NewConnection(ioLoop: EventLoop, reading: bool) returns (conn: TcpConnection)
      requires nextConnId < INT_MAX  // it is an int
      modifies this`nextConnId, this`connections, ioLoop
      ensures fresh(conn) && conn.Valid() && conn.id == old(nextConnId) && conn.loop == ioLoop && conn.cb == cb
      ensures conn.name == Name(ipPort, conn.id) && nextConnId == conn.id + 1
      ensures connections == old(connections)[conn.name := conn]
      ensures Table() == old(Table())[Name(ipPort, conn.id) := old(nextConnId)]
      ensures conn.View() == if ioLoop == loop then Establish(NewConn(reading)) else NewConn(reading)
      ensures ioLoop.tasks == old(ioLoop.tasks) + if ioLoop == loop then [] else [(conn.id, EstablishTask)]
    {
      var connName := Name(ipPort, nextConnId);
      conn := new TcpConnection(nextConnId, connName, ioLoop, cb, reading);
      nextConnId := nextConnId + 1;
      connections := connections[connName := conn];
      if ioLoop == loop {
        conn.ConnectionEstablished();
      } else {
        ioLoop.QueueInLoop(conn.id, EstablishTask);
      }
    }

    /** `removeConnectionInLoop`; the code asserts that the name was there. */
    method RemoveConnectionInLoop(conn: TcpConnection)
      requires conn.name in connections
      modifies this`connections, conn.loop
      ensures connections == old(connections) - {conn.name} && Table() == old(Table()) - {conn.name}
      ensures conn.loop.tasks == old(conn.loop.tasks) + [(conn.id, DestroyTask)]
    {
      connections := connections - {conn.name};
      conn.loop.QueueInLoop(conn.id, DestroyTask);
    }

    /** `removeConnection`, the close callback of every connection: `inLoop` if it is called in the base loop. */
    method RemoveConnection(conn: TcpConnection, inLoop: bool)
      requires inLoop ==> conn.name in connections
      modifies this`connections, conn.loop, loop
      ensures connections == if inLoop then old(connections) - {conn.name} else old(connections)
      ensures inLoop ==> conn.loop.tasks == old(conn.loop.tasks) + [(conn.id, DestroyTask)]
      ensures inLoop && conn.loop != loop ==> loop.tasks == old(loop.tasks)
      ensures !inLoop ==> loop.tasks == old(loop.tasks) + [(conn.id, RemoveTask)]
      ensures !inLoop && conn.loop != loop ==> conn.loop.tasks == old(conn.loop.tasks)
    {
      if inLoop {
        RemoveConnectionInLoop(conn);
      } else {
        loop.QueueInLoop(conn.id, RemoveTask);
      }
    }
  }
}
