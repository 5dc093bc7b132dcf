/**
 * The connection-oriented chat server (`ServerTCP`): one socket per
 * participant, a dict from socket to display name, and a relay step per
 * received message. Accepting the socket and reading the name from it are
 * the caller's job here: the name read is a parameter of AcceptClient.
 */
module TcpServer {
  import opened Protocol
  import opened Registry

  /** A connected client socket; two handles are the same socket when their ids agree. */
  datatype Conn = Conn(id: nat)

  class ServerTcp {
    /** `self.clients`: socket to display name. */
    var clients: map<Conn, string>
    /** The insertion order of `self.clients`, the order its loops visit sockets in. */
    var order: seq<Conn>
    /** Every line sent so far, to whom, in sending order. */
    var outbox: seq<Sent<Conn>>
    /** The client sockets closed so far. */
    var closed: set<Conn>

    ghost predicate Valid()
      reads this
    {
      Tracks(clients, order) && UniqueNames(clients)
    }

    constructor ()
      ensures Valid()
      ensures clients == map[] && order == [] && outbox == [] && closed == {}
    {
      clients, order, outbox, closed := map[], [], [], {};
    }

    /**
     * Admits `conn` under the `name` it sent, unless the name is taken: the
     * requester is told which, and on admission every other participant
     * hears that `name` joined.
     */
    method AcceptClient(conn: Conn, name: string) returns (accepted: bool)
      requires Valid()
      modifies this`clients, this`order, this`outbox
      ensures Valid()
      ensures accepted <==> name !in old(clients).Values
      ensures !accepted ==>
        && clients == old(clients) && order == old(order)
        && outbox == old(outbox) + [Sent(conn, NAME_TAKEN)]
      ensures accepted ==>
        && clients == old(clients)[conn := name]
        && order == Insert(old(order), conn)
        && outbox == old(outbox) + [Sent(conn, WELCOME)] + FanOut(order, Some(conn), Joined(name))
      ensures accepted && conn !in old(clients) ==> order[|order| - 1] == conn && |clients| == |old(clients)| + 1
    {
      if name in clients.Values {
        outbox := outbox + [Sent(conn, NAME_TAKEN)];
        accepted := false;
      } else {
        outbox := outbox + [Sent(conn, WELCOME)];
        InsertTracks(clients, order, conn, name);
        InsertKeepsNamesUnique(clients, conn, name);
        clients := clients[conn := name];
        order := Insert(order, conn);
        Broadcast(conn, JOIN);
        accepted := true;
      }
    }

    /** Removes `conn` and closes it, if it is registered. */
    method CloseClient(conn: Conn) returns (removed: bool)
      requires Valid()
      modifies this`clients, this`order, this`closed
      ensures Valid()
      ensures removed <==> conn in old(clients)
      ensures clients == old(clients) - {conn}
      ensures order == Without(old(order), conn)
      ensures closed == if removed then old(closed) + {conn} else old(closed)
    {
      if conn in clients {
        WithoutTracks(clients, order, conn);
        clients := clients - {conn};
        order := Without(order, conn);
        closed := closed + {conn};
        removed := true;
      } else {
        removed := false;
      }
    }

    /** Sends the line for `message` from `sender` to every registered socket but the sender's. */
    method Broadcast(sender: Conn, message: string)
      requires sender in clients
      modifies this`outbox
      ensures outbox == old(outbox) + FanOut(order, Some(sender), RelayLine(clients[sender], message))
    {
      var line := RelayLine(clients[sender], message);
      for i := 0 to |order|
        invariant outbox == old(outbox) + FanOut(order[..i], Some(sender), line)
      {
        assert order[..i + 1][..i] == order[..i];
        if order[i] != sender {
          outbox := outbox + [Sent(order[i], line)];
        }
      }
      assert order[..|order|] == order;
    }

    /**
     * Sends the shutdown notice to every registered socket and closes it.
     * The registry itself is left as it was.
     */
    method Shutdown()
      requires Valid()
      modifies this`outbox, this`closed
      ensures Valid()
      ensures outbox == old(outbox) + FanOut(order, None, SHUTDOWN)
      ensures closed == old(closed) + clients.Keys
    {
      for i := 0 to |order|
        invariant outbox == old(outbox) + FanOut(order[..i], None, SHUTDOWN)
        invariant closed == old(closed) + set j | 0 <= j < i :: order[j]
      {
        assert order[..i + 1][..i] == order[..i];
        outbox := outbox + [Sent(order[i], SHUTDOWN)];
        closed := closed + {order[i]};
      }
      assert order[..|order|] == order;
    }

    /** The number of registered participants: one per socket the loops visit. */
    method GetClientsNumber() returns (n: nat)
      requires Valid()
      ensures n == |clients| == |order|
    {
      SizeIsOrderLength(clients, order);
      n := |clients|;
    }

    /**
     * One round of the per-client relay loop, for a `message` read from
     * `conn`: the literal "exit" announces the departure and removes the
     * sender, anything else is relayed. Answers whether the loop stops.
     */
    method HandleMessage(conn: Conn, message: string) returns (done: bool)
      requires Valid()
      requires conn in clients
      modifies this`clients, this`order, this`outbox, this`closed
      ensures Valid()
      ensures done <==> message == EXIT
      ensures outbox == old(outbox) + FanOut(old(order), Some(conn), RelayLine(old(clients)[conn], message))
      ensures done ==>
        && clients == old(clients) - {conn}
        && order == Without(old(order), conn)
        && closed == old(closed) + {conn}
      ensures !done ==> clients == old(clients) && order == old(order) && closed == old(closed)
    {
      if message == EXIT {
        Broadcast(conn, EXIT);
        var _ := CloseClient(conn);
        done := true;
      } else {
        Broadcast(conn, message);
        done := false;
      }
    }
  }

  /**
   * The admissions of a typical session: alice joins
   * and a second "alice" is turned away.
   */
  method ExampleAdmission()
  {
    var a, b := Conn(1), Conn(2);
    var server := new ServerTcp();
    assert map[] == server.clients;
    var ok := server.AcceptClient(a, "alice");
    assert ok && server.clients == map[a := "alice"];
    assert server.clients.Values == {"alice"};
    ok := server.AcceptClient(b, "alice");
    assert !ok && server.clients == map[a := "alice"] && server.order == [a];
  }

  /** Then bob joins, and alice, and only she, hears of it. */
  method ExampleJoinNotice()
  {
    var a, c := Conn(1), Conn(3);
    var server := new ServerTcp();
    server.clients, server.order := map[a := "alice"], [a];
    assert "bob" !in server.clients.Values;
    var sentBefore := server.outbox;
    var ok := server.AcceptClient(c, "bob");
    assert ok && server.order == [a, c];
    assert FanOut([a, c], Some(c), Joined("bob")) == [Sent(a, Joined("bob"))] by {
      assert [a, c][..1] == [a];
    }
    assert server.outbox == sentBefore + [Sent(c, WELCOME), Sent(a, Joined("bob"))];
    var n := server.GetClientsNumber();
    assert n == 2;
  }

  /**
   * The rest of that session, from alice and bob in the room: alice chats,
   * then leaves, and the server shuts down.
   */
  method ExampleRelay()
  {
    var a, c := Conn(1), Conn(3);
    var server := new ServerTcp();
    server.clients, server.order := map[a := "alice", c := "bob"], [a, c];
    var sentBefore := server.outbox;
    assert RelayLine("alice", "hi") == "alice: hi";
    assert FanOut([a, c], Some(a), "alice: hi") == [Sent(c, "alice: hi")] by {
      assert [a, c][..1] == [a];
    }
    var done := server.HandleMessage(a, "hi");
    assert !done && server.outbox == sentBefore + [Sent(c, "alice: hi")];
    assert server.clients - {a} == map[c := "bob"];
    done := server.HandleMessage(a, EXIT);
    assert done && server.clients == map[c := "bob"] && server.order == [c];
    sentBefore := server.outbox;
    assert FanOut([c], None, SHUTDOWN) == [Sent(c, SHUTDOWN)];
    server.Shutdown();
    assert server.outbox == sentBefore + [Sent(c, SHUTDOWN)];
  }
}
