/**
 * The connectionless chat server (`ServerUDP`): a dict from source address
 * to display name, an append-only history of (origin, text) events, and a
 * receive loop that classifies each datagram by its text and its source.
 * Receiving the datagram is the caller's job here: Dispatch takes the
 * source address and the decoded text.
 */
module UdpServer {
  import opened Protocol
  import opened Registry

  /** A client's source address, `(host, port)`. */
  datatype Addr = Addr(host: string, port: nat)

  /** One entry of the history: where an event came from and the line that announces it. */
  datatype Event = Event(origin: Addr, text: string)

  /** What the receive loop does with one datagram. */
  datatype Action = Join(name: string) | Leave | Chat | Drop

  /**
   * The receive loop's decision for `message` from `from`: a "join:" prefix
   * is a join request, the sender's "<name>: exit" (": exit" for an unknown
   * sender) a leave request, anything else chat from a known sender and
   * noise from an unknown one.
   */
  function Classify(clients: map<Addr, string>, from: Addr, message: string): Action
  {
    if StartsWith(message, JOIN_PREFIX) then Join(JoinName(message))
    else if message == ExitPattern(if from in clients then clients[from] else "") then Leave
    else if from in clients then Chat
    else Drop
  }

  /** No registered name contains "join:"; names read from join requests never do. */
  ghost predicate NoJoinMarker(clients: map<Addr, string>)
  {
    forall a :: a in clients ==> !Contains(clients[a], JOIN_PREFIX)
  }

  /**
   * The history entries a shutdown appends, for the registry `clients`
   * whose keys `order` lists: a leave event per address, in order.
   */
  function LeaveEvents(order: seq<Addr>, clients: map<Addr, string>): (events: seq<Event>)
    requires Tracks(clients, order)
    ensures |events| == |order|
  {
    if order == [] then []
    else
      var first := order[0];
      WithoutTracks(clients, order, first);
      [Event(first, Left(clients[first]))] + LeaveEvents(order[1..], clients - {first})
  }

  /**
   * The sends of a shutdown of the registry `clients` whose keys `order`
   * lists: the first address gets the shutdown notice and is removed, which
   * tells every address after it that it left; then the same for the rest.
   */
  function ShutdownSends(order: seq<Addr>, clients: map<Addr, string>): (out: seq<Sent<Addr>>)
    requires Tracks(clients, order)
    ensures forall s :: s in out ==> s.to in order
  {
    if order == [] then []
    else
      var first := order[0];
      WithoutTracks(clients, order, first);
      [Sent(first, SHUTDOWN)]
        + FanOut(order[1..], Some(first), Left(clients[first]))
        + ShutdownSends(order[1..], clients - {first})
  }

  /** Every address registered when the shutdown starts gets exactly one shutdown notice. */
  lemma {:induction false} ShutdownNoticeOnce(order: seq<Addr>, clients: map<Addr, string>, to: Addr)
    requires Tracks(clients, order)
    ensures multiset(ShutdownSends(order, clients))[Sent(to, SHUTDOWN)] == if to in clients then 1 else 0
  {
    if order != [] {
      var first, rest := order[0], order[1..];
      WithoutTracks(clients, order, first);
      NoticesDistinct(clients[first], clients[first]);
      FanOutExactlyOnce(rest, Some(first), Left(clients[first]), Sent(to, SHUTDOWN));
      ShutdownNoticeOnce(rest, clients - {first}, to);
    }
  }

  /**
   * A shutdown records the departure of every address registered when it
   * starts, in the registry's order and under the name each was registered with.
   */
  lemma {:induction false} LeaveEventsAnnounceEach(order: seq<Addr>, clients: map<Addr, string>)
    requires Tracks(clients, order)
    ensures forall i :: 0 <= i < |order| ==>
              LeaveEvents(order, clients)[i] == Event(order[i], Left(clients[order[i]]))
    decreases |order|
  {
    if order != [] {
      var first, rest := order[0], order[1..];
      WithoutTracks(clients, order, first);
      LeaveEventsAnnounceEach(rest, clients - {first});
      forall i | 0 <= i < |order|
        ensures LeaveEvents(order, clients)[i] == Event(order[i], Left(clients[order[i]]))
      {
        if i > 0 {
          assert LeaveEvents(order, clients)[i] == LeaveEvents(rest, clients - {first})[i - 1];
          assert rest[i - 1] == order[i] && order[i] != first;
        }
      }
    }
  }

  /** One step of a shutdown: the first address's sends and event, then the rest's. */
  lemma ShutdownUnfold(order: seq<Addr>, clients: map<Addr, string>)
    requires Tracks(clients, order) && order != []
    ensures Tracks(clients - {order[0]}, order[1..])
    ensures ShutdownSends(order, clients)
      == [Sent(order[0], SHUTDOWN)]
         + FanOut(order[1..], Some(order[0]), Left(clients[order[0]]))
         + ShutdownSends(order[1..], clients - {order[0]})
    ensures LeaveEvents(order, clients)
      == [Event(order[0], Left(clients[order[0]]))] + LeaveEvents(order[1..], clients - {order[0]})
  {
    WithoutTracks(clients, order, order[0]);
  }

  /** Regrouping a concatenation of logs. */
  lemma Regroup<T>(a: seq<T>, b: seq<T>, c: seq<T>)
    ensures a + b + c == a + (b + c)
  {
  }

  class ServerUdp {
    /** `self.clients`: source address to display name. */
    var clients: map<Addr, string>
    /** The insertion order of `self.clients`. */
    var order: seq<Addr>
    /** `self.messages`: every accepted event, oldest first. */
    var messages: seq<Event>
    /** Every datagram sent so far, to whom, in sending order. */
    var outbox: seq<Sent<Addr>>

    ghost predicate Valid()
      reads this
    {
      Tracks(clients, order) && UniqueNames(clients)
    }

    constructor ()
      ensures Valid()
      ensures clients == map[] && order == [] && messages == [] && outbox == []
    {
      clients, order, messages, outbox := map[], [], [], [];
    }

    /**
     * Admits `from` under `name` unless the name is taken. On admission the
     * entry for `from` is created, or overwritten when `from` re-joins, a
     * join event is recorded and relayed to everyone else.
     */
    method AcceptClient(from: Addr, name: string) returns (accepted: bool)
      requires Valid()
      modifies this`clients, this`order, this`messages, this`outbox
      ensures Valid()
      ensures accepted <==> name !in old(clients).Values
      ensures !accepted ==>
        && clients == old(clients) && order == old(order) && messages == old(messages)
        && outbox == old(outbox) + [Sent(from, NAME_TAKEN)]
      ensures accepted ==>
        && clients == old(clients)[from := name]
        && order == Insert(old(order), from)
        && messages == old(messages) + [Event(from, Joined(name))]
        && outbox == old(outbox) + [Sent(from, WELCOME)] + FanOut(order, Some(from), Joined(name))
      ensures accepted ==> |clients| == if from in old(clients) then |old(clients)| else |old(clients)| + 1
    {
      if name in clients.Values {
        outbox := outbox + [Sent(from, NAME_TAKEN)];
        accepted := false;
      } else {
        outbox := outbox + [Sent(from, WELCOME)];
        InsertTracks(clients, order, from, name);
        InsertKeepsNamesUnique(clients, from, name);
        clients := clients[from := name];
        order := Insert(order, from);
        messages := messages + [Event(from, Joined(name))];
        Broadcast();
        accepted := true;
      }
    }

    /** Removes `from`, if registered, and relays its departure to everyone left. */
    method CloseClient(from: Addr) returns (removed: bool)
      requires Valid()
      modifies this`clients, this`order, this`messages, this`outbox
      ensures Valid()
      ensures removed <==> from in old(clients)
      ensures clients == old(clients) - {from}
      ensures order == Without(old(order), from)
      ensures removed ==>
        && messages == old(messages) + [Event(from, Left(old(clients)[from]))]
        && outbox == old(outbox) + FanOut(order, Some(from), Left(old(clients)[from]))
      ensures !removed ==> messages == old(messages) && outbox == old(outbox)
    {
      if from in clients {
        var name := clients[from];
        WithoutTracks(clients, order, from);
        clients := clients - {from};
        order := Without(order, from);
        messages := messages + [Event(from, Left(name))];
        Broadcast();
        removed := true;
      } else {
        removed := false;
      }
    }

    /** Sends the latest event, and only it, to every registered address but its origin. */
    method Broadcast()
      modifies this`outbox
      ensures messages == [] ==> outbox == old(outbox)
      ensures messages != [] ==>
        var latest := messages[|messages| - 1];
        outbox == old(outbox) + FanOut(order, Some(latest.origin), latest.text)
    {
      if messages != [] {
        var latest := messages[|messages| - 1];
        for i := 0 to |order|
          invariant outbox == old(outbox) + FanOut(order[..i], Some(latest.origin), latest.text)
        {
          assert order[..i + 1][..i] == order[..i];
          if order[i] != latest.origin {
            outbox := outbox + [Sent(order[i], latest.text)];
          }
        }
        assert order[..|order|] == order;
      }
    }

    /**
     * Sends the shutdown notice to each address registered at the start,
     * removing each right after; the registry ends empty. Each round removes
     * exactly the address it visits, so taking the first key still
     * registered visits the keys in the order of the snapshot the source
     * iterates over.
     */
    method Shutdown()
      requires Valid()
      modifies this`clients, this`order, this`messages, this`outbox
      ensures Valid()
      ensures clients == map[] && order == []
      ensures messages == old(messages) + LeaveEvents(old(order), old(clients))
      ensures outbox == old(outbox) + ShutdownSends(old(order), old(clients))
    {
      while order != []
        invariant Valid()
        invariant messages + LeaveEvents(order, clients) == old(messages) + LeaveEvents(old(order), old(clients))
        invariant outbox + ShutdownSends(order, clients) == old(outbox) + ShutdownSends(old(order), old(clients))
        decreases |order|
      {
        var addr := order[0];
        ghost var registered, rest, current := clients, order[1..], order;
        ghost var name := clients[addr];
        ShutdownUnfold(order, clients);
        ghost var eventsBefore, sendsBefore := messages, outbox;
        outbox := outbox + [Sent(addr, SHUTDOWN)];
        var removed := CloseClient(addr);
        assert removed && order == rest && clients == registered - {addr};
        assert outbox + ShutdownSends(order, clients) == sendsBefore + ShutdownSends(current, registered) by {
          var notice, fan, later := [Sent(addr, SHUTDOWN)], FanOut(rest, Some(addr), Left(name)), ShutdownSends(rest, clients);
          Regroup(sendsBefore + notice, fan, later);
          Regroup(sendsBefore, notice, fan + later);
          Regroup(notice, fan, later);
        }
        assert messages + LeaveEvents(order, clients) == eventsBefore + LeaveEvents(current, registered) by {
          Regroup(eventsBefore, [Event(addr, Left(name))], LeaveEvents(rest, clients));
        }
      }
      assert clients == map[] by {
        assert forall a :: a !in clients;
      }
    }

    /** The number of registered participants: one per address the loops visit. */
    method GetClientsNumber() returns (n: nat)
      requires Valid()
      ensures n == |clients| == |order|
    {
      SizeIsOrderLength(clients, order);
      n := |clients|;
    }

    /** The receive loop's handling of one datagram `message` from `from`. */
    method Dispatch(from: Addr, message: string)
      requires Valid()
      modifies this`clients, this`order, this`messages, this`outbox
      ensures Valid()
      ensures old(messages) <= messages
      ensures NoJoinMarker(old(clients)) ==> NoJoinMarker(clients)
      ensures from !in old(clients) && !StartsWith(message, JOIN_PREFIX) ==>
        && clients == old(clients) && order == old(order)
        && messages == old(messages) && outbox == old(outbox)
      ensures Classify(old(clients), from, message).Join? ==>
        var name := Classify(old(clients), from, message).name;
        if name in old(clients).Values then
          && clients == old(clients) && order == old(order) && messages == old(messages)
          && outbox == old(outbox) + [Sent(from, NAME_TAKEN)]
        else
          && clients == old(clients)[from := name]
          && order == Insert(old(order), from)
          && messages == old(messages) + [Event(from, Joined(name))]
          && outbox == old(outbox) + [Sent(from, WELCOME)] + FanOut(order, Some(from), Joined(name))
      ensures Classify(old(clients), from, message) == Leave ==>
        && clients == old(clients) - {from}
        && order == Without(old(order), from)
        && (from in old(clients) ==>
              && messages == old(messages) + [Event(from, Left(old(clients)[from]))]
              && outbox == old(outbox) + FanOut(order, Some(from), Left(old(clients)[from])))
        && (from !in old(clients) ==> messages == old(messages) && outbox == old(outbox))
      ensures Classify(old(clients), from, message) == Chat ==>
        && clients == old(clients) && order == old(order)
        && messages == old(messages) + [Event(from, message)]
        && outbox == old(outbox) + FanOut(order, Some(from), message)
      ensures Classify(old(clients), from, message) == Drop ==>
        && clients == old(clients) && order == old(order)
        && messages == old(messages) && outbox == old(outbox)
    {
      if StartsWith(message, JOIN_PREFIX) {
        var name := JoinName(message);
        var _ := AcceptClient(from, name);
      } else if message == ExitPattern(if from in clients then clients[from] else "") {
        var _ := CloseClient(from);
      } else if from in clients {
        messages := messages + [Event(from, message)];
        Broadcast();
      }
    }
  }

  /** A client's join request is read as a join under the very name it asked for. */
  lemma ClientJoinIsJoin(clients: map<Addr, string>, from: Addr, name: string)
    requires !Contains(name, JOIN_PREFIX)
    ensures Classify(clients, from, JoinRequest(name)) == Join(name)
  {
    JoinNameRoundTrip(name);
  }

  /**
   * What a registered client sends when its user types "exit" is read as
   * its leave request, unless its name makes the line look like a join.
   */
  lemma ClientExitIsLeave(clients: map<Addr, string>, from: Addr)
    requires from in clients
    requires clients[from] != JOIN && !StartsWith(clients[from], JOIN_PREFIX)
    ensures Classify(clients, from, ClientLine(clients[from], EXIT)) == Leave
  {
    ClientLineLooksLikeJoin(clients[from], EXIT);
  }

  /** Any other line a registered client sends is relayed as chat, on the same condition. */
  lemma ClientTextIsChat(clients: map<Addr, string>, from: Addr, text: string)
    requires from in clients
    requires clients[from] != JOIN && !StartsWith(clients[from], JOIN_PREFIX)
    requires text != EXIT
    ensures Classify(clients, from, ClientLine(clients[from], text)) == Chat
  {
    var name := clients[from];
    ClientLineLooksLikeJoin(name, text);
    var line := ClientLine(name, text);
    assert line[|name| + 2..] == text;
    assert ExitPattern(name)[|name| + 2..] == EXIT;
  }

  /**
   * A client registered as "join" can never leave: its "join: exit" is read
   * as a join request for the name " exit".
   */
  lemma ClientNamedJoinCannotLeave(clients: map<Addr, string>, from: Addr)
    requires from in clients && clients[from] == JOIN
    ensures Classify(clients, from, ClientLine(clients[from], EXIT)) == Join(" exit")
  {
    var line := ClientLine(JOIN, EXIT);
    assert line[..|JOIN_PREFIX|] == JOIN_PREFIX;
    assert line[|JOIN_PREFIX|..] == " exit";
    assert " exit"[0] != JOIN_PREFIX[0];
    assert " exit"[1..] == "exit";
    assert Before(" exit", JOIN_PREFIX) == [' '] + Before("exit", JOIN_PREFIX);
  }
}
