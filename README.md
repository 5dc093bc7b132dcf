# Chatroom servers — a Dafny model

This project models the two chat servers of `chatroom.py`.

- `ServerTCP` keeps one connection per participant. It admits a newcomer under a display name only if the name is unused. It relays every line it reads to everyone else, turning the words `join` and `exit` into notices, and sends `server-shutdown` to everyone when it stops.
- `ServerUDP` keeps a registry from source address to name and an append-only history of events. Each datagram is classified by its text and its source as a join request, a leave request, chat, or noise. Only the latest history entry is broadcast. Shutdown notifies and removes every participant.

The model has four modules:

- `Protocol` (`protocol.dfy`) holds the text protocol:
  - the fixed replies and the notices;
  - the UDP join request, and the server's extraction of the name from it (`message.split("join:")[1]`);
  - the `"<name>: <text>"` framing of `ClientUDP.send`.
- `Registry` (`registry.dfy`) models a Python dict as a map together with its key insertion order. It also has `FanOut`, which specifies the loops that send one line to every key but one.
- `TcpServer` (`server_tcp.dfy`) and `UdpServer` (`server_udp.dfy`) hold the servers as classes. Their methods update the registry, the history and an outbox.
  - Every `send`/`sendto` appends a `Sent(to, text)` record to `outbox`.
  - Every TCP socket `close` adds the socket to `closed`.
  - Each class keeps the invariant `Valid()`: the key order tracks the map, and display names are pairwise distinct.

Sockets are abstract handles: a `Conn` id for TCP, an `Addr` host and port for UDP. A name read from a socket, or a datagram with its source address, is a parameter of the method that handles it.

## Model

| member | source | states |
|---|---|---|
| Protocol.Before | chatroom.py:282 | the result is a prefix of the text; the separator does not start at any index before its end; and it ends either at the end of the text or exactly at the first separator |
| Protocol.JoinName | chatroom.py:281-282 | the name read from a join request never contains "join:" and is a prefix of the text after the leading "join:" |
| Protocol.JoinNameRoundTrip | chatroom.py:281-282 | a client's join request starts with "join:", and the server reads back exactly the client's name if and only if the name contains no "join:" |
| Protocol.ClientLine | chatroom.py:335 | what a UDP client sends when its user types "exit" is exactly the server's leave pattern "<name>: exit" for that client |
| Protocol.ClientLineLooksLikeJoin | chatroom.py:281 | a client's line starts with "join:" if and only if its name is "join" or itself starts with "join:" |
| Protocol.NoticesDistinct | chatroom.py:53-58 | a joined notice is never a left notice; neither is ever the shutdown notice; and each notice determines the name in it |
| Registry.Without | chatroom.py:43 | deleting a key removes exactly that key from the order, keeps the others distinct, and changes nothing when the key is absent |
| Registry.WithoutKeepsOrder | chatroom.py:237 | deleting a registered key cuts exactly that key out of the order: the keys before it and after it keep their relative insertion order, which is the order of every later fan-out |
| Registry.InsertTracks | chatroom.py:110 | assigning a key keeps the order in step with the dict, and a new key is the last one, as the TCP accept loop relies on |
| Registry.InsertKeepsNamesUnique | chatroom.py:220-226 | admitting an unused name keeps the names pairwise distinct, even when an address re-joins over its own entry |
| Registry.RemoveFreesName | chatroom.py:235-237 | after a removal the removed name is free, and the other names are unchanged |
| Registry.SizeIsOrderLength | chatroom.py:80 | the dict's length is the number of keys the loops visit |
| Registry.FanOut | chatroom.py:61-63 | the fan-out sends no more lines than there are keys, only the given text, only to registered keys, and never to the skipped key (the exact count per key is FanOutExactlyOnce) |
| Registry.FanOutExactlyOnce | chatroom.py:249-252 | over distinct keys, every key but the skipped one receives the line exactly once, and nothing else is sent |
| TcpServer.ServerTcp.constructor | chatroom.py:16 | the server starts with an empty registry and has sent nothing |
| TcpServer.ServerTcp.AcceptClient | chatroom.py:20-36 | admits if and only if the name is unused. A taken name gets "Name already taken" and nothing else changes. A fresh name gets "Welcome", its socket is registered last, the count grows by one, and every other participant hears "User <name> joined" |
| TcpServer.ServerTcp.CloseClient | chatroom.py:38-46 | removes and closes the socket exactly when it is registered; otherwise nothing changes |
| TcpServer.ServerTcp.Broadcast | chatroom.py:48-63 | sends the formatted line, and only it, to every registered socket but the sender, in registry order |
| TcpServer.ServerTcp.Shutdown | chatroom.py:65-71 | sends "server-shutdown" to every registered socket and closes each; the registry is not cleared and keeps its invariant |
| TcpServer.ServerTcp.GetClientsNumber | chatroom.py:76-80 | the count equals both the number of entries and the number of sockets the loops visit |
| TcpServer.ServerTcp.HandleMessage | chatroom.py:88-95 | the relay round stops exactly on "exit". In every case the line is relayed to everyone else; on "exit" the sender is removed and closed, and otherwise the registry is unchanged |
| Protocol.RelayLineMeaning | chatroom.py:52-58 | a relayed line is the joined notice of its sender if and only if the text was "join", and the left notice if and only if it was "exit"; no other text, whatever it says, is relayed as a notice about the sender |
| Protocol.ChatLineIsNoNotice | chatroom.py:54-58 | a chat line "<name>: <text>" never coincides with a notice "User <name>..." about the same name |
| UdpServer.ServerUdp.constructor | chatroom.py:212-213 | the server starts with an empty registry, an empty history and nothing sent |
| UdpServer.ServerUdp.AcceptClient | chatroom.py:215-229 | admits if and only if the name is unused. A taken name gets "Name already taken" and nothing else changes. A fresh name gets "Welcome"; the address is registered, or overwritten in place when it re-joins; a joined event is appended to the history and relayed to every other participant |
| UdpServer.ServerUdp.CloseClient | chatroom.py:231-241 | removes the address exactly when it is registered, appends its left event and relays it to the remaining participants; otherwise nothing changes |
| UdpServer.ServerUdp.Broadcast | chatroom.py:243-252 | with an empty history nothing is sent; otherwise the text of the last history entry, and only it, goes to every registered address but that entry's origin |
| UdpServer.ServerUdp.Shutdown | chatroom.py:254-260 | the registry ends empty. The history gains one left event per participant registered at the start, and the sends are the notice-then-removal of each participant in registry order |
| UdpServer.ServerUdp.GetClientsNumber | chatroom.py:263-267 | the count equals both the number of entries and the number of addresses the loops visit |
| UdpServer.ServerUdp.Dispatch | chatroom.py:280-291 | acts as its classification says: a join admits or rejects the extracted name, a leave removes the sender (nothing for an unknown one), chat is appended and relayed, noise changes nothing. A datagram from an unknown address that is not a join request changes nothing at all. The history only grows, and no registered name ever contains "join:" |
| UdpServer.LeaveEvents | chatroom.py:258-260 | a shutdown appends one history entry per participant registered at the start |
| UdpServer.ShutdownSends | chatroom.py:258-260 | every shutdown send goes to a participant registered at the start |
| UdpServer.ShutdownNoticeOnce | chatroom.py:258-259 | every participant registered at the start of a shutdown receives "server-shutdown" exactly once, and nobody else receives it |
| UdpServer.LeaveEventsAnnounceEach | chatroom.py:258-260 | the shutdown's history entries announce each participant's departure, in registry order, under the name it was registered with |
| UdpServer.ClientJoinIsJoin | chatroom.py:281-283 | a client's join request is classified as a join under exactly the name it asked for, when that name contains no "join:" |
| UdpServer.ClientExitIsLeave | chatroom.py:285-286 | a registered client's "exit" line is classified as its leave request, unless its name makes the line look like a join |
| UdpServer.ClientTextIsChat | chatroom.py:288-291 | any other line from a registered client is classified as chat, on the same condition |
| UdpServer.ClientNamedJoinCannotLeave | chatroom.py:281-286 | a client registered as "join" sends "join: exit" to leave, and that is classified as a join request for the name " exit" |

## Left out

- Sockets are left out: creation, `bind`/`listen`/`accept`, `recv`/`recvfrom`, hostname resolution and closing the server socket are operating-system I/O. Handles, names and datagrams are parameters; sends are outbox records.
- Threads and the `threading.Event` flags are left out: the thread per TCP client, the `run` loops, and the clients' concurrent send and receive loops. Each server is modelled as a sequence of steps. `HandleMessage` is one round of `handle_client`'s loop, and `Dispatch` is one round of the UDP `run` loop.
- Every send is modelled as one that succeeds. In Python a `send` that raises has three effects, and none of them is modelled:
  - it stops the rest of the fan-out at chatroom.py:61-63;
  - raised from `accept_client` (line 35), it escapes `run`'s `except KeyboardInterrupt` and ends the accept loop;
  - raised in `handle_client`, it ends that relay thread through the bare `except`, and the sender stays registered.
- Exception paths are left out: the bare `except` that ends `handle_client` when a read fails, and `KeyboardInterrupt`, are exception control flow from I/O.
- Console output, prompts and terminal line clearing are left out.
- UTF-8 encoding and the 1024-byte receive buffer are not modelled: messages are strings of any length, never truncated.
- The clients' `connect_server` handshakes and receive loops are left out. Of the clients, only the line framing of `ClientUDP.send` and the join request are modelled.
- TcpServer.ServerTcp.Broadcast requires the sender to be registered. In Python, `self.clients[client_socket_sent]` raises `KeyError` for an unregistered sender, and that error path is left out.
- TcpServer.ServerTcp.HandleMessage requires the socket to be registered. It is only ever called for a socket that was just admitted.
- TCP shutdown leaves `self.clients` as it was, as the code does.
- A UDP client whose name is "join" can never leave or chat. Its "join: <text>" lines start with "join:", so the server reads them as join requests (see UdpServer.ClientNamedJoinCannotLeave). The model keeps this behaviour of the code.
- UdpServer.ServerUdp.Shutdown iterates by repeatedly taking the first address still registered, rather than over a copy of the keys (`list(self.clients.keys())`). Each round removes exactly the address it visits, so both visit the same addresses in the same order.
