# Messaging server: history and replay cursors

This project models the bookkeeping at the centre of `MessagingServer`, a small chat server. The server keeps two lists: the append-only `message_history` and the list of `active_connections`. Each connection carries a replay cursor `last`, which counts the history entries already sent to it. Every client thread of `handle_client` drives four steps on this state:

- **connect**: register a new connection at the end of the active list, then catch it up;
- **receive**: append one history entry (the message object, the connection it came from and a timestamp), then call `_notify_everyone(unless=<that connection>)`;
- **end of stream**: remove the connection from the active list;
- **catch-up** (`_update_current_connection`): send `history[last:]` in order, then set `last` to the length of the history.

The model keeps these steps as pure functions over immutable values and proves its central invariant. Every active connection's socket holds exactly the payloads of `history[0..last]`, in order, with nothing skipped or duplicated, and `last` is at most the length of the history.

Modules:

- `Schemas` (schemas.dfy) holds the three records of schemas.py. `MessageObject` is exactly a pair of strings, a user and a message. `ActiveConnection` holds a socket, an address and the cursor `last`. `MessageHistory` holds a message object, the originating connection and a timestamp. A socket is a unique id plus the sequence of payloads sent on it, so a `send` becomes an append.
- `Server` (server.dfy) holds the state, the steps and the invariant `Valid`. Steps arrive as events (`Accept`, `Recv`, `Eof`) and `Run` applies a sequence of them.
- `ServerLoops` (server_loops.dfy) writes the two `for` loops as loops. `ReplayBacklog` sends one message at a time. `NotifyConnections` walks the filtered connections. Each is proved equal to its step function.
- `ServerProperties` (server_properties.dfy) proves that every step preserves the invariant, that cursors never move back, and how each step affects the connections.

**The notify filter is modelled as written.** `_notify_everyone` keeps the connections for which `conn == unless`. After a message from connection X, only X is caught up, and X is sent its own message back. Every other connection's cursor and socket stay as they were. Those connections get the new entries only at their next catch-up, which happens when they send a message themselves. A connection that never sends receives only the history that existed when it joined. `ThreeClients` shows this on a concrete run: the first client never receives the second client's message. The method's name and its `unless` parameter suggest the opposite, a push to everyone except the sender. The model follows the code.

Connection equality is dataclass field equality. Sockets compare by identity, so two distinct connections are never equal. The model gives each socket a unique id, taken from a counter `nextSocket` in the state, and compares ids. `list.remove` removes the first equal element and raises `ValueError` when there is none. The model returns `Failure(NotRegistered(id))` in that case. The raise ends only the thread that raised it, so `Run` leaves the state unchanged and continues.

## Model

| member | source | states |
|---|---|---|
| Schemas.NewActiveConnection | schemas.py:11-15 | a new connection record keeps the socket and address it is given, and its cursor `last` starts at 0 |
| ServerProperties.FreshConnectionSynced | schemas.py:15 | a new record has been sent nothing and its cursor is 0, so it satisfies the replay invariant against any history |
| Schemas.Send | server.py:43 | one send adds exactly one payload at the end of the socket's stream and keeps every earlier payload |
| Server.Init | server.py:36-37 | a new server has no active connections and an empty history |
| ServerProperties.InitValid | server.py:36-37 | the initial server satisfies the invariant |
| Server.Payloads | server.py:42-43 | the payloads sent for a stretch of history are its message objects, one per entry, in history order |
| Server.Backlog | server.py:42 | `history[last:]` has `len - last` entries, and entry k is history entry `last + k`; a start past the end gives the empty list, as Python slicing does |
| Server.CatchUp | server.py:39-46 | catch-up moves the cursor to the history length, keeps the socket and address, only appends to the socket, and sends exactly `len - last` messages |
| ServerLoops.ReplayBacklog | server.py:42-46 | the replay loop sends history entries `last..len-1` one by one, in history order, right after what was already sent, then sets the cursor to the history length |
| ServerProperties.CatchUpCompletesHistory | server.py:42-46 | catching up a connection that satisfies the invariant leaves its socket holding the payloads of the whole history, in order, still satisfying the invariant |
| ServerProperties.CatchUpIdempotent | server.py:42-46 | a second catch-up with no new history sends nothing and leaves the cursor unchanged |
| ServerProperties.SentIsHistoryPrefix | server.py:42-46 | in a valid server, every socket has received a prefix of the history's payloads |
| Server.NotifyEveryone | server.py:48-56 | the connections the filter keeps (all of them without `unless`, otherwise only the one equal to `unless`) are caught up; the rest are unchanged; the list keeps its length and order |
| ServerLoops.NotifyConnections | server.py:48-56 | the notify loop keeps every socket in its place; it moves each kept connection's cursor to the history length and leaves every other connection exactly as it was |
| ServerProperties.NotifyAllCatchesUpEveryone | server.py:48-53 | with no `unless`, every connection that satisfies the invariant ends with the whole history sent and its cursor at the end |
| ServerProperties.ReceiveCatchesUpOnlyOrigin | server.py:50 | after a message from connection X, X has been sent the whole history including its own message, and every other connection is unchanged |
| ServerProperties.ReceiveEchoesToSender | server.py:83 | the last payload on the sender's socket is the message it just sent |
| Server.Receive | server.py:76-83 | receiving adds exactly one history entry at the end, holding the message object and the origin connection's id; earlier entries are unchanged and no connection is added or removed, and every connection keeps its place, its socket and its address |
| ServerProperties.SyncedAfterAppend | server.py:76-82 | appending to the history never breaks the invariant for any connection, because the part before its cursor does not change |
| Server.Connect | server.py:61-63 | a new connection adds one entry at the end of the active list; the earlier entries and the history are unchanged, and the socket counter moves forward |
| ServerProperties.ConnectCatchesUpNewcomer | server.py:61-63 | the new connection is on a socket no other connection uses, keeps its address, has been sent the whole history and has its cursor at the end |
| Server.FirstIndex | server.py:72 | the position found holds a connection on that socket, and no earlier position does |
| Server.RemoveFirst | server.py:72 | `list.remove` succeeds exactly when some connection is on that socket, and then the list is one shorter |
| Server.RemoveFirstDeletesFirstMatch | server.py:72 | the removal drops the first connection on that socket; the connections before it keep their positions, and those after it move up by one |
| Server.RemoveFirstIsDeletion | server.py:72 | the result of the removal is the list with the first matching position deleted |
| ServerProperties.RemoveFirstUnregisters | server.py:72 | when sockets are distinct, no connection on that socket remains after the removal |
| Server.Disconnect | server.py:69-73 | end of stream fails exactly when the connection is not in the active list; otherwise it removes one connection and leaves the history unchanged |
| ServerProperties.DisconnectRemovesOnlyThatConnection | server.py:70-73 | end of stream from a registered connection removes that connection only; the others keep their records and their order, and the history is unchanged |
| Server.Step | server.py:58-83 | only end of stream from an unregistered connection can fail |
| Server.StepFailsOnUnregisteredEof | server.py:70-72 | end of stream from a connection that is not in the active list always fails with that connection's error; with `Step`, a step fails exactly in this case |
| Server.Run | server.py:58-83 | running events never shortens the history: the old history is a prefix of the new one |
| ServerProperties.ConnectPreservesValid | server.py:61-63 | connect preserves the invariant |
| ServerProperties.ReceivePreservesValid | server.py:76-83 | receive preserves the invariant |
| ServerProperties.DisconnectPreservesValid | server.py:70-73 | end of stream preserves the invariant |
| ServerProperties.StepPreservesValid | server.py:58-83 | every step keeps each socket equal to the history before its cursor, with the cursor at most the history length, the sockets distinct and the socket counter ahead of all of them |
| ServerProperties.RunPreservesValid | server.py:58-83 | any sequence of events from a valid state leads to a valid state |
| ServerProperties.ReachableValid | server.py:36-83 | every state reachable from a new server is valid |
| ServerProperties.ConnectNeverRewinds | server.py:61-63 | after connect the old history is a prefix of the new one; a connection active before and after keeps a cursor at least as large and a socket stream that only grew |
| ServerProperties.ReceiveNeverRewinds | server.py:46 | after receive the old history is a prefix of the new one; no cursor decreases and no socket loses a payload |
| ServerProperties.DisconnectNeverRewinds | server.py:72 | after end of stream the history is unchanged, and every remaining connection keeps a cursor at least as large and a socket stream that only grew |
| ServerProperties.StepNeverRewinds | server.py:46 | across any step, the history only grows at the end, cursors never decrease, and socket streams only grow |
| ServerProperties.ThreeClients | server.py:58-83 | in a run where A says "hi", B joins and says "yo", then C joins: A's socket holds only "hi", while B's and C's hold "hi" then "yo" |

## Left out

- Sockets, `bind`/`listen`/`accept`, `recv(4096)` framing and pickle: these are I/O and a foreign codec. `connection.send` at server.py:43 discards the byte count it returns, so a real send may write only part of a pickle. The model's `Send` always delivers the whole payload, and the "nothing skipped" invariant depends on that. A received message is an abstract `MessageObject`, and `pickle.loads` raising `EOFError` on an empty read is the `Eof` event. `_accept_new_connections` appears only as the `Accept` event.
- `threading`: the two lists are shared between client threads with no lock. The model treats every step as atomic and sequential, so interleavings inside a step are not modelled. The "nothing skipped" invariant holds only under this atomicity. In the program, the catch-up takes the slice `history[last:]` once (server.py:42) and sets `last` to the history length only after the loop (server.py:46). An entry that another thread appends while that loop runs is never sent to that connection, and the cursor moves past it for good.
- `time.sleep(0.2)` in the replay loop: in the atomic model it only paces the sends. In the program it widens the window, described on the line above, in which another thread's append is skipped.
- The timestamp: `datetime.timestamp(datetime.now())` is a clock reading. The `Recv` event supplies it as an opaque `real`, and no property depends on it.
- The history entry stores the origin connection's socket id instead of a reference to the live record, because the record's `last` field is never read through the history.
- Exceptions other than `EOFError`, such as a connection reset: in the code they end the thread without removing the connection. The model has no event for them.
- A `Recv` on a connection that is not active cannot happen in the code, because only the connection's own thread receives, and only while registered. The model still defines it the way the code would run it: the entry is appended and nobody is notified.
- Logging, `go()` and its `KeyboardInterrupt` handling, and the whole client (`client.py`, its input loop and its reader thread).
