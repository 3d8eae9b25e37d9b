/** The records the messaging server keeps (schemas.py).

    Sockets are opaque in the server: they are only compared (by identity) and
    written to. A `Socket` here is a unique id together with the sequence of
    payloads written to it so far, so that "send" becomes an append.
 */
module Schemas {

  /** What a client sends: the author's user name and the text. */
  datatype MessageObject = MessageObject(user: string, message: string)

  /** A connected socket: its identity and every payload sent on it, in order. */
  datatype Socket = Socket(id: nat, sent: seq<MessageObject>)

  /** A registered client: its socket, peer address and replay cursor `last`,
      the number of history entries already sent to it. */
  datatype ActiveConnection = ActiveConnection(connection: Socket, address: string, last: nat)

  /** One history entry: the message, the id of the connection it came from,
      and the wall-clock time it was received (kept opaque). */
  datatype MessageHistory = MessageHistory(messageObject: MessageObject, currentConnection: nat, timestamp: real)

  /** A freshly built connection record: the cursor defaults to 0. */
  function NewActiveConnection(connection: Socket, address: string): (c: ActiveConnection)
    ensures c.last == 0
    ensures c.connection == connection && c.address == address
  {
    ActiveConnection(connection, address, 0)
  }

  /** Writes one payload to a socket. */
  function Send(s: Socket, m: MessageObject): (s': Socket)
    ensures s'.id == s.id
    ensures |s'.sent| == |s.sent| + 1 && s'.sent[..|s.sent|] == s.sent
    ensures s'.sent[|s.sent|] == m
  {
    s.(sent := s.sent + [m])
  }
}
