/** The history-and-cursor bookkeeping of `MessagingServer` (server.py) as a
    sequential state machine with pure step functions.

    State: the list of active connections, the append-only message history, and
    the next socket identity the listener will hand out. Each step is atomic;
    the threads of the server are not modelled.
 */
module Server {
  import opened Schemas

  datatype Option<T> = None | Some(value: T)

  /** The only error of the bookkeeping: `list.remove` of a connection that is
      not in the active list (a `ValueError`). */
  datatype Error = NotRegistered(id: nat)

  datatype Result<T> = Ok(value: T) | Failure(error: Error)

  datatype MessagingServer = MessagingServer(
    activeConnections: seq<ActiveConnection>,
    messageHistory: seq<MessageHistory>,
    nextSocket: nat)

  /** What a client thread can observe: a new connection from `address`, one
      message received on connection `id`, or end of stream on `id`. */
  datatype Event =
    | Accept(address: string)
    | Recv(id: nat, messageObject: MessageObject, timestamp: real)
    | Eof(id: nat)

  /** A server with no connections and an empty history. */
  function Init(): (s: MessagingServer)
    ensures s.activeConnections == [] && s.messageHistory == []
  {
    MessagingServer([], [], 0)
  }

  // ----- history -----

  /** The payloads of a stretch of history, in history order. */
  function Payloads(h: seq<MessageHistory>): (p: seq<MessageObject>)
    ensures |p| == |h|
    ensures forall i :: 0 <= i < |h| ==> p[i] == h[i].messageObject
  {
    if h == [] then [] else [h[0].messageObject] + Payloads(h[1..])
  }

  /** Payloads of consecutive stretches of history concatenate. */
  lemma PayloadsConcat(a: seq<MessageHistory>, b: seq<MessageHistory>)
    ensures Payloads(a + b) == Payloads(a) + Payloads(b)
  {
    var l, r := Payloads(a + b), Payloads(a) + Payloads(b);
    assert |l| == |r|;
    forall i | 0 <= i < |l|
      ensures l[i] == r[i]
    {
      if i < |a| {
        assert (a + b)[i] == a[i];
      } else {
        assert (a + b)[i] == b[i - |a|];
      }
    }
  }

  /** `history[last:]` with Python's slicing rule: a start past the end gives
      the empty list. */
  function Backlog(h: seq<MessageHistory>, last: nat): (b: seq<MessageHistory>)
    ensures last <= |h| ==> |b| == |h| - last
    ensures forall k :: 0 <= k < |b| ==> last + k < |h| && b[k] == h[last + k]
    ensures last >= |h| ==> b == []
  {
    if last <= |h| then h[last..] else []
  }

  // ----- catch-up -----

  /** Sends every history entry from the cursor on, in order, then moves the
      cursor to the end of the history. */
  function CatchUp(c: ActiveConnection, h: seq<MessageHistory>): (c': ActiveConnection)
    ensures c'.connection.id == c.connection.id && c'.address == c.address
    ensures c'.last == |h|
    ensures c.connection.sent <= c'.connection.sent
    ensures |c'.connection.sent| == |c.connection.sent| + (if c.last <= |h| then |h| - c.last else 0)
  {
    c.(connection := c.connection.(sent := c.connection.sent + Payloads(Backlog(h, c.last))), last := |h|)
  }

  // ----- notify -----

  /** The filter of `_notify_everyone`: with no `unless` every connection is
      kept; otherwise only the connection EQUAL to `unless` is kept (record
      equality, i.e. the same socket). */
  predicate Selected(c: ActiveConnection, unless: Option<nat>)
  {
    unless.None? || c.connection.id == unless.value
  }

  /** Catches up every selected connection, leaving the others as they are. */
  function NotifyEveryone(cs: seq<ActiveConnection>, h: seq<MessageHistory>, unless: Option<nat>): (cs': seq<ActiveConnection>)
    ensures |cs'| == |cs|
    ensures forall i :: 0 <= i < |cs| && Selected(cs[i], unless) ==> cs'[i] == CatchUp(cs[i], h)
    ensures forall i :: 0 <= i < |cs| && !Selected(cs[i], unless) ==> cs'[i] == cs[i]
  {
    if cs == [] then []
    else [if Selected(cs[0], unless) then CatchUp(cs[0], h) else cs[0]] + NotifyEveryone(cs[1..], h, unless)
  }

  // ----- active list -----

  /** Whether some active connection is on socket `id`. */
  predicate Registered(cs: seq<ActiveConnection>, id: nat)
  {
    exists i :: 0 <= i < |cs| && cs[i].connection.id == id
  }

  /** Past a head on another socket, registration is decided by the tail. */
  lemma RegisteredTail(cs: seq<ActiveConnection>, id: nat)
    requires cs != [] && cs[0].connection.id != id
    ensures Registered(cs, id) <==> Registered(cs[1..], id)
  {
    if Registered(cs, id) {
      var i :| 0 <= i < |cs| && cs[i].connection.id == id;
      assert cs[1..][i - 1] == cs[i];
    }
    if Registered(cs[1..], id) {
      var i :| 0 <= i < |cs[1..]| && cs[1..][i].connection.id == id;
      assert cs[i + 1] == cs[1..][i];
    }
  }

  /** Position of the first connection on socket `id`. */
  function FirstIndex(cs: seq<ActiveConnection>, id: nat): (k: nat)
    requires Registered(cs, id)
    ensures k < |cs| && cs[k].connection.id == id
    ensures forall j :: 0 <= j < k ==> cs[j].connection.id != id
  {
    if cs[0].connection.id == id then 0
    else
      RegisteredTail(cs, id);
      1 + FirstIndex(cs[1..], id)
  }

  /** `list.remove`: drops the first connection on socket `id`, or fails
      when there is none. */
  function RemoveFirst(cs: seq<ActiveConnection>, id: nat): (r: Option<seq<ActiveConnection>>)
    ensures r.Some? <==> Registered(cs, id)
    ensures r.Some? ==> |r.value| == |cs| - 1
  {
    if cs == [] then None
    else if cs[0].connection.id == id then Some(cs[1..])
    else
      RegisteredTail(cs, id);
      var r := RemoveFirst(cs[1..], id);
      if r.None? then None else Some([cs[0]] + r.value)
  }

  /** The connection removed is the first one on that socket; the others
      keep their order. */
  lemma {:induction false} RemoveFirstDeletesFirstMatch(cs: seq<ActiveConnection>, id: nat)
    requires Registered(cs, id)
    ensures RemoveFirst(cs, id).Some?
    ensures var k, r := FirstIndex(cs, id), RemoveFirst(cs, id).value;
      forall j :: 0 <= j < |r| ==> r[j] == cs[if j < k then j else j + 1]
  {
    if cs[0].connection.id != id {
      RegisteredTail(cs, id);
      RemoveFirstDeletesFirstMatch(cs[1..], id);
    }
  }

  /** A sequence that agrees with `xs` shifted past position `k` is `xs`
      with position `k` deleted. */
  lemma PointwiseDeletion<T>(xs: seq<T>, r: seq<T>, k: nat)
    requires k < |xs| && |r| == |xs| - 1
    requires forall j :: 0 <= j < |r| ==> r[j] == xs[if j < k then j else j + 1]
    ensures r == xs[..k] + xs[k + 1..]
  {
  }

  /** The same, as a deletion from the list. */
  lemma RemoveFirstIsDeletion(cs: seq<ActiveConnection>, id: nat)
    requires Registered(cs, id)
    ensures var k := FirstIndex(cs, id); RemoveFirst(cs, id) == Some(cs[..k] + cs[k + 1..])
  {
    RemoveFirstDeletesFirstMatch(cs, id);
    PointwiseDeletion(cs, RemoveFirst(cs, id).value, FirstIndex(cs, id));
  }

  // ----- steps of `handle_client` -----

  /** A new client: a fresh socket is registered at the end of the active
      list, then caught up with the whole history. */
  function Connect(s: MessagingServer, address: string): (s': MessagingServer)
    ensures s'.messageHistory == s.messageHistory
    ensures |s'.activeConnections| == |s.activeConnections| + 1
    ensures s'.activeConnections[..|s.activeConnections|] == s.activeConnections
    ensures s'.nextSocket > s.nextSocket
  {
    var c := NewActiveConnection(Socket(s.nextSocket, []), address);
    // the record is appended, then the appended (last) element is caught up
    s.(activeConnections := s.activeConnections + [CatchUp(c, s.messageHistory)],
       nextSocket := s.nextSocket + 1)
  }

  /** A message received on connection `id`: one history entry is appended,
      then `_notify_everyone(unless=<that connection>)` runs. */
  function Receive(s: MessagingServer, id: nat, m: MessageObject, timestamp: real): (s': MessagingServer)
    ensures |s'.messageHistory| == |s.messageHistory| + 1
    ensures s'.messageHistory[..|s.messageHistory|] == s.messageHistory
    ensures s'.messageHistory[|s.messageHistory|] == MessageHistory(m, id, timestamp)
    ensures |s'.activeConnections| == |s.activeConnections|
    ensures forall i :: 0 <= i < |s.activeConnections| ==>
      s'.activeConnections[i].connection.id == s.activeConnections[i].connection.id
      && s'.activeConnections[i].address == s.activeConnections[i].address
    ensures s'.nextSocket == s.nextSocket
  {
    var h := s.messageHistory + [MessageHistory(m, id, timestamp)];
    s.(messageHistory := h, activeConnections := NotifyEveryone(s.activeConnections, h, Some(id)))
  }

  /** End of stream on connection `id`: it is removed from the active list. */
  function Disconnect(s: MessagingServer, id: nat): (r: Result<MessagingServer>)
    ensures r.Failure? <==> !Registered(s.activeConnections, id)
    ensures r.Ok? ==> r.value.messageHistory == s.messageHistory && r.value.nextSocket == s.nextSocket
    ensures r.Ok? ==> |r.value.activeConnections| == |s.activeConnections| - 1
  {
    match RemoveFirst(s.activeConnections, id)
    case None => Failure(NotRegistered(id))
    case Some(rest) => Ok(s.(activeConnections := rest))
  }

  function Step(s: MessagingServer, e: Event): (r: Result<MessagingServer>)
    ensures r.Failure? ==> e.Eof? && !Registered(s.activeConnections, e.id)
  {
    match e
    case Accept(address) => Ok(Connect(s, address))
    case Recv(id, m, t) => Ok(Receive(s, id, m, t))
    case Eof(id) => Disconnect(s, id)
  }

  /** The converse of `Step`'s contract: end of stream from a connection that
      is not registered always fails. */
  lemma StepFailsOnUnregisteredEof(s: MessagingServer, id: nat)
    requires !Registered(s.activeConnections, id)
    ensures Step(s, Eof(id)) == Failure(NotRegistered(id))
  {
  }

  /** Runs a sequence of events. A failing step ends only the thread that
      raised, so the server state is left as it was and the run goes on. */
  function Run(s: MessagingServer, es: seq<Event>): (s': MessagingServer)
    ensures |s.messageHistory| <= |s'.messageHistory|
    ensures s.messageHistory <= s'.messageHistory
    decreases |es|
  {
    if es == [] then s
    else
      var next := match Step(s, es[0]) case Ok(t) => t case Failure(_) => s;
      Run(next, es[1..])
  }

  // ----- the invariant -----

  /** A connection whose socket has received exactly the history before its
      cursor, in order, and whose cursor is within the history. */
  predicate Synced(c: ActiveConnection, h: seq<MessageHistory>)
  {
    c.last <= |h| && c.connection.sent == Payloads(h[..c.last])
  }

  /** No socket is registered twice. */
  predicate DistinctIds(cs: seq<ActiveConnection>)
  {
    forall i, j :: 0 <= i < j < |cs| ==> cs[i].connection.id != cs[j].connection.id
  }

  predicate Valid(s: MessagingServer)
  {
    && (forall i :: 0 <= i < |s.activeConnections| ==> Synced(s.activeConnections[i], s.messageHistory))
    && DistinctIds(s.activeConnections)
    && (forall i :: 0 <= i < |s.activeConnections| ==> s.activeConnections[i].connection.id < s.nextSocket)
  }
}
