/** What the bookkeeping of `MessagingServer` guarantees: every step keeps
    each active connection's socket equal to the history before its cursor,
    cursors only move forward, and each step touches exactly the connections
    the code says it does.
 */
module ServerProperties {
  import opened Schemas
  import opened Server

  // ----- payloads and prefixes -----

  /** The payloads of a prefix are the prefix of the payloads. */
  lemma PayloadsPrefix(h: seq<MessageHistory>, n: nat)
    requires n <= |h|
    ensures Payloads(h[..n]) == Payloads(h)[..n]
  {
    assert |Payloads(h[..n])| == n;
    forall i | 0 <= i < n
      ensures Payloads(h[..n])[i] == Payloads(h)[..n][i]
    {
      assert h[..n][i] == h[i];
    }
  }

  /** A connection synced against a history stays synced when the history
      grows, since the part before its cursor does not change. */
  lemma {:induction false} SyncedAfterAppend(c: ActiveConnection, h: seq<MessageHistory>, more: seq<MessageHistory>)
    requires Synced(c, h)
    ensures Synced(c, h + more)
  {
    assert (h + more)[..c.last] == h[..c.last];
  }

  // ----- catch-up -----

  /** A fresh connection record has been sent nothing and sits at cursor 0, so
      it is synced against any history. */
  lemma FreshConnectionSynced(id: nat, address: string, h: seq<MessageHistory>)
    ensures Synced(NewActiveConnection(Socket(id, []), address), h)
  {
    assert h[..0] == [];
  }

  /** Catching up a synced connection leaves its socket holding the whole
      history, in order, and its cursor at the end. */
  lemma {:induction false} CatchUpCompletesHistory(c: ActiveConnection, h: seq<MessageHistory>)
    requires Synced(c, h)
    ensures CatchUp(c, h).connection.sent == Payloads(h)
    ensures Synced(CatchUp(c, h), h)
  {
    assert h[..c.last] + h[c.last..] == h;
    PayloadsConcat(h[..c.last], h[c.last..]);
    assert h[..|h|] == h;
  }

  /** A second catch-up with no new history sends nothing and leaves the
      cursor where it is. */
  lemma CatchUpIdempotent(c: ActiveConnection, h: seq<MessageHistory>)
    ensures CatchUp(CatchUp(c, h), h) == CatchUp(c, h)
  {
    assert Payloads(Backlog(h, |h|)) == [];
    assert CatchUp(c, h).connection.sent + [] == CatchUp(c, h).connection.sent;
  }

  // ----- notify -----

  /** `_notify_everyone()` with no `unless` brings every synced connection
      fully up to date. */
  lemma NotifyAllCatchesUpEveryone(cs: seq<ActiveConnection>, h: seq<MessageHistory>)
    requires forall i :: 0 <= i < |cs| ==> Synced(cs[i], h)
    ensures forall i :: 0 <= i < |cs| ==>
      NotifyEveryone(cs, h, None)[i].last == |h| && NotifyEveryone(cs, h, None)[i].connection.sent == Payloads(h)
  {
    forall i | 0 <= i < |cs|
      ensures NotifyEveryone(cs, h, None)[i].connection.sent == Payloads(h)
    {
      CatchUpCompletesHistory(cs[i], h);
    }
  }

  /** After a message from connection `id`, exactly the connection on socket
      `id` is caught up: it is sent every entry up to and including its own
      message. Every other connection is left as it was. */
  lemma ReceiveCatchesUpOnlyOrigin(s: MessagingServer, id: nat, m: MessageObject, t: real)
    requires Valid(s)
    ensures var s' := Receive(s, id, m, t);
      forall i :: 0 <= i < |s.activeConnections| ==>
        if s.activeConnections[i].connection.id == id then
          && s'.activeConnections[i].last == |s'.messageHistory|
          && s'.activeConnections[i].connection.sent == Payloads(s'.messageHistory)
        else s'.activeConnections[i] == s.activeConnections[i]
  {
    var s' := Receive(s, id, m, t);
    forall i | 0 <= i < |s.activeConnections| && s.activeConnections[i].connection.id == id
      ensures s'.activeConnections[i].connection.sent == Payloads(s'.messageHistory)
    {
      SyncedAfterAppend(s.activeConnections[i], s.messageHistory, [MessageHistory(m, id, t)]);
      CatchUpCompletesHistory(s.activeConnections[i], s'.messageHistory);
    }
  }

  /** The sender's own message comes back to it: the last payload on the
      origin's socket is the message it just sent. */
  lemma ReceiveEchoesToSender(s: MessagingServer, i: nat, m: MessageObject, t: real)
    requires Valid(s)
    requires i < |s.activeConnections|
    ensures var s' := Receive(s, s.activeConnections[i].connection.id, m, t);
      var sent := s'.activeConnections[i].connection.sent;
      |sent| == |s'.messageHistory| && sent[|sent| - 1] == m
  {
    ReceiveCatchesUpOnlyOrigin(s, s.activeConnections[i].connection.id, m, t);
  }

  // ----- disconnect -----

  /** End of stream on a registered connection removes that connection and
      nothing else: the others keep their records and their order, the
      history is untouched, and the socket is no longer registered. */
  lemma DisconnectRemovesOnlyThatConnection(s: MessagingServer, id: nat)
    requires Valid(s)
    requires Registered(s.activeConnections, id)
    ensures var k := FirstIndex(s.activeConnections, id);
      && Disconnect(s, id).Ok?
      && Disconnect(s, id).value.activeConnections == s.activeConnections[..k] + s.activeConnections[k + 1..]
      && Disconnect(s, id).value.messageHistory == s.messageHistory
      && !Registered(Disconnect(s, id).value.activeConnections, id)
  {
    RemoveFirstIsDeletion(s.activeConnections, id);
    RemoveFirstUnregisters(s.activeConnections, id);
  }

  /** With distinct sockets, removing the first connection on `id` leaves
      none on `id`. */
  lemma RemoveFirstUnregisters(cs: seq<ActiveConnection>, id: nat)
    requires DistinctIds(cs) && Registered(cs, id)
    ensures RemoveFirst(cs, id).Some? && !Registered(RemoveFirst(cs, id).value, id)
  {
    RemoveFirstDeletesFirstMatch(cs, id);
    var k, r := FirstIndex(cs, id), RemoveFirst(cs, id).value;
    forall j | 0 <= j < |r|
      ensures r[j].connection.id != id
    {
      assert r[j] == cs[if j < k then j else j + 1];
    }
  }

  // ----- the invariant -----

  lemma InitValid()
    ensures Valid(Init())
  {
  }

  /** Removing one position from a valid active list keeps it valid. */
  lemma {:induction false} DeleteKeepsValid(s: MessagingServer, k: nat)
    requires Valid(s)
    requires k < |s.activeConnections|
    ensures Valid(s.(activeConnections := s.activeConnections[..k] + s.activeConnections[k + 1..]))
  {
    var cs := s.activeConnections;
    var rest := cs[..k] + cs[k + 1..];
    assert forall j :: 0 <= j < |rest| ==> rest[j] == cs[if j < k then j else j + 1];
  }

  /** Appending a synced connection on a socket beyond every registered one
      keeps the server valid. */
  lemma RegisterKeepsValid(s: MessagingServer, c: ActiveConnection)
    requires Valid(s)
    requires Synced(c, s.messageHistory) && c.connection.id >= s.nextSocket
    ensures Valid(s.(activeConnections := s.activeConnections + [c], nextSocket := c.connection.id + 1))
  {
    var cs := s.activeConnections;
    var cs' := cs + [c];
    assert forall i :: 0 <= i < |cs| ==> cs'[i] == cs[i];
  }

  lemma ConnectPreservesValid(s: MessagingServer, address: string)
    requires Valid(s)
    ensures Valid(Connect(s, address))
  {
    var c := NewActiveConnection(Socket(s.nextSocket, []), address);
    var c' := CatchUp(c, s.messageHistory);
    assert Synced(c', s.messageHistory) by {
      FreshConnectionSynced(s.nextSocket, address, s.messageHistory);
      CatchUpCompletesHistory(c, s.messageHistory);
    }
    RegisterKeepsValid(s, c');
  }

  lemma ReceivePreservesValid(s: MessagingServer, id: nat, m: MessageObject, t: real)
    requires Valid(s)
    ensures Valid(Receive(s, id, m, t))
  {
    var cs, s' := s.activeConnections, Receive(s, id, m, t);
    var h' := s.messageHistory + [MessageHistory(m, id, t)];
    assert s'.messageHistory == h';
    forall i | 0 <= i < |cs|
      ensures Synced(s'.activeConnections[i], h')
      ensures s'.activeConnections[i].connection.id == cs[i].connection.id
    {
      SyncedAfterAppend(cs[i], s.messageHistory, [MessageHistory(m, id, t)]);
      if Selected(cs[i], Some(id)) {
        CatchUpCompletesHistory(cs[i], h');
      }
    }
  }

  lemma DisconnectPreservesValid(s: MessagingServer, id: nat)
    requires Valid(s)
    ensures Disconnect(s, id).Ok? ==> Valid(Disconnect(s, id).value)
  {
    if Registered(s.activeConnections, id) {
      RemoveFirstIsDeletion(s.activeConnections, id);
      DeleteKeepsValid(s, FirstIndex(s.activeConnections, id));
    }
  }

  /** Every step keeps every active connection synced with the history, the
      sockets distinct, and the socket counter ahead of them. */
  lemma StepPreservesValid(s: MessagingServer, e: Event)
    requires Valid(s)
    ensures Step(s, e).Ok? ==> Valid(Step(s, e).value)
  {
    match e
    case Accept(address) => ConnectPreservesValid(s, address);
    case Recv(id, m, t) => ReceivePreservesValid(s, id, m, t);
    case Eof(id) => DisconnectPreservesValid(s, id);
  }

  /** From the initial server, any sequence of events leaves every active
      connection's socket holding exactly the history before its cursor. */
  lemma {:induction false} RunPreservesValid(s: MessagingServer, es: seq<Event>)
    requires Valid(s)
    ensures Valid(Run(s, es))
    decreases |es|
  {
    if es != [] {
      StepPreservesValid(s, es[0]);
      var next := match Step(s, es[0]) case Ok(t) => t case Failure(_) => s;
      RunPreservesValid(next, es[1..]);
    }
  }

  lemma ReachableValid(es: seq<Event>)
    ensures Valid(Run(Init(), es))
  {
    InitValid();
    RunPreservesValid(Init(), es);
  }

  // ----- monotonicity -----

  /** `t` is no step back from `s`: the history only grew at the end, and a
      connection active in both has a cursor no smaller and a socket that
      only received more. */
  predicate NoRewind(s: MessagingServer, t: MessagingServer)
  {
    && s.messageHistory <= t.messageHistory
    && forall i, j ::
         (0 <= i < |s.activeConnections| && 0 <= j < |t.activeConnections| &&
          s.activeConnections[i].connection.id == t.activeConnections[j].connection.id) ==>
           && s.activeConnections[i].last <= t.activeConnections[j].last
           && s.activeConnections[i].connection.sent <= t.activeConnections[j].connection.sent
  }

  lemma ConnectNeverRewinds(s: MessagingServer, address: string)
    requires Valid(s)
    ensures NoRewind(s, Connect(s, address))
  {
    var cs, s' := s.activeConnections, Connect(s, address);
    assert forall j :: 0 <= j < |cs| ==> s'.activeConnections[j] == cs[j];
    assert s'.activeConnections[|cs|].connection.id == s.nextSocket;
  }

  lemma ReceiveNeverRewinds(s: MessagingServer, id: nat, m: MessageObject, t: real)
    requires Valid(s)
    ensures NoRewind(s, Receive(s, id, m, t))
  {
    var cs, s' := s.activeConnections, Receive(s, id, m, t);
    forall i, j | 0 <= i < |cs| && 0 <= j < |s'.activeConnections| &&
        cs[i].connection.id == s'.activeConnections[j].connection.id
      ensures cs[i].last <= s'.activeConnections[j].last
      ensures cs[i].connection.sent <= s'.activeConnections[j].connection.sent
    {
      assert s'.activeConnections[j].connection.id == cs[j].connection.id;
      assert i == j;
      if Selected(cs[i], Some(id)) {
        var c' := CatchUp(cs[i], s'.messageHistory);
        assert s'.activeConnections[j] == c';
        assert c'.connection.sent[..|cs[i].connection.sent|] == cs[i].connection.sent;
      }
    }
  }

  lemma DisconnectNeverRewinds(s: MessagingServer, id: nat)
    requires Valid(s)
    ensures Disconnect(s, id).Ok? ==> NoRewind(s, Disconnect(s, id).value)
  {
    if Registered(s.activeConnections, id) {
      var cs, s' := s.activeConnections, Disconnect(s, id).value;
      var k := FirstIndex(cs, id);
      RemoveFirstDeletesFirstMatch(cs, id);
      forall i, j | 0 <= i < |cs| && 0 <= j < |s'.activeConnections| &&
          cs[i].connection.id == s'.activeConnections[j].connection.id
        ensures cs[i] == s'.activeConnections[j]
      {
        var j' := if j < k then j else j + 1;
        assert s'.activeConnections[j] == cs[j'];
        assert i == j';
      }
    }
  }

  /** Cursors never go back and sockets are never rewritten, whatever the
      step. */
  lemma StepNeverRewinds(s: MessagingServer, e: Event)
    requires Valid(s)
    ensures Step(s, e).Ok? ==> NoRewind(s, Step(s, e).value)
  {
    match e
    case Accept(address) => ConnectNeverRewinds(s, address);
    case Recv(id, m, t) => ReceiveNeverRewinds(s, id, m, t);
    case Eof(id) => DisconnectNeverRewinds(s, id);
  }

  /** A new connection goes at the end of the active list on a socket no one
      else holds, and has been sent the whole history, with its cursor at the
      end. */
  lemma ConnectCatchesUpNewcomer(s: MessagingServer, address: string)
    requires Valid(s)
    ensures var s' := Connect(s, address); var c := s'.activeConnections[|s.activeConnections|];
      && !Registered(s.activeConnections, c.connection.id)
      && c.address == address
      && c.last == |s.messageHistory|
      && c.connection.sent == Payloads(s.messageHistory)
  {
    var c := NewActiveConnection(Socket(s.nextSocket, []), address);
    FreshConnectionSynced(s.nextSocket, address, s.messageHistory);
    CatchUpCompletesHistory(c, s.messageHistory);
  }

  /** In a valid server every socket holds a prefix of the history's
      payloads: nothing skipped, nothing duplicated, nothing out of order. */
  lemma SentIsHistoryPrefix(s: MessagingServer)
    requires Valid(s)
    ensures forall i :: 0 <= i < |s.activeConnections| ==>
      s.activeConnections[i].connection.sent <= Payloads(s.messageHistory)
  {
    forall i | 0 <= i < |s.activeConnections|
      ensures s.activeConnections[i].connection.sent <= Payloads(s.messageHistory)
    {
      PayloadsPrefix(s.messageHistory, s.activeConnections[i].last);
    }
  }

  // ----- a concrete run -----

  /** The five events of `ThreeClients`, one step at a time. */
  lemma ThreeClientsSteps(hi: MessageObject, yo: MessageObject)
    ensures Run(Init(), [Accept("a"), Recv(0, hi, 1.0), Accept("b"), Recv(1, yo, 2.0), Accept("c")])
         == Connect(Receive(Connect(Receive(Connect(Init(), "a"), 0, hi, 1.0), "b"), 1, yo, 2.0), "c")
  {
    var es := [Accept("a"), Recv(0, hi, 1.0), Accept("b"), Recv(1, yo, 2.0), Accept("c")];
    var s1 := Connect(Init(), "a");
    var s2 := Receive(s1, 0, hi, 1.0);
    var s3 := Connect(s2, "b");
    var s4 := Receive(s3, 1, yo, 2.0);
    assert Run(Init(), es) == Run(s1, es[1..]);
    assert Run(s1, es[1..]) == Run(s2, es[2..]);
    assert Run(s2, es[2..]) == Run(s3, es[3..]);
    assert Run(s3, es[3..]) == Run(s4, es[4..]);
  }

  /** Three clients connect in turn; the first says "hi" before the second
      joins, the second says "yo" before the third joins. Each sender gets
      its own message back, each newcomer is replayed the whole history, and
      the first client is NOT sent "yo": a message reaches its sender at
      once, and any other client only at that client's next catch-up. */
  lemma ThreeClients()
    ensures var hi, yo := MessageObject("ana", "hi"), MessageObject("bia", "yo");
      var s := Run(Init(), [Accept("a"), Recv(0, hi, 1.0), Accept("b"), Recv(1, yo, 2.0), Accept("c")]);
      && |s.activeConnections| == 3
      && s.activeConnections[0].connection.sent == [hi]
      && s.activeConnections[1].connection.sent == [hi, yo]
      && s.activeConnections[2].connection.sent == [hi, yo]
  {
    var hi, yo := MessageObject("ana", "hi"), MessageObject("bia", "yo");
    ThreeClientsSteps(hi, yo);
    ThreeClientsState(hi, yo);
  }

  /** The state `ThreeClients` reaches, with the messages left open. */
  lemma ThreeClientsState(hi: MessageObject, yo: MessageObject)
    ensures var s := Connect(Receive(Connect(Receive(Connect(Init(), "a"), 0, hi, 1.0), "b"), 1, yo, 2.0), "c");
      && |s.activeConnections| == 3
      && s.activeConnections[0].connection.sent == [hi]
      && s.activeConnections[1].connection.sent == [hi, yo]
      && s.activeConnections[2].connection.sent == [hi, yo]
  {
    var s2 := Receive(Connect(Init(), "a"), 0, hi, 1.0);
    InitValid();
    FirstClientSpeaks(Init(), hi);
    SecondClientSpeaks(s2, hi, yo);
    var s4 := Receive(Connect(s2, "b"), 1, yo, 2.0);
    ConnectCatchesUpNewcomer(s4, "c");
    assert Connect(s4, "c").activeConnections[..2] == s4.activeConnections;
  }

  /** First client joins an empty server and says `hi`. */
  lemma FirstClientSpeaks(s: MessagingServer, hi: MessageObject)
    requires Valid(s) && s.activeConnections == [] && s.messageHistory == [] && s.nextSocket == 0
    ensures var s' := Receive(Connect(s, "a"), 0, hi, 1.0);
      && Valid(s') && s'.nextSocket == 1
      && |s'.activeConnections| == 1
      && s'.activeConnections[0].connection.sent == [hi]
      && Payloads(s'.messageHistory) == [hi]
  {
    var s1 := Connect(s, "a");
    ConnectPreservesValid(s, "a");
    assert s1.activeConnections[0].connection.id == 0;
    ReceiveCatchesUpOnlyOrigin(s1, 0, hi, 1.0);
    ReceivePreservesValid(s1, 0, hi, 1.0);
    PayloadsConcat([], [MessageHistory(hi, 0, 1.0)]);
  }

  /** Second client joins after `hi` and says `yo`; the first is not sent it. */
  lemma SecondClientSpeaks(s: MessagingServer, hi: MessageObject, yo: MessageObject)
    requires Valid(s) && s.nextSocket == 1 && |s.activeConnections| == 1
    requires s.activeConnections[0].connection.sent == [hi] && Payloads(s.messageHistory) == [hi]
    ensures var s' := Receive(Connect(s, "b"), 1, yo, 2.0);
      && Valid(s')
      && |s'.activeConnections| == 2
      && s'.activeConnections[0].connection.sent == [hi]
      && s'.activeConnections[1].connection.sent == [hi, yo]
  {
    var s3 := Connect(s, "b");
    ConnectPreservesValid(s, "b");
    ConnectCatchesUpNewcomer(s, "b");
    assert s3.activeConnections[0] == s.activeConnections[0];
    assert s3.activeConnections[1].connection.id == 1;
    var s4 := Receive(s3, 1, yo, 2.0);
    ReceiveCatchesUpOnlyOrigin(s3, 1, yo, 2.0);
    ReceivePreservesValid(s3, 1, yo, 2.0);
    PayloadsConcat(s.messageHistory, [MessageHistory(yo, 1, 2.0)]);
  }
}
