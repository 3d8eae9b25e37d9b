/** The two loops of `MessagingServer` written as loops: the replay loop of
    `_update_current_connection`, which sends the backlog one message at a
    time, and the loop of `_notify_everyone` over the filtered connections.
    Each is shown to compute what the step functions of `Server` describe.
 */
module ServerLoops {
  import opened Schemas
  import opened Server

  /** Sends `history[last:]` one message at a time, then moves the cursor to
      the end of the history. */
  method ReplayBacklog(c: ActiveConnection, h: seq<MessageHistory>) returns (c': ActiveConnection)
    ensures c'.connection.id == c.connection.id && c'.address == c.address
    ensures c'.last == |h|
    ensures |c'.connection.sent| >= |c.connection.sent|
    ensures c.last <= |h| ==> |c'.connection.sent| == |c.connection.sent| + |h| - c.last
    ensures c'.connection.sent[..|c.connection.sent|] == c.connection.sent
    ensures forall k :: c.last <= k < |h| ==> c'.connection.sent[|c.connection.sent| + k - c.last] == h[k].messageObject
    ensures c' == CatchUp(c, h)
  {
    var backlog := Backlog(h, c.last);
    var socket := c.connection;
    var i := 0;
    while i < |backlog|
      invariant 0 <= i <= |backlog|
      invariant socket.id == c.connection.id
      invariant socket.sent == c.connection.sent + Payloads(backlog[..i])
    {
      socket := Send(socket, backlog[i].messageObject);
      assert backlog[..i + 1] == backlog[..i] + [backlog[i]];
      PayloadsConcat(backlog[..i], [backlog[i]]);
      i := i + 1;
    }
    assert backlog[..i] == backlog;
    c' := c.(connection := socket, last := |h|);
    forall k | c.last <= k < |h|
      ensures c'.connection.sent[|c.connection.sent| + k - c.last] == h[k].messageObject
    {
      assert Payloads(backlog)[k - c.last] == backlog[k - c.last].messageObject;
    }
  }

  /** Walks the active list and catches up every connection the filter keeps. */
  method NotifyConnections(cs: seq<ActiveConnection>, h: seq<MessageHistory>, unless: Option<nat>) returns (cs': seq<ActiveConnection>)
    ensures |cs'| == |cs|
    ensures forall i :: 0 <= i < |cs| ==> cs'[i].connection.id == cs[i].connection.id
    ensures forall i :: 0 <= i < |cs| && Selected(cs[i], unless) ==> cs'[i].last == |h|
    ensures forall i :: 0 <= i < |cs| && !Selected(cs[i], unless) ==> cs'[i] == cs[i]
    ensures cs' == NotifyEveryone(cs, h, unless)
  {
    cs' := cs;
    var i := 0;
    while i < |cs|
      invariant 0 <= i <= |cs|
      invariant |cs'| == |cs|
      invariant forall j :: 0 <= j < i ==> cs'[j] == NotifyEveryone(cs, h, unless)[j]
      invariant forall j :: i <= j < |cs| ==> cs'[j] == cs[j]
    {
      if Selected(cs[i], unless) {
        var updated := ReplayBacklog(cs[i], h);
        cs' := cs'[i := updated];
      }
      i := i + 1;
    }
  }
}
