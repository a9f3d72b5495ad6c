/** The relay server's forwarding rule. Connections are opaque ids, each
    flagged with whether its socket is open; the server keeps no game state. */
module Relay {
  import opened Messages

  type ConnId = nat

  /** The tracked connections (`wss.clients`): id to "socket is OPEN". */
  datatype Server = Server(conns: map<ConnId, bool>)

  /** What the relay sends: a received frame, verbatim, or a connection count. */
  datatype Payload = Forward(frame: Frame) | Count(count: nat)

  /** One payload sent to each connection of `to`. */
  datatype Delivery = Delivery(to: set<ConnId>, payload: Payload)

  function OpenConns(s: Server): (r: set<ConnId>)
    ensures forall c :: c in r <==> c in s.conns && s.conns[c]
  {
    set c | c in s.conns && s.conns[c]
  }

  /** `broadcastPlayerCount`: the number of tracked connections, to every open one. */
  function BroadcastPlayerCount(s: Server): Delivery {
    Delivery(OpenConns(s), Count(|s.conns|))
  }

  /** A new connection is tracked (open), then everyone open, the newcomer
      included, hears the new count. */
  function Connect(s: Server, id: ConnId): (r: (Server, Delivery))
    requires id !in s.conns
    ensures r.0.conns == s.conns[id := true]
    ensures r.1.to == OpenConns(s) + {id}
    ensures r.1.payload == Count(|s.conns| + 1)
  {
    var s' := Server(s.conns[id := true]);
    assert OpenConns(s') == OpenConns(s) + {id};
    (s', BroadcastPlayerCount(s'))
  }

  /** A closed connection is no longer tracked; the remaining open ones hear
      the new count. */
  function Close(s: Server, id: ConnId): (r: (Server, Delivery))
    ensures r.0.conns == s.conns - {id}
    ensures r.1.to == OpenConns(s) - {id}
    ensures r.1.payload == Count(if id in s.conns then |s.conns| - 1 else |s.conns|)
  {
    var s' := Server(s.conns - {id});
    assert OpenConns(s') == OpenConns(s) - {id};
    (s', BroadcastPlayerCount(s'))
  }

  /** A frame the relay passes on: it parsed to a value that is not a join. */
  predicate Forwardable(f: Frame) {
    f.parsed.JsonValue? && !f.parsed.msg.Join?
  }

  /** The message handler: a frame that is not JSON (or is JSON `null`), and
      a join, go to no one; every other frame goes, unmodified, to exactly
      the open connections other than its sender. */
  function OnMessage(s: Server, sender: ConnId, f: Frame): (d: Delivery)
    ensures d.payload == Forward(f)
    ensures forall c :: c in d.to <==> Forwardable(f) && c in OpenConns(s) && c != sender
  {
    match f.parsed
    case Unparseable => Delivery({}, Forward(f))
    case JsonNull => Delivery({}, Forward(f))
    case JsonValue(m) =>
      if m.Join? then Delivery({}, Forward(f))
      else Delivery(OpenConns(s) - {sender}, Forward(f))
  }

  /** When every tracked connection is open, a forwarded frame reaches
      exactly one fewer connection than there are, never its sender. */
  lemma ForwardReachesAllButSender(s: Server, sender: ConnId, f: Frame)
    requires sender in s.conns
    requires forall c :: c in s.conns ==> s.conns[c]
    requires Forwardable(f)
    ensures sender !in OnMessage(s, sender, f).to
    ensures |OnMessage(s, sender, f).to| == |s.conns| - 1
  {
    var d := OnMessage(s, sender, f);
    assert OpenConns(s) == s.conns.Keys;
    assert d.to == s.conns.Keys - {sender};
  }

  /** A connection that opens on an idle server hears the count 1; the next
      one makes everyone hear 2. */
  lemma FirstTwoConnections(a: ConnId, b: ConnId)
    requires a != b
    ensures var (s1, d1) := Connect(Server(map[]), a);
            d1 == Delivery({a}, Count(1))
            && var (s2, d2) := Connect(s1, b);
               d2 == Delivery({a, b}, Count(2))
  {
    var (s1, d1) := Connect(Server(map[]), a);
    assert OpenConns(Server(map[])) == {};
  }

  /** The handler exactly as written, where JSON `null` reaches `msg.type`
      and throws instead of being ignored. */
  datatype Handled = Threw | Sent(delivery: Delivery)

  function RelayAsWritten(s: Server, sender: ConnId, f: Frame): (h: Handled)
    ensures f.parsed.JsonNull? <==> h == Threw
  {
    match f.parsed
    case Unparseable => Sent(Delivery({}, Forward(f)))
    case JsonNull => Threw
    case JsonValue(m) =>
      if m.Join? then Sent(Delivery({}, Forward(f)))
      else Sent(Delivery(OpenConns(s) - {sender}, Forward(f)))
  }

  /** The frame `null` makes the handler as written throw. */
  lemma NullFrameThrows(s: Server, sender: ConnId)
    ensures RelayAsWritten(s, sender, Frame("null", JsonNull)) == Threw
    ensures OnMessage(s, sender, Frame("null", JsonNull)).to == {}
  {
  }

  /** On every other frame the handler as written and `Relay` agree. */
  lemma RelayMatchesAsWritten(s: Server, sender: ConnId, f: Frame)
    requires !f.parsed.JsonNull?
    ensures RelayAsWritten(s, sender, f) == Sent(OnMessage(s, sender, f))
  {
  }
}
