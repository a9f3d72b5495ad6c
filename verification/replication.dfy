/** How the pieces fit: a client as a machine driven by a sequence of input
    events, and the path of a snapshot from one client through the relay to
    the others. */
module Replication {
  import opened Wrappers
  import opened Tiles
  import opened Game
  import opened Messages
  import opened Client
  import opened Relay

  /** The inputs a client reacts to, one at a time. */
  datatype Event =
    | ResetGame                          // `initGame`, once the images are loaded
    | Incoming(frame: Frame)             // a frame from the relay
    | StartClick
    | PoolClick(side: Side, index: int)  // a click on a pool, resolved to a slot index
    | BoardClick(pos: int)               // a click on the board, resolved to a cell index
    | TimerTick

  function Step(c: ClientState, e: Event): Reaction {
    match e
    case ResetGame => Reaction(Reset(c), None)
    case Incoming(f) => Reaction(ReceiveFrame(c, f), None)
    case StartClick => PressStart(c)
    case PoolClick(side, index) => Reaction(SelectTile(c, side, index), None)
    case BoardClick(pos) => PlaceTile(c, pos)
    case TimerTick => Tick(c)
  }

  function Run(c: ClientState, es: seq<Event>): ClientState
    decreases |es|
  {
    if |es| == 0 then c else Run(Step(c, es[0]).next, es[1..])
  }

  /** An event that carries a snapshot carries a valid one (peers run the
      same code, so their snapshots are states that code reaches). */
  predicate Trusted(e: Event) {
    e.Incoming? && e.frame.parsed.JsonValue? && e.frame.parsed.msg.State? ==>
      Valid(e.frame.parsed.msg.snapshot)
  }

  lemma StepPreservesValid(c: ClientState, e: Event)
    requires ValidClient(c) && Trusted(e)
    ensures ValidClient(Step(c, e).next)
  {
    match e
    case ResetGame =>
    case Incoming(f) =>
      if f.parsed.JsonValue? {
        ReceivePreservesValid(c, f.parsed.msg);
      }
    case StartClick => StartPreservesValid(c);
    case PoolClick(side, index) => SelectPreservesValid(c, side, index);
    case BoardClick(pos) => PlacePreservesValid(c, pos);
    case TimerTick => TickPreservesValidClient(c);
  }

  /** Whatever a valid client sends is its own state as a snapshot, and a
      valid one: the trust the receiving side places in peers is earned. */
  lemma SentIsValid(c: ClientState, e: Event)
    requires ValidClient(c) && Trusted(e)
    ensures Step(c, e).sent.Some? ==>
      Step(c, e).sent.value.State? && Valid(Step(c, e).sent.value.snapshot)
  {
    StepPreservesValid(c, e);
  }

  /** Every state a client reaches from a valid one, whatever the inputs,
      is valid: in particular the board tiles and the two pools always
      partition 0..29 and the combined score equals the occupied cells. */
  lemma {:induction false} RunPreservesValid(c: ClientState, es: seq<Event>)
    requires ValidClient(c)
    requires forall e :: e in es ==> Trusted(e)
    ensures ValidClient(Run(c, es))
    decreases |es|
  {
    if |es| > 0 {
      StepPreservesValid(c, es[0]);
      assert forall e :: e in es[1..] ==> e in es;
      RunPreservesValid(Step(c, es[0]).next, es[1..]);
    }
  }

  /** Events produced by this client's own user and timer. */
  predicate Local(e: Event) {
    !e.ResetGame? && !e.Incoming?
  }

  /** How many of the events are accepted board clicks. */
  function Placements(c: ClientState, es: seq<Event>): nat
    decreases |es|
  {
    if |es| == 0 then 0
    else
      (if es[0].BoardClick? && PlaceAllowed(c, es[0].pos) then 1 else 0)
      + Placements(Step(c, es[0]).next, es[1..])
  }

  /** Along local play, each accepted placement adds one point in total and
      one occupied cell, and nothing else changes either count. */
  lemma {:induction false} PlacementsCount(c: ClientState, es: seq<Event>)
    requires ValidClient(c)
    requires forall e :: e in es ==> Local(e)
    ensures Run(c, es).game.leftScore + Run(c, es).game.rightScore
            == c.game.leftScore + c.game.rightScore + Placements(c, es)
    ensures OccupiedCount(Run(c, es).game.board) == OccupiedCount(c.game.board) + Placements(c, es)
    decreases |es|
  {
    if |es| > 0 {
      var e := es[0];
      var c' := Step(c, e).next;
      assert e in es;
      if e.StartClick? {
        StartPreservesValid(c);
      } else if e.PoolClick? {
        SelectPreservesValid(c, e.side, e.index);
      } else if e.BoardClick? {
        PlacePreservesValid(c, e.pos);
      } else {
        TickPreservesValidClient(c);
      }
      assert forall x :: x in es[1..] ==> x in es;
      PlacementsCount(c', es[1..]);
    }
  }

  /** After N accepted placements from a valid match nobody has scored in
      yet (the reset match in particular), the combined score is N and
      exactly N cells are occupied. */
  lemma ScoreCountsPlacements(c: ClientState, es: seq<Event>)
    requires ValidClient(c) && c.game.leftScore + c.game.rightScore == 0
    requires forall e :: e in es ==> Local(e)
    ensures Run(c, es).game.leftScore + Run(c, es).game.rightScore == Placements(c, es)
    ensures OccupiedCount(Run(c, es).game.board) == Placements(c, es)
  {
    ScoreTotalIsOccupied(c.game);
    PlacementsCount(c, es);
  }

  /** A snapshot broadcast by client `a` from connection `sender` goes
      verbatim to every other open connection, and any other client that
      handles it ends up with exactly `a`'s match and no selection; `a`
      itself would ignore it. */
  lemma SnapshotReplicates(s: Server, sender: ConnId, a: ClientState, f: Frame, b: ClientState)
    requires f.parsed == JsonValue(Snapshot(a))
    requires b.id != a.id
    ensures OnMessage(s, sender, f) == Delivery(OpenConns(s) - {sender}, Forward(f))
    ensures ReceiveFrame(b, f).game == a.game && ReceiveFrame(b, f).selected == None
    ensures ReceiveFrame(b, f).mySide == b.mySide
    ensures ReceiveFrame(a, f) == a
  {
  }

  /** Applying a valid peer's snapshot leaves a valid client. */
  lemma ReplicatedStateIsValid(a: ClientState, f: Frame, b: ClientState)
    requires ValidClient(a) && ValidClient(b)
    requires f.parsed == JsonValue(Snapshot(a))
    ensures ValidClient(ReceiveFrame(b, f))
  {
  }

  /** Replication is a whole-object overwrite: of two peer snapshots handled
      in turn, only the later survives, so two peers that write between broadcasts
      lose one update. */
  lemma LastWriterWins(c: ClientState, x: PlayerId, s1: MatchState, y: PlayerId, s2: MatchState)
    requires x != c.id && y != c.id
    ensures Receive(Receive(c, State(x, s1)), State(y, s2)).game == s2
  {
  }

  /** The first client to connect becomes left and keeps it when the second
      arrives; the second becomes right. */
  lemma FirstTwoClientsTakeBothSides(idA: PlayerId, idB: PlayerId)
    ensures ReceiveAll(Boot(idA), [PlayerCount(1), PlayerCount(2)]).mySide == Some(Player(Left))
    ensures ReceiveAll(Boot(idB), [PlayerCount(2)]).mySide == Some(Player(Right))
  {
    var a1 := Receive(Boot(idA), PlayerCount(1));
    assert a1.mySide == Some(Player(Left));
    RoleNeverReassigned(a1, [PlayerCount(2)]);
    assert [PlayerCount(1), PlayerCount(2)][1..] == [PlayerCount(2)];
    assert [PlayerCount(2)][1..] == [];
  }
}
