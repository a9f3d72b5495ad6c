/** One browser client: its session, its role, its copy of the match, its
    current tile selection, and the handlers that change them. Each handler
    returns the next client state and the snapshot it broadcasts, if any. */
module Client {
  import opened Wrappers
  import opened Tiles
  import opened Game
  import opened Messages

  /** `mySide`: a playing side or a spectator. */
  datatype Role = Player(side: Side) | Spectator

  datatype ClientState = ClientState(
    id: PlayerId,
    mySide: Option<Role>,
    playerNumber: Option<int>,
    game: MatchState,
    selected: Option<Tile>)

  /** The result of handling one input: the next state and the snapshot
      message sent to the relay, if any. */
  datatype Reaction = Reaction(next: ClientState, sent: Option<Message>)

  /** The full-state message a client broadcasts, tagged with its id. */
  function Snapshot(c: ClientState): Message {
    State(c.id, c.game)
  }

  /** A selection is only ever held by the side to move, and names a tile
      of that side's own pool. */
  predicate SelectionValid(c: ClientState) {
    c.selected.Some? ==>
      c.mySide == Some(Player(c.game.turn)) && c.selected.value in c.game.Pool(c.game.turn)
  }

  predicate ValidClient(c: ClientState) {
    Valid(c.game) && SelectionValid(c)
  }

  /** The state of a freshly loaded page: no side, no count yet, the reset
      match, nothing selected. */
  function Boot(id: PlayerId): (c: ClientState)
    ensures ValidClient(c) && c.id == id
    ensures c.game.Waiting() && c.game.turn == Left && OccupiedCount(c.game.board) == 0
    ensures c.mySide == None && c.playerNumber == None && c.selected == None
  {
    InitialValid();
    ClientState(id, None, None, Initial(), None)
  }

  /** `initGame`: the match goes back to the reset state and the selection
      is dropped; the session, the role and the count are kept. */
  function Reset(c: ClientState): (r: ClientState)
    ensures ValidClient(r) && r.game.Waiting() && r.game.turn == Left
    ensures OccupiedCount(r.game.board) == 0 && r.game.leftScore == 0 && r.game.rightScore == 0
    ensures r.game.leftTime == StartTime && r.game.rightTime == StartTime
    ensures r.selected == None
    ensures r.id == c.id && r.mySide == c.mySide && r.playerNumber == c.playerNumber
  {
    InitialValid();
    c.(game := Initial(), selected := None)
  }

  /** `assignSideIfNeeded`: the first count a client hears fixes its role
      (1 is left, 2 is right, anything else spectator); once set it stays. */
  function AssignSide(current: Option<Role>, count: int): (r: Role)
    ensures current.Some? ==> r == current.value
    ensures current.None? ==> (r == Player(Left) <==> count == 1)
    ensures current.None? ==> (r == Player(Right) <==> count == 2)
    ensures current.None? ==> (r == Spectator <==> count != 1 && count != 2)
  {
    match current
    case Some(role) => role
    case None =>
      if count == 1 then Player(Left)
      else if count == 2 then Player(Right)
      else Spectator
  }

  predicate IsPlayer(c: ClientState) {
    c.mySide.Some? && c.mySide.value.Player?
  }

  /** `updateStartButtonUI`: the Start button is enabled only for a player,
      before the match runs or ends, with at least two connections known
      (an unknown count compares as 0). */
  predicate StartEnabled(c: ClientState) {
    IsPlayer(c) && !c.game.gameOver && !c.game.timerRunning
    && c.playerNumber.Some? && c.playerNumber.value >= 2
  }

  /** The Start click handler: a player starts a match that is neither
      running nor over; starting only sets the timer running, and the new
      state is broadcast. Anything else is ignored. */
  function StartHandler(c: ClientState): (r: Reaction)
    ensures r.sent.Some? <==> IsPlayer(c) && c.game.Waiting()
    ensures r.sent.None? ==> r.next == c
    ensures r.sent.Some? ==>
      && r.next.game == c.game.(timerRunning := true)
      && r.next.game.Active()
      && r.next.id == c.id && r.next.mySide == c.mySide
      && r.next.playerNumber == c.playerNumber && r.next.selected == c.selected
      && r.sent == Some(Snapshot(r.next))
  {
    if !IsPlayer(c) then Reaction(c, None)
    else if c.game.timerRunning || c.game.gameOver then Reaction(c, None)
    else
      var c' := c.(game := c.game.(timerRunning := true));
      Reaction(c', Some(Snapshot(c')))
  }

  /** A press on the Start button: a disabled button delivers no click, so
      the handler runs only while the button is enabled. */
  function PressStart(c: ClientState): (r: Reaction)
    ensures r.sent.Some? <==> StartEnabled(c)
    ensures r.sent.None? ==> r.next == c
    ensures r.sent.Some? ==> r.next == c.(game := c.game.(timerRunning := true))
  {
    if StartEnabled(c) then StartHandler(c) else Reaction(c, None)
  }

  /** The pool click handlers: while the match runs, the side to move may
      select the tile at `index` of its own pool (the pool slot the click
      hit); a click that hits no slot, or comes from anyone else, is ignored. */
  function SelectTile(c: ClientState, side: Side, index: int): (r: ClientState)
    ensures r != c ==>
      c.mySide == Some(Player(side)) && c.game.Active() && c.game.turn == side
      && 0 <= index < |c.game.Pool(side)|
    ensures c.mySide == Some(Player(side)) && c.game.Active() && c.game.turn == side
            && 0 <= index < |c.game.Pool(side)| ==>
      r == c.(selected := Some(c.game.Pool(side)[index]))
    ensures r.game == c.game
  {
    if c.mySide != Some(Player(side)) then c
    else if !c.game.Active() then c
    else if c.game.turn != side then c
    else if 0 <= index < |c.game.Pool(side)| then c.(selected := Some(c.game.Pool(side)[index]))
    else c
  }

  /** The guards of the board click handler: the match runs, it is this
      client's turn, a tile is selected, and the cell is on the board and
      empty. */
  predicate PlaceAllowed(c: ClientState, pos: int) {
    && c.game.Active()
    && c.mySide == Some(Player(c.game.turn))
    && c.selected.Some?
    && 0 <= pos < BoardCells
    && !Occupied(c.game.board, pos)
  }

  /** The board click handler: a rejected click changes nothing and sends
      nothing; an accepted one places the selected tile (see `Put`), clears
      the selection and broadcasts the new state. */
  function PlaceTile(c: ClientState, pos: int): (r: Reaction)
    ensures !PlaceAllowed(c, pos) ==> r == Reaction(c, None)
    ensures PlaceAllowed(c, pos) ==>
      && r.next.game == Put(c.game, pos, c.selected.value)
      && r.next.selected == None
      && r.next.id == c.id && r.next.mySide == c.mySide && r.next.playerNumber == c.playerNumber
      && r.sent == Some(Snapshot(r.next))
  {
    if !c.game.timerRunning || c.game.gameOver then Reaction(c, None)
    else if c.mySide != Some(Player(c.game.turn)) then Reaction(c, None)
    else if c.selected.None? then Reaction(c, None)
    else if pos < 0 || pos >= BoardCells then Reaction(c, None)
    else if Occupied(c.game.board, pos) then Reaction(c, None)
    else
      var c' := c.(game := Put(c.game, pos, c.selected.value), selected := None);
      Reaction(c', Some(Snapshot(c')))
  }

  /** The timer body: the match ticks (see `TickMatch`); the state is
      broadcast only by the tick that ends the match. */
  function Tick(c: ClientState): (r: Reaction)
    ensures r.next == c.(game := TickMatch(c.game))
    ensures r.sent.Some? <==> c.game.Active() && r.next.game.gameOver
    ensures r.sent.Some? ==> r.sent == Some(Snapshot(r.next))
  {
    var c' := c.(game := TickMatch(c.game));
    if c.game.Active() && c'.game.gameOver then Reaction(c', Some(Snapshot(c'))) else Reaction(c', None)
  }

  /** `applyStateFromMessage`: the peer's snapshot replaces all eleven
      match fields and the selection is dropped. */
  function ApplySnapshot(c: ClientState, snapshot: MatchState): (r: ClientState)
    ensures r.game == snapshot && r.selected == None
    ensures r.id == c.id && r.mySide == c.mySide && r.playerNumber == c.playerNumber
  {
    c.(game := snapshot, selected := None)
  }

  /** The message handler: another client's snapshot is applied, the
      client's own is ignored; a count is stored and may fix the role;
      anything else is ignored. */
  function Receive(c: ClientState, m: Message): (r: ClientState)
    ensures m.State? && m.id != c.id ==> r == ApplySnapshot(c, m.snapshot)
    ensures m.State? && m.id == c.id ==> r == c
    ensures m.PlayerCount? ==>
      r.playerNumber == Some(m.count) && r.mySide == Some(AssignSide(c.mySide, m.count))
      && r.game == c.game && r.selected == c.selected
    ensures m.Join? || m.Other? ==> r == c
    ensures r.id == c.id
    ensures c.mySide.Some? ==> r.mySide == c.mySide
  {
    match m
    case State(id, snapshot) => if id != c.id then ApplySnapshot(c, snapshot) else c
    case PlayerCount(n) => c.(playerNumber := Some(n), mySide := Some(AssignSide(c.mySide, n)))
    case Join(_) => c
    case Other(_) => c
  }

  /** A frame arriving from the relay: text that does not parse, or parses
      to `null`, makes the handler throw before it changes anything. */
  function ReceiveFrame(c: ClientState, f: Frame): (r: ClientState)
    ensures !f.parsed.JsonValue? ==> r == c
    ensures f.parsed.JsonValue? ==> r == Receive(c, f.parsed.msg)
  {
    match f.parsed
    case JsonValue(m) => Receive(c, m)
    case _ => c
  }

  /** Start keeps the invariant; an accepted start leaves the reset match
      untouched apart from the running timer, so left moves first. */
  lemma StartPreservesValid(c: ClientState)
    requires ValidClient(c)
    ensures ValidClient(PressStart(c).next)
    ensures PressStart(c).sent.Some? ==>
      PressStart(c).next.game == Initial().(timerRunning := true) && PressStart(c).next.game.turn == Left
  {
    if StartEnabled(c) {
      StartKeepsValid(c.game);
    }
  }

  /** Selecting keeps the invariant: the chosen tile is in the mover's own pool. */
  lemma SelectPreservesValid(c: ClientState, side: Side, index: int)
    requires ValidClient(c)
    ensures ValidClient(SelectTile(c, side, index))
  {
  }

  /** Placing keeps the invariant; an accepted placement fills exactly one
      more cell and adds exactly one point to the combined score. */
  lemma PlacePreservesValid(c: ClientState, pos: int)
    requires ValidClient(c)
    ensures ValidClient(PlaceTile(c, pos).next)
    ensures PlaceAllowed(c, pos) ==>
      && OccupiedCount(PlaceTile(c, pos).next.game.board) == OccupiedCount(c.game.board) + 1
      && PlaceTile(c, pos).next.game.leftScore + PlaceTile(c, pos).next.game.rightScore
         == c.game.leftScore + c.game.rightScore + 1
  {
    if PlaceAllowed(c, pos) {
      PutPreservesValid(c.game, pos, c.selected.value);
    }
  }

  /** A tick keeps the invariant. */
  lemma TickPreservesValidClient(c: ClientState)
    requires ValidClient(c)
    ensures ValidClient(Tick(c).next)
  {
    TickPreservesValid(c.game);
  }

  /** A message keeps the invariant as long as any snapshot it carries is
      itself a valid match state. */
  lemma ReceivePreservesValid(c: ClientState, m: Message)
    requires ValidClient(c)
    requires m.State? ==> Valid(m.snapshot)
    ensures ValidClient(Receive(c, m))
  {
  }

  /** Once the match is over, Start, selection, placement and the timer
      leave the client unchanged and send nothing. */
  lemma OverIsFinal(c: ClientState, side: Side, index: int, pos: int)
    requires c.game.gameOver
    ensures PressStart(c) == Reaction(c, None)
    ensures SelectTile(c, side, index) == c
    ensures PlaceTile(c, pos) == Reaction(c, None)
    ensures Tick(c) == Reaction(c, None)
  {
  }

  /** The messages of `ms` handled in order. */
  function ReceiveAll(c: ClientState, ms: seq<Message>): ClientState
    decreases |ms|
  {
    if |ms| == 0 then c else ReceiveAll(Receive(c, ms[0]), ms[1..])
  }

  /** Once a client has a role, no sequence of messages changes it. */
  lemma {:induction false} RoleNeverReassigned(c: ClientState, ms: seq<Message>)
    requires c.mySide.Some?
    ensures ReceiveAll(c, ms).mySide == c.mySide
    decreases |ms|
  {
    if |ms| > 0 {
      RoleNeverReassigned(Receive(c, ms[0]), ms[1..]);
    }
  }
}
