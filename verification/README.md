# PuzzleGame match model

A Dafny model of the two-player tile puzzle: the per-client match state
machine of `client/game.js` and the forwarding rule of the relay in
`server/server.js`.

A match is a board of 30 cells (5 columns, 6 rows) and 30 tiles. Tiles 0..14
start in the left pool and tiles 15..29 in the right pool. Each side has a
60-second clock, and the sides take turns. A turn is a click on one of your
own pool tiles and then a click on an empty cell. The placed tile scores a
point and the turn passes. The match ends when the board is full or a clock
runs out. The higher score wins; on equal scores the side with more time
left wins; otherwise the match is a tie.

There is no authoritative server. Every client keeps its own copy of the
match. After Start, after each accepted placement and after the tick that
ends the match, the client broadcasts its whole state. Each other client
replaces its copy with that snapshot wholesale. The relay forwards every
JSON frame except joins, unchanged, to every other open connection (the
frame `null` is the exception; see Findings). It also
tells everyone the connection count whenever a connection opens or closes.
Each client takes its role from the first count it hears.

Modules, one per file:

- `wrappers.dfy` (`Wrappers`): `Option`, standing in for the source's `null`.
- `tiles.dfy` (`Tiles`): board geometry, tile ranges, the occupied tiles of a
  board, pool filtering, and the tile-partition predicate with its sequence lemmas.
- `game.dfy` (`Game`): the eleven broadcast match fields, the winner rule, the
  effects of a placement and of a tick, and the invariant `Valid` that every
  reachable match state satisfies.
- `messages.dfy` (`Messages`): the message kinds as a tagged union, and what
  parsing a frame yields.
- `client.dfy` (`Client`): a client's session, role, count, match copy and
  selection; the Start, pool, board, timer and message handlers.
- `relay.dfy` (`Relay`): the connection set, the count broadcast and the
  forwarding rule.
- `replication.dfy` (`Replication`): a client driven by a sequence of events,
  and the path of a snapshot through the relay to the other clients.

The central invariant is `Game.Valid`. It holds in the reset state and every
handler preserves it, provided received snapshots are themselves valid. It says:

- the board tiles and the two pools together hold every tile 0..29 exactly once;
- the left pool holds only tiles 0..14 and the right pool only tiles 15..29;
- each side's score equals the number of its tiles on the board, so the scores add up to the occupied cells;
- both clocks stay within 0..60;
- a finished match has stopped its timer, ended for one of its two reasons, and recorded what the winner rule gives for its final state;
- a match that is neither running nor over is exactly the reset state.

Notes on what the code does:

- The Start handler (client/game.js:145-156) does not itself check that two
  players are connected. That check lives only in the button's enabled state
  (client/game.js:159-168). `Client.StartHandler` models the handler alone;
  `Client.PressStart` adds the button gate.
- Start never assigns `currentTurn`. The invariant shows it is always "left"
  when Start is accepted (`Game.StartKeepsValid`).
- Role assignment gives "spectator" to every count other than 1 and 2, 0 included.
- A tick that does not end the match is not broadcast. Only the finishing tick is.

## Model

| member | source | states |
|---|---|---|
| `Tiles.Placed` | client/game.js:294-296 | The tiles on the board never outnumber its cells; they equal the cell count exactly when every cell holds a tile (`isBoardFull`); an all-empty board holds none; a tile is among them exactly when some cell holds it. |
| `Tiles.Without` | client/game.js:474-477 | Filtering a pool removes every copy of the placed tile and nothing else: membership, multiset and length all drop by exactly the tile's copies; a pool without the tile comes back unchanged. |
| `Tiles.WithoutAppend` | client/game.js:474-477 | Filtering a concatenation filters each part and keeps them in order. |
| `Tiles.WithoutKeepsOrder` | client/game.js:474-477 | When the pool holds the tile once, at index k, filtering leaves the pool with just that slot cut out, the other tiles in their original order. |
| `Tiles.PlacedUpdate` | client/game.js:470 | Writing a tile into an empty cell adds exactly that tile to the board's contents and one occupied cell. |
| `Tiles.MoveTile` | client/game.js:470-479 | Moving a tile held once in a pool onto an empty cell keeps the combined board-plus-pools contents and shrinks the pool by one. |
| `Tiles.PartitionedSets` | client/game.js:33-34 | If board and pools partition the tiles as multisets, then they are pairwise disjoint, none repeats a tile, and together they cover exactly 0..29. |
| `Tiles.RangeMultiplicity` | client/game.js:33-34 | A tile range holds each of its values once and nothing else. |
| `Game.InitialValid` | client/game.js:199-215 | Reset gives a valid waiting match: empty board, left pool exactly 0..14, right pool exactly 15..29, scores 0, left to move, both clocks at 60. |
| `Game.InitialPartition` | client/game.js:201-203 | The reset board and pools partition the 30 tiles. |
| `Game.InitialPools` | client/game.js:202-203 | The reset left pool holds exactly tiles 0..14 and the right pool exactly 15..29. |
| `Game.InitialIsValid` | client/game.js:199-215 | The reset match satisfies the match invariant. |
| `Game.EvaluateWinner` | client/game.js:302-310 | Left wins iff its (score, time) pair is lexicographically ahead of right's, right wins iff right's is ahead, and the result is a tie iff scores and times are both equal. |
| `Game.WinnerIsSymmetric` | client/game.js:302-310 | Swapping the two sides' scores and times swaps the verdict. |
| `Game.DecideReadsScoresAndClocks` | client/game.js:302-310 | Two match states with the same scores and clocks get the same verdict, whatever their boards, pools, turns or flags. |
| `Game.WinnerExamples` | client/game.js:302-310 | Scores 8 to 7 win for left whatever the clocks; 7 to 7 with clocks 10 to 4 wins for left; equal scores and clocks tie. |
| `Game.Put` | client/game.js:469-505 | A placement writes the tile at the cell, removes it from the mover's pool, adds one to the mover's score, and leaves the other pool, the other score and both clocks alone. A full board then ends the match with the rule's winner and the timer stopped; otherwise the turn passes. |
| `Game.PutKeepsTiles` | client/game.js:470-479 | A placement keeps the tile partition and the score-plus-pool count of the mover, and fills one more cell. |
| `Game.PutPreservesValid` | client/game.js:469-505 | An accepted placement from a valid running match gives a valid match with exactly one more occupied cell. |
| `Game.TickMatch` | client/game.js:339-354 | A tick changes nothing unless the match runs and is not over. Otherwise only the mover's clock drops by one, floored at 0. The match ends, stopped and with the rule's winner, exactly when a clock is empty. |
| `Game.TickPreservesValid` | client/game.js:339-354 | A tick keeps the invariant. |
| `Game.TicksAfterOver` | client/game.js:340 | Once the match is over, any number of ticks leaves it unchanged. |
| `Game.ClockRunsOut` | client/game.js:339-351 | A running match with nobody moving is over after as many ticks as the mover's clock shows. |
| `Game.StartKeepsValid` | client/game.js:145-156 | A waiting valid match is the reset match, so Start gives a valid running match with left to move. |
| `Game.ScoreTotalIsOccupied` | client/game.js:470-479 | In a valid match the two scores add up to the number of occupied cells. |
| `Game.TilesPartitioned` | client/game.js:33-34 | In a valid match the board tiles and both pools are pairwise disjoint, repeat no tile, and together cover exactly 0..29. |
| `Client.Boot` | client/game.js:30-52 | A freshly loaded client is valid: no side, no count, the reset match, nothing selected. |
| `Client.Reset` | client/game.js:199-215 | `initGame` installs the reset match and drops the selection; the session, role and count are kept. |
| `Client.AssignSide` | client/game.js:124-140 | An already assigned role is returned unchanged. Otherwise the role is left iff the count is 1, right iff it is 2, and spectator iff it is neither. |
| `Client.StartHandler` | client/game.js:145-156 | A snapshot is sent iff the actor is a player and the match is neither running nor over. Then the only change is the timer starting, and the snapshot carries the new match. Otherwise nothing changes. |
| `Client.PressStart` | client/game.js:159-168 | A press takes effect iff the button is enabled: a player, neither running nor over, with a known count of at least two. Its only effect is starting the timer. |
| `Client.SelectTile` | client/game.js:400-445 | A pool click changes the client only when the clicker owns that pool, the match runs, it is that side's turn, and the click hits a slot. It then selects that pool's tile at the slot. The match itself never changes. |
| `Client.PlaceTile` | client/game.js:448-481 | A board click changes nothing and sends nothing when the timer is stopped, the match is over, it is not the clicker's turn, nothing is selected, the cell is off the board, or the cell is taken. Otherwise it performs `Game.Put` with the selected tile, clears the selection and broadcasts the new match. |
| `Client.Tick` | client/game.js:339-366 | The timer body ticks the match and sends a snapshot iff that tick ended a running match. |
| `Client.ApplySnapshot` | client/game.js:371-384 | A peer's snapshot replaces the whole match and clears the selection; session, role and count are kept. |
| `Client.Receive` | client/game.js:103-118 | A peer's state is applied and the client's own state ignored. A count is stored and fixes the role only if none is set. Other kinds change nothing, and the role, once set, never changes. |
| `Client.ReceiveFrame` | client/game.js:103-104 | A frame that does not parse, or parses to `null`, leaves the client unchanged; any other frame is handled as its message. |
| `Client.StartPreservesValid` | client/game.js:145-156 | Start keeps the client invariant; an accepted start gives the reset match with the timer running, left to move. |
| `Client.SelectPreservesValid` | client/game.js:412-420 | A pool click keeps the invariant: any selection is a tile of the mover's own pool, held by the mover. |
| `Client.PlacePreservesValid` | client/game.js:448-505 | A board click keeps the invariant; an accepted one adds exactly one occupied cell and one point to the combined score. |
| `Client.TickPreservesValidClient` | client/game.js:339-366 | A tick keeps the client invariant. |
| `Client.ReceivePreservesValid` | client/game.js:371-384 | A message keeps the client invariant when any snapshot it carries is valid. |
| `Client.OverIsFinal` | client/game.js:400-451 | Once the match is over, pool clicks, board clicks, Start presses and ticks change nothing and send nothing. |
| `Client.RoleNeverReassigned` | client/game.js:124-125 | Once a role is set, no sequence of messages changes it. |
| `Relay.Connect` | server/server.js:48-64 | A new connection is tracked as open, and every open connection, the newcomer included, receives the count, which is the old count plus one. |
| `Relay.Close` | server/server.js:88-92 | A closed connection is untracked, and the remaining open connections receive the new count. |
| `Relay.OnMessage` | server/server.js:66-86 | The frame itself is the payload. A connection receives it iff the frame parsed to a non-join value, the connection is open, and it is not the sender. |
| `Relay.ForwardReachesAllButSender` | server/server.js:81-85 | With every connection open, a forwarded frame reaches exactly one fewer connection than there are, never the sender. |
| `Relay.FirstTwoConnections` | server/server.js:48-64 | On an idle server the first connection hears count 1 alone, and after the second both hear count 2. |
| `Relay.RelayAsWritten` | server/server.js:66-78 | The handler as written throws exactly on a frame that parses to `null`. |
| `Relay.NullFrameThrows` | server/server.js:69-78 | The frame `null` makes the handler as written throw, while `OnMessage` sends it to no one. |
| `Relay.RelayMatchesAsWritten` | server/server.js:66-86 | On every frame but `null` the handler as written and `OnMessage` send the same thing. |
| `Replication.StepPreservesValid` | client/game.js:397-510 | Any single input keeps the client invariant, if any snapshot it carries is valid. |
| `Replication.SentIsValid` | client/game.js:397-510 | Whatever a valid client sends in reaction to an input is a state message carrying a valid snapshot, so receivers may trust peers' snapshots. |
| `Replication.RunPreservesValid` | client/game.js:397-510 | Every client state reached from a valid one through any sequence of inputs with valid snapshots is valid. |
| `Replication.PlacementsCount` | client/game.js:470-481 | Along local play, the combined score and the occupied-cell count each grow by exactly the number of accepted placements. |
| `Replication.ScoreCountsPlacements` | client/game.js:470-481 | After N accepted placements from any valid match with no points yet (the reset match among them, by `Game.InitialValid`), the combined score is N and exactly N cells are occupied. |
| `Replication.SnapshotReplicates` | client/game.js:103-109 | A broadcast snapshot is relayed unchanged to every other open connection. Any other client handling it ends with exactly the sender's match and no selection, keeping its role; the sender ignores its own. |
| `Replication.ReplicatedStateIsValid` | client/game.js:371-384 | Applying a valid peer's snapshot leaves a valid client. |
| `Replication.LastWriterWins` | client/game.js:371-384 | Of two peer snapshots handled in turn, only the later survives. |
| `Replication.FirstTwoClientsTakeBothSides` | client/game.js:112-140 | A client hearing counts 1 then 2 becomes and stays left; a client whose first count is 2 becomes right. |

## Left out

- Rendering: `drawBoard`, `drawPool`, `drawAll`, `showFinalImage`, `updateInfo` and the status texts only draw or label the state.
- Image loading: it only gates the first `initGame`. Reset is the explicit event `Replication.ResetGame`.
- Click hit-testing: the float geometry maps a click to a pool slot or a board cell. The handlers take the slot index and the cell index as integers instead.
- Client transport: the `ws.readyState` check in `broadcastState` is not modelled. A snapshot is modelled as sent whenever the handler calls `broadcastState`.
- Player ids: `Math.random` ids are opaque strings; only their equality matters.
- Serialisation: `JSON.stringify` and `JSON.parse` are not modelled. A frame carries its text together with its parse result.
- Timing: `setInterval` scheduling and the interleaving of two clients' events are concurrency. One tick is one discrete step of one client.
- HTTP: the static file server, its MIME table and `server.listen` are I/O plumbing.
- Relay connection set: the `ws` library drops a closed socket from `wss.clients` before the close handler runs. `Relay.Close` therefore counts without it.
- Relay sockets: the relay cannot see when a socket's open flag changes. The flag is part of the server state the handlers receive.
- Relay.Connect: requires the new connection's id to be untracked, because every accepted socket is a fresh object.
- Client.Receive: the snapshot's fields are typed. A peer sending a `currentTurn` other than "left"/"right", or non-numeric scores, is outside the model.

## Findings

| source | as written | input that shows it | evidently intended | confidence | as-written member | corrected member |
|---|---|---|---|---|---|---|
| server/server.js:76 | The handler reads `msg.type` on whatever `JSON.parse` returned. For the JSON text `null` that is `null`, so the read throws inside the socket's message listener. | a text frame `null` from any client | ignore the frame, as the handler already does for text that is not JSON | medium; not executed | `Relay.RelayAsWritten` (`Relay.NullFrameThrows`) | `Relay.OnMessage` |
