/** The match state every client keeps (the eleven fields it broadcasts), the
    winner rule, the two state effects of play (placing a tile, one clock
    tick) and the invariant that every reachable match state satisfies. */
module Game {
  import opened Wrappers
  import opened Tiles

  datatype Side = Left | Right {
    function Other(): (o: Side)
      ensures o != this
    {
      if this == Left then Right else Left
    }
  }

  /** The value of `winner` once the game is over: "left", "right" or "tie". */
  datatype Outcome = Won(side: Side) | Tie

  /** Seconds on each clock at the start of a match. */
  const StartTime: int := 60

  datatype MatchState = MatchState(
    board: Board,
    leftPool: seq<Tile>,
    rightPool: seq<Tile>,
    leftScore: int,
    rightScore: int,
    turn: Side,
    leftTime: int,
    rightTime: int,
    gameOver: bool,
    winner: Option<Outcome>,
    timerRunning: bool)
  {
    function Pool(s: Side): seq<Tile> {
      if s == Left then leftPool else rightPool
    }

    function Score(s: Side): int {
      if s == Left then leftScore else rightScore
    }

    function Clock(s: Side): int {
      if s == Left then leftTime else rightTime
    }

    /** Reset, not yet started. */
    predicate Waiting() {
      !timerRunning && !gameOver
    }

    /** Started and not over: the only state in which tiles move and clocks run. */
    predicate Active() {
      timerRunning && !gameOver
    }
  }

  /** The state `initGame` installs (identical to the values the script starts with):
      an empty board, tiles 0..14 to the left, 15..29 to the right, scores 0,
      left to move, both clocks full, not started, not over, no winner. */
  function Initial(): MatchState {
    MatchState(
      EmptyBoard(),
      Range(0, PoolSize), Range(PoolSize, TotalTiles),
      0, 0,
      Left,
      StartTime, StartTime,
      false, None, false)
  }

  /** `(score, time)` pair `a` ranks above `b` in lexicographic order. */
  predicate Ahead(a: (int, int), b: (int, int)) {
    a.0 > b.0 || (a.0 == b.0 && a.1 > b.1)
  }

  /** The winner rule: higher score wins, on equal scores more remaining time
      wins, otherwise a tie. */
  function EvaluateWinner(leftScore: int, rightScore: int, leftTime: int, rightTime: int): (o: Outcome)
    ensures o == Won(Left) <==> Ahead((leftScore, leftTime), (rightScore, rightTime))
    ensures o == Won(Right) <==> Ahead((rightScore, rightTime), (leftScore, leftTime))
    ensures o == Tie <==> leftScore == rightScore && leftTime == rightTime
  {
    if leftScore > rightScore then Won(Left)
    else if rightScore > leftScore then Won(Right)
    else if leftTime > rightTime then Won(Left)
    else if rightTime > leftTime then Won(Right)
    else Tie
  }

  /** The winner rule applied to a match state. */
  function Decide(m: MatchState): Outcome {
    EvaluateWinner(m.leftScore, m.rightScore, m.leftTime, m.rightTime)
  }

  /** The terminal transition: over, clock stopped, winner recorded. */
  function Finish(m: MatchState): MatchState {
    m.(gameOver := true, timerRunning := false, winner := Some(Decide(m)))
  }

  /** A successful placement by the side to move: tile `t` goes to cell `pos`
      and leaves that side's pool, the side scores a point; a full board ends
      the match, otherwise the turn passes. */
  function Put(m: MatchState, pos: int, t: Tile): (r: MatchState)
    requires 0 <= pos < |m.board|
    ensures r.board == m.board[pos := Some(t)]
    ensures r.Pool(m.turn) == Without(m.Pool(m.turn), t)
    ensures r.Score(m.turn) == m.Score(m.turn) + 1
    ensures r.Pool(m.turn.Other()) == m.Pool(m.turn.Other())
    ensures r.Score(m.turn.Other()) == m.Score(m.turn.Other())
    ensures r.leftTime == m.leftTime && r.rightTime == m.rightTime
    ensures IsFull(r.board) ==>
      r.gameOver && !r.timerRunning && r.winner == Some(Decide(r)) && r.turn == m.turn
    ensures !IsFull(r.board) ==>
      r.turn == m.turn.Other() && r.gameOver == m.gameOver
      && r.timerRunning == m.timerRunning && r.winner == m.winner
  {
    var board := m.board[pos := Some(t)];
    var m' :=
      if m.turn == Left then
        m.(board := board, leftPool := Without(m.leftPool, t), leftScore := m.leftScore + 1)
      else
        m.(board := board, rightPool := Without(m.rightPool, t), rightScore := m.rightScore + 1);
    if IsFull(board) then Finish(m') else m'.(turn := m.turn.Other())
  }

  /** One second of the side to move: its clock drops by one, not below zero;
      an empty clock ends the match. */
  function Elapse(m: MatchState): MatchState {
    var m' :=
      if m.turn == Left then m.(leftTime := if m.leftTime - 1 < 0 then 0 else m.leftTime - 1)
      else m.(rightTime := if m.rightTime - 1 < 0 then 0 else m.rightTime - 1);
    if m'.leftTime == 0 || m'.rightTime == 0 then Finish(m') else m'
  }

  /** The once-per-second timer: nothing unless the match is running and not
      over; otherwise only the mover's clock drops (floored at 0), and the
      match finishes exactly when a clock is empty. */
  function TickMatch(m: MatchState): (r: MatchState)
    ensures !m.Active() ==> r == m
    ensures m.Active() ==>
      && r.board == m.board && r.leftPool == m.leftPool && r.rightPool == m.rightPool
      && r.leftScore == m.leftScore && r.rightScore == m.rightScore && r.turn == m.turn
      && r.Clock(m.turn) == (if m.Clock(m.turn) > 0 then m.Clock(m.turn) - 1 else 0)
      && r.Clock(m.turn.Other()) == m.Clock(m.turn.Other())
      && (r.gameOver <==> r.leftTime == 0 || r.rightTime == 0)
      && (r.gameOver ==> !r.timerRunning && r.winner == Some(Decide(r)))
      && (!r.gameOver ==> r.timerRunning && r.winner == m.winner)
  {
    if m.Active() then Elapse(m) else m
  }

  /** `n` timer ticks in a row. */
  function Ticks(m: MatchState, n: nat): MatchState
    decreases n
  {
    if n == 0 then m else Ticks(TickMatch(m), n - 1)
  }

  /** What holds of every match state a client reaches. */
  predicate Valid(m: MatchState) {
    && |m.board| == BoardCells
    // the tile partition
    && Partitioned(m.board, m.leftPool, m.rightPool)
    && (forall t :: t in m.leftPool ==> 0 <= t < PoolSize)
    && (forall t :: t in m.rightPool ==> PoolSize <= t < TotalTiles)
    // a point for every tile a side has placed
    && m.leftScore + |m.leftPool| == PoolSize
    && m.rightScore + |m.rightPool| == PoolSize
    && 0 <= m.leftTime <= StartTime
    && 0 <= m.rightTime <= StartTime
    // the terminal state: stopped, with the rule's verdict, for one of the two reasons
    && (m.gameOver <==> m.winner.Some?)
    && (m.gameOver ==> !m.timerRunning && m.winner == Some(Decide(m)))
    && (m.gameOver ==> IsFull(m.board) || m.leftTime == 0 || m.rightTime == 0)
    && (!m.gameOver ==> 0 < m.leftTime && 0 < m.rightTime && !IsFull(m.board))
    // before Start nothing has moved since the reset
    && (m.Waiting() ==> m == Initial())
  }

  /** The reset pools and the empty board partition 0..29. */
  lemma InitialPartition()
    ensures Partitioned(Initial().board, Initial().leftPool, Initial().rightPool)
  {
    var l, r := Range(0, PoolSize), Range(PoolSize, TotalTiles);
    RangeSplit(0, PoolSize, TotalTiles);
    assert l + r == AllTiles();
    assert multiset(l + r) == multiset(l) + multiset(r);
    assert Placed(Initial().board) == [];
  }

  /** The reset pools are the two halves of 0..29. */
  lemma InitialPools()
    ensures forall t :: t in Initial().leftPool <==> 0 <= t < PoolSize
    ensures forall t :: t in Initial().rightPool <==> PoolSize <= t < TotalTiles
  {
    RangeMembers(0, PoolSize);
    RangeMembers(PoolSize, TotalTiles);
  }

  /** The reset state satisfies the invariant. */
  lemma InitialIsValid()
    ensures Valid(Initial())
  {
    InitialPartition();
    InitialPools();
    assert !IsFull(Initial().board) by {
      assert Initial().board[0] == None;
    }
  }

  /** Reset gives a valid waiting state: empty board, left pool 0..14,
      right pool 15..29, scores 0, left to move, both clocks full. */
  lemma InitialValid()
    ensures Valid(Initial())
    ensures Initial().Waiting() && Initial().turn == Left
    ensures OccupiedCount(Initial().board) == 0
    ensures forall t :: t in Initial().leftPool <==> 0 <= t < PoolSize
    ensures forall t :: t in Initial().rightPool <==> PoolSize <= t < TotalTiles
    ensures Initial().leftScore == 0 && Initial().rightScore == 0
    ensures Initial().leftTime == StartTime && Initial().rightTime == StartTime
  {
    InitialIsValid();
    InitialPools();
    assert Placed(Initial().board) == [];
  }

  /** The combined score equals the number of occupied cells. */
  lemma ScoreTotalIsOccupied(m: MatchState)
    requires Valid(m)
    ensures m.leftScore + m.rightScore == OccupiedCount(m.board)
  {
    var total := multiset(Placed(m.board)) + multiset(m.leftPool) + multiset(m.rightPool);
    assert |total| == |Placed(m.board)| + |m.leftPool| + |m.rightPool|;
    assert |multiset(AllTiles())| == TotalTiles;
  }

  /** The partition invariant in set terms: board tiles and the two pools are
      pairwise disjoint, hold no tile twice, and together cover 0..29. */
  lemma TilesPartitioned(m: MatchState)
    requires Valid(m)
    ensures forall t :: t in m.leftPool ==> t !in m.rightPool && t !in Placed(m.board)
    ensures forall t :: t in m.rightPool ==> t !in Placed(m.board)
    ensures forall t :: (t in Placed(m.board) || t in m.leftPool || t in m.rightPool) <==> 0 <= t < TotalTiles
    ensures forall t :: multiset(Placed(m.board))[t] <= 1
    ensures forall t :: multiset(m.leftPool)[t] <= 1 && multiset(m.rightPool)[t] <= 1
  {
    PartitionedSets(m.board, m.leftPool, m.rightPool);
  }

  /** The tile part of the invariant survives a placement: the tile moves
      from the mover's pool to the board, one point is scored for it. */
  lemma PutKeepsTiles(m: MatchState, pos: int, t: Tile)
    requires |m.board| == BoardCells && Partitioned(m.board, m.leftPool, m.rightPool)
    requires m.Score(m.turn) + |m.Pool(m.turn)| == PoolSize
    requires 0 <= pos < |m.board| && m.board[pos] == None
    requires t in m.Pool(m.turn)
    ensures Partitioned(Put(m, pos, t).board, Put(m, pos, t).leftPool, Put(m, pos, t).rightPool)
    ensures Put(m, pos, t).Score(m.turn) + |Put(m, pos, t).Pool(m.turn)| == PoolSize
    ensures OccupiedCount(Put(m, pos, t).board) == OccupiedCount(m.board) + 1
  {
    var r := Put(m, pos, t);
    PartitionedSets(m.board, m.leftPool, m.rightPool);
    PlacedUpdate(m.board, pos, t);
    if m.turn == Left {
      assert multiset(m.leftPool)[t] == 1;
      MoveTile(m.board, m.leftPool, m.rightPool, pos, t);
    } else {
      assert multiset(m.rightPool)[t] == 1;
      MoveTile(m.board, m.rightPool, m.leftPool, pos, t);
    }
  }

  /** A successful placement keeps the invariant and fills exactly one more cell. */
  lemma PutPreservesValid(m: MatchState, pos: int, t: Tile)
    requires Valid(m) && m.Active()
    requires 0 <= pos < |m.board| && m.board[pos] == None
    requires t in m.Pool(m.turn)
    ensures Valid(Put(m, pos, t))
    ensures OccupiedCount(Put(m, pos, t).board) == OccupiedCount(m.board) + 1
  {
    PutKeepsTiles(m, pos, t);
    var r := Put(m, pos, t);
    assert r.leftScore + |r.leftPool| == PoolSize && r.rightScore + |r.rightPool| == PoolSize;
    assert forall x :: x in r.leftPool ==> x in m.leftPool;
    assert forall x :: x in r.rightPool ==> x in m.rightPool;
    assert !r.Waiting();
  }

  /** Starting a waiting match keeps the invariant; the match started is the
      reset one, so left moves first. */
  lemma StartKeepsValid(m: MatchState)
    requires Valid(m) && m.Waiting()
    ensures Valid(m.(timerRunning := true))
    ensures m == Initial() && m.turn == Left
  {
    var s := m.(timerRunning := true);
    assert s.board == m.board && s.leftPool == m.leftPool && s.rightPool == m.rightPool;
    assert Partitioned(s.board, s.leftPool, s.rightPool);
    assert !s.gameOver && !s.Waiting();
  }

  /** A tick of a running match keeps the invariant. */
  lemma TickPreservesValid(m: MatchState)
    requires Valid(m)
    ensures Valid(TickMatch(m))
  {
  }

  /** Once over, the match ignores the timer. */
  lemma {:induction false} TicksAfterOver(m: MatchState, n: nat)
    requires m.gameOver
    ensures Ticks(m, n) == m
  {
    if n > 0 {
      TicksAfterOver(TickMatch(m), n - 1);
    }
  }

  /** Every running match ends: if nobody moves, the mover's clock runs out
      within as many ticks as it shows, and the match is then over. */
  lemma {:induction false} ClockRunsOut(m: MatchState)
    requires Valid(m) && m.Active()
    ensures Ticks(m, m.Clock(m.turn)).gameOver
    decreases m.Clock(m.turn)
  {
    var m1 := TickMatch(m);
    TickPreservesValid(m);
    if m1.gameOver {
      TicksAfterOver(m1, m.Clock(m.turn) - 1);
    } else {
      ClockRunsOut(m1);
    }
  }

  /** The winner rule treats the sides alike: swapping them swaps the verdict. */
  lemma WinnerIsSymmetric(ls: int, rs: int, lt: int, rt: int)
    ensures EvaluateWinner(rs, ls, rt, lt) == Mirror(EvaluateWinner(ls, rs, lt, rt))
  {
  }

  function Mirror(o: Outcome): Outcome {
    match o
    case Won(s) => Won(s.Other())
    case Tie => Tie
  }

  /** The verdict depends on the two scores and the two clocks and on nothing else. */
  lemma DecideReadsScoresAndClocks(m1: MatchState, m2: MatchState)
    requires m1.leftScore == m2.leftScore && m1.rightScore == m2.rightScore
    requires m1.leftTime == m2.leftTime && m1.rightTime == m2.rightTime
    ensures Decide(m1) == Decide(m2)
  {
  }

  /** The worked cases: a higher score wins whatever the clocks say; tied
      scores fall back to the clocks; tied scores and clocks are a tie. */
  lemma WinnerExamples(lt: int, rt: int)
    ensures EvaluateWinner(8, 7, lt, rt) == Won(Left)
    ensures EvaluateWinner(7, 7, 10, 4) == Won(Left)
    ensures EvaluateWinner(7, 7, 5, 5) == Tie
  {
  }
}
