/** The board geometry and the tile identifiers, with the sequence facts the
    tile-partition invariant rests on.  Tiles are numbered 0..29; a board is
    a sequence of cells, each empty or holding one tile; a pool is the
    sequence of tiles a side has not placed yet. */
module Tiles {
  import opened Wrappers

  const Cols: nat := 5
  const Rows: nat := 6
  const BoardCells: nat := Cols * Rows
  const TotalTiles: nat := 30
  /** Each side owns half of the tiles: left 0..14, right 15..29. */
  const PoolSize: nat := 15

  type Tile = int
  type Cell = Option<Tile>
  type Board = seq<Cell>

  /** The integers lo, lo+1, ..., hi-1 in increasing order. */
  function Range(lo: int, hi: int): (r: seq<int>)
    ensures |r| == if lo <= hi then hi - lo else 0
    ensures forall i :: 0 <= i < |r| ==> r[i] == lo + i
  {
    if lo >= hi then [] else seq(hi - lo, i => lo + i)
  }

  /** `Range(lo, hi)` holds exactly the integers from lo up to hi - 1. */
  lemma RangeMembers(lo: int, hi: int)
    ensures forall t :: t in Range(lo, hi) <==> lo <= t < hi
  {
    var r := Range(lo, hi);
    forall t | lo <= t < hi
      ensures t in r
    {
      assert r[t - lo] == t;
    }
  }

  /** Every tile identifier of the match. */
  function AllTiles(): seq<Tile> {
    Range(0, TotalTiles)
  }

  lemma {:induction false} RangeSplit(lo: int, mid: int, hi: int)
    requires lo <= mid <= hi
    ensures Range(lo, mid) + Range(mid, hi) == Range(lo, hi)
  {
    var a, b, c := Range(lo, mid), Range(mid, hi), Range(lo, hi);
    assert |a + b| == |c|;
    forall i | 0 <= i < |c|
      ensures (a + b)[i] == c[i]
    {
      if i < |a| {
        assert (a + b)[i] == a[i];
      } else {
        assert (a + b)[i] == b[i - |a|];
      }
    }
  }

  /** Every value of a range occurs in it exactly once, and nothing else occurs. */
  lemma {:induction false} RangeMultiplicity(lo: int, hi: int, x: int)
    ensures multiset(Range(lo, hi))[x] == if lo <= x < hi then 1 else 0
    decreases hi - lo
  {
    if lo < hi {
      assert Range(lo, hi) == [lo] + Range(lo + 1, hi);
      RangeMultiplicity(lo + 1, hi, x);
    }
  }

  /** An empty board: every cell is null. */
  function EmptyBoard(): (b: Board)
    ensures |b| == BoardCells
    ensures forall i :: 0 <= i < |b| ==> b[i] == None
  {
    seq(BoardCells, _ => None)
  }

  /** `board.every(cell => cell !== null)`. */
  predicate IsFull(b: Board) {
    forall i :: 0 <= i < |b| ==> b[i].Some?
  }

  /** A cell click at `pos` finds the cell taken: a tile is there, or the
      index is past the end of the board (`undefined !== null`). */
  predicate Occupied(b: Board, pos: int)
    requires 0 <= pos
  {
    pos >= |b| || b[pos].Some?
  }

  /** The tiles on the board, in cell order. */
  function Placed(b: Board): (r: seq<Tile>)
    ensures |r| <= |b|
    ensures |r| == |b| <==> IsFull(b)
    ensures (forall i :: 0 <= i < |b| ==> b[i].None?) ==> r == []
    ensures forall t :: t in r <==> exists i :: 0 <= i < |b| && b[i] == Some(t)
  {
    if |b| == 0 then []
    else
      assert forall i :: 0 <= i < |b| - 1 ==> b[1..][i] == b[i + 1];
      (if b[0].Some? then [b[0].value] else []) + Placed(b[1..])
  }

  /** The number of occupied cells. */
  function OccupiedCount(b: Board): nat {
    |Placed(b)|
  }

  /** Putting a tile into an empty cell adds exactly that tile to the board's contents. */
  lemma {:induction false} PlacedUpdate(b: Board, pos: int, t: Tile)
    requires 0 <= pos < |b| && b[pos] == None
    ensures multiset(Placed(b[pos := Some(t)])) == multiset(Placed(b)) + multiset{t}
    ensures OccupiedCount(b[pos := Some(t)]) == OccupiedCount(b) + 1
    decreases pos
  {
    var b' := b[pos := Some(t)];
    if pos == 0 {
      assert b'[1..] == b[1..];
    } else {
      assert b'[1..] == b[1..][pos - 1 := Some(t)];
      PlacedUpdate(b[1..], pos - 1, t);
    }
  }

  /** `pool.filter(x => x !== t)`: the pool without any copy of `t`. */
  function Without(s: seq<Tile>, t: Tile): (r: seq<Tile>)
    ensures forall x :: x in r <==> x in s && x != t
    ensures multiset(r) == multiset(s)[t := 0]
    ensures |r| == |s| - multiset(s)[t]
    ensures t !in s ==> r == s
  {
    if |s| == 0 then []
    else
      assert s == [s[0]] + s[1..];
      (if s[0] == t then [] else [s[0]]) + Without(s[1..], t)
  }

  /** Filtering distributes over concatenation. */
  lemma {:induction false} WithoutAppend(a: seq<Tile>, b: seq<Tile>, t: Tile)
    ensures Without(a + b, t) == Without(a, t) + Without(b, t)
    decreases |a|
  {
    if |a| > 0 {
      var h := if a[0] == t then [] else [a[0]];
      assert (a + b)[0] == a[0];
      assert (a + b)[1..] == a[1..] + b;
      assert Without(a + b, t) == h + Without(a[1..] + b, t);
      assert Without(a, t) == h + Without(a[1..], t);
      WithoutAppend(a[1..], b, t);
      assert h + (Without(a[1..], t) + Without(b, t)) == (h + Without(a[1..], t)) + Without(b, t);
    } else {
      assert a + b == b;
    }
  }

  /** With a single copy of `t` at index `k`, removing it keeps the rest in order. */
  lemma {:induction false} WithoutKeepsOrder(s: seq<Tile>, t: Tile, k: int)
    requires 0 <= k < |s| && s[k] == t && multiset(s)[t] == 1
    ensures Without(s, t) == s[..k] + s[k+1..]
    decreases k
  {
    assert s == [s[0]] + s[1..];
    if k == 0 {
      assert multiset(s[1..])[t] == 0;
      assert t !in s[1..];
    } else {
      assert s[0] != t;
      assert multiset(s[1..])[t] == 1;
      WithoutKeepsOrder(s[1..], t, k - 1);
      assert s[..k] == [s[0]] + s[1..][..k-1];
      assert s[k+1..] == s[1..][k..];
    }
  }

  lemma MoveTile(b: Board, p: seq<Tile>, q: seq<Tile>, pos: int, t: Tile)
    requires 0 <= pos < |b| && b[pos] == None
    requires multiset(p)[t] == 1
    ensures multiset(Placed(b[pos := Some(t)])) + multiset(Without(p, t)) + multiset(q)
            == multiset(Placed(b)) + multiset(p) + multiset(q)
    ensures |Without(p, t)| == |p| - 1
  {
    PlacedUpdate(b, pos, t);
    assert multiset(Without(p, t)) == multiset(p) - multiset{t};
  }

  /** The board tiles and the two pools together hold every tile exactly once. */
  predicate Partitioned(b: Board, left: seq<Tile>, right: seq<Tile>) {
    multiset(Placed(b)) + multiset(left) + multiset(right) == multiset(AllTiles())
  }

  /** The partition at one tile: its copies in the three collections add up
      to one when it is a tile of the match, and to zero otherwise. */
  lemma PartitionedAt(b: Board, left: seq<Tile>, right: seq<Tile>, t: Tile)
    requires Partitioned(b, left, right)
    ensures multiset(Placed(b))[t] + multiset(left)[t] + multiset(right)[t]
            == if 0 <= t < TotalTiles then 1 else 0
  {
    var m := multiset(Placed(b)) + multiset(left) + multiset(right);
    assert m[t] == multiset(Placed(b))[t] + multiset(left)[t] + multiset(right)[t];
    RangeMultiplicity(0, TotalTiles, t);
  }

  /** The partition read as sets: the three collections are pairwise disjoint,
      none repeats a tile, and together they cover exactly 0..29. */
  lemma PartitionedSets(b: Board, left: seq<Tile>, right: seq<Tile>)
    requires Partitioned(b, left, right)
    ensures forall t :: t in left ==> t !in right && t !in Placed(b)
    ensures forall t :: t in right ==> t !in Placed(b)
    ensures forall t :: (t in Placed(b) || t in left || t in right) <==> 0 <= t < TotalTiles
    ensures forall t :: multiset(Placed(b))[t] <= 1 && multiset(left)[t] <= 1 && multiset(right)[t] <= 1
  {
    forall t
      ensures t in left ==> t !in right && t !in Placed(b)
      ensures t in right ==> t !in Placed(b)
      ensures (t in Placed(b) || t in left || t in right) <==> 0 <= t < TotalTiles
      ensures multiset(Placed(b))[t] <= 1 && multiset(left)[t] <= 1 && multiset(right)[t] <= 1
    {
      PartitionedAt(b, left, right, t);
    }
  }
}
