/** Vocabulary shared by the two rules engines of the repository: colours,
    grids, the neighbour and diagonal tables, the counting predicates on a
    point (eye, alive eye, suicide, neighbour counts), connected same-colour
    chains, the group record, and the legality rule that both `Groups`
    classes apply at an empty point. */
module GoRules {

  const WHITE: int := 1
  const EMPTY: int := 0
  const BLACK: int := -1

  /** What a cell of the grid holds: WHITE, EMPTY or BLACK. */
  type Cell = c: int | -1 <= c <= 1

  /** The colour of a stone, a group or a player. */
  type Stone = c: int | c == -1 || c == 1 witness -1

  /** The opposite colour. */
  function Opp(c: Stone): (r: Stone)
    ensures r as int == -(c as int)
  {
    if c == WHITE then BLACK else WHITE
  }

  /** A (row, column) coordinate. */
  type Pos = (int, int)

  /** A grid, row by row. */
  type Grid = seq<seq<Cell>>

  datatype Option<T> = None | Some(value: T)

  /** The one error the rules raise: a colour other than BLACK or WHITE. */
  datatype Error = WrongColor

  datatype Result<T> = Ok(value: T) | Err(error: Error)

  /** An x by y grid of empty cells (`np.zeros([x, y])`). */
  function EmptyGrid(x: nat, y: nat): (r: Grid)
    ensures IsGrid(r, x, y)
    ensures forall q | InBounds(x, y, q) :: InGrid(r, q) && At(r, q) == EMPTY
  {
    seq(x, i => seq(y, j => EMPTY as Cell))
  }

  predicate InBounds(x: int, y: int, p: Pos)
  {
    0 <= p.0 < x && 0 <= p.1 < y
  }

  predicate IsGrid(g: Grid, x: int, y: int)
  {
    x >= 0 && y >= 0 && |g| == x && forall i | 0 <= i < x :: |g[i]| == y
  }

  predicate InGrid(g: Grid, p: Pos)
  {
    0 <= p.0 < |g| && 0 <= p.1 < |g[p.0]|
  }

  function At(g: Grid, p: Pos): Cell
    requires InGrid(g, p)
  {
    g[p.0][p.1]
  }

  /** The grid with one cell overwritten (numpy `board[p] = v`). */
  function Put(g: Grid, p: Pos, v: Cell): (r: Grid)
    requires InGrid(g, p)
    ensures |r| == |g| && forall i | 0 <= i < |g| :: |r[i]| == |g[i]|
    ensures forall q | InGrid(g, q) :: InGrid(r, q) && At(r, q) == if q == p then v else At(g, q)
  {
    var row: seq<Cell> := g[p.0][p.1 := v];
    g[p.0 := row]
  }

  lemma GridCell(g: Grid, x: int, y: int, p: Pos)
    requires IsGrid(g, x, y) && InBounds(x, y, p)
    ensures InGrid(g, p)
  {
    assert |g[p.0]| == y;
  }

  /** All coordinates of an x by y grid. */
  function Positions(x: int, y: int): (r: set<Pos>)
    ensures forall p :: p in r <==> InBounds(x, y, p)
  {
    set i, j | 0 <= i < x && 0 <= j < y :: (i, j)
  }

  predicate Distinct<T(==)>(s: seq<T>)
  {
    forall i, j | 0 <= i < j < |s| :: s[i] != s[j]
  }

  // ---------------------------------------------------------------------
  // The neighbour and diagonal tables (game_logic.py:14-31, board.py:14-32)
  // ---------------------------------------------------------------------

  /** `__is_bound`: both coordinates survive reduction modulo the size. */
  function IsBound(x: int, y: int, p: Pos): (r: bool)
    requires x > 0 && y > 0
    ensures r <==> InBounds(x, y, p)
  {
    ModKeeps(p.0, x);
    ModKeeps(p.1, y);
    p.0 % x == p.0 && p.1 % y == p.1
  }

  /** A number survives reduction modulo `n` exactly when it lies in [0, n). */
  lemma ModKeeps(a: int, n: int)
    requires n > 0
    ensures a % n == a <==> 0 <= a < n
  {
    if 0 <= a < n {
      assert a / n == 0;
    }
  }

  /** `filter(self.__is_bound, ps)`, order kept. */
  function BoundFilter(x: int, y: int, ps: seq<Pos>): (r: seq<Pos>)
    requires x > 0 && y > 0
    ensures forall q :: q in r <==> q in ps && InBounds(x, y, q)
    ensures |r| <= |ps|
    ensures Distinct(ps) ==> Distinct(r)
  {
    if ps == [] then []
    else (if IsBound(x, y, ps[0]) then [ps[0]] else []) + BoundFilter(x, y, ps[1..])
  }

  /** Orthogonal adjacency. */
  predicate Adjacent(p: Pos, q: Pos)
  {
    (p.0 == q.0 && (p.1 - q.1 == 1 || q.1 - p.1 == 1)) ||
    (p.1 == q.1 && (p.0 - q.0 == 1 || q.0 - p.0 == 1))
  }

  /** Diagonal adjacency. */
  predicate DiagonallyAdjacent(p: Pos, q: Pos)
  {
    (p.0 - q.0 == 1 || q.0 - p.0 == 1) && (p.1 - q.1 == 1 || q.1 - p.1 == 1)
  }

  /** The neighbour table entry of an on-board point: its orthogonal
      neighbours in the order right, down, left, up, off-board ones dropped. */
  function Neighbors(x: int, y: int, p: Pos): (r: seq<Pos>)
    requires InBounds(x, y, p)
    ensures forall q :: q in r <==> InBounds(x, y, q) && Adjacent(p, q)
    ensures |r| <= 4 && Distinct(r)
  {
    BoundFilter(x, y, NeighborCells(p))
  }

  /** The four orthogonal neighbour cells, in the order right, down, left, up. */
  function NeighborCells(p: Pos): seq<Pos>
  {
    [(p.0, p.1 + 1), (p.0 + 1, p.1), (p.0, p.1 - 1), (p.0 - 1, p.1)]
  }

  /** The four diagonal cells, in the order down-right, down-left, up-left, up-right. */
  function DiagonalCells(p: Pos): seq<Pos>
  {
    [(p.0 + 1, p.1 + 1), (p.0 + 1, p.1 - 1), (p.0 - 1, p.1 - 1), (p.0 - 1, p.1 + 1)]
  }

  /** board.py's list of diagonal cells: the last one repeats the up-left cell. */
  function DiagonalCellsAsWritten(p: Pos): seq<Pos>
  {
    [(p.0 + 1, p.1 + 1), (p.0 + 1, p.1 - 1), (p.0 - 1, p.1 - 1), (p.0 - 1, p.1 - 1)]
  }

  /** The diagonal table entry of game_logic.py: the four diagonal
      neighbours, off-board ones dropped. */
  function Diagonals(x: int, y: int, p: Pos): (r: seq<Pos>)
    requires InBounds(x, y, p)
    ensures forall q :: q in r <==> InBounds(x, y, q) && DiagonallyAdjacent(p, q)
    ensures |r| <= 4 && Distinct(r)
  {
    BoundFilter(x, y, DiagonalCells(p))
  }

  /** The diagonal table entry of board.py as written: the up-left
      diagonal is listed twice and the up-right one never. */
  function DiagonalsAsWritten(x: int, y: int, p: Pos): (r: seq<Pos>)
    requires InBounds(x, y, p)
    ensures forall q :: q in r <==> InBounds(x, y, q) && DiagonallyAdjacent(p, q) && q != (p.0 - 1, p.1 + 1)
    ensures |r| <= 4
  {
    BoundFilter(x, y, DiagonalCellsAsWritten(p))
  }

  /** Filtering keeps a list whose every cell is on the board. */
  lemma {:induction false} BoundFilterKeepsAll(x: int, y: int, ps: seq<Pos>)
    requires x > 0 && y > 0
    requires forall q | q in ps :: InBounds(x, y, q)
    ensures BoundFilter(x, y, ps) == ps
  {
    if ps != [] {
      BoundFilterKeepsAll(x, y, ps[1..]);
    }
  }

  /** Filtering a list with one more cell at the end filters the list and
      then keeps that cell when it is on the board. */
  lemma {:induction false} BoundFilterSnoc(x: int, y: int, ps: seq<Pos>, q: Pos)
    requires x > 0 && y > 0
    ensures BoundFilter(x, y, ps + [q]) == BoundFilter(x, y, ps) + (if InBounds(x, y, q) then [q] else [])
  {
    var tail := if InBounds(x, y, q) then [q] else [];
    if ps == [] {
      assert ps + [q] == [q];
      assert [q][1..] == [];
      assert BoundFilter(x, y, [q]) == tail + BoundFilter(x, y, []);
    } else {
      var head := if IsBound(x, y, ps[0]) then [ps[0]] else [];
      assert (ps + [q])[0] == ps[0];
      assert (ps + [q])[1..] == ps[1..] + [q];
      BoundFilterSnoc(x, y, ps[1..], q);
      assert BoundFilter(x, y, ps + [q]) == head + BoundFilter(x, y, ps[1..] + [q]);
      assert BoundFilter(x, y, ps) == head + BoundFilter(x, y, ps[1..]);
      AppendAssoc(head, BoundFilter(x, y, ps[1..]), tail);
    }
  }

  /** Concatenation is associative. */
  lemma AppendAssoc(a: seq<Pos>, b: seq<Pos>, c: seq<Pos>)
    ensures a + (b + c) == (a + b) + c
  {
  }

  /** The last cell of a neighbour-table entry: the point above whenever
      there is one, and otherwise the point to the left when there is one. */
  lemma LastNeighbor(x: int, y: int, p: Pos)
    requires InBounds(x, y, p)
    ensures p.0 > 0 ==> Neighbors(x, y, p) != [] && Neighbors(x, y, p)[|Neighbors(x, y, p)| - 1] == (p.0 - 1, p.1)
    ensures p.0 == 0 && p.1 > 0 ==>
              Neighbors(x, y, p) != [] && Neighbors(x, y, p)[|Neighbors(x, y, p)| - 1] == (p.0, p.1 - 1)
  {
    var a := [(p.0, p.1 + 1), (p.0 + 1, p.1)];
    var l, u := (p.0, p.1 - 1), (p.0 - 1, p.1);
    var al := a + [l];
    assert NeighborCells(p) == al + [u];
    var ns := Neighbors(x, y, p);
    BoundFilterSnoc(x, y, al, u);
    assert ns == BoundFilter(x, y, al) + (if InBounds(x, y, u) then [u] else []);
    if p.0 == 0 && p.1 > 0 {
      BoundFilterSnoc(x, y, a, l);
      assert ns == BoundFilter(x, y, a) + [l];
    }
  }

  /** On a point away from the edge, board.py's diagonal entry holds four
      cells like game_logic.py's, but one of them twice, and it misses the
      up-right diagonal that game_logic.py's entry has. */
  lemma DiagonalsAsWrittenDiffer(x: int, y: int, p: Pos)
    requires 1 <= p.0 < x - 1 && 1 <= p.1 < y - 1
    ensures |DiagonalsAsWritten(x, y, p)| == 4 == |Diagonals(x, y, p)|
    ensures !Distinct(DiagonalsAsWritten(x, y, p))
    ensures (p.0 - 1, p.1 + 1) in Diagonals(x, y, p)
    ensures (p.0 - 1, p.1 + 1) !in DiagonalsAsWritten(x, y, p)
  {
    InteriorDiagonals(x, y, p);
    InteriorDiagonalsAsWritten(x, y, p);
    var written := DiagonalsAsWritten(x, y, p);
    assert written[2] == written[3];
  }

  /** Away from the edge, a point has all four neighbours, in the order
      right, down, left, up. */
  lemma InteriorNeighbors(x: int, y: int, p: Pos)
    requires 1 <= p.0 < x - 1 && 1 <= p.1 < y - 1
    ensures Neighbors(x, y, p) == NeighborCells(p)
  {
    BoundFilterKeepsAll(x, y, NeighborCells(p));
  }

  lemma InteriorDiagonals(x: int, y: int, p: Pos)
    requires 1 <= p.0 < x - 1 && 1 <= p.1 < y - 1
    ensures Diagonals(x, y, p) == DiagonalCells(p)
  {
    BoundFilterKeepsAll(x, y, DiagonalCells(p));
  }

  lemma InteriorDiagonalsAsWritten(x: int, y: int, p: Pos)
    requires 1 <= p.0 < x - 1 && 1 <= p.1 < y - 1
    ensures DiagonalsAsWritten(x, y, p) == DiagonalCellsAsWritten(p)
  {
    BoundFilterKeepsAll(x, y, DiagonalCellsAsWritten(p));
  }

  // ---------------------------------------------------------------------
  // Counting predicates on a point (the same/diff/total counter loops)
  // ---------------------------------------------------------------------

  predicate AllInGrid(g: Grid, ps: seq<Pos>)
  {
    forall q | q in ps :: InGrid(g, q)
  }

  lemma NeighborsInGrid(g: Grid, x: int, y: int, p: Pos)
    requires IsGrid(g, x, y) && InBounds(x, y, p)
    ensures AllInGrid(g, Neighbors(x, y, p))
  {
    forall q | q in Neighbors(x, y, p) ensures InGrid(g, q) {
      GridCell(g, x, y, q);
    }
  }

  lemma DiagonalsInGrid(g: Grid, x: int, y: int, p: Pos)
    requires IsGrid(g, x, y) && InBounds(x, y, p)
    ensures AllInGrid(g, Diagonals(x, y, p))
    ensures AllInGrid(g, DiagonalsAsWritten(x, y, p))
  {
    forall q | q in Diagonals(x, y, p) + DiagonalsAsWritten(x, y, p) ensures InGrid(g, q) {
      GridCell(g, x, y, q);
    }
  }

  /** How many of the listed cells hold `color`. */
  function CountColour(g: Grid, ps: seq<Pos>, color: int): (r: nat)
    requires AllInGrid(g, ps)
    ensures r <= |ps|
    ensures r == |ps| <==> forall q | q in ps :: At(g, q) == color
  {
    if ps == [] then 0
    else (if At(g, ps[0]) == color then 1 else 0) + CountColour(g, ps[1..], color)
  }

  lemma {:induction false} CountColourAppend(g: Grid, a: seq<Pos>, b: seq<Pos>, color: int)
    requires AllInGrid(g, a) && AllInGrid(g, b)
    ensures AllInGrid(g, a + b)
    ensures CountColour(g, a + b, color) == CountColour(g, a, color) + CountColour(g, b, color)
  {
    if a == [] {
      assert a + b == b;
    } else {
      assert (a + b)[1..] == a[1..] + b;
      CountColourAppend(g, a[1..], b, color);
    }
  }

  /** Cells of two different colours are counted apart, never twice. */
  lemma {:induction false} CountTwoColours(g: Grid, ps: seq<Pos>, c: int, d: int)
    requires AllInGrid(g, ps)
    requires c != d
    ensures CountColour(g, ps, c) + CountColour(g, ps, d) <= |ps|
    ensures CountColour(g, ps, c) + CountColour(g, ps, d) == |ps| <==>
              forall q | q in ps :: At(g, q) == c || At(g, q) == d
  {
    if ps != [] {
      CountTwoColours(g, ps[1..], c, d);
    }
  }

  /** Cell `k` is the only listed cell that does not hold `color`. */
  ghost predicate MismatchAt(g: Grid, ps: seq<Pos>, color: int, k: int)
    requires AllInGrid(g, ps)
  {
    0 <= k < |ps| && At(g, ps[k]) != color &&
    forall j | 0 <= j < |ps| && j != k :: At(g, ps[j]) == color
  }

  /** Exactly one listed cell does not hold `color`. */
  ghost predicate OneMismatch(g: Grid, ps: seq<Pos>, color: int)
    requires AllInGrid(g, ps)
  {
    exists k :: MismatchAt(g, ps, color, k)
  }

  lemma {:induction false} MismatchCounted(g: Grid, ps: seq<Pos>, color: int, k: int)
    requires AllInGrid(g, ps) && MismatchAt(g, ps, color, k)
    ensures CountColour(g, ps, color) == |ps| - 1
  {
    var rest := ps[1..];
    if k == 0 {
      assert forall q | q in rest :: At(g, q) == color by {
        forall q | q in rest ensures At(g, q) == color {
          var j :| 0 <= j < |rest| && rest[j] == q;
          assert ps[j + 1] == q;
        }
      }
    } else {
      assert MismatchAt(g, rest, color, k - 1) by {
        forall j | 0 <= j < |rest| && j != k - 1 ensures At(g, rest[j]) == color {
          assert rest[j] == ps[j + 1];
        }
      }
      MismatchCounted(g, rest, color, k - 1);
    }
  }

  lemma {:induction false} FindMismatch(g: Grid, ps: seq<Pos>, color: int) returns (k: int)
    requires AllInGrid(g, ps) && CountColour(g, ps, color) == |ps| - 1
    ensures MismatchAt(g, ps, color, k)
  {
    var rest := ps[1..];
    if At(g, ps[0]) != color {
      k := 0;
      forall j | 0 <= j < |ps| && j != 0 ensures At(g, ps[j]) == color {
        assert ps[j] in rest;
      }
    } else {
      var k' := FindMismatch(g, rest, color);
      k := k' + 1;
      forall j | 0 <= j < |ps| && j != k ensures At(g, ps[j]) == color {
        if j > 0 { assert ps[j] == rest[j - 1]; }
      }
    }
  }

  lemma CountOneShort(g: Grid, ps: seq<Pos>, color: int)
    requires AllInGrid(g, ps)
    ensures CountColour(g, ps, color) == |ps| - 1 <==> OneMismatch(g, ps, color)
  {
    if CountColour(g, ps, color) == |ps| - 1 {
      var k := FindMismatch(g, ps, color);
    }
    if OneMismatch(g, ps, color) {
      var k :| MismatchAt(g, ps, color, k);
      MismatchCounted(g, ps, color, k);
    }
  }

  /** `is_eye`: every orthogonal neighbour holds `color`. */
  function IsEye(g: Grid, x: int, y: int, p: Pos, color: int): (r: bool)
    requires IsGrid(g, x, y) && InBounds(x, y, p)
    ensures r <==> forall q | q in Neighbors(x, y, p) :: InGrid(g, q) && At(g, q) == color
  {
    NeighborsInGrid(g, x, y, p);
    CountColour(g, Neighbors(x, y, p), color) == |Neighbors(x, y, p)|
  }

  /** `is_suiside`: every orthogonal neighbour holds the opposite colour. */
  function IsSuicide(g: Grid, x: int, y: int, p: Pos, color: int): (r: bool)
    requires IsGrid(g, x, y) && InBounds(x, y, p)
    ensures r <==> forall q | q in Neighbors(x, y, p) :: InGrid(g, q) && At(g, q) == -color
  {
    NeighborsInGrid(g, x, y, p);
    CountColour(g, Neighbors(x, y, p), -color) == |Neighbors(x, y, p)|
  }

  datatype NeighborCount = NeighborCount(same: nat, diff: nat, total: nat)

  /** `count_neighbors`: neighbours of `color`, of the opposite colour, and all of them. */
  function CountNeighbors(g: Grid, x: int, y: int, p: Pos, color: Stone): (r: NeighborCount)
    requires IsGrid(g, x, y) && InBounds(x, y, p)
    ensures r.total == |Neighbors(x, y, p)| <= 4
    ensures r.same + r.diff <= r.total
    ensures r.same == r.total <==> IsEye(g, x, y, p, color)
    ensures r.diff == r.total <==> IsSuicide(g, x, y, p, color)
    ensures r.same + r.diff == r.total <==>
              forall q | q in Neighbors(x, y, p) :: InGrid(g, q) && At(g, q) != EMPTY
  {
    var ns := Neighbors(x, y, p);
    NeighborsInGrid(g, x, y, p);
    var opp: int := -(color as int);
    CountTwoColours(g, ns, color, opp);
    NeighborCount(CountColour(g, ns, color), CountColour(g, ns, opp), |ns|)
  }

  /** The alive-eye test over a point's neighbour and diagonal cells: all of
      them hold `color`, or there are eight and exactly seven do. */
  function AliveEyeCount(g: Grid, cells: seq<Pos>, color: int): (r: bool)
    requires AllInGrid(g, cells)
    ensures r <==> (forall q | q in cells :: At(g, q) == color) ||
                   (|cells| == 8 && OneMismatch(g, cells, color))
  {
    var total := |cells|;
    var same := CountColour(g, cells, color);
    CountOneShort(g, cells, color);
    total == same || (total == 8 && same == 7)
  }

  // ---------------------------------------------------------------------
  // Liberties and connected chains
  // ---------------------------------------------------------------------

  /** The empty points orthogonally adjacent to some of `members`. */
  function LibertiesOf(g: Grid, x: int, y: int, members: set<Pos>): (r: set<Pos>)
    requires IsGrid(g, x, y)
    ensures forall q :: q in r <==>
              InBounds(x, y, q) && InGrid(g, q) && At(g, q) == EMPTY &&
              exists m :: m in members && Adjacent(m, q)
  {
    set q | q in Positions(x, y) && InGrid(g, q) && At(g, q) == EMPTY &&
            exists m :: m in members && Adjacent(m, q)
  }

  /** The liberties of a set of members are never among the members when
      the members are stones. */
  lemma LibertiesOfStones(g: Grid, x: int, y: int, members: set<Pos>)
    requires IsGrid(g, x, y)
    requires forall m | m in members :: InGrid(g, m) && At(g, m) != EMPTY
    ensures LibertiesOf(g, x, y, members) !! members
  {
  }

  /** Liberties distribute over a union of member sets. */
  lemma LibertiesOfUnion(g: Grid, x: int, y: int, a: set<Pos>, b: set<Pos>)
    requires IsGrid(g, x, y)
    ensures LibertiesOf(g, x, y, a + b) == LibertiesOf(g, x, y, a) + LibertiesOf(g, x, y, b)
  {
  }

  /** Placing a stone on a point takes that point, and only it, out of any
      member set's liberties. */
  lemma LibertiesAfterPut(g: Grid, x: int, y: int, p: Pos, c: Stone, members: set<Pos>)
    requires IsGrid(g, x, y) && InBounds(x, y, p)
    ensures IsGrid(Put(g, p, c), x, y)
    ensures LibertiesOf(Put(g, p, c), x, y, members) == LibertiesOf(g, x, y, members) - {p}
  {
    var g' := Put(g, p, c);
    GridCell(g, x, y, p);
    forall q ensures q in LibertiesOf(g', x, y, members) <==> q in LibertiesOf(g, x, y, members) - {p} {
      if InBounds(x, y, q) { GridCell(g, x, y, q); }
    }
  }

  /** A walk over cells that all hold the colour of its first cell, each
      step going to an orthogonal neighbour. */
  ghost predicate IsChain(g: Grid, path: seq<Pos>)
  {
    |path| > 0 &&
    (forall k | 0 <= k < |path| :: InGrid(g, path[k])) &&
    (forall k | 0 <= k < |path| :: At(g, path[k]) == At(g, path[0])) &&
    (forall k | 0 <= k < |path| - 1 :: Adjacent(path[k], path[k + 1]))
  }

  /** `b` is reachable from `a` over cells of `a`'s colour. */
  ghost predicate Connected(g: Grid, a: Pos, b: Pos)
  {
    exists path :: IsChain(g, path) && path[0] == a && path[|path| - 1] == b
  }

  /** The connected single-colour region that holds `a`. */
  ghost function Component(g: Grid, x: int, y: int, a: Pos): set<Pos>
  {
    set b | b in Positions(x, y) && Connected(g, a, b)
  }

  /** Every neighbour of a member that holds the member's colour is a member. */
  ghost predicate Closed(g: Grid, x: int, y: int, s: set<Pos>)
    requires IsGrid(g, x, y)
  {
    forall m, q | m in s && InBounds(x, y, m) && q in Neighbors(x, y, m) ::
      InGrid(g, m) && InGrid(g, q) ==> At(g, q) == At(g, m) ==> q in s
  }

  lemma ConnectedSelf(g: Grid, a: Pos)
    requires InGrid(g, a)
    ensures Connected(g, a, a)
  {
    assert IsChain(g, [a]);
  }

  lemma ConnectedColour(g: Grid, a: Pos, b: Pos)
    requires Connected(g, a, b)
    ensures InGrid(g, a) && InGrid(g, b) && At(g, b) == At(g, a)
  {
    var path :| IsChain(g, path) && path[0] == a && path[|path| - 1] == b;
  }

  /** A chain extends by one step to a neighbour of the same colour. */
  lemma ConnectedExtend(g: Grid, a: Pos, b: Pos, q: Pos)
    requires Connected(g, a, b) && InGrid(g, q) && Adjacent(b, q)
    requires At(g, q) == At(g, b)
    ensures Connected(g, a, q)
  {
    var path :| IsChain(g, path) && path[0] == a && path[|path| - 1] == b;
    var path' := path + [q];
    assert IsChain(g, path');
  }

  lemma ConnectedSymmetric(g: Grid, a: Pos, b: Pos)
    requires Connected(g, a, b)
    ensures Connected(g, b, a)
  {
    var path :| IsChain(g, path) && path[0] == a && path[|path| - 1] == b;
    var n := |path|;
    var rev := seq(n, k requires 0 <= k < n => path[n - 1 - k]);
    forall k | 0 <= k < n - 1 ensures Adjacent(rev[k], rev[k + 1]) {
      assert Adjacent(path[n - 2 - k], path[n - 1 - k]);
    }
    assert IsChain(g, rev);
  }

  lemma ConnectedTransitive(g: Grid, a: Pos, b: Pos, c: Pos)
    requires Connected(g, a, b) && Connected(g, b, c)
    ensures Connected(g, a, c)
  {
    var p1 :| IsChain(g, p1) && p1[0] == a && p1[|p1| - 1] == b;
    var p2 :| IsChain(g, p2) && p2[0] == b && p2[|p2| - 1] == c;
    var path := p1 + p2[1..];
    forall k | 0 <= k < |path| - 1 ensures Adjacent(path[k], path[k + 1]) {
      if k < |p1| - 1 {
        assert path[k] == p1[k] && path[k + 1] == p1[k + 1];
      } else {
        assert path[k] == p2[k - |p1| + 1] && path[k + 1] == p2[k - |p1| + 2];
      }
    }
    assert IsChain(g, path);
  }

  /** Walking a chain that starts inside a closed set never leaves it. */
  lemma {:induction false} ChainStaysInClosed(g: Grid, x: int, y: int, s: set<Pos>, path: seq<Pos>, k: nat)
    requires IsGrid(g, x, y) && Closed(g, x, y, s)
    requires IsChain(g, path) && path[0] in s && k < |path|
    ensures path[k] in s
  {
    if k > 0 {
      ChainStaysInClosed(g, x, y, s, path, k - 1);
      var m, q := path[k - 1], path[k];
      assert Adjacent(m, q);
      GridCellBounds(g, x, y, m);
      GridCellBounds(g, x, y, q);
      assert q in Neighbors(x, y, m);
    }
  }

  lemma GridCellBounds(g: Grid, x: int, y: int, p: Pos)
    requires IsGrid(g, x, y) && InGrid(g, p)
    ensures InBounds(x, y, p)
  {
    assert |g[p.0]| == y;
  }

  /** A closed set holds the whole component of each of its members. */
  lemma ClosedContainsComponent(g: Grid, x: int, y: int, s: set<Pos>, a: Pos)
    requires IsGrid(g, x, y) && Closed(g, x, y, s) && a in s
    ensures Component(g, x, y, a) <= s
  {
    forall b | b in Component(g, x, y, a) ensures b in s {
      var path :| IsChain(g, path) && path[0] == a && path[|path| - 1] == b;
      ChainStaysInClosed(g, x, y, s, path, |path| - 1);
    }
  }

  /** A component is closed. */
  lemma ComponentClosed(g: Grid, x: int, y: int, a: Pos)
    requires IsGrid(g, x, y)
    ensures Closed(g, x, y, Component(g, x, y, a))
  {
    forall m, q | m in Component(g, x, y, a) && InBounds(x, y, m) && q in Neighbors(x, y, m) &&
                  InGrid(g, m) && InGrid(g, q) && At(g, q) == At(g, m)
      ensures q in Component(g, x, y, a)
    {
      ConnectedExtend(g, a, m, q);
    }
  }

  /** Every member of a component has that same component. */
  lemma ComponentOfMember(g: Grid, x: int, y: int, a: Pos, b: Pos)
    requires IsGrid(g, x, y) && b in Component(g, x, y, a)
    ensures Component(g, x, y, b) == Component(g, x, y, a)
  {
    ConnectedSymmetric(g, a, b);
    forall c | c in Component(g, x, y, b) ensures c in Component(g, x, y, a) {
      ConnectedTransitive(g, a, b, c);
    }
    forall c | c in Component(g, x, y, a) ensures c in Component(g, x, y, b) {
      ConnectedTransitive(g, b, a, c);
    }
  }

  /** The component of an on-board cell holds it, and holds only cells of its colour. */
  lemma ComponentBasics(g: Grid, x: int, y: int, a: Pos)
    requires IsGrid(g, x, y) && InBounds(x, y, a)
    ensures a in Component(g, x, y, a)
    ensures forall b | b in Component(g, x, y, a) :: InGrid(g, b) && At(g, b) == At(g, a)
  {
    GridCell(g, x, y, a);
    ConnectedSelf(g, a);
    forall b | b in Component(g, x, y, a) ensures InGrid(g, b) && At(g, b) == At(g, a) {
      ConnectedColour(g, a, b);
    }
  }

  // ---------------------------------------------------------------------
  // Stones, captures and area points
  // ---------------------------------------------------------------------

  /** The cells holding `c`. */
  function StoneSet(g: Grid, x: int, y: int, c: int): (r: set<Pos>)
    requires IsGrid(g, x, y)
    ensures forall q :: q in r <==> InBounds(x, y, q) && InGrid(g, q) && At(g, q) == c
  {
    set q | q in Positions(x, y) && InGrid(g, q) && At(g, q) == c
  }

  /** The cells holding a stone of either colour. */
  function Stones(g: Grid, x: int, y: int): (r: set<Pos>)
    requires IsGrid(g, x, y)
    ensures forall q :: q in r <==> InBounds(x, y, q) && InGrid(g, q) && At(g, q) != EMPTY
  {
    set q | q in Positions(x, y) && InGrid(g, q) && At(g, q) != EMPTY
  }

  /** The grid with every cell of `s` emptied and every other cell kept. */
  function Clear(g: Grid, s: set<Pos>): (r: Grid)
    ensures |r| == |g| && forall i | 0 <= i < |g| :: |r[i]| == |g[i]|
    ensures forall q | InGrid(g, q) :: InGrid(r, q) && At(r, q) == if q in s then EMPTY else At(g, q)
  {
    seq(|g|, i requires 0 <= i < |g| =>
      seq(|g[i]|, j requires 0 <= j < |g[i]| => if (i, j) in s then EMPTY as Cell else g[i][j]))
  }

  /** Two grids of the same shape that agree on every cell are equal. */
  lemma SameGrid(a: Grid, b: Grid)
    requires |a| == |b| && forall i | 0 <= i < |a| :: |a[i]| == |b[i]|
    requires forall q | InGrid(a, q) :: InGrid(b, q) && At(a, q) == At(b, q)
    ensures a == b
  {
    forall i | 0 <= i < |a| ensures a[i] == b[i] {
      forall j | 0 <= j < |a[i]| ensures a[i][j] == b[i][j] {
        assert At(a, (i, j)) == At(b, (i, j));
      }
    }
  }

  /** Clearing nothing keeps the grid. */
  lemma ClearNone(g: Grid)
    ensures Clear(g, {}) == g
  {
    SameGrid(Clear(g, {}), g);
  }

  /** Emptying one more cell of a cleared grid clears one more cell. */
  lemma ClearMore(g: Grid, s: set<Pos>, p: Pos)
    requires InGrid(g, p)
    ensures Put(Clear(g, s), p, EMPTY) == Clear(g, s + {p})
  {
    SameGrid(Put(Clear(g, s), p, EMPTY), Clear(g, s + {p}));
  }

  /** Clearing two sets one after the other clears their union. */
  lemma ClearTwice(g: Grid, s: set<Pos>, t: set<Pos>)
    ensures Clear(Clear(g, s), t) == Clear(g, s + t)
  {
    SameGrid(Clear(Clear(g, s), t), Clear(g, s + t));
  }

  /** A point counts for `c` under area scoring: a stone of `c`, or an
      empty point whose every neighbour holds `c`. */
  predicate PointFor(g: Grid, x: int, y: int, q: Pos, c: Stone)
    requires IsGrid(g, x, y) && InBounds(x, y, q)
  {
    GridCell(g, x, y, q);
    At(g, q) == c ||
    (At(g, q) == EMPTY && forall n | n in Neighbors(x, y, q) :: InGrid(g, n) && At(g, n) == c)
  }

  /** All points that count for `c`. */
  function AreaPoints(g: Grid, x: int, y: int, c: Stone): (r: set<Pos>)
    requires IsGrid(g, x, y)
    ensures r <= Positions(x, y)
    ensures forall q {:trigger q in r} {:trigger PointFor(g, x, y, q, c)} | InBounds(x, y, q) :: q in r <==> PointFor(g, x, y, q, c)
  {
    set q | q in Positions(x, y) && PointFor(g, x, y, q, c)
  }

  /** A score per colour, the `{WHITE: w, BLACK: b}` dictionaries. */
  datatype Score = Score(white: int, black: int)
  {
    function Of(c: Stone): int
    {
      if c == WHITE then white else black
    }

    function Add(c: Stone, d: int): (r: Score)
      ensures r.Of(c) == Of(c) + d && r.Of(-(c as int)) == Of(-(c as int))
    {
      if c == WHITE then Score(white + d, black) else Score(white, black + d)
    }
  }

  /** Off a one-point board, every point has a neighbour. */
  lemma SomeNeighbor(x: int, y: int, q: Pos) returns (n: Pos)
    requires InBounds(x, y, q) && (x > 1 || y > 1)
    ensures n in Neighbors(x, y, q)
  {
    if q.0 + 1 < x {
      n := (q.0 + 1, q.1);
    } else if q.0 > 0 {
      n := (q.0 - 1, q.1);
    } else if q.1 + 1 < y {
      n := (q.0, q.1 + 1);
    } else {
      n := (q.0, q.1 - 1);
    }
  }

  /** A point that is an eye of both colours has no neighbour at all, which
      only happens on a one-point board. */
  lemma EyeOfBoth(g: Grid, x: int, y: int, q: Pos)
    requires IsGrid(g, x, y) && InBounds(x, y, q)
    requires IsEye(g, x, y, q, WHITE) && IsEye(g, x, y, q, BLACK)
    ensures x == 1 && y == 1
  {
    if x > 1 || y > 1 {
      var n := SomeNeighbor(x, y, q);
      assert false;
    }
  }

  // ---------------------------------------------------------------------
  // Multiplying a grid by a colour
  // ---------------------------------------------------------------------

  /** `player * board`: the grid unchanged for WHITE, every stone's colour
      swapped for BLACK. */
  function Signed(g: Grid, player: Stone): (r: Grid)
    ensures |r| == |g| && forall i | 0 <= i < |g| :: |r[i]| == |g[i]|
    ensures forall q | InGrid(g, q) :: InGrid(r, q) && At(r, q) as int == (player as int) * (At(g, q) as int)
  {
    seq(|g|, i requires 0 <= i < |g| =>
      seq(|g[i]|, j requires 0 <= j < |g[i]| => if player == WHITE then g[i][j] else (-(g[i][j] as int)) as Cell))
  }

  /** Multiplying twice by the same colour gives the grid back. */
  lemma SignedInvolution(g: Grid, player: Stone)
    ensures Signed(Signed(g, player), player) == g
  {
    var r := Signed(Signed(g, player), player);
    SameGrid(r, g);
  }

  /** Multiplying by WHITE keeps the grid. */
  lemma SignedWhite(g: Grid, player: Stone)
    ensures player == WHITE ==> Signed(g, player) == g
  {
    if player == WHITE {
      SameGrid(Signed(g, player), g);
    }
  }

  /** On the grid multiplied by `player`, the player's stones are WHITE and
      the opponent's BLACK, so that each colour's area points are those of
      the colour it stands for. */
  lemma SignedScores(g: Grid, x: int, y: int, player: Stone, c: Stone)
    requires IsGrid(g, x, y)
    ensures IsGrid(Signed(g, player), x, y)
    ensures var d: Stone := if player == WHITE then c else Opp(c);
            AreaPoints(Signed(g, player), x, y, c) == AreaPoints(g, x, y, d)
  {
    var r := Signed(g, player);
    var d: Stone := if player == WHITE then c else Opp(c);
    forall q | InBounds(x, y, q) ensures PointFor(r, x, y, q, c) == PointFor(g, x, y, q, d) {
      GridCell(g, x, y, q);
      NeighborsInGrid(g, x, y, q);
    }
  }

  // ---------------------------------------------------------------------
  // Groups
  // ---------------------------------------------------------------------

  /** A group record: its colour, its stones and the liberty set it keeps. */
  datatype Group = Group(color: Stone, members: set<Pos>, liberties: set<Pos>)

  /** `Group.add_group`: absorb another group's members and liberties, then
      drop from the liberties every point that is now a member. */
  function AddGroup(a: Group, b: Group): (r: Group)
    ensures r.color == a.color && r.members == a.members + b.members
    ensures r.liberties == (a.liberties + b.liberties) - r.members
    ensures r.liberties <= a.liberties + b.liberties && r.liberties !! r.members
  {
    var members := a.members + b.members;
    Group(a.color, members, (a.liberties + b.liberties) - members)
  }

  /** The liberties a group keeps are exactly the empty neighbours of its members. */
  ghost predicate LibertiesExact(g: Grid, x: int, y: int, grp: Group)
    requires IsGrid(g, x, y)
  {
    grp.liberties == LibertiesOf(g, x, y, grp.members)
  }

  /** Absorbing keeps exact liberties exact, as long as the members are stones. */
  lemma AddGroupExact(g: Grid, x: int, y: int, a: Group, b: Group)
    requires IsGrid(g, x, y) && LibertiesExact(g, x, y, a) && LibertiesExact(g, x, y, b)
    requires forall m | m in a.members + b.members :: InGrid(g, m) && At(g, m) != EMPTY
    ensures LibertiesExact(g, x, y, AddGroup(a, b))
  {
    LibertiesOfUnion(g, x, y, a.members, b.members);
    LibertiesOfStones(g, x, y, a.members + b.members);
  }
}
