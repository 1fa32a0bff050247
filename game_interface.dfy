/** The game wrapper (game.py): the board travels as a plain n by n grid,
    an action is a row-major cell index or -1 for a pass, and every query
    is answered by a fresh `Board` built on a copy of the grid. */
module GameInterface {
  import opened GoRules
  import opened GameLogic

  // ---------------------------------------------------------------------
  // Arithmetic of row-major indices
  // ---------------------------------------------------------------------

  lemma {:induction false} MulAtLeast(d: int, n: int)
    requires d >= 1 && n > 0
    ensures d * n >= n
    decreases d
  {
    if d > 1 {
      MulAtLeast(d - 1, n);
      assert d * n == (d - 1) * n + n;
    }
  }

  /** Euclidean division has a unique quotient and remainder. */
  lemma DivUnique(a: int, n: int, q: int, r: int)
    requires n > 0 && a == q * n + r && 0 <= r < n
    ensures a / n == q && a % n == r
  {
    var d := a / n - q;
    assert d * n == r - a % n;
    if d >= 1 {
      MulAtLeast(d, n);
    } else if d <= -1 {
      MulAtLeast(-d, n);
    }
  }

  lemma MulStep(r: int, c: int)
    ensures r * c == (r - 1) * c + c
  {
  }

  // ---------------------------------------------------------------------
  // Matrices, `ravel` and `reshape`
  // ---------------------------------------------------------------------

  /** `m` has `r` rows of `c` entries. */
  predicate Rect<T>(m: seq<seq<T>>, r: nat, c: nat)
  {
    |m| == r && forall i | 0 <= i < r :: |m[i]| == c
  }

  /** `ndarray.ravel()`: the rows one after the other. */
  function Ravel<T>(m: seq<seq<T>>): seq<T>
  {
    if |m| == 0 then [] else m[0] + Ravel(m[1..])
  }

  lemma {:induction false} RavelLength<T>(m: seq<seq<T>>, r: nat, c: nat)
    requires Rect(m, r, c)
    ensures |Ravel(m)| == r * c
    decreases r
  {
    if r > 0 {
      RavelLength(m[1..], r - 1, c);
      MulStep(r, c);
    }
  }

  /** Entry (i, j) of a matrix is entry `i * c + j` of its ravel. */
  lemma {:induction false} RavelAt<T>(m: seq<seq<T>>, r: nat, c: nat, i: int, j: int)
    requires Rect(m, r, c) && 0 <= i < r && 0 <= j < c
    ensures |Ravel(m)| == r * c && 0 <= i * c + j < r * c
    ensures Ravel(m)[i * c + j] == m[i][j]
    decreases r
  {
    RavelLength(m, r, c);
    if i > 0 {
      RavelAt(m[1..], r - 1, c, i - 1, j);
      MulStep(i, c);
      MulStep(r, c);
      assert Ravel(m)[i * c + j] == Ravel(m[1..])[(i - 1) * c + j];
    }
  }

  /** `np.reshape(p, (r, c))`: the vector cut into `r` rows of `c`. */
  function Reshape<T>(p: seq<T>, r: nat, c: nat): (m: seq<seq<T>>)
    requires |p| == r * c
    ensures Rect(m, r, c)
    decreases r
  {
    if r == 0 then []
    else
      MulStep(r, c);
      assert (r - 1) * c >= 0;
      [p[..c]] + Reshape(p[c..], r - 1, c)
  }

  /** Reshaping a ravel gives the matrix back. */
  lemma {:induction false} ReshapeRavel<T>(m: seq<seq<T>>, r: nat, c: nat)
    requires Rect(m, r, c)
    ensures |Ravel(m)| == r * c && Reshape(Ravel(m), r, c) == m
    decreases r
  {
    RavelLength(m, r, c);
    if r > 0 {
      ReshapeRavel(m[1..], r - 1, c);
      assert Ravel(m)[..c] == m[0];
      assert Ravel(m)[c..] == Ravel(m[1..]);
      assert m == [m[0]] + m[1..];
    }
  }

  /** Ravelling a reshape gives the vector back. */
  lemma {:induction false} RavelReshape<T>(p: seq<T>, r: nat, c: nat)
    requires |p| == r * c
    ensures Ravel(Reshape(p, r, c)) == p
    decreases r
  {
    if r > 0 {
      MulStep(r, c);
      assert (r - 1) * c >= 0;
      RavelReshape(p[c..], r - 1, c);
      var m := Reshape(p, r, c);
      assert m[0] == p[..c] && m[1..] == Reshape(p[c..], r - 1, c);
      assert p == p[..c] + p[c..];
    }
  }

  lemma GridRect(g: Grid, n: nat)
    requires IsGrid(g, n, n)
    ensures Rect(g, n, n)
  {
  }

  // ---------------------------------------------------------------------
  // The eight symmetries of a square board
  // ---------------------------------------------------------------------

  /** `np.rot90(m)`: a quarter turn anticlockwise, so that cell (i, j) of
      the result is cell (j, n - 1 - i) of `m`. */
  function Rot90<T>(m: seq<seq<T>>, n: nat): (r: seq<seq<T>>)
    requires Rect(m, n, n)
    ensures Rect(r, n, n)
    ensures forall i, j | 0 <= i < n && 0 <= j < n :: r[i][j] == m[j][n - 1 - i]
  {
    seq(n, i requires 0 <= i < n => seq(n, j requires 0 <= j < n => m[j][n - 1 - i]))
  }

  /** `np.fliplr(m)`: the columns in reverse order. */
  function FlipLR<T>(m: seq<seq<T>>, n: nat): (r: seq<seq<T>>)
    requires Rect(m, n, n)
    ensures Rect(r, n, n)
    ensures forall i, j | 0 <= i < n && 0 <= j < n :: r[i][j] == m[i][n - 1 - j]
  {
    seq(n, i requires 0 <= i < n => seq(n, j requires 0 <= j < n => m[i][n - 1 - j]))
  }

  /** `np.rot90(m, k)`: `k` quarter turns. */
  function RotN<T>(m: seq<seq<T>>, n: nat, k: nat): (r: seq<seq<T>>)
    requires Rect(m, n, n)
    ensures Rect(r, n, n)
  {
    if k == 0 then m else Rot90(RotN(m, n, k - 1), n)
  }

  /** Two square matrices that agree entry by entry are equal. */
  lemma SameMatrix<T>(a: seq<seq<T>>, b: seq<seq<T>>, n: nat)
    requires Rect(a, n, n) && Rect(b, n, n)
    requires forall i, j | 0 <= i < n && 0 <= j < n :: a[i][j] == b[i][j]
    ensures a == b
  {
    forall i | 0 <= i < n ensures a[i] == b[i] {
      assert |a[i]| == |b[i]| == n;
    }
  }

  /** Four quarter turns are the identity. */
  lemma FourTurns<T>(m: seq<seq<T>>, n: nat)
    requires Rect(m, n, n)
    ensures RotN(m, n, 4) == m
  {
    var r1 := Rot90(m, n);
    var r2 := Rot90(r1, n);
    var r3 := Rot90(r2, n);
    var r4 := Rot90(r3, n);
    assert RotN(m, n, 0) == m;
    assert RotN(m, n, 1) == r1;
    assert RotN(m, n, 2) == r2;
    assert RotN(m, n, 3) == r3;
    assert RotN(m, n, 4) == r4;
    forall i, j | 0 <= i < n && 0 <= j < n ensures r4[i][j] == m[i][j] {
      assert r4[i][j] == r3[j][n - 1 - i] == r2[n - 1 - i][n - 1 - j] == r1[n - 1 - j][i] == m[i][j];
    }
    SameMatrix(r4, m, n);
  }

  /** Flipping twice is the identity. */
  lemma FlipTwice<T>(m: seq<seq<T>>, n: nat)
    requires Rect(m, n, n)
    ensures FlipLR(FlipLR(m, n), n) == m
  {
    var f := FlipLR(FlipLR(m, n), n);
    forall i, j | 0 <= i < n && 0 <= j < n ensures f[i][j] == m[i][j] {
      assert f[i][j] == FlipLR(m, n)[i][n - 1 - j];
    }
    SameMatrix(f, m, n);
  }

  /** A symmetry of the square: some quarter turns, then perhaps a flip. */
  datatype Symmetry = Symmetry(turns: nat, flip: bool)

  function Apply<T>(s: Symmetry, m: seq<seq<T>>, n: nat): (r: seq<seq<T>>)
    requires Rect(m, n, n)
    ensures Rect(r, n, n)
  {
    if s.flip then FlipLR(RotN(m, n, s.turns), n) else RotN(m, n, s.turns)
  }

  /** The symmetry behind entry `k` of `get_all_perspectives`: the even
      entries are the turns 0..3, each odd one the flip of the one before. */
  function SymmetryOf(k: nat): Symmetry
  {
    Symmetry(k / 2, k % 2 == 1)
  }

  /** Each symmetry moves every cell to a cell: applying it to a board
      and reading cell (i, j) reads some cell of the board. */
  lemma {:induction false} ApplyMovesCells<T>(s: Symmetry, m: seq<seq<T>>, n: nat, i: int, j: int)
    returns (i': int, j': int)
    requires Rect(m, n, n) && 0 <= i < n && 0 <= j < n
    ensures 0 <= i' < n && 0 <= j' < n && Apply(s, m, n)[i][j] == m[i'][j']
    decreases s.turns, if s.flip then 1 else 0
  {
    if s.flip {
      i', j' := ApplyMovesCells(Symmetry(s.turns, false), m, n, i, n - 1 - j);
    } else if s.turns == 0 {
      i', j' := i, j;
    } else {
      assert Apply(s, m, n) == Rot90(RotN(m, n, s.turns - 1), n);
      i', j' := ApplyMovesCells(Symmetry(s.turns - 1, false), m, n, j, n - 1 - i);
    }
  }

  // ---------------------------------------------------------------------
  // Outcomes
  // ---------------------------------------------------------------------

  /** What `check_is_end` and `get_current_win_lose` report, seen from the
      player asked about. */
  datatype Outcome = NotEnded | Win | Lose | Draw

  /** The numbers the wrapper returns: 0, 1, -1 and the draw value 1e-12. */
  function Value(o: Outcome): (r: real)
    ensures r == 0.0 <==> o == NotEnded
    ensures r > 0.0 <==> o == Win || o == Draw
  {
    match o
    case NotEnded => 0.0
    case Win => 1.0
    case Lose => -1.0
    case Draw => 0.000000000001
  }

  /** The same outcome seen from the other player. */
  function Swap(o: Outcome): Outcome
  {
    match o
    case NotEnded => NotEnded
    case Win => Lose
    case Lose => Win
    case Draw => Draw
  }

  /** Comparing the two colours' counts in a score. */
  function Judge(s: Score, player: Stone): (r: Outcome)
    ensures r != NotEnded
    ensures r == Win <==> s.Of(player) > s.Of(Opp(player))
    ensures r == Lose <==> s.Of(player) < s.Of(Opp(player))
  {
    if s.Of(player) > s.Of(Opp(player)) then Win
    else if s.Of(player) < s.Of(Opp(player)) then Lose
    else Draw
  }

  /** How `player` stands on `g` under area scoring. */
  ghost function Standing(g: Grid, n: nat, player: Stone): Outcome
    requires IsGrid(g, n, n)
  {
    var mine, theirs := |AreaPoints(g, n, n, player)|, |AreaPoints(g, n, n, Opp(player))|;
    if mine > theirs then Win else if mine < theirs then Lose else Draw
  }

  /** The standing is antisymmetric: the other player's win is this
      player's loss, and a draw is a draw for both. */
  lemma StandingAntisymmetric(g: Grid, n: nat, player: Stone)
    requires IsGrid(g, n, n)
    ensures Standing(g, n, Opp(player)) == Swap(Standing(g, n, player))
    ensures Standing(g, n, player) != NotEnded
  {
    assert Opp(Opp(player)) == player;
  }

  /** The ko sets of a freshly built `Board`. */
  function NoKo(): (r: map<Stone, set<Pos>>)
    ensures BLACK in r && WHITE in r && r[BLACK] == {} && r[WHITE] == {}
  {
    map[BLACK := {}, WHITE := {}]
  }

  /** `color` has no legal point on `g`. */
  ghost predicate NoValidMove(g: Grid, n: nat, color: Stone)
    requires IsGrid(g, n, n)
  {
    forall q | InBounds(n, n, q) :: ValidMovesAt(g, n, n, NoKo(), q, color) == 0
  }

  /** `ndarray.sum()`. */
  function Sum(s: seq<int>): int
  {
    if |s| == 0 then 0 else s[0] + Sum(s[1..])
  }

  /** A sum of non-negative entries is 0 exactly when every entry is 0. */
  lemma {:induction false} SumZero(s: seq<int>)
    requires forall k | 0 <= k < |s| :: s[k] >= 0
    ensures Sum(s) >= 0
    ensures Sum(s) == 0 <==> forall k | 0 <= k < |s| :: s[k] == 0
  {
    if |s| > 0 {
      SumZero(s[1..]);
      if Sum(s) == 0 {
        forall k | 0 <= k < |s| ensures s[k] == 0 {
          if k > 0 {
            assert s[k] == s[1..][k - 1];
          }
        }
      }
    }
  }

  // ---------------------------------------------------------------------
  // The game
  // ---------------------------------------------------------------------

  /** A board size. */
  type Size = n: int | n > 0 witness 1

  class Game {
    const n: Size

    constructor(n: Size)
      ensures this.n == n
    {
      this.n := n;
    }

    /** `get_init_board`: an n by n grid of EMPTY. */
    function GetInitBoard(): (r: Grid)
      ensures IsGrid(r, n, n)
      ensures forall q | InBounds(n, n, q) :: InGrid(r, q) && At(r, q) == EMPTY
    {
      EmptyGrid(n, n)
    }

    /** `get_action_size`: one action per cell. */
    function GetActionSize(): nat
    {
      n * n
    }

    /** The cell of action `a`: `(int(a / n), a % n)`; for a non-negative
        action Python's truncating division agrees with Dafny's. */
    function Decode(a: nat): Pos
    {
      (a / n, a % n)
    }

    /** The action that plays at `q`, its row-major index. */
    function Encode(q: Pos): int
    {
      q.0 * n + q.1
    }

    /** Actions and cells are in one-to-one correspondence through
        `Decode` and `Encode`. */
    lemma ActionsAreCells(a: nat, q: Pos)
      ensures a < GetActionSize() ==> InBounds(n, n, Decode(a)) && Encode(Decode(a)) == a
      ensures InBounds(n, n, q) ==> 0 <= Encode(q) < GetActionSize() && Decode(Encode(q)) == q
    {
      if a < GetActionSize() {
        DecodeInBounds(a);
      }
      if InBounds(n, n, q) {
        EncodeInRange(q);
        DivUnique(Encode(q), n, q.0, q.1);
      }
    }

    lemma DecodeInBounds(a: nat)
      requires a < n * n
      ensures InBounds(n, n, Decode(a)) && Encode(Decode(a)) == a
    {
    }

    lemma EncodeInRange(q: Pos)
      requires InBounds(n, n, q)
      ensures 0 <= Encode(q) < n * n
    {
      MulAtLeast(n - q.0, n);
      assert n * n == (n - q.0) * n + q.0 * n;
    }

    /** `get_next_state`: a pass keeps the board; any other action plays
        `player` at its cell through `Board.add_stone` on a fresh board
        holding a copy of `board`. The turn goes to `-player`. */
    method GetNextState(board: Grid, player: Stone, action: int) returns (next: Grid, nextPlayer: int)
      requires IsGrid(board, n, n) && -1 <= action < GetActionSize()
      ensures nextPlayer == -(player as int)
      ensures action == -1 ==> next == board
      ensures action != -1 ==>
                InBounds(n, n, Decode(action)) && next == AfterAddStone(board, n, n, Decode(action), player)
      ensures IsGrid(next, n, n)
    {
      if action == -1 {
        return board, -(player as int);
      }
      var b := new Board(n, n);
      b.board := board;
      DecodeInBounds(action);
      var move := (action / n, action % n);
      b.AddStone(move, player);
      next, nextPlayer := b.board, -(player as int);
    }

    /** `get_valid_moves`: the legality map of a fresh board holding
        `board`, flattened row by row: entry `a` is the verdict on the cell
        of action `a`. */
    method GetValidMoves(board: Grid, player: int) returns (r: Result<seq<Cell>>)
      requires IsGrid(board, n, n)
      ensures r.Err? <==> AllLiberties(board, n, n) != {} && player != BLACK && player != WHITE
      ensures r.Ok? ==> |r.value| == GetActionSize() &&
                        forall a: nat | a < GetActionSize() ::
                          InBounds(n, n, Decode(a)) && r.value[a] == ValidMovesAt(board, n, n, NoKo(), Decode(a), player)
    {
      var b := new Board(n, n);
      b.board := board;
      var m := b.GetValidMoves(player);
      if m.Err? {
        return Err(m.error);
      }
      r := Ok(Ravel(m.value));
      RavelLength(m.value, n, n);
      forall a: nat | a < GetActionSize()
        ensures InBounds(n, n, Decode(a)) && r.value[a] == ValidMovesAt(board, n, n, NoKo(), Decode(a), player)
      {
        DecodeInBounds(a);
        var q := Decode(a);
        RavelAt(m.value, n, n, q.0, q.1);
        assert q.0 * n + q.1 == a;
        assert r.value[a] == m.value[q.0][q.1] == At(m.value, q);
      }
    }

    /** Every entry of the flattened legality map of a colour is 0 or 1. */
    lemma ValidMovesBinary(board: Grid, player: Stone, v: seq<Cell>)
      requires IsGrid(board, n, n) && |v| == GetActionSize()
      requires forall a: nat | a < GetActionSize() ::
                 InBounds(n, n, Decode(a)) && v[a] == ValidMovesAt(board, n, n, NoKo(), Decode(a), player)
      ensures forall k | 0 <= k < |v| :: v[k] >= 0
      ensures Sum(v) == 0 <==> NoValidMove(board, n, player)
    {
      forall k | 0 <= k < |v| ensures v[k] >= 0 {
        var q := Decode(k);
        GridCell(board, n, n, q);
      }
      SumZero(v);
      if Sum(v) == 0 {
        forall q | InBounds(n, n, q) ensures ValidMovesAt(board, n, n, NoKo(), q, player) == 0 {
          ActionsAreCells(0, q);
          assert v[Encode(q)] == 0;
        }
      }
      if NoValidMove(board, n, player) {
        forall k | 0 <= k < |v| ensures v[k] == 0 {
          assert InBounds(n, n, Decode(k));
        }
      }
    }

    /** The score of a fresh board holding `board`. */
    method ScoreOf(board: Grid) returns (s: Score)
      requires IsGrid(board, n, n)
      ensures s.white == |AreaPoints(board, n, n, WHITE)| && s.black == |AreaPoints(board, n, n, BLACK)|
    {
      var b := new Board(n, n);
      b.board := board;
      s := b.GetScore();
    }

    /** `check_is_end`: the game is over once neither colour has a legal
        point; it is then won, lost or drawn by area score. */
    method CheckIsEnd(board: Grid, player: Stone) returns (r: Outcome)
      requires IsGrid(board, n, n)
      ensures r != NotEnded <==> NoValidMove(board, n, player) && NoValidMove(board, n, Opp(player))
      ensures r != NotEnded ==> r == Standing(board, n, player)
    {
      var mine := GetValidMoves(board, player);
      var theirs := GetValidMoves(board, Opp(player));
      ValidMovesBinary(board, player, mine.value);
      ValidMovesBinary(board, Opp(player), theirs.value);
      if Sum(mine.value) == 0 && Sum(theirs.value) == 0 {
        var s := ScoreOf(board);
        r := Judge(s, player);
      } else {
        r := NotEnded;
      }
    }

    /** `get_current_win_lose`: the area-score outcome, ended or not. */
    method GetCurrentWinLose(board: Grid, player: Stone) returns (r: Outcome)
      requires IsGrid(board, n, n)
      ensures r == Standing(board, n, player)
    {
      var s := ScoreOf(board);
      r := Judge(s, player);
    }

    /** `get_standard_board`. */
    function GetStandardBoard(board: Grid, player: Stone): (r: Grid)
      requires IsGrid(board, n, n)
      ensures IsGrid(r, n, n)
      ensures Signed(r, player) == board
      ensures player == WHITE ==> r == board
    {
      SignedInvolution(board, player);
      SignedWhite(board, player);
      Signed(board, player)
    }

    /** `get_all_perspectives`: for each of the four turns, the turned
        board with the turned policy, then both flipped left to right. */
    method GetAllPerspectives<T>(board: Grid, p: seq<T>) returns (l: seq<(Grid, seq<T>)>)
      requires IsGrid(board, n, n) && |p| == n * n
      ensures |l| == 8
      ensures forall k | 0 <= k < 8 ::
                l[k] == (Apply(SymmetryOf(k), board, n), Ravel(Apply(SymmetryOf(k), Reshape(p, n, n), n)))
      ensures forall k | 0 <= k < 8 :: IsGrid(l[k].0, n, n) && |l[k].1| == n * n
      ensures l[0] == (board, p)
    {
      var pm := Reshape(p, n, n);
      l := [];
      for i := 0 to 4
        invariant |l| == 2 * i
        invariant forall k | 0 <= k < 2 * i ::
                    l[k] == (Apply(SymmetryOf(k), board, n), Ravel(Apply(SymmetryOf(k), pm, n)))
      {
        var rotB, rotP := RotN(board, n, i), RotN(pm, n, i);
        l := l + [(rotB, Ravel(rotP))];
        assert SymmetryOf(2 * i) == Symmetry(i, false);
        var symB, symP := FlipLR(rotB, n), FlipLR(rotP, n);
        l := l + [(symB, Ravel(symP))];
        assert SymmetryOf(2 * i + 1) == Symmetry(i, true);
      }
      forall k | 0 <= k < 8 ensures IsGrid(l[k].0, n, n) && |l[k].1| == n * n {
        RavelLength(Apply(SymmetryOf(k), pm, n), n, n);
      }
      RavelReshape(p, n, n);
    }
  }
}
