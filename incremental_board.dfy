/** The board of the incremental engine (board.py): the grid, a free map
    that the engine keeps up to date move by move, and per-colour ko sets. */
module IncrementalBoard {
  import opened GoRules

  // ---------------------------------------------------------------------
  // The order of the free map's keys
  // ---------------------------------------------------------------------

  /** `a` comes before `b` row by row. */
  predicate Before(a: Pos, b: Pos)
  {
    a.0 < b.0 || (a.0 == b.0 && a.1 < b.1)
  }

  /** Every cell of the list comes before the ones after it. */
  predicate Ordered(s: seq<Pos>)
  {
    forall a, b | 0 <= a < b < |s| :: Before(s[a], s[b])
  }

  /** The first `j` cells of row `i`. */
  function Row(i: int, j: nat): (r: seq<Pos>)
    ensures forall q :: q in r <==> q.0 == i && 0 <= q.1 < j
    ensures Ordered(r)
  {
    if j == 0 then [] else Row(i, j - 1) + [(i, j - 1)]
  }

  /** The keys of the free map in the order the dictionary holds them: it
      is built row by row, and later writes only change values. */
  function KeyOrder(x: nat, y: nat): (r: seq<Pos>)
    ensures forall q :: q in r <==> InBounds(x, y, q)
    ensures Ordered(r)
  {
    if x == 0 then []
    else
      var before, row := KeyOrder(x - 1, y), Row(x - 1, y);
      RowsBefore(before, row, x - 1);
      OrderedConcat(before, row);
      before + row
  }

  lemma RowsBefore(a: seq<Pos>, b: seq<Pos>, i: int)
    requires (forall q | q in a :: q.0 < i) && (forall q | q in b :: q.0 == i)
    ensures forall k, l | 0 <= k < |a| && 0 <= l < |b| :: Before(a[k], b[l])
  {
    forall k, l | 0 <= k < |a| && 0 <= l < |b| ensures Before(a[k], b[l]) {
      assert a[k] in a && b[l] in b;
    }
  }

  /** Two lists in order, the first wholly before the second, make one. */
  lemma OrderedConcat(a: seq<Pos>, b: seq<Pos>)
    requires Ordered(a) && Ordered(b)
    requires forall i, j | 0 <= i < |a| && 0 <= j < |b| :: Before(a[i], b[j])
    ensures Ordered(a + b)
  {
  }

  /** The cells of `s` that `free` marks free, in the order of `s`. */
  function FreeAmong(free: map<Pos, bool>, s: seq<Pos>): (r: seq<Pos>)
    ensures forall q :: q in r <==> q in s && q in free && free[q]
  {
    if s == [] then []
    else
      var q := s[|s| - 1];
      FreeAmong(free, s[..|s| - 1]) + (if q in free && free[q] then [q] else [])
  }

  /** Keeping the free cells of a list in order keeps it in order. */
  lemma {:induction false} FreeAmongOrdered(free: map<Pos, bool>, s: seq<Pos>)
    requires Ordered(s)
    ensures Ordered(FreeAmong(free, s))
  {
    if s != [] {
      var t, last := s[..|s| - 1], s[|s| - 1];
      FreeAmongOrdered(free, t);
      var r := FreeAmong(free, t);
      forall i | 0 <= i < |r| ensures Before(r[i], last) {
        assert r[i] in t;
        var a :| 0 <= a < |t| && t[a] == r[i];
        assert Before(s[a], s[|s| - 1]);
      }
      OrderedConcat(r, if last in free && free[last] then [last] else []);
    }
  }

  lemma FreeAmongSnoc(free: map<Pos, bool>, s: seq<Pos>, k: nat)
    requires k < |s|
    ensures FreeAmong(free, s[..k + 1]) ==
            FreeAmong(free, s[..k]) + (if s[k] in free && free[s[k]] then [s[k]] else [])
  {
    assert s[..k + 1][..k] == s[..k];
  }

  /** A list in order has no repeats, so it is as long as the set of its cells. */
  lemma {:induction false} OrderedCount(s: seq<Pos>)
    requires Ordered(s)
    ensures |set q | q in s| == |s|
  {
    if s != [] {
      var t := s[..|s| - 1];
      OrderedCount(t);
      var last := s[|s| - 1];
      assert last !in t by {
        forall a | 0 <= a < |t| ensures t[a] != last {
          assert Before(s[a], s[|s| - 1]);
        }
      }
      assert (set q | q in s) == (set q | q in t) + {last};
    }
  }

  /** The point whose diagonal entry board.py's `is_alive_eye` looks up.
      Its first loop rebinds `position` to each neighbour in turn, so the
      second loop reads the entry of the last listed neighbour: the point
      above whenever there is one, the point to the left on the top row,
      and the point itself only when it has no neighbour at all. */
  function DiagonalSource(x: int, y: int, p: Pos): (q: Pos)
    requires InBounds(x, y, p)
    ensures InBounds(x, y, q)
    ensures q == p || Adjacent(p, q)
    ensures p.0 > 0 ==> q == (p.0 - 1, p.1)
    ensures p.0 == 0 && p.1 > 0 ==> q == (p.0, p.1 - 1)
  {
    LastNeighbor(x, y, p);
    var ns := Neighbors(x, y, p);
    if ns == [] then p else ns[|ns| - 1]
  }

  /** The cells board.py's `is_alive_eye` counts: the neighbours of `p`,
      then the diagonal entry, as written, of `DiagonalSource(p)`. */
  function EyeCellsAsWritten(x: int, y: int, p: Pos): (r: seq<Pos>)
    requires InBounds(x, y, p)
    ensures forall q | q in r :: InBounds(x, y, q)
    ensures |r| <= 8
  {
    Neighbors(x, y, p) + DiagonalsAsWritten(x, y, DiagonalSource(x, y, p))
  }

  /** Away from the edge and below the second row, the cells counted are
      the four neighbours, then the right and left neighbours once more and
      the cell two rows up and one column left, twice: no diagonal of `p`. */
  lemma EyeCellsInterior(x: int, y: int, p: Pos)
    requires 2 <= p.0 < x - 1 && 1 <= p.1 < y - 1
    ensures EyeCellsAsWritten(x, y, p) ==
              [(p.0, p.1 + 1), (p.0 + 1, p.1), (p.0, p.1 - 1), (p.0 - 1, p.1),
               (p.0, p.1 + 1), (p.0, p.1 - 1), (p.0 - 2, p.1 - 1), (p.0 - 2, p.1 - 1)]
  {
    var u := (p.0 - 1, p.1);
    InteriorNeighbors(x, y, p);
    assert DiagonalSource(x, y, p) == u;
    InteriorDiagonalsAsWritten(x, y, u);
    assert DiagonalsAsWritten(x, y, u) == DiagonalCellsAsWritten(u);
  }

  /** board.py's `is_alive_eye`: all of the cells it counts hold `color`
      (a repeated cell counting twice), or eight are counted and exactly
      seven do. */
  function IsAliveEyeAsWritten(g: Grid, x: int, y: int, p: Pos, color: int): (r: bool)
    requires IsGrid(g, x, y) && InBounds(x, y, p)
    ensures AllInGrid(g, EyeCellsAsWritten(x, y, p))
    ensures r <==> (forall q | q in EyeCellsAsWritten(x, y, p) :: At(g, q) == color) ||
                   (|EyeCellsAsWritten(x, y, p)| == 8 && OneMismatch(g, EyeCellsAsWritten(x, y, p), color))
  {
    var cells := EyeCellsAsWritten(x, y, p);
    assert AllInGrid(g, cells) by {
      forall q | q in cells ensures InGrid(g, q) {
        GridCell(g, x, y, q);
      }
    }
    AliveEyeCount(g, cells, color)
  }

  /** Away from the edge and below the second row, board.py's test holds
      exactly when the left and right neighbours and the cell two rows up
      and one column left hold `color`, and so does the point above or the
      point below. */
  lemma AliveEyeAsWrittenInterior(g: Grid, x: int, y: int, p: Pos, color: int)
    requires IsGrid(g, x, y) && 2 <= p.0 < x - 1 && 1 <= p.1 < y - 1
    ensures InGrid(g, (p.0, p.1 + 1)) && InGrid(g, (p.0, p.1 - 1)) && InGrid(g, (p.0 - 2, p.1 - 1))
    ensures InGrid(g, (p.0 - 1, p.1)) && InGrid(g, (p.0 + 1, p.1))
    ensures IsAliveEyeAsWritten(g, x, y, p, color) <==>
              At(g, (p.0, p.1 + 1)) == color && At(g, (p.0, p.1 - 1)) == color &&
              At(g, (p.0 - 2, p.1 - 1)) == color &&
              (At(g, (p.0 - 1, p.1)) == color || At(g, (p.0 + 1, p.1)) == color)
  {
    EyeCellsInterior(x, y, p);
    var cells := EyeCellsAsWritten(x, y, p);
    assert AllInGrid(g, cells) by {
      forall q | q in cells ensures InGrid(g, q) {
        GridCell(g, x, y, q);
      }
    }
    CountColourEight(g, cells, color);
  }

  /** 1 when the cell holds `color`, else 0. */
  function Hit(g: Grid, q: Pos, color: int): nat
    requires InGrid(g, q)
  {
    if At(g, q) == color then 1 else 0
  }

  lemma CountColourCons(g: Grid, ps: seq<Pos>, color: int)
    requires AllInGrid(g, ps) && ps != []
    ensures AllInGrid(g, ps[1..])
    ensures CountColour(g, ps, color) == Hit(g, ps[0], color) + CountColour(g, ps[1..], color)
  {
    assert forall q | q in ps[1..] :: q in ps;
  }

  /** The count over eight listed cells, cell by cell. */
  lemma CountColourEight(g: Grid, ps: seq<Pos>, color: int)
    requires AllInGrid(g, ps) && |ps| == 8
    ensures forall i | 0 <= i < 8 :: InGrid(g, ps[i])
    ensures CountColour(g, ps, color) ==
              Hit(g, ps[0], color) + Hit(g, ps[1], color) + Hit(g, ps[2], color) + Hit(g, ps[3], color) +
              Hit(g, ps[4], color) + Hit(g, ps[5], color) + Hit(g, ps[6], color) + Hit(g, ps[7], color)
  {
    assert forall i | 0 <= i < 8 :: ps[i] in ps;
    var s := ps;
    CountColourCons(g, s, color); s := s[1..];
    CountColourCons(g, s, color); s := s[1..];
    CountColourCons(g, s, color); s := s[1..];
    CountColourCons(g, s, color); s := s[1..];
    CountColourCons(g, s, color); s := s[1..];
    CountColourCons(g, s, color); s := s[1..];
    CountColourCons(g, s, color); s := s[1..];
    CountColourCons(g, s, color); s := s[1..];
    assert s == [];
  }

  /** Consequently, away from the edge and below the second row, what
      stands on any diagonal of `p` never matters to board.py's test
      (game_logic.py's test counts all four diagonals). */
  lemma AliveEyeIgnoresDiagonals(g: Grid, x: int, y: int, p: Pos, color: int, d: Pos, v: Cell)
    requires IsGrid(g, x, y) && 2 <= p.0 < x - 1 && 1 <= p.1 < y - 1
    requires d in DiagonalCells(p)
    ensures InGrid(g, d) && IsGrid(Put(g, d, v), x, y)
    ensures IsAliveEyeAsWritten(Put(g, d, v), x, y, p, color) == IsAliveEyeAsWritten(g, x, y, p, color)
  {
    GridCell(g, x, y, d);
    var g' := Put(g, d, v);
    AliveEyeAsWrittenInterior(g, x, y, p, color);
    AliveEyeAsWrittenInterior(g', x, y, p, color);
  }

  class Board {
    const x: int
    const y: int
    /** The grid, `board[i][j]` in {WHITE, EMPTY, BLACK}. */
    var board: Grid
    /** For every point, whether the engine currently lets a stone go there. */
    var freeMap: map<Pos, bool>
    /** Per colour, the points where that colour may not play. */
    var ko: map<Stone, set<Pos>>

    ghost predicate Valid()
      reads this
    {
      x > 0 && y > 0 && IsGrid(board, x, y) && freeMap.Keys == Positions(x, y) && BLACK in ko && WHITE in ko
    }

    /** The empty board, every point free, no ko. */
    constructor(x: int, y: int)
      requires x > 0 && y > 0
      ensures Valid() && this.x == x && this.y == y
      ensures board == EmptyGrid(x, y) && ko == map[BLACK := {}, WHITE := {}]
      ensures forall q | InBounds(x, y, q) :: q in freeMap && freeMap[q]
    {
      this.x := x;
      this.y := y;
      board := EmptyGrid(x, y);
      freeMap := map q | q in Positions(x, y) :: true;
      ko := map[BLACK := {}, WHITE := {}];
    }

    /** The points the free map marks free. */
    function FreePoints(): (r: set<Pos>)
      reads this
      ensures forall q :: q in r <==> q in freeMap && freeMap[q]
    {
      set q | q in freeMap && freeMap[q]
    }

    /** `add_stone`: on a free point, place the stone and mark the point not
        free; on any other point change nothing. Reports which it did. */
    method AddStone(p: Pos, color: Cell) returns (ok: bool)
      requires Valid() && InBounds(x, y, p)
      modifies this
      ensures Valid() && ko == old(ko)
      ensures ok == old(freeMap)[p]
      ensures ok ==> InGrid(old(board), p) && board == Put(old(board), p, color) && freeMap == old(freeMap)[p := false]
      ensures !ok ==> board == old(board) && freeMap == old(freeMap)
    {
      if freeMap[p] {
        GridCell(board, x, y, p);
        board := Put(board, p, color);
        freeMap := freeMap[p := false];
        return true;
      }
      return false;
    }

    /** `remove_stone`: the point becomes empty; the free map and ko stay. */
    method RemoveStone(p: Pos, color: int)
      requires Valid() && InBounds(x, y, p)
      modifies this
      ensures Valid() && ko == old(ko) && freeMap == old(freeMap)
      ensures InGrid(old(board), p) && board == Put(old(board), p, EMPTY)
    {
      GridCell(board, x, y, p);
      board := Put(board, p, EMPTY);
    }

    /** `set_ko`: one more ko point for `color`; nothing else changes. */
    method SetKo(p: Pos, color: Stone)
      requires Valid()
      modifies this
      ensures Valid() && board == old(board) && freeMap == old(freeMap)
      ensures ko == old(ko)[color := old(ko)[color] + {p}]
    {
      ko := ko[color := ko[color] + {p}];
    }

    /** `unset_ko`: forget the ko points of `color` only. */
    method UnsetKo(color: Stone)
      requires Valid()
      modifies this
      ensures Valid() && board == old(board) && freeMap == old(freeMap)
      ensures ko == old(ko)[color := {}]
    {
      ko := ko[color := {}];
    }

    /** `set_free`: the point is marked free. */
    method SetFree(p: Pos)
      requires Valid() && InBounds(x, y, p)
      modifies this
      ensures Valid() && board == old(board) && ko == old(ko)
      ensures freeMap == old(freeMap)[p := true]
    {
      freeMap := freeMap[p := true];
    }

    /** `unset_free`: the point is marked not free. */
    method UnsetFree(p: Pos)
      requires Valid() && InBounds(x, y, p)
      modifies this
      ensures Valid() && board == old(board) && ko == old(ko)
      ensures freeMap == old(freeMap)[p := false]
    {
      freeMap := freeMap[p := false];
    }

    /** `count_free`: how many points are marked free. */
    method CountFree() returns (count: nat)
      requires Valid()
      ensures count == |FreePoints()|
    {
      var keys := KeyOrder(x, y);
      count := 0;
      for k := 0 to |keys|
        invariant count == |FreeAmong(freeMap, keys[..k])|
      {
        FreeAmongSnoc(freeMap, keys, k);
        if freeMap[keys[k]] {
          count := count + 1;
        }
      }
      assert keys[..|keys|] == keys;
      FreeListIsFreePoints();
    }

    /** `get_free_positions`: the free points, row by row. */
    method GetFreePositions() returns (r: seq<Pos>)
      requires Valid()
      ensures forall q :: q in r <==> q in FreePoints()
      ensures Ordered(r) && |r| == |FreePoints()|
    {
      var keys := KeyOrder(x, y);
      r := [];
      for k := 0 to |keys|
        invariant r == FreeAmong(freeMap, keys[..k])
      {
        FreeAmongSnoc(freeMap, keys, k);
        if freeMap[keys[k]] {
          r := r + [keys[k]];
        }
      }
      assert keys[..|keys|] == keys;
      FreeListIsFreePoints();
    }

    /** The free points in key order are exactly the free points, once each. */
    lemma FreeListIsFreePoints()
      requires Valid()
      ensures var l := FreeAmong(freeMap, KeyOrder(x, y));
              Ordered(l) && (forall q :: q in l <==> q in FreePoints()) && |l| == |FreePoints()|
    {
      var l := FreeAmong(freeMap, KeyOrder(x, y));
      FreeAmongOrdered(freeMap, KeyOrder(x, y));
      OrderedCount(l);
      assert (set q | q in l) == FreePoints();
    }

    /** `get_state`: the grid for BLACK, its negation for WHITE; any other
        colour gives nothing. */
    function GetState(color: int): (r: Option<Grid>)
      reads this
      requires Valid()
      ensures r.Some? <==> color == BLACK || color == WHITE
      ensures color == BLACK ==> r == Some(board)
      ensures color == WHITE ==> r.Some? && IsGrid(r.value, x, y) &&
                                 (forall q | InBounds(x, y, q) :: InGrid(r.value, q) && At(r.value, q) as int == -(At(board, q) as int)) &&
                                 Signed(r.value, BLACK) == board
    {
      SignedInvolution(board, BLACK);
      if color == BLACK then Some(board)
      else if color == WHITE then Some(Signed(board, BLACK))
      else None
    }
  }
}
