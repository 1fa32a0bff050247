/** The rules engine that the game wrapper drives (game_logic.py): a board
    whose groups are rebuilt by a flood fill every time they are needed, a
    group registry built from that flood fill, and the group records. */
module GameLogic {
  import opened GoRules

  /** How many of the first `j` cells of row `i` belong to `s`. */
  function RowCount(s: set<Pos>, i: int, j: nat): nat
  {
    if j == 0 then 0 else RowCount(s, i, j - 1) + (if (i, j - 1) in s then 1 else 0)
  }

  /** How many cells of the first `i` rows, each `y` wide, belong to `s`. */
  function GridCount(s: set<Pos>, i: nat, y: nat): nat
  {
    if i == 0 then 0 else GridCount(s, i - 1, y) + RowCount(s, i - 1, y)
  }

  lemma {:induction false} RowCountSize(s: set<Pos>, i: int, j: nat)
    ensures RowCount(s, i, j) == |set q | q in s && q.0 == i && 0 <= q.1 < j|
  {
    var now := set q | q in s && q.0 == i && 0 <= q.1 < j;
    if j == 0 {
      assert now == {};
    } else {
      RowCountSize(s, i, j - 1);
      var before := set q | q in s && q.0 == i && 0 <= q.1 < j - 1;
      if (i, j - 1) in s {
        assert now == before + {(i, j - 1)};
      } else {
        assert now == before;
      }
    }
  }

  lemma {:induction false} GridCountSize(s: set<Pos>, i: nat, y: nat)
    ensures GridCount(s, i, y) == |set q | q in s && 0 <= q.0 < i && 0 <= q.1 < y|
  {
    var now := set q | q in s && 0 <= q.0 < i && 0 <= q.1 < y;
    if i == 0 {
      assert now == {};
    } else {
      GridCountSize(s, i - 1, y);
      RowCountSize(s, i - 1, y);
      var above := set q | q in s && 0 <= q.0 < i - 1 && 0 <= q.1 < y;
      var row := set q | q in s && q.0 == i - 1 && 0 <= q.1 < y;
      assert now == above + row;
      assert above !! row;
    }
  }

  /** Visiting an x by y grid row by row counts every on-board member once. */
  lemma GridCountAll(s: set<Pos>, x: nat, y: nat)
    requires s <= Positions(x, y)
    ensures GridCount(s, x, y) == |s|
  {
    GridCountSize(s, x, y);
    assert (set q | q in s && 0 <= q.0 < x && 0 <= q.1 < y) == s;
  }

  /** The body of the `get_score` loop: what one cell adds to each colour. */
  method CellPoints(g: Grid, x: int, y: int, q: Pos) returns (white: nat, black: nat)
    requires IsGrid(g, x, y) && InBounds(x, y, q)
    ensures InGrid(g, q)
    ensures white == if q in AreaPoints(g, x, y, WHITE) then 1 else 0
    ensures black == if q in AreaPoints(g, x, y, BLACK) then 1 else 0
  {
    GridCell(g, x, y, q);
    white, black := 0, 0;
    var color := At(g, q);
    if color == EMPTY {
      if IsEye(g, x, y, q, WHITE) {
        white := white + 1;
      }
      if IsEye(g, x, y, q, BLACK) {
        black := black + 1;
      }
    } else {
      if color == WHITE {
        white := white + 1;
      }
      if color == BLACK {
        black := black + 1;
      }
    }
  }

  /** The loops of `get_score`: row by row, every area point of each colour. */
  method ScoreGrid(g: Grid, x: int, y: int) returns (white: nat, black: nat)
    requires IsGrid(g, x, y)
    ensures white == |AreaPoints(g, x, y, WHITE)| && black == |AreaPoints(g, x, y, BLACK)|
  {
    white, black := 0, 0;
    ghost var ws, bs := AreaPoints(g, x, y, WHITE), AreaPoints(g, x, y, BLACK);
    for i := 0 to x
      invariant white == GridCount(ws, i, y) && black == GridCount(bs, i, y)
    {
      var w, b := ScoreRow(g, x, y, i);
      white, black := white + w, black + b;
    }
    GridCountAll(ws, x, y);
    GridCountAll(bs, x, y);
  }

  /** The inner `get_score` loop over the cells of row `i`. */
  method ScoreRow(g: Grid, x: int, y: int, i: int) returns (white: nat, black: nat)
    requires IsGrid(g, x, y) && 0 <= i < x
    ensures white == RowCount(AreaPoints(g, x, y, WHITE), i, y)
    ensures black == RowCount(AreaPoints(g, x, y, BLACK), i, y)
  {
    white, black := 0, 0;
    ghost var ws, bs := AreaPoints(g, x, y, WHITE), AreaPoints(g, x, y, BLACK);
    for j := 0 to y
      invariant white == RowCount(ws, i, j) && black == RowCount(bs, i, j)
    {
      var w, b := CellPoints(g, x, y, (i, j));
      white, black := white + w, black + b;
    }
  }

  // ---------------------------------------------------------------------
  // The flood fill of `get_valid_moves` and `add_stone`
  // ---------------------------------------------------------------------

  /** The listed cells that hold `c` and are not yet visited, in list order:
      what the neighbour loop of the flood fill pushes. */
  function Unvisited(g: Grid, ns: seq<Pos>, c: int, h: set<Pos>): (r: seq<Pos>)
    requires AllInGrid(g, ns)
    ensures forall q :: q in r <==> q in ns && At(g, q) == c && q !in h
  {
    if ns == [] then []
    else
      var last := ns[|ns| - 1];
      Unvisited(g, ns[..|ns| - 1], c, h) + (if At(g, last) == c && last !in h then [last] else [])
  }

  lemma UnvisitedSnoc(g: Grid, ns: seq<Pos>, k: nat, c: int, h: set<Pos>)
    requires AllInGrid(g, ns) && k < |ns|
    ensures AllInGrid(g, ns[..k]) && AllInGrid(g, ns[..k + 1])
    ensures Unvisited(g, ns[..k + 1], c, h) ==
            Unvisited(g, ns[..k], c, h) + (if At(g, ns[k]) == c && ns[k] !in h then [ns[k]] else [])
  {
    assert ns[..k + 1][..k] == ns[..k];
  }

  /** How many entries of `s` are in `visited`. */
  function CountIn(s: seq<Pos>, visited: set<Pos>): nat
  {
    if s == [] then 0 else CountIn(s[..|s| - 1], visited) + (if s[|s| - 1] in visited then 1 else 0)
  }

  lemma {:induction false} CountInAppend(a: seq<Pos>, b: seq<Pos>, visited: set<Pos>)
    ensures CountIn(a + b, visited) == CountIn(a, visited) + CountIn(b, visited)
  {
    if b == [] {
      assert a + b == a;
    } else {
      assert (a + b)[..|a + b| - 1] == a + b[..|b| - 1];
      CountInAppend(a, b[..|b| - 1], visited);
    }
  }

  lemma {:induction false} CountInNone(s: seq<Pos>, visited: set<Pos>)
    requires forall e | e in s :: e !in visited
    ensures CountIn(s, visited) == 0
  {
    if s != [] {
      CountInNone(s[..|s| - 1], visited);
    }
  }

  /** The neighbour loop of the flood fill: push every neighbour of `curr`
      that holds `c` and has not been visited. */
  method PushNeighbors(g: Grid, x: int, y: int, curr: Pos, c: int, h: set<Pos>, buffer: seq<Pos>)
    returns (r: seq<Pos>)
    requires IsGrid(g, x, y) && InBounds(x, y, curr)
    ensures AllInGrid(g, Neighbors(x, y, curr))
    ensures r == buffer + Unvisited(g, Neighbors(x, y, curr), c, h)
  {
    NeighborsInGrid(g, x, y, curr);
    var ns := Neighbors(x, y, curr);
    r := buffer;
    for k := 0 to |ns|
      invariant r == buffer + Unvisited(g, ns[..k], c, h)
    {
      UnvisitedSnoc(g, ns, k, c, h);
      var neighbor := ns[k];
      if At(g, neighbor) == c && neighbor !in h {
        r := r + [neighbor];
      }
      assert r == buffer + Unvisited(g, ns[..k + 1], c, h) by {
        if At(g, neighbor) == c && neighbor !in h {
          AppendAssoc(buffer, Unvisited(g, ns[..k], c, h), [neighbor]);
        }
      }
    }
    assert ns[..|ns|] == ns;
  }

  /** Visited cells form whole components of stones. */
  ghost predicate WholeComponents(g: Grid, x: int, y: int, h: set<Pos>)
    requires IsGrid(g, x, y)
  {
    forall q | q in h :: InBounds(x, y, q) && InGrid(g, q) && At(g, q) != EMPTY && Component(g, x, y, q) <= h
  }

  /** A component that holds an unvisited cell is wholly unvisited. */
  lemma ComponentUnvisited(g: Grid, x: int, y: int, h: set<Pos>, seed: Pos)
    requires IsGrid(g, x, y) && WholeComponents(g, x, y, h) && seed !in h
    ensures Component(g, x, y, seed) !! h
  {
    forall q | q in Component(g, x, y, seed) && q in h ensures false {
      ComponentOfMember(g, x, y, seed, q);
      ConnectedSymmetric(g, seed, q);
      ConnectedColour(g, q, seed);
      ConnectedSelf(g, seed);
    }
  }

  /** The flood fill from `seed`: it collects exactly the seed's component
      and marks it visited. */
  method FloodFrom(g: Grid, x: int, y: int, seed: Pos, h0: set<Pos>) returns (group: set<Pos>, h: set<Pos>)
    requires IsGrid(g, x, y) && InBounds(x, y, seed) && seed !in h0
    requires WholeComponents(g, x, y, h0)
    ensures group == Component(g, x, y, seed)
    ensures h == h0 + group
  {
    GridCell(g, x, y, seed);
    ghost var comp := Component(g, x, y, seed);
    ComponentBasics(g, x, y, seed);
    ComponentClosed(g, x, y, seed);
    ComponentUnvisited(g, x, y, h0, seed);
    group, h := Fill(g, x, y, seed, h0, comp);
    ClosedFill(g, x, y, seed, group);
  }

  /** What the fill needs to know of the component it explores: it holds
      the seed, only cells of the seed's colour, every same-colour neighbour
      of its cells, and nothing visited. */
  ghost predicate Region(g: Grid, x: int, y: int, seed: Pos, h0: set<Pos>, comp: set<Pos>)
    requires IsGrid(g, x, y) && InGrid(g, seed)
  {
    seed in comp && comp !! h0 &&
    (forall q | q in comp :: InBounds(x, y, q) && InGrid(g, q) && At(g, q) == At(g, seed)) &&
    (forall m, q | m in comp && q in Neighbors(x, y, m) :: InGrid(g, q) && At(g, q) == At(g, seed) ==> q in comp)
  }

  /** The invariant of the fill loop: members and waiting cells lie in the
      component, the seed is one of them, visited means a member, and every
      same-colour neighbour of a member is a member or is waiting. */
  ghost predicate FillInvariant(g: Grid, x: int, y: int, seed: Pos, h0: set<Pos>, comp: set<Pos>,
                                group: set<Pos>, h: set<Pos>, buffer: seq<Pos>)
    requires IsGrid(g, x, y) && InGrid(g, seed) && Region(g, x, y, seed, h0, comp)
  {
    h == h0 + group && group <= comp &&
    (forall k | 0 <= k < |buffer| :: buffer[k] in comp) &&
    (seed in group || seed in buffer) &&
    (forall m, q | m in group && q in Neighbors(x, y, m) ::
       InGrid(g, q) && At(g, q) == At(g, seed) ==> q in group || q in buffer)
  }

  /** The `while len(buffer) > 0` loop: pop a cell, record and mark it,
      push its unvisited same-colour neighbours. */
  method Fill(g: Grid, x: int, y: int, seed: Pos, h0: set<Pos>, ghost comp: set<Pos>)
    returns (group: set<Pos>, h: set<Pos>)
    requires IsGrid(g, x, y) && InBounds(x, y, seed) && InGrid(g, seed)
    requires Region(g, x, y, seed, h0, comp)
    ensures h == h0 + group && seed in group && group <= comp
    ensures forall m, q | m in group && q in Neighbors(x, y, m) ::
              InGrid(g, q) && At(g, q) == At(g, seed) ==> q in group
  {
    group, h := {}, h0;
    var buffer := [seed];
    while |buffer| > 0
      invariant FillInvariant(g, x, y, seed, h0, comp, group, h, buffer)
      decreases |comp - group|, CountIn(buffer, group)
    {
      group, h, buffer := FillStep(g, x, y, seed, h0, comp, group, h, buffer);
    }
    FillDone(g, x, y, seed, h0, comp, group, h, buffer);
  }

  /** With nothing left waiting, the members hold every same-colour
      neighbour of a member. */
  lemma FillDone(g: Grid, x: int, y: int, seed: Pos, h0: set<Pos>, comp: set<Pos>,
                 group: set<Pos>, h: set<Pos>, buffer: seq<Pos>)
    requires IsGrid(g, x, y) && InGrid(g, seed) && Region(g, x, y, seed, h0, comp)
    requires FillInvariant(g, x, y, seed, h0, comp, group, h, buffer) && buffer == []
    ensures seed in group
    ensures forall m, q | m in group && q in Neighbors(x, y, m) ::
              InGrid(g, q) && At(g, q) == At(g, seed) ==> q in group
  {
  }

  /** One round of the fill loop. */
  method FillStep(g: Grid, x: int, y: int, seed: Pos, h0: set<Pos>, ghost comp: set<Pos>,
                  group: set<Pos>, h: set<Pos>, buffer: seq<Pos>)
    returns (group': set<Pos>, h': set<Pos>, buffer': seq<Pos>)
    requires IsGrid(g, x, y) && InGrid(g, seed) && Region(g, x, y, seed, h0, comp)
    requires FillInvariant(g, x, y, seed, h0, comp, group, h, buffer) && |buffer| > 0
    ensures FillInvariant(g, x, y, seed, h0, comp, group', h', buffer')
    ensures |comp - group'| < |comp - group| ||
            (|comp - group'| == |comp - group| && CountIn(buffer', group') < CountIn(buffer, group))
  {
    var c := At(g, seed);
    var curr := buffer[|buffer| - 1];
    var rest := buffer[..|buffer| - 1];
    assert buffer == rest + [curr];
    group' := group + {curr};
    h' := h + {curr};
    buffer' := PushNeighbors(g, x, y, curr, c, h', rest);
    FillKeeps(g, x, y, seed, h0, comp, group, h, curr, rest, buffer');
    FillMeasure(comp, group, curr, rest, Unvisited(g, Neighbors(x, y, curr), c, h'));
  }

  /** One round of the fill keeps its invariant. */
  lemma FillKeeps(g: Grid, x: int, y: int, seed: Pos, h0: set<Pos>, comp: set<Pos>,
                  group: set<Pos>, h: set<Pos>, curr: Pos, rest: seq<Pos>, buffer': seq<Pos>)
    requires IsGrid(g, x, y) && InGrid(g, seed) && Region(g, x, y, seed, h0, comp)
    requires FillInvariant(g, x, y, seed, h0, comp, group, h, rest + [curr])
    requires InBounds(x, y, curr) && AllInGrid(g, Neighbors(x, y, curr))
    requires buffer' == rest + Unvisited(g, Neighbors(x, y, curr), At(g, seed), h + {curr})
    ensures FillInvariant(g, x, y, seed, h0, comp, group + {curr}, h + {curr}, buffer')
  {
    assert forall k | 0 <= k < |rest| :: rest[k] == (rest + [curr])[k];
    assert curr == (rest + [curr])[|rest|];
    assert h + {curr} == h0 + group + {curr};
    FrontierStep(g, x, y, seed, h0, comp, group, curr, rest, buffer');
  }

  /** One round of the fill either collects a new cell of the component or
      pops a cell already collected, pushing nothing collected. */
  lemma FillMeasure(comp: set<Pos>, group: set<Pos>, curr: Pos, rest: seq<Pos>, pushed: seq<Pos>)
    requires curr in comp && forall e | e in pushed :: e !in group + {curr}
    ensures |comp - (group + {curr})| < |comp - group| ||
            (|comp - (group + {curr})| == |comp - group| &&
             CountIn(rest + pushed, group + {curr}) < CountIn(rest + [curr], group))
  {
    if curr in group {
      assert group + {curr} == group;
      CountInAppend(rest, [curr], group);
      CountInAppend(rest, pushed, group);
      CountInNone(pushed, group);
      assert CountIn([curr], group) == 1;
    } else {
      assert comp - (group + {curr}) == (comp - group) - {curr};
    }
  }

  /** One step of the fill keeps every same-colour neighbour of a member
      either a member or waiting in the buffer. */
  lemma FrontierStep(g: Grid, x: int, y: int, seed: Pos, h0: set<Pos>, comp: set<Pos>, before: set<Pos>,
                     curr: Pos, rest: seq<Pos>, buffer: seq<Pos>)
    requires IsGrid(g, x, y) && InGrid(g, seed) && Region(g, x, y, seed, h0, comp)
    requires forall k | 0 <= k < |rest| :: rest[k] in comp
    requires curr in comp && before <= comp
    requires AllInGrid(g, Neighbors(x, y, curr))
    requires buffer == rest + Unvisited(g, Neighbors(x, y, curr), At(g, seed), h0 + before + {curr})
    requires forall m, q | m in before && q in Neighbors(x, y, m) ::
               InGrid(g, q) && At(g, q) == At(g, seed) ==> q in before || q in rest + [curr]
    ensures forall k | 0 <= k < |buffer| :: buffer[k] in comp
    ensures forall m, q | m in before + {curr} && q in Neighbors(x, y, m) ::
              InGrid(g, q) && At(g, q) == At(g, seed) ==> q in before + {curr} || q in buffer
  {
    var c := At(g, seed);
    var pushed := Unvisited(g, Neighbors(x, y, curr), c, h0 + before + {curr});
    forall k | 0 <= k < |buffer| ensures buffer[k] in comp {
      if k >= |rest| {
        assert buffer[k] in pushed;
      }
    }
    forall m, q | m in before + {curr} && q in Neighbors(x, y, m) && InGrid(g, q) && At(g, q) == c
      ensures q in before + {curr} || q in buffer
    {
      if m == curr {
        if q !in before + {curr} {
          assert q in comp;
          assert q in pushed;
        }
      } else if q !in before + {curr} {
        assert q in rest + [curr];
        assert q in rest;
      }
    }
  }

  /** Once the buffer is empty the collected set is closed, so it is the
      whole component. */
  lemma ClosedFill(g: Grid, x: int, y: int, seed: Pos, group: set<Pos>)
    requires IsGrid(g, x, y) && InBounds(x, y, seed) && InGrid(g, seed)
    requires seed in group && group <= Component(g, x, y, seed)
    requires forall m, q | m in group && q in Neighbors(x, y, m) ::
               InGrid(g, q) && At(g, q) == At(g, seed) ==> q in group
    ensures group == Component(g, x, y, seed)
  {
    ComponentBasics(g, x, y, seed);
    ClosedContainsComponent(g, x, y, group, seed);
  }

  /** `is_alive_eye` over the four orthogonal and four diagonal cells: all
      hold `color`, or there are eight and exactly one does not. */
  function IsAliveEye(g: Grid, x: int, y: int, p: Pos, color: int): (r: bool)
    requires IsGrid(g, x, y) && InBounds(x, y, p)
    ensures AllInGrid(g, Neighbors(x, y, p) + Diagonals(x, y, p))
    ensures r <==> (forall q | q in Neighbors(x, y, p) + Diagonals(x, y, p) :: At(g, q) == color) ||
                   (|Neighbors(x, y, p) + Diagonals(x, y, p)| == 8 &&
                    OneMismatch(g, Neighbors(x, y, p) + Diagonals(x, y, p), color))
  {
    NeighborsInGrid(g, x, y, p);
    DiagonalsInGrid(g, x, y, p);
    AliveEyeCount(g, Neighbors(x, y, p) + Diagonals(x, y, p), color)
  }

  class Board {
    const x: int
    const y: int
    /** The grid, `board[i][j]` in {WHITE, EMPTY, BLACK}. */
    var board: Grid
    /** Per colour, the points where that colour may not play because a
        single stone of it was just captured there. */
    var ko: map<Stone, set<Pos>>

    ghost predicate Valid()
      reads this
    {
      x > 0 && y > 0 && IsGrid(board, x, y) && BLACK in ko && WHITE in ko
    }

    constructor(x: int, y: int)
      requires x > 0 && y > 0
      ensures Valid() && this.x == x && this.y == y
      ensures board == EmptyGrid(x, y) && ko == map[BLACK := {}, WHITE := {}]
    {
      this.x := x;
      this.y := y;
      board := EmptyGrid(x, y);
      ko := map[BLACK := {}, WHITE := {}];
    }

    /** `get_score`: area scoring, one point per stone for its colour and
        one point per empty point for each colour it is an eye of. */
    method GetScore() returns (s: Score)
      requires Valid()
      ensures s.white == |AreaPoints(board, x, y, WHITE)|
      ensures s.black == |AreaPoints(board, x, y, BLACK)|
    {
      var white, black := ScoreGrid(board, x, y);
      s := Score(white, black);
    }

    /** `remove_stone`: the point becomes empty; nothing else changes. */
    method RemoveStone(p: Pos, color: int)
      requires Valid() && InBounds(x, y, p)
      modifies this
      ensures Valid() && ko == old(ko)
      ensures board == Put(old(board), p, EMPTY)
    {
      GridCell(board, x, y, p);
      board := Put(board, p, EMPTY);
    }

    /** `set_ko`: one more ko point for `color`. */
    method SetKo(p: Pos, color: Stone)
      requires Valid()
      modifies this
      ensures Valid() && board == old(board)
      ensures ko == old(ko)[color := old(ko)[color] + {p}]
    {
      ko := ko[color := ko[color] + {p}];
    }

    /** `unset_ko`: forget every ko point of `color`. */
    method UnsetKo(color: Stone)
      requires Valid()
      modifies this
      ensures Valid() && board == old(board)
      ensures ko == old(ko)[color := {}]
    {
      ko := ko[color := {}];
    }

    /** The scan shared by `get_valid_moves` and `add_stone`: every stone not
        yet visited starts a flood fill, and the filled component is
        registered as a new group with no liberties recorded yet. */
    method CollectGroups() returns (groups: Groups)
      requires Valid()
      ensures fresh(groups) && groups.board == this && groups.Valid()
      ensures Partition(board, x, y, groups.groupSet, groups.positionToGroup)
    {
      groups := new Groups(this);
      var h: set<Pos> := {};
      for i := 0 to x
        invariant fresh(groups) && groups.board == this && groups.Valid()
        invariant WholeComponents(board, x, y, h)
        invariant PartitionOf(board, x, y, groups.groupSet, groups.positionToGroup, h)
        invariant forall q | InBounds(x, y, q) && q.0 < i && At(board, q) != EMPTY :: q in h
      {
        for j := 0 to y
          invariant fresh(groups) && groups.board == this && groups.Valid()
          invariant WholeComponents(board, x, y, h)
          invariant PartitionOf(board, x, y, groups.groupSet, groups.positionToGroup, h)
          invariant forall q | InBounds(x, y, q) && (q.0 < i || (q.0 == i && q.1 < j)) && At(board, q) != EMPTY :: q in h
        {
          h := CollectAt(this, groups, h, (i, j));
        }
      }
      ScannedAll(board, x, y, h);
    }

    /** `add_stone`: place the stone, rebuild the groups and their
        liberties, remove every group left without a liberty (the placed
        stone's own included), and put the placed stone back. */
    method AddStone(p: Pos, color: Stone)
      requires Valid() && InBounds(x, y, p)
      modifies this
      ensures Valid()
      ensures board == AfterAddStone(old(board), x, y, p, color)
      ensures ko == KoAfter(old(ko), Put(old(board), p, color), x, y)
    {
      ghost var g1 := Put(old(board), p, color);
      SetCell(p, color);
      RemoveCaptured();
      assert board == Clear(g1, Captured(g1, x, y));
      SetCell(p, color);
    }

    /** `get_valid_moves`: rebuild the groups and their liberties and
        compute the free map for `player`. */
    method GetValidMoves(player: int) returns (r: Result<Grid>)
      requires Valid()
      ensures r.Err? <==> AllLiberties(board, x, y) != {} && player != BLACK && player != WHITE
      ensures r.Ok? ==> IsGrid(r.value, x, y) &&
                        forall q | InBounds(x, y, q) :: InGrid(r.value, q) && At(r.value, q) == ValidMovesAt(board, x, y, ko, q, player)
    {
      var groups := CollectGroups();
      ghost var index, g0 := groups.positionToGroup, groups.groupSet;
      groups.UpdateGroupsLiberty();
      PartitionWithLiberties(board, x, y, g0, index);
      PartitionStonesIndexed(board, x, y, groups.groupSet, index);
      r := groups.CalculateFreeMap(player);
      FreeMapIsValidMoves(board, x, y, ko, groups.groupSet, index, player);
    }

    /** `board[p] = v`. */
    method SetCell(p: Pos, v: Cell)
      requires Valid() && InBounds(x, y, p)
      modifies this
      ensures Valid() && ko == old(ko)
      ensures InGrid(old(board), p) && board == Put(old(board), p, v)
    {
      GridCell(board, x, y, p);
      board := Put(board, p, v);
    }

    /** The middle of `add_stone`: rebuild the groups and their liberties
        and kill every group without a liberty. */
    method RemoveCaptured()
      requires Valid()
      modifies this
      ensures Valid()
      ensures board == Clear(old(board), Captured(old(board), x, y))
      ensures ko == KoAfter(old(ko), old(board), x, y)
    {
      var groups := CollectGroups();
      ghost var index, g0 := groups.positionToGroup, groups.groupSet;
      groups.UpdateGroupsLiberty();
      PartitionWithLiberties(board, x, y, g0, index);
      DeadAreCaptured(board, x, y, groups.groupSet, index, ko);
      groups.KillDeadGroup();
    }
  }

  // ---------------------------------------------------------------------
  // The operations of a group record (`Group`)
  // ---------------------------------------------------------------------

  /** Moving one element from the to-do set to the done part. */
  lemma TakeOne<T>(all: set<T>, todo: set<T>, e: T)
    requires todo <= all && e in todo
    ensures (all - todo) + {e} == all - (todo - {e})
  {
  }

  /** The empty cells among `ns`. */
  function EmptyAmong(g: Grid, ns: seq<Pos>): (r: set<Pos>)
    requires AllInGrid(g, ns)
    ensures forall q :: q in r <==> q in ns && At(g, q) == EMPTY
  {
    if ns == [] then {}
    else EmptyAmong(g, ns[..|ns| - 1]) + (if At(g, ns[|ns| - 1]) == EMPTY then {ns[|ns| - 1]} else {})
  }

  /** The neighbour loop of `update_liberty` and `add_position`: add the
      empty cells of a neighbour list. */
  method AddEmptyAmong(g: Grid, ns: seq<Pos>, libs: set<Pos>) returns (r: set<Pos>)
    requires AllInGrid(g, ns)
    ensures r == libs + EmptyAmong(g, ns)
  {
    r := libs;
    for k := 0 to |ns|
      invariant r == libs + EmptyAmong(g, ns[..k])
    {
      assert ns[..k + 1][..k] == ns[..k];
      if At(g, ns[k]) == EMPTY {
        r := r + {ns[k]};
      }
    }
    assert ns[..|ns|] == ns;
  }

  /** The empty neighbours of one member are its liberties. */
  lemma EmptyNeighbors(g: Grid, x: int, y: int, m: Pos)
    requires IsGrid(g, x, y) && InBounds(x, y, m)
    ensures AllInGrid(g, Neighbors(x, y, m))
    ensures EmptyAmong(g, Neighbors(x, y, m)) == LibertiesOf(g, x, y, {m})
  {
    NeighborsInGrid(g, x, y, m);
  }

  /** Add the empty neighbours of one member. */
  method AddEmptyNeighbors(g: Grid, x: int, y: int, m: Pos, libs: set<Pos>) returns (r: set<Pos>)
    requires IsGrid(g, x, y) && InBounds(x, y, m)
    ensures r == libs + LibertiesOf(g, x, y, {m})
  {
    EmptyNeighbors(g, x, y, m);
    r := AddEmptyAmong(g, Neighbors(x, y, m), libs);
  }

  /** `update_liberty`: the liberties become exactly the empty orthogonal
      neighbours of the members; when the members are stones, no member is
      a liberty. */
  method UpdateLiberty(g: Grid, x: int, y: int, grp: Group) returns (r: Group)
    requires IsGrid(g, x, y) && forall m | m in grp.members :: InBounds(x, y, m)
    ensures r.color == grp.color && r.members == grp.members
    ensures r.liberties == LibertiesOf(g, x, y, grp.members)
    ensures (forall m | m in grp.members :: InGrid(g, m) && At(g, m) != EMPTY) ==> r.liberties !! r.members
  {
    var libs := {};
    var todo := grp.members;
    while todo != {}
      invariant todo <= grp.members
      invariant libs == LibertiesOf(g, x, y, grp.members - todo)
      decreases |todo|
    {
      var m :| m in todo;
      libs := AddEmptyNeighbors(g, x, y, m, libs);
      LibertiesOfUnion(g, x, y, grp.members - todo, {m});
      TakeOne(grp.members, todo, m);
      todo := todo - {m};
    }
    assert grp.members - todo == grp.members;
    r := Group(grp.color, grp.members, libs);
    if forall m | m in grp.members :: InGrid(g, m) && At(g, m) != EMPTY {
      LibertiesOfStones(g, x, y, grp.members);
    }
  }

  /** `add_position`: one more member, and its empty neighbours become
      liberties. */
  method AddPosition(g: Grid, x: int, y: int, grp: Group, p: Pos) returns (r: Group)
    requires IsGrid(g, x, y) && InBounds(x, y, p)
    ensures r.color == grp.color && r.members == grp.members + {p}
    ensures r.liberties == grp.liberties + LibertiesOf(g, x, y, {p})
    ensures LibertiesExact(g, x, y, grp) ==> LibertiesExact(g, x, y, r)
  {
    var libs := AddEmptyNeighbors(g, x, y, p, grp.liberties);
    r := Group(grp.color, grp.members + {p}, libs);
    LibertiesOfUnion(g, x, y, grp.members, {p});
  }

  /** `kill_self`: every member becomes empty, and a single-stone group
      leaves a ko point for its own colour. */
  method KillSelf(board: Board, grp: Group)
    requires board.Valid() && forall m | m in grp.members :: InBounds(board.x, board.y, m)
    modifies board
    ensures board.Valid()
    ensures board.board == Clear(old(board.board), grp.members)
    ensures board.ko == if |grp.members| == 1 then old(board.ko)[grp.color := old(board.ko)[grp.color] + grp.members]
                        else old(board.ko)
  {
    ghost var g0 := board.board;
    ClearNone(g0);
    assert grp.members - grp.members == {};
    var todo := grp.members;
    while todo != {}
      invariant todo <= grp.members && board.Valid() && board.ko == old(board.ko)
      invariant board.board == Clear(g0, grp.members - todo)
      decreases |todo|
    {
      var m :| m in todo;
      GridCell(g0, board.x, board.y, m);
      board.RemoveStone(m, grp.color);
      ClearMore(g0, grp.members - todo, m);
      TakeOne(grp.members, todo, m);
      todo := todo - {m};
    }
    assert grp.members - todo == grp.members;
    if |grp.members| == 1 {
      var m :| m in grp.members;
      assert |grp.members - {m}| == 0;
      assert grp.members == {m};
      board.SetKo(m, grp.color);
    }
  }

  // ---------------------------------------------------------------------
  // The group registry
  // ---------------------------------------------------------------------

  /** The registry covers exactly the cells of `covered`; each registered
      group is a whole component of stones of its colour, and the position
      index sends each member to its group. */
  ghost predicate PartitionOf(g: Grid, x: int, y: int, groups: map<nat, Group>, index: map<Pos, nat>,
                              covered: set<Pos>)
    requires IsGrid(g, x, y)
  {
    index.Keys == covered && IndexSound(groups, index) && GroupsIndexed(groups, index) &&
    GroupsAreComponents(g, x, y, groups)
  }

  /** Every indexed position is a member of the group it points to. */
  ghost predicate IndexSound(groups: map<nat, Group>, index: map<Pos, nat>)
  {
    forall q | q in index :: index[q] in groups && q in groups[index[q]].members
  }

  /** Every member of a registered group points to that group. */
  ghost predicate GroupsIndexed(groups: map<nat, Group>, index: map<Pos, nat>)
  {
    forall id, m | id in groups && m in groups[id].members :: m in index && index[m] == id
  }

  /** Every registered group is the whole component of each of its members,
      all stones of the group's colour. */
  ghost predicate GroupsAreComponents(g: Grid, x: int, y: int, groups: map<nat, Group>)
    requires IsGrid(g, x, y)
  {
    forall id, m | id in groups && m in groups[id].members ::
      InBounds(x, y, m) && InGrid(g, m) && At(g, m) == groups[id].color &&
      Component(g, x, y, m) == groups[id].members
  }

  /** The registry that `get_valid_moves` and `add_stone` build: the
      connected single-colour groups, covering every stone. */
  ghost predicate Partition(g: Grid, x: int, y: int, groups: map<nat, Group>, index: map<Pos, nat>)
    requires IsGrid(g, x, y)
  {
    PartitionOf(g, x, y, groups, index, Stones(g, x, y))
  }

  /** Registering a fresh, unvisited component keeps the registry a partition. */
  lemma PartitionAdd(g: Grid, x: int, y: int, groups: map<nat, Group>, index: map<Pos, nat>,
                     covered: set<Pos>, id: nat, seed: Pos)
    requires IsGrid(g, x, y) && InBounds(x, y, seed) && InGrid(g, seed) && At(g, seed) != EMPTY
    requires PartitionOf(g, x, y, groups, index, covered) && id !in groups
    requires Component(g, x, y, seed) !! covered
    ensures PartitionOf(g, x, y, groups[id := Group(At(g, seed), Component(g, x, y, seed), {})],
                        index + map m | m in Component(g, x, y, seed) :: id,
                        covered + Component(g, x, y, seed))
  {
    var comp := Component(g, x, y, seed);
    ComponentFacts(g, x, y, seed);
    PartitionAddSet(g, x, y, groups, index, covered, id, Group(At(g, seed), comp, {}));
  }

  /** The members of a component: on the board, of the seed's colour, and
      each with that same component. */
  lemma ComponentFacts(g: Grid, x: int, y: int, seed: Pos)
    requires IsGrid(g, x, y) && InBounds(x, y, seed) && InGrid(g, seed)
    ensures forall m | m in Component(g, x, y, seed) ::
              InBounds(x, y, m) && InGrid(g, m) && At(g, m) == At(g, seed) &&
              Component(g, x, y, m) == Component(g, x, y, seed)
  {
    ComponentBasics(g, x, y, seed);
    forall m | m in Component(g, x, y, seed)
      ensures InBounds(x, y, m) && Component(g, x, y, m) == Component(g, x, y, seed)
    {
      ComponentOfMember(g, x, y, seed, m);
      GridCellBounds(g, x, y, m);
    }
  }

  lemma PartitionAddSet(g: Grid, x: int, y: int, groups: map<nat, Group>, index: map<Pos, nat>,
                        covered: set<Pos>, id: nat, grp: Group)
    requires IsGrid(g, x, y) && PartitionOf(g, x, y, groups, index, covered) && id !in groups
    requires grp.members !! covered
    requires forall m | m in grp.members ::
               InBounds(x, y, m) && InGrid(g, m) && At(g, m) == grp.color &&
               Component(g, x, y, m) == grp.members
    ensures PartitionOf(g, x, y, groups[id := grp], index + map m | m in grp.members :: id,
                        covered + grp.members)
  {
    var index' := index + map m | m in grp.members :: id;
    IndexAdd(groups, index, id, grp, index');
    GroupsIndexedAdd(groups, index, covered, id, grp, index');
    assert GroupsAreComponents(g, x, y, groups[id := grp]);
  }

  lemma IndexAdd(groups: map<nat, Group>, index: map<Pos, nat>, id: nat, grp: Group, index': map<Pos, nat>)
    requires IndexSound(groups, index) && id !in groups
    requires index' == index + map m | m in grp.members :: id
    ensures IndexSound(groups[id := grp], index')
  {
    assert forall q | q in index :: index[q] != id;
  }

  lemma GroupsIndexedAdd(groups: map<nat, Group>, index: map<Pos, nat>, covered: set<Pos>, id: nat,
                         grp: Group, index': map<Pos, nat>)
    requires GroupsIndexed(groups, index) && IndexSound(groups, index) && index.Keys == covered
    requires id !in groups && grp.members !! covered
    requires index' == index + map m | m in grp.members :: id
    ensures GroupsIndexed(groups[id := grp], index')
  {
    forall id', m | id' in groups && m in groups[id'].members
      ensures m in index' && index'[m] == id'
    {
      assert m !in grp.members;
    }
  }

  /** A group record whose members and liberties all lie on an x by y board. */
  predicate OnBoard(x: int, y: int, grp: Group)
  {
    forall q | q in grp.members + grp.liberties :: InBounds(x, y, q)
  }

  /** The members of the records `ids` names. */
  function MembersIn(groups: map<nat, Group>, ids: set<nat>): (r: set<Pos>)
    ensures forall q :: q in r <==> exists id :: id in ids && id in groups && q in groups[id].members
  {
    set id, q | id in ids && id in groups && q in groups[id].members :: q
  }

  /** The liberties of the records `ids` names. */
  function LibertiesIn(groups: map<nat, Group>, ids: set<nat>): (r: set<Pos>)
    ensures forall q :: q in r <==> exists id :: id in ids && id in groups && q in groups[id].liberties
  {
    set id, q | id in ids && id in groups && q in groups[id].liberties :: q
  }

  /** Every record with its liberties recomputed from the grid. */
  function WithLiberties(g: Grid, x: int, y: int, groups: map<nat, Group>): (r: map<nat, Group>)
    requires IsGrid(g, x, y)
    ensures r.Keys == groups.Keys
    ensures forall id | id in r :: r[id].color == groups[id].color && r[id].members == groups[id].members &&
                                  LibertiesExact(g, x, y, r[id])
  {
    map id | id in groups :: Group(groups[id].color, groups[id].members, LibertiesOf(g, x, y, groups[id].members))
  }

  /** The neighbours of `p` that hold a stone and are indexed, mapped to
      their group identities. */
  function IdsAmong(g: Grid, index: map<Pos, nat>, ns: seq<Pos>): (r: set<nat>)
    requires AllInGrid(g, ns)
    ensures forall id :: id in r <==> exists n :: n in ns && At(g, n) != EMPTY && n in index && index[n] == id
  {
    if ns == [] then {}
    else
      var n := ns[|ns| - 1];
      IdsAmong(g, index, ns[..|ns| - 1]) + (if At(g, n) != EMPTY && n in index then {index[n]} else {})
  }

  lemma IdsAmongSnoc(g: Grid, index: map<Pos, nat>, ns: seq<Pos>, k: nat)
    requires AllInGrid(g, ns) && k < |ns|
    ensures AllInGrid(g, ns[..k]) && AllInGrid(g, ns[..k + 1])
    ensures IdsAmong(g, index, ns[..k + 1]) ==
            IdsAmong(g, index, ns[..k]) + (if At(g, ns[k]) != EMPTY && ns[k] in index then {index[ns[k]]} else {})
  {
    assert ns[..k + 1][..k] == ns[..k];
  }

  /** The identities of the groups of the stones next to `p`. */
  function NeighborIds(g: Grid, x: int, y: int, index: map<Pos, nat>, p: Pos): (r: set<nat>)
    requires IsGrid(g, x, y) && InBounds(x, y, p)
    ensures forall id :: id in r <==>
              exists n :: n in Neighbors(x, y, p) && InGrid(g, n) && At(g, n) != EMPTY && n in index && index[n] == id
  {
    NeighborsInGrid(g, x, y, p);
    IdsAmong(g, index, Neighbors(x, y, p))
  }

  /** Every stone next to `p` is indexed, and to a registered group. */
  ghost predicate NeighborsIndexed(g: Grid, x: int, y: int, groups: map<nat, Group>, index: map<Pos, nat>, p: Pos)
    requires IsGrid(g, x, y) && InBounds(x, y, p)
  {
    forall n | n in Neighbors(x, y, p) && InGrid(g, n) && At(g, n) != EMPTY :: n in index && index[n] in groups
  }

  lemma IndexAddOne(base: map<Pos, nat>, all: set<Pos>, todo: set<Pos>, p: Pos, id: nat)
    requires todo <= all && p in todo
    ensures (base + map m | m in all - todo :: id)[p := id] == base + map m | m in all - (todo - {p}) :: id
  {
  }

  lemma IndexRemoveOne(base: map<Pos, nat>, all: set<Pos>, todo: set<Pos>, p: Pos)
    requires todo <= all && p in todo
    ensures (if p in base - (all - todo) then (base - (all - todo)) - {p} else base - (all - todo)) ==
            base - (all - (todo - {p}))
  {
  }

  /** Re-pointing members already in a set of pointers that all get
      re-pointed changes nothing. */
  lemma IndexOverride(base: map<Pos, nat>, removed: set<Pos>, all: set<Pos>, id: nat)
    requires removed <= all
    ensures (base - removed) + (map m | m in all :: id) == base + (map m | m in all :: id)
  {
  }

  lemma MembersInAdd(groups: map<nat, Group>, ids: set<nat>, id: nat)
    ensures MembersIn(groups, ids + {id}) ==
            MembersIn(groups, ids) + (if id in groups then groups[id].members else {})
    ensures LibertiesIn(groups, ids + {id}) ==
            LibertiesIn(groups, ids) + (if id in groups then groups[id].liberties else {})
  {
  }

  lemma MapMinusNone<K, V>(m: map<K, V>)
    ensures m - {} == m
  {
  }

  lemma MapMinusTwice<K, V>(m: map<K, V>, a: set<K>, b: set<K>)
    ensures (m - a) - b == m - (a + b)
  {
  }

  lemma SameStep(groups: map<nat, Group>, ids: set<nat>, todo: set<nat>, id: nat, c: Stone)
    requires todo <= ids && id in todo && id in groups
    ensures id !in SameIds(groups, ids - todo, c)
    ensures SameIds(groups, ids - (todo - {id}), c) ==
            SameIds(groups, ids - todo, c) + (if groups[id].color == c then {id} else {})
  {
  }

  /** Absorbing one more group into a merge in progress. */
  lemma AbsorbOne(color: Stone, members: set<Pos>, liberties: set<Pos>, grp: Group)
    ensures GoRules.AddGroup(Group(color, members, liberties - members), grp) ==
            Group(color, members + grp.members, (liberties + grp.liberties) - (members + grp.members))
  {
  }

  /** The neighbour loop of `get_neighbors_groups` over a neighbour list. */
  method CollectIds(g: Grid, index: map<Pos, nat>, ns: seq<Pos>) returns (r: set<nat>)
    requires AllInGrid(g, ns)
    ensures r == IdsAmong(g, index, ns)
  {
    r := {};
    for k := 0 to |ns|
      invariant r == IdsAmong(g, index, ns[..k])
    {
      IdsAmongSnoc(g, index, ns, k);
      if At(g, ns[k]) != EMPTY && ns[k] in index {
        r := r + {index[ns[k]]};
      }
    }
    assert ns[..|ns|] == ns;
  }

  /** The records among `ids` that have no liberty left. */
  function DeadAmong(groups: map<nat, Group>, ids: set<nat>): (r: set<nat>)
    ensures forall id :: id in r <==> id in ids && id in groups && groups[id].liberties == {}
  {
    set id | id in ids && id in groups && groups[id].liberties == {}
  }

  /** The members of the single-stone records of colour `c` among `ids`. */
  function SinglesIn(groups: map<nat, Group>, ids: set<nat>, c: Stone): (r: set<Pos>)
    ensures forall q :: q in r <==> exists id :: id in ids && id in groups && groups[id].color == c &&
                                               |groups[id].members| == 1 && q in groups[id].members
  {
    set id, q | id in ids && id in groups && groups[id].color == c && |groups[id].members| == 1 &&
                q in groups[id].members :: q
  }

  /** The ko sets after the single-stone groups among `ids` are killed:
      each colour gains the points of its own captured single stones. */
  function KoAfterKill(ko: map<Stone, set<Pos>>, groups: map<nat, Group>, ids: set<nat>): (r: map<Stone, set<Pos>>)
    ensures r.Keys == ko.Keys
    ensures forall c | c in r :: r[c] == ko[c] + SinglesIn(groups, ids, c)
  {
    map c | c in ko :: ko[c] + SinglesIn(groups, ids, c)
  }

  lemma KoAfterNone(ko: map<Stone, set<Pos>>, groups: map<nat, Group>)
    ensures KoAfterKill(ko, groups, {}) == ko
  {
    var k := KoAfterKill(ko, groups, {});
    forall c | c in ko ensures k[c] == ko[c] {
      assert SinglesIn(groups, {}, c) == {};
    }
  }

  /** Killing one more group adds its point to its colour's ko set exactly
      when it is a single stone. */
  lemma KoAfterOne(ko: map<Stone, set<Pos>>, groups: map<nat, Group>, ids: set<nat>, id: nat)
    requires id in groups && groups[id].color in ko
    ensures KoAfterKill(ko, groups, ids + {id}) ==
            var k := KoAfterKill(ko, groups, ids);
            var grp := groups[id];
            if |grp.members| == 1 then k[grp.color := k[grp.color] + grp.members] else k
  {
    var grp := groups[id];
    var k, k' := KoAfterKill(ko, groups, ids), KoAfterKill(ko, groups, ids + {id});
    var want := if |grp.members| == 1 then k[grp.color := k[grp.color] + grp.members] else k;
    forall c | c in ko ensures k'[c] == want[c] {
      SinglesInAdd(groups, ids, id, c);
    }
  }

  lemma SinglesInAdd(groups: map<nat, Group>, ids: set<nat>, id: nat, c: Stone)
    requires id in groups
    ensures SinglesIn(groups, ids + {id}, c) ==
            SinglesIn(groups, ids, c) +
            (if groups[id].color == c && |groups[id].members| == 1 then groups[id].members else {})
  {
  }

  lemma MembersInNone(groups: map<nat, Group>)
    ensures MembersIn(groups, {}) == {} && LibertiesIn(groups, {}) == {}
  {
  }

  /** The second loop of `kill_dead_group`: `kill_self` on each dead record. */
  method KillAll(board: Board, groups: map<nat, Group>, kill: set<nat>)
    requires board.Valid()
    requires forall id | id in kill :: id in groups && OnBoard(board.x, board.y, groups[id])
    modifies board
    ensures board.Valid()
    ensures board.board == Clear(old(board.board), MembersIn(groups, kill))
    ensures board.ko == KoAfterKill(old(board.ko), groups, kill)
  {
    ghost var g0, ko0 := board.board, board.ko;
    ClearNone(g0);
    KoAfterNone(ko0, groups);
    MembersInNone(groups);
    assert kill - kill == {};
    var todo := kill;
    while todo != {}
      invariant todo <= kill && board.Valid()
      invariant board.board == Clear(g0, MembersIn(groups, kill - todo))
      invariant board.ko == KoAfterKill(ko0, groups, kill - todo)
      decreases |todo|
    {
      var id :| id in todo;
      TakeOne(kill, todo, id);
      KillOne(board, groups, id, kill - todo, g0, ko0);
      todo := todo - {id};
    }
    assert kill - todo == kill;
  }

  /** One round of `KillAll`. */
  method KillOne(board: Board, groups: map<nat, Group>, id: nat, ghost done: set<nat>,
                 ghost g0: Grid, ghost ko0: map<Stone, set<Pos>>)
    requires board.Valid() && id in groups && OnBoard(board.x, board.y, groups[id])
    requires board.board == Clear(g0, MembersIn(groups, done)) && board.ko == KoAfterKill(ko0, groups, done)
    modifies board
    ensures board.Valid()
    ensures board.board == Clear(g0, MembersIn(groups, done + {id}))
    ensures board.ko == KoAfterKill(ko0, groups, done + {id})
  {
    MembersInAdd(groups, done, id);
    ClearTwice(g0, MembersIn(groups, done), groups[id].members);
    KoAfterOne(ko0, groups, done, id);
    KillSelf(board, groups[id]);
  }

  // ---------------------------------------------------------------------
  // The legality rule in registry terms (`__is_empty_free`)
  // ---------------------------------------------------------------------

  /** The records among `ids` of colour `c`. */
  function SameIds(groups: map<nat, Group>, ids: set<nat>, c: Stone): (r: set<nat>)
    ensures forall id :: id in r <==> id in ids && id in groups && groups[id].color == c
  {
    set id | id in ids && id in groups && groups[id].color == c
  }

  /** Some record among `ids` is an opponent group with a single liberty,
      which a stone of colour `c` would capture. */
  predicate OpponentInAtari(groups: map<nat, Group>, ids: set<nat>, c: Stone)
    requires ids <= groups.Keys
  {
    exists id | id in ids :: groups[id].color == Opp(c) && |groups[id].liberties| == 1
  }

  /** The total liberty count of the records `ids`. */
  ghost function LibertySum(groups: map<nat, Group>, ids: set<nat>): nat
    requires ids <= groups.Keys
    decreases ids
  {
    if ids == {} then 0
    else
      var id :| id in ids;
      |groups[id].liberties| + LibertySum(groups, ids - {id})
  }

  lemma {:induction false} LibertySumAdd(groups: map<nat, Group>, ids: set<nat>, id: nat)
    requires ids <= groups.Keys && id in groups && id !in ids
    ensures LibertySum(groups, ids + {id}) == LibertySum(groups, ids) + |groups[id].liberties|
    decreases |ids|
  {
    var s := ids + {id};
    var a :| a in s && LibertySum(groups, s) == |groups[a].liberties| + LibertySum(groups, s - {a});
    if a == id {
      assert s - {a} == ids;
    } else {
      var rest := ids - {a};
      assert s - {a} == rest + {id};
      LibertySumAdd(groups, rest, id);
      LibertySumAdd(groups, rest, a);
      assert rest + {a} == ids;
    }
  }

  /** When every record has a liberty, the total is at least the number of
      records, and equal to it exactly when each has only one. */
  lemma {:induction false} LibertySumBound(groups: map<nat, Group>, ids: set<nat>)
    requires ids <= groups.Keys && forall id | id in ids :: |groups[id].liberties| >= 1
    ensures LibertySum(groups, ids) >= |ids|
    ensures LibertySum(groups, ids) == |ids| <==> forall id | id in ids :: |groups[id].liberties| == 1
    decreases |ids|
  {
    if ids != {} {
      var a :| a in ids;
      var rest := ids - {a};
      LibertySumBound(groups, rest);
      LibertySumAdd(groups, rest, a);
      assert rest + {a} == ids;
    }
  }

  lemma NeighborIdsRegistered(g: Grid, x: int, y: int, groups: map<nat, Group>, index: map<Pos, nat>, p: Pos)
    requires IsGrid(g, x, y) && InBounds(x, y, p) && NeighborsIndexed(g, x, y, groups, index, p)
    ensures NeighborIds(g, x, y, index, p) <= groups.Keys
  {
  }

  /** The verdict of `__is_empty_free` once ko and colour are settled:
      taking the last liberty of an opponent group makes the point free;
      otherwise it is not free when every neighbour is an opponent, when
      every neighbour is a stone and the friendly groups have as many
      liberties as there are of them, or when it is a living eye. */
  function Verdict(captures: bool, count: NeighborCount, friendsInAtari: bool, aliveEye: bool): bool
  {
    captures ||
    !(count.diff == count.total || (friendsInAtari && count.total == count.diff + count.same) || aliveEye)
  }

  /** `__is_empty_free` past its ko and colour checks, in registry terms. */
  ghost function FreeRule(g: Grid, x: int, y: int, groups: map<nat, Group>, index: map<Pos, nat>,
                          p: Pos, c: Stone): bool
    requires IsGrid(g, x, y) && InBounds(x, y, p)
    requires NeighborsIndexed(g, x, y, groups, index, p)
  {
    var ids := NeighborIds(g, x, y, index, p);
    NeighborIdsRegistered(g, x, y, groups, index, p);
    var same := SameIds(groups, ids, c);
    Verdict(OpponentInAtari(groups, ids, c),
            CountNeighbors(g, x, y, p, c),
            |same| == LibertySum(groups, same),
            IsAliveEye(g, x, y, p, c))
  }

  /** `__is_empty_free` in terms of the registry: ko blocks first and a
      colour other than BLACK or WHITE is an error; then `FreeRule`. */
  ghost function EmptyFree(g: Grid, x: int, y: int, ko: map<Stone, set<Pos>>, groups: map<nat, Group>,
                           index: map<Pos, nat>, p: Pos, color: int): Result<bool>
    requires IsGrid(g, x, y) && InBounds(x, y, p) && BLACK in ko && WHITE in ko
    requires NeighborsIndexed(g, x, y, groups, index, p)
  {
    if color != BLACK && color != WHITE then Err(WrongColor)
    else if p in ko[color] then Ok(false)
    else Ok(FreeRule(g, x, y, groups, index, p, color))
  }

  /** Every stone is indexed, and to a registered group. */
  ghost predicate StonesIndexed(g: Grid, x: int, y: int, groups: map<nat, Group>, index: map<Pos, nat>)
    requires IsGrid(g, x, y)
  {
    forall q | q in Stones(g, x, y) :: q in index && index[q] in groups
  }

  lemma StonesIndexedNeighbors(g: Grid, x: int, y: int, groups: map<nat, Group>, index: map<Pos, nat>, p: Pos)
    requires IsGrid(g, x, y) && InBounds(x, y, p) && StonesIndexed(g, x, y, groups, index)
    ensures NeighborsIndexed(g, x, y, groups, index, p)
  {
    forall n | n in Neighbors(x, y, p) && InGrid(g, n) && At(g, n) != EMPTY
      ensures n in index && index[n] in groups
    {
      assert n in Stones(g, x, y);
    }
  }

  /** What `calculate_free_map` writes at `q`: the legality rule on a
      liberty of some group, 0 on any other indexed position, 1 elsewhere. */
  ghost function FreeCell(g: Grid, x: int, y: int, ko: map<Stone, set<Pos>>, groups: map<nat, Group>,
                          index: map<Pos, nat>, q: Pos, color: int): int
    requires IsGrid(g, x, y) && InBounds(x, y, q) && BLACK in ko && WHITE in ko
    requires StonesIndexed(g, x, y, groups, index)
  {
    StonesIndexedNeighbors(g, x, y, groups, index, q);
    if q in LibertiesIn(groups, groups.Keys) then (if EmptyFree(g, x, y, ko, groups, index, q, color) == Ok(true) then 1 else 0)
    else if q in index then 0
    else 1
  }

  /** On a liberty of some group, `FreeCell` is the legality rule. */
  lemma FreeCellLiberty(g: Grid, x: int, y: int, ko: map<Stone, set<Pos>>, groups: map<nat, Group>,
                        index: map<Pos, nat>, q: Pos, color: int)
    requires IsGrid(g, x, y) && InBounds(x, y, q) && BLACK in ko && WHITE in ko
    requires StonesIndexed(g, x, y, groups, index) && NeighborsIndexed(g, x, y, groups, index, q)
    requires q in LibertiesIn(groups, groups.Keys)
    ensures FreeCell(g, x, y, ko, groups, index, q, color) ==
            if EmptyFree(g, x, y, ko, groups, index, q, color) == Ok(true) then 1 else 0
  {
  }

  /** Off the liberties, `FreeCell` only says whether `q` is indexed. */
  lemma FreeCellOther(g: Grid, x: int, y: int, ko: map<Stone, set<Pos>>, groups: map<nat, Group>,
                      index: map<Pos, nat>, q: Pos, color: int)
    requires IsGrid(g, x, y) && InBounds(x, y, q) && BLACK in ko && WHITE in ko
    requires StonesIndexed(g, x, y, groups, index)
    requires q !in LibertiesIn(groups, groups.Keys)
    ensures FreeCell(g, x, y, ko, groups, index, q, color) == if q in index then 0 else 1
  {
  }

  /** `m` holds the free map on the positions `done` and the first loop's
      marks (0 on indexed positions, 1 elsewhere) on every other one. */
  ghost predicate MarkedFree(m: Grid, g: Grid, x: int, y: int, ko: map<Stone, set<Pos>>, groups: map<nat, Group>,
                             index: map<Pos, nat>, done: set<Pos>, color: int)
  {
    IsGrid(m, x, y) && IsGrid(g, x, y) && BLACK in ko && WHITE in ko && StonesIndexed(g, x, y, groups, index) &&
    forall q | InBounds(x, y, q) ::
      InGrid(m, q) &&
      At(m, q) == if q in done then FreeCell(g, x, y, ko, groups, index, q, color)
                  else if q in index then 0 else 1
  }

  /** One round of the second loop of `calculate_free_map`: write the
      verdict `free` at the liberty `q`. */
  method MarkOne(m: Grid, ghost g: Grid, x: int, y: int, ko: map<Stone, set<Pos>>, groups: map<nat, Group>,
                 index: map<Pos, nat>, ghost done: set<Pos>, q: Pos, color: int, free: bool) returns (m': Grid)
    requires MarkedFree(m, g, x, y, ko, groups, index, done, color) && InBounds(x, y, q)
    requires FreeCell(g, x, y, ko, groups, index, q, color) == if free then 1 else 0
    ensures MarkedFree(m', g, x, y, ko, groups, index, done + {q}, color)
  {
    GridCell(m, x, y, q);
    m' := Put(m, q, if free then 1 else 0);
  }

  /** An x by y grid of ones (`np.ones([x, y])`). */
  function Ones(x: nat, y: nat): (r: Grid)
    ensures IsGrid(r, x, y)
    ensures forall q | InBounds(x, y, q) :: InGrid(r, q) && At(r, q) == 1
  {
    seq(x, i => seq(y, j => 1 as Cell))
  }

  /** The registry half of `add_group`: a record not yet registered is
      registered, and each of its members is pointed at it; re-adding a
      registered record changes nothing. */
  method Register(groups: map<nat, Group>, index: map<Pos, nat>, id: nat, grp: Group)
    returns (groups': map<nat, Group>, index': map<Pos, nat>)
    requires id in groups ==> groups[id] == grp
    ensures groups' == groups[id := grp]
    ensures index' == if id in groups then index else index + map m | m in grp.members :: id
  {
    groups', index' := groups, index;
    if id !in groups {
      groups' := groups[id := grp];
      var todo := grp.members;
      while todo != {}
        invariant todo <= grp.members
        invariant index' == index + map m | m in grp.members - todo :: id
        decreases |todo|
      {
        var position :| position in todo;
        IndexAddOne(index, grp.members, todo, position, id);
        index' := index'[position := id];
        todo := todo - {position};
      }
      assert grp.members - todo == grp.members;
    }
  }

  /** The registry half of `remove_group`: the members of a registered
      record lose their pointers (one already gone is skipped) and the
      record is unregistered. */
  method Unregister(groups: map<nat, Group>, index: map<Pos, nat>, id: nat)
    returns (groups': map<nat, Group>, index': map<Pos, nat>)
    ensures groups' == groups - {id}
    ensures index' == if id in groups then index - groups[id].members else index
  {
    index' := index;
    if id in groups {
      var members := groups[id].members;
      var todo := members;
      while todo != {}
        invariant todo <= members
        invariant index' == index - (members - todo)
        decreases |todo|
      {
        var position :| position in todo;
        IndexRemoveOne(index, members, todo, position);
        if position in index' {
          index' := index' - {position};
        }
        todo := todo - {position};
      }
      assert members - todo == members;
    }
    groups' := groups - {id};
  }

  /** The loop of `merge_groups`: a new record of `color` absorbs every
      listed record, and each listed record is unregistered. */
  method AbsorbAll(list: map<nat, Group>, color: Stone, groups: map<nat, Group>, index: map<Pos, nat>)
    returns (merged: Group, groups': map<nat, Group>, index': map<Pos, nat>)
    requires forall id | id in list && id in groups :: groups[id] == list[id]
    ensures merged == Group(color, MembersIn(list, list.Keys), LibertiesIn(list, list.Keys) - MembersIn(list, list.Keys))
    ensures groups' == groups - list.Keys
    ensures index' == index - MembersIn(groups, list.Keys)
  {
    MapMinusNone(groups);
    MapMinusNone(index);
    merged, groups', index' := Group(color, {}, {}), groups, index;
    var todo := list.Keys;
    ghost var done: set<nat> := {};
    while todo != {}
      invariant todo !! done && todo + done == list.Keys
      invariant merged == Group(color, MembersIn(list, done), LibertiesIn(list, done) - MembersIn(list, done))
      invariant groups' == groups - done
      invariant index' == index - MembersIn(groups, done)
      decreases |todo|
    {
      var id :| id in todo;
      merged, groups', index' := AbsorbStep(list, color, merged, id, done, groups, index, groups', index');
      done, todo := done + {id}, todo - {id};
    }
  }

  /** One round of the `merge_groups` loop. */
  method AbsorbStep(list: map<nat, Group>, color: Stone, merged: Group, id: nat, ghost done: set<nat>,
                    ghost g0: map<nat, Group>, ghost p0: map<Pos, nat>, groups: map<nat, Group>, index: map<Pos, nat>)
    returns (merged': Group, groups': map<nat, Group>, index': map<Pos, nat>)
    requires id in list && id !in done && (id in g0 ==> g0[id] == list[id])
    requires merged == Group(color, MembersIn(list, done), LibertiesIn(list, done) - MembersIn(list, done))
    requires groups == g0 - done && index == p0 - MembersIn(g0, done)
    ensures merged' == Group(color, MembersIn(list, done + {id}),
                             LibertiesIn(list, done + {id}) - MembersIn(list, done + {id}))
    ensures groups' == g0 - (done + {id}) && index' == p0 - MembersIn(g0, done + {id})
  {
    MembersInAdd(list, done, id);
    MembersInAdd(g0, done, id);
    AbsorbOne(color, MembersIn(list, done), LibertiesIn(list, done), list[id]);
    merged' := GoRules.AddGroup(merged, list[id]);
    MapMinusTwice(g0, done, {id});
    MapMinusTwice(p0, MembersIn(g0, done), if id in g0 then g0[id].members else {});
    groups', index' := Unregister(groups, index, id);
  }

  /** The loop of `update_groups_liberty`: each record's liberties are
      recomputed from the grid. */
  method UpdateAllLiberties(g: Grid, x: int, y: int, groups: map<nat, Group>) returns (r: map<nat, Group>)
    requires IsGrid(g, x, y) && forall id | id in groups :: OnBoard(x, y, groups[id])
    ensures r == WithLiberties(g, x, y, groups)
  {
    ghost var target := WithLiberties(g, x, y, groups);
    r := groups;
    var todo := groups.Keys;
    while todo != {}
      invariant todo <= groups.Keys && r.Keys == groups.Keys
      invariant forall id | id in r :: r[id] == if id in todo then groups[id] else target[id]
      decreases |todo|
    {
      var id :| id in todo;
      var grp := UpdateLiberty(g, x, y, groups[id]);
      r := r[id := grp];
      todo := todo - {id};
    }
  }

  /** The loop of `get_all_liberty`: the union of the records' liberties. */
  method AllLibertiesOf(groups: map<nat, Group>) returns (r: set<Pos>)
    ensures r == LibertiesIn(groups, groups.Keys)
  {
    r := {};
    var todo := groups.Keys;
    ghost var done: set<nat> := {};
    while todo != {}
      invariant todo !! done && todo + done == groups.Keys
      invariant r == LibertiesIn(groups, done)
      decreases |todo|
    {
      var id :| id in todo;
      MembersInAdd(groups, done, id);
      r := r + groups[id].liberties;
      done, todo := done + {id}, todo - {id};
    }
  }

  /** Records on the board make a merged record on the board. */
  lemma MergedOnBoard(x: int, y: int, list: map<nat, Group>, color: Stone)
    requires forall id | id in list :: OnBoard(x, y, list[id])
    ensures OnBoard(x, y, Group(color, MembersIn(list, list.Keys), LibertiesIn(list, list.Keys) - MembersIn(list, list.Keys)))
  {
  }

  /** Registries of group records by identity (`Groups`): the set of
      groups, and the group of each registered position. Identities are
      the keys of `groupSet`; `nextId` hands out new ones. */
  class Groups {
    const board: Board
    var groupSet: map<nat, Group>
    var positionToGroup: map<Pos, nat>
    var nextId: nat

    ghost predicate Valid()
      reads this, board
    {
      board.Valid() &&
      (forall id | id in groupSet :: id < nextId && OnBoard(board.x, board.y, groupSet[id])) &&
      (forall q | q in positionToGroup :: InBounds(board.x, board.y, q))
    }

    constructor(board: Board)
      requires board.Valid()
      ensures Valid() && this.board == board
      ensures groupSet == map[] && positionToGroup == map[] && nextId == 0
    {
      this.board := board;
      groupSet := map[];
      positionToGroup := map[];
      nextId := 0;
    }

    /** A new identity, as creating a `Group` object gives one. */
    method NewId() returns (id: nat)
      requires Valid()
      modifies this
      ensures Valid() && id == old(nextId) && id !in groupSet && nextId == id + 1
      ensures groupSet == old(groupSet) && positionToGroup == old(positionToGroup)
    {
      id := nextId;
      nextId := nextId + 1;
    }

    /** `add_group`: register a group not yet registered and point each of
        its members at it; re-adding a registered group changes nothing. */
    method AddGroup(id: nat, grp: Group)
      requires Valid() && id < nextId && OnBoard(board.x, board.y, grp)
      requires id in groupSet ==> groupSet[id] == grp
      modifies this
      ensures Valid() && nextId == old(nextId)
      ensures groupSet == old(groupSet)[id := grp]
      ensures positionToGroup == if id in old(groupSet) then old(positionToGroup)
                                 else old(positionToGroup) + map m | m in grp.members :: id
    {
      groupSet, positionToGroup := Register(groupSet, positionToGroup, id, grp);
    }

    /** `remove_group`: forget the positions of a registered group's
        members (a position already forgotten is skipped) and unregister it. */
    method RemoveGroup(id: nat)
      requires Valid()
      modifies this
      ensures Valid() && nextId == old(nextId)
      ensures groupSet == old(groupSet) - {id}
      ensures positionToGroup == if id in old(groupSet) then old(positionToGroup) - old(groupSet)[id].members
                                 else old(positionToGroup)
    {
      groupSet, positionToGroup := Unregister(groupSet, positionToGroup, id);
    }

    /** `find_group`: the group of a position, if it has one. */
    function FindGroup(p: Pos): (r: Option<nat>)
      reads this
      ensures r.Some? <==> p in positionToGroup
      ensures r.Some? ==> r.value == positionToGroup[p]
    {
      if p in positionToGroup then Some(positionToGroup[p]) else None
    }

    /** `merge_groups`: a single group is only registered; otherwise a new
        group of `color` absorbs them all, each of them is unregistered, and
        the new group is registered in their place. */
    method MergeGroups(list: map<nat, Group>, color: Stone)
      requires Valid()
      requires forall id | id in list :: id < nextId && OnBoard(board.x, board.y, list[id]) &&
                                        (id in groupSet ==> groupSet[id] == list[id])
      modifies this
      ensures Valid()
      ensures |list| == 1 ==> exists id :: id in list && nextId == old(nextId) &&
                                groupSet == old(groupSet)[id := list[id]] &&
                                positionToGroup == if id in old(groupSet) then old(positionToGroup)
                                                   else old(positionToGroup) + map m | m in list[id].members :: id
      ensures |list| != 1 ==>
                nextId == old(nextId) + 1 &&
                groupSet == (old(groupSet) - list.Keys)[old(nextId) :=
                  Group(color, MembersIn(list, list.Keys), LibertiesIn(list, list.Keys) - MembersIn(list, list.Keys))] &&
                positionToGroup == old(positionToGroup) + map m | m in MembersIn(list, list.Keys) :: old(nextId)
    {
      if |list| == 1 {
        var id :| id in list;
        AddGroup(id, list[id]);
      } else {
        var mergedId := NewId();
        var merged;
        merged, groupSet, positionToGroup := AbsorbAll(list, color, groupSet, positionToGroup);
        MergedOnBoard(board.x, board.y, list, color);
        AddGroup(mergedId, merged);
        IndexOverride(old(positionToGroup), MembersIn(old(groupSet), list.Keys), MembersIn(list, list.Keys), mergedId);
      }
    }

    /** `update_groups_liberty`: every registered group gets its exact
        liberties. */
    method UpdateGroupsLiberty()
      requires Valid()
      modifies this
      ensures Valid() && nextId == old(nextId) && positionToGroup == old(positionToGroup)
      ensures groupSet == WithLiberties(board.board, board.x, board.y, old(groupSet))
    {
      groupSet := UpdateAllLiberties(board.board, board.x, board.y, groupSet);
    }

    /** `kill_dead_group`: unregister every group with no liberty left and
        kill it. The position index is left as it was. */
    method KillDeadGroup()
      requires Valid()
      modifies this, board
      ensures Valid() && nextId == old(nextId) && positionToGroup == old(positionToGroup)
      ensures groupSet == old(groupSet) - DeadAmong(old(groupSet), old(groupSet).Keys)
      ensures board.board == Clear(old(board.board), MembersIn(old(groupSet), DeadAmong(old(groupSet), old(groupSet).Keys)))
      ensures board.ko == KoAfterKill(old(board.ko), old(groupSet), DeadAmong(old(groupSet), old(groupSet).Keys))
    {
      var kill := FindDead();
      var g0 := groupSet;
      groupSet := groupSet - kill;
      KillAll(board, g0, kill);
    }

    /** The first loop of `kill_dead_group`: the groups with no liberty. */
    method FindDead() returns (kill: set<nat>)
      requires Valid()
      ensures kill == DeadAmong(groupSet, groupSet.Keys)
    {
      kill := {};
      var todo := groupSet.Keys;
      while todo != {}
        invariant todo <= groupSet.Keys
        invariant kill == DeadAmong(groupSet, groupSet.Keys - todo)
        decreases |todo|
      {
        var id :| id in todo;
        if |groupSet[id].liberties| == 0 {
          kill := kill + {id};
        }
        todo := todo - {id};
      }
    }

    /** `__is_empty_free`: may `color` play at the empty point `p`? */
    method IsEmptyFree(p: Pos, color: int) returns (r: Result<bool>)
      requires Valid() && InBounds(board.x, board.y, p)
      requires NeighborsIndexed(board.board, board.x, board.y, groupSet, positionToGroup, p)
      ensures r == EmptyFree(board.board, board.x, board.y, board.ko, groupSet, positionToGroup, p, color)
    {
      if color == BLACK {
        if p in board.ko[BLACK] {
          return Ok(false);
        }
      } else if color == WHITE {
        if p in board.ko[WHITE] {
          return Ok(false);
        }
      } else {
        return Err(WrongColor);
      }
      var b := FreeRuleAt(p, color);
      r := Ok(b);
    }

    /** The rest of `__is_empty_free`. */
    method FreeRuleAt(p: Pos, c: Stone) returns (b: bool)
      requires Valid() && InBounds(board.x, board.y, p)
      requires NeighborsIndexed(board.board, board.x, board.y, groupSet, positionToGroup, p)
      ensures b == FreeRule(board.board, board.x, board.y, groupSet, positionToGroup, p, c)
    {
      var g, x, y := board.board, board.x, board.y;
      var count := CountNeighbors(g, x, y, p, c);
      var ids := GetNeighborsGroups(p);
      NeighborIdsRegistered(g, x, y, groupSet, positionToGroup, p);
      var found, sameCount, sameLiberty := ScanNeighborGroups(groupSet, ids, c);
      if found {
        return true;
      }
      var eye := IsAliveEye(g, x, y, p, c);
      b := Verdict(found, count, sameCount == sameLiberty, eye);
    }

    /** `calculate_free_map`: 0 on indexed positions, the legality rule on
        every liberty, 1 elsewhere; a wrong colour is an error as soon as
        there is a liberty to judge. */
    method CalculateFreeMap(color: int) returns (r: Result<Grid>)
      requires Valid() && StonesIndexed(board.board, board.x, board.y, groupSet, positionToGroup)
      ensures r.Err? <==> LibertiesIn(groupSet, groupSet.Keys) != {} && color != BLACK && color != WHITE
      ensures r.Ok? ==> IsGrid(r.value, board.x, board.y) &&
                        forall q | InBounds(board.x, board.y, q) ::
                          InGrid(r.value, q) &&
                          At(r.value, q) == FreeCell(board.board, board.x, board.y, board.ko, groupSet, positionToGroup, q, color)
    {
      var free := MarkIndexed();
      var libs := GetAllLiberty();
      r := MarkLiberties(free, libs, color);
      if r.Ok? {
        assert MarkedFree(r.value, board.board, board.x, board.y, board.ko, groupSet, positionToGroup, libs, color);
        forall q | InBounds(board.x, board.y, q)
          ensures InGrid(r.value, q) &&
                  At(r.value, q) == FreeCell(board.board, board.x, board.y, board.ko, groupSet, positionToGroup, q, color)
        {
          if q !in libs {
            FreeCellOther(board.board, board.x, board.y, board.ko, groupSet, positionToGroup, q, color);
          }
        }
      }
    }

    /** The first loop of `calculate_free_map`. */
    method MarkIndexed() returns (free: Grid)
      requires Valid()
      ensures IsGrid(free, board.x, board.y)
      ensures forall q | InBounds(board.x, board.y, q) ::
                InGrid(free, q) && At(free, q) == if q in positionToGroup then 0 else 1
    {
      free := Ones(board.x, board.y);
      var todo := positionToGroup.Keys;
      while todo != {}
        invariant todo <= positionToGroup.Keys && IsGrid(free, board.x, board.y)
        invariant forall q | InBounds(board.x, board.y, q) ::
                    InGrid(free, q) && At(free, q) == if q in positionToGroup.Keys - todo then 0 else 1
        decreases |todo|
      {
        var q :| q in todo;
        GridCell(free, board.x, board.y, q);
        free := Put(free, q, 0);
        todo := todo - {q};
      }
    }

    /** The second loop of `calculate_free_map`. */
    method MarkLiberties(free: Grid, libs: set<Pos>, color: int) returns (r: Result<Grid>)
      requires Valid() && StonesIndexed(board.board, board.x, board.y, groupSet, positionToGroup)
      requires libs == LibertiesIn(groupSet, groupSet.Keys)
      requires MarkedFree(free, board.board, board.x, board.y, board.ko, groupSet, positionToGroup, {}, color)
      ensures r.Err? <==> libs != {} && color != BLACK && color != WHITE
      ensures r.Ok? ==> MarkedFree(r.value, board.board, board.x, board.y, board.ko, groupSet, positionToGroup, libs, color)
    {
      var g := free;
      var x, y, ko, index := board.x, board.y, board.ko, positionToGroup;
      ghost var b := board.board;
      var todo := libs;
      ghost var done: set<Pos> := {};
      while todo != {}
        invariant todo <= libs && done == libs - todo
        invariant color != BLACK && color != WHITE ==> todo == libs
        invariant MarkedFree(g, b, x, y, ko, groupSet, index, done, color)
        decreases |todo|
      {
        var q :| q in todo;
        var e;
        e, g := MarkStep(g, done, q, color);
        if e.Err? {
          return e;
        }
        done, todo := done + {q}, todo - {q};
      }
      r := Ok(g);
    }

    /** One round of the second loop of `calculate_free_map`: the error of
        `__is_empty_free`, or the map with its verdict at the liberty `q`. */
    method MarkStep(g: Grid, ghost done: set<Pos>, q: Pos, color: int) returns (e: Result<Grid>, g': Grid)
      requires Valid() && StonesIndexed(board.board, board.x, board.y, groupSet, positionToGroup)
      requires q in LibertiesIn(groupSet, groupSet.Keys) && InBounds(board.x, board.y, q)
      requires MarkedFree(g, board.board, board.x, board.y, board.ko, groupSet, positionToGroup, done, color)
      ensures e.Err? <==> color != BLACK && color != WHITE
      ensures e.Ok? ==> MarkedFree(g', board.board, board.x, board.y, board.ko, groupSet, positionToGroup, done + {q}, color)
    {
      var b, x, y, ko, index := board.board, board.x, board.y, board.ko, positionToGroup;
      StonesIndexedNeighbors(b, x, y, groupSet, index, q);
      var r := IsEmptyFree(q, color);
      if r.Err? {
        return Err(r.error), g;
      }
      FreeCellLiberty(b, x, y, ko, groupSet, index, q, color);
      g' := MarkOne(g, b, x, y, ko, groupSet, index, done, q, color, r.value);
      e := Ok(g');
    }

    /** `get_all_liberty`: every liberty of every registered group. */
    method GetAllLiberty() returns (r: set<Pos>)
      requires Valid()
      ensures r == LibertiesIn(groupSet, groupSet.Keys)
      ensures forall q | q in r :: InBounds(board.x, board.y, q)
    {
      r := AllLibertiesOf(groupSet);
    }

    /** `get_neighbors_groups`: the groups of the stones next to `p`. */
    method GetNeighborsGroups(p: Pos) returns (r: set<nat>)
      requires Valid() && InBounds(board.x, board.y, p)
      ensures r == NeighborIds(board.board, board.x, board.y, positionToGroup, p)
    {
      NeighborsInGrid(board.board, board.x, board.y, p);
      r := CollectIds(board.board, positionToGroup, Neighbors(board.x, board.y, p));
    }
  }

  /** The group loop of `__is_empty_free`: stop at an opponent group with
      one liberty; otherwise count the friendly groups and their liberties. */
  method ScanNeighborGroups(groupSet: map<nat, Group>, ids: set<nat>, c: Stone) returns (found: bool, sameCount: nat, sameLiberty: nat)
    requires ids <= groupSet.Keys
    ensures found <==> OpponentInAtari(groupSet, ids, c)
    ensures !found ==> sameCount == |SameIds(groupSet, ids, c)| &&
                       sameLiberty == LibertySum(groupSet, SameIds(groupSet, ids, c))
  {
    sameCount, sameLiberty := 0, 0;
    var todo := ids;
    assert SameIds(groupSet, ids - ids, c) == {};
    while todo != {}
      invariant todo <= ids
      invariant sameCount == |SameIds(groupSet, ids - todo, c)|
      invariant sameLiberty == LibertySum(groupSet, SameIds(groupSet, ids - todo, c))
      invariant forall id | id in ids - todo :: !(groupSet[id].color == Opp(c) && |groupSet[id].liberties| == 1)
      decreases |todo|
    {
      var id :| id in todo;
      var grp := groupSet[id];
      SameStep(groupSet, ids, todo, id, c);
      if grp.color == c {
        LibertySumAdd(groupSet, SameIds(groupSet, ids - todo, c), id);
        sameCount, sameLiberty := sameCount + 1, sameLiberty + |grp.liberties|;
      } else if |grp.liberties| == 1 {
        return true, sameCount, sameLiberty;
      }
      todo := todo - {id};
    }
    assert ids - todo == ids;
    found := false;
  }

  // ---------------------------------------------------------------------
  // The scan of `get_valid_moves` and `add_stone`, and captures
  // ---------------------------------------------------------------------

  /** One cell of the scan: a stone not yet visited is flood-filled and its
      component registered under a new identity. */
  method CollectAt(board: Board, groups: Groups, h: set<Pos>, p: Pos) returns (h': set<Pos>)
    requires groups.Valid() && groups.board == board && InBounds(board.x, board.y, p)
    requires WholeComponents(board.board, board.x, board.y, h)
    requires PartitionOf(board.board, board.x, board.y, groups.groupSet, groups.positionToGroup, h)
    modifies groups
    ensures groups.Valid()
    ensures h <= h' && (At(board.board, p) != EMPTY ==> p in h')
    ensures WholeComponents(board.board, board.x, board.y, h')
    ensures PartitionOf(board.board, board.x, board.y, groups.groupSet, groups.positionToGroup, h')
  {
    var g, x, y := board.board, board.x, board.y;
    GridCell(g, x, y, p);
    var c := At(g, p);
    if c != EMPTY && p !in h {
      var id := groups.NewId();
      var comp;
      comp, h' := FillComponent(g, x, y, h, p, groups.groupSet, groups.positionToGroup, id);
      groups.AddGroup(id, Group(c, comp, {}));
    } else {
      h' := h;
    }
  }

  /** The flood fill of one scanned stone, with what registering its
      component under the fresh identity `id` does to the partition. */
  method FillComponent(g: Grid, x: int, y: int, h: set<Pos>, p: Pos,
                       groups: map<nat, Group>, index: map<Pos, nat>, id: nat)
    returns (comp: set<Pos>, h': set<Pos>)
    requires IsGrid(g, x, y) && InBounds(x, y, p) && InGrid(g, p) && At(g, p) != EMPTY && p !in h
    requires WholeComponents(g, x, y, h) && PartitionOf(g, x, y, groups, index, h) && id !in groups
    ensures comp == Component(g, x, y, p) && h' == h + comp && p in h'
    ensures OnBoard(x, y, Group(At(g, p), comp, {}))
    ensures WholeComponents(g, x, y, h')
    ensures PartitionOf(g, x, y, groups[id := Group(At(g, p), comp, {})], index + map m | m in comp :: id, h')
  {
    comp, h' := FloodFrom(g, x, y, p, h);
    ComponentBasics(g, x, y, p);
    ComponentFacts(g, x, y, p);
    ComponentUnvisited(g, x, y, h, p);
    PartitionAdd(g, x, y, groups, index, h, id, p);
  }

  /** Once every stone has been visited, the visited cells are the stones. */
  lemma ScannedAll(g: Grid, x: int, y: int, h: set<Pos>)
    requires IsGrid(g, x, y) && WholeComponents(g, x, y, h)
    requires forall q | InBounds(x, y, q) && At(g, q) != EMPTY :: q in h
    ensures h == Stones(g, x, y)
  {
  }

  /** Recomputing every record's liberties keeps the registry a partition. */
  lemma PartitionWithLiberties(g: Grid, x: int, y: int, groups: map<nat, Group>, index: map<Pos, nat>)
    requires IsGrid(g, x, y) && Partition(g, x, y, groups, index)
    ensures Partition(g, x, y, WithLiberties(g, x, y, groups), index)
  {
  }

  /** The stones whose chain has no liberty. */
  ghost function Captured(g: Grid, x: int, y: int): (r: set<Pos>)
    requires IsGrid(g, x, y)
    ensures forall q :: q in r <==> q in Stones(g, x, y) && LibertiesOf(g, x, y, Component(g, x, y, q)) == {}
  {
    set q | q in Stones(g, x, y) && LibertiesOf(g, x, y, Component(g, x, y, q)) == {}
  }

  /** The captured stones of colour `c` that are a chain on their own. */
  ghost function CapturedSingles(g: Grid, x: int, y: int, c: Stone): (r: set<Pos>)
    requires IsGrid(g, x, y)
    ensures forall q :: q in r <==> q in Captured(g, x, y) && At(g, q) == c && Component(g, x, y, q) == {q}
  {
    set q | q in Captured(g, x, y) && At(g, q) == c && Component(g, x, y, q) == {q}
  }

  /** The ko sets after the captures on `g`: each colour gains the points of
      its own captured single stones. */
  ghost function KoAfter(ko: map<Stone, set<Pos>>, g: Grid, x: int, y: int): (r: map<Stone, set<Pos>>)
    requires IsGrid(g, x, y)
    ensures r.Keys == ko.Keys
    ensures forall c | c in r :: r[c] == ko[c] + CapturedSingles(g, x, y, c)
  {
    map c | c in ko :: ko[c] + CapturedSingles(g, x, y, c)
  }

  /** The grid `add_stone` leaves: `color` placed at `p`, then every
      captured chain removed, then `p` set to `color` again. */
  ghost function AfterAddStone(g: Grid, x: int, y: int, p: Pos, color: Stone): (r: Grid)
    requires IsGrid(g, x, y) && InBounds(x, y, p)
    ensures IsGrid(r, x, y)
  {
    GridCell(g, x, y, p);
    var g1 := Put(g, p, color);
    Put(Clear(g1, Captured(g1, x, y)), p, color)
  }

  /** What `add_stone` does to each point: the placed stone is on the
      board, every other stone of a chain left without a liberty is
      removed, and every other point keeps its value. */
  lemma AddStoneEffect(g: Grid, x: int, y: int, p: Pos, color: Stone)
    requires IsGrid(g, x, y) && InBounds(x, y, p)
    ensures InGrid(g, p) && IsGrid(Put(g, p, color), x, y)
    ensures var r := AfterAddStone(g, x, y, p, color);
            InGrid(r, p) && At(r, p) == color &&
            forall q | InBounds(x, y, q) && q != p ::
              InGrid(r, q) && InGrid(g, q) &&
              At(r, q) == if q in Captured(Put(g, p, color), x, y) then EMPTY else At(g, q)
  {
    GridCell(g, x, y, p);
    var g1 := Put(g, p, color);
    var r := AfterAddStone(g, x, y, p, color);
    forall q | InBounds(x, y, q) && q != p
      ensures InGrid(r, q) && InGrid(g, q) && At(r, q) == if q in Captured(g1, x, y) then EMPTY else At(g, q)
    {
      GridCell(g, x, y, q);
    }
  }

  /** A stone whose chain keeps a liberty once `color` is placed at `p`
      survives `add_stone` unchanged; one whose chain has none is removed. */
  lemma AddStoneKeepsLiving(g: Grid, x: int, y: int, p: Pos, color: Stone, q: Pos)
    requires IsGrid(g, x, y) && InBounds(x, y, p) && InBounds(x, y, q) && q != p
    ensures InGrid(g, p) && InGrid(g, q) && IsGrid(Put(g, p, color), x, y)
    ensures var g1 := Put(g, p, color);
            var r := AfterAddStone(g, x, y, p, color);
            InGrid(r, q) &&
            (At(g, q) != EMPTY && LibertiesOf(g1, x, y, Component(g1, x, y, q)) != {} ==> At(r, q) == At(g, q)) &&
            (At(g, q) != EMPTY && LibertiesOf(g1, x, y, Component(g1, x, y, q)) == {} ==> At(r, q) == EMPTY)
  {
    AddStoneEffect(g, x, y, p, color);
    GridCell(g, x, y, q);
  }

  /** With the registry a partition and its liberties exact, the dead
      records are exactly the captured chains. */
  lemma DeadAreCaptured(g: Grid, x: int, y: int, groups: map<nat, Group>, index: map<Pos, nat>,
                        ko: map<Stone, set<Pos>>)
    requires IsGrid(g, x, y) && Partition(g, x, y, groups, index)
    requires forall id | id in groups :: LibertiesExact(g, x, y, groups[id])
    ensures MembersIn(groups, DeadAmong(groups, groups.Keys)) == Captured(g, x, y)
    ensures KoAfterKill(ko, groups, DeadAmong(groups, groups.Keys)) == KoAfter(ko, g, x, y)
  {
    var dead := DeadAmong(groups, groups.Keys);
    forall q | q in Captured(g, x, y) ensures q in MembersIn(groups, dead) {
      assert q in index;
    }
    forall c | c in ko ensures SinglesIn(groups, dead, c) == CapturedSingles(g, x, y, c) {
      SinglesAreCaptured(g, x, y, groups, index, c);
    }
  }

  lemma SinglesAreCaptured(g: Grid, x: int, y: int, groups: map<nat, Group>, index: map<Pos, nat>, c: Stone)
    requires IsGrid(g, x, y) && Partition(g, x, y, groups, index)
    requires forall id | id in groups :: LibertiesExact(g, x, y, groups[id])
    ensures SinglesIn(groups, DeadAmong(groups, groups.Keys), c) == CapturedSingles(g, x, y, c)
  {
    var dead := DeadAmong(groups, groups.Keys);
    forall q | q in SinglesIn(groups, dead, c) ensures q in CapturedSingles(g, x, y, c) {
      var id :| id in dead && id in groups && groups[id].color == c && |groups[id].members| == 1 &&
                q in groups[id].members;
      Singleton(groups[id].members, q);
    }
    forall q | q in CapturedSingles(g, x, y, c) ensures q in SinglesIn(groups, dead, c) {
      assert q in index;
    }
  }

  /** A one-element set holding `q` is `{q}`. */
  lemma Singleton<T>(s: set<T>, q: T)
    requires |s| == 1 && q in s
    ensures s == {q}
  {
    assert |s - {q}| == 0;
  }

  // ---------------------------------------------------------------------
  // Legality in board terms
  // ---------------------------------------------------------------------

  /** The empty points next to some stone: the liberties of all groups. */
  ghost function AllLiberties(g: Grid, x: int, y: int): set<Pos>
    requires IsGrid(g, x, y)
  {
    LibertiesOf(g, x, y, Stones(g, x, y))
  }

  /** Playing `c` at `q` takes the last liberty of an adjacent opponent chain. */
  ghost predicate Captures(g: Grid, x: int, y: int, q: Pos, c: Stone)
    requires IsGrid(g, x, y) && InBounds(x, y, q)
  {
    exists n | n in Neighbors(x, y, q) :: InGrid(g, n) && At(g, n) == Opp(c) &&
                                          |LibertiesOf(g, x, y, Component(g, x, y, n))| == 1
  }

  /** Every adjacent chain of colour `c` has a single liberty. */
  ghost predicate FriendsInAtari(g: Grid, x: int, y: int, q: Pos, c: Stone)
    requires IsGrid(g, x, y) && InBounds(x, y, q)
  {
    forall n | n in Neighbors(x, y, q) && InGrid(g, n) && At(g, n) == c ::
      |LibertiesOf(g, x, y, Component(g, x, y, n))| == 1
  }

  /** The rule of `__is_empty_free` past ko, in terms of chains. */
  ghost predicate LegalRule(g: Grid, x: int, y: int, q: Pos, c: Stone)
    requires IsGrid(g, x, y) && InBounds(x, y, q)
  {
    Verdict(Captures(g, x, y, q, c), CountNeighbors(g, x, y, q, c), FriendsInAtari(g, x, y, q, c),
            IsAliveEye(g, x, y, q, c))
  }

  /** The value `get_valid_moves` puts at `q`: on a liberty of some chain,
      1 when `color` may play there; 0 on a stone; 1 on any other point. */
  ghost function ValidMovesAt(g: Grid, x: int, y: int, ko: map<Stone, set<Pos>>, q: Pos, color: int): int
    requires IsGrid(g, x, y) && InBounds(x, y, q) && BLACK in ko && WHITE in ko
  {
    GridCell(g, x, y, q);
    if q in AllLiberties(g, x, y) then
      (if (color == BLACK || color == WHITE) && q !in ko[color] && LegalRule(g, x, y, q, color) then 1 else 0)
    else if At(g, q) != EMPTY then 0
    else 1
  }

  /** The points of the legality map spelled out. */
  lemma ValidMovesRules(g: Grid, x: int, y: int, ko: map<Stone, set<Pos>>, q: Pos, c: Stone)
    requires IsGrid(g, x, y) && InBounds(x, y, q) && BLACK in ko && WHITE in ko
    ensures InGrid(g, q)
    ensures At(g, q) != EMPTY ==> ValidMovesAt(g, x, y, ko, q, c) == 0
    ensures At(g, q) == EMPTY && (forall n | n in Neighbors(x, y, q) :: InGrid(g, n) && At(g, n) == EMPTY) ==>
              ValidMovesAt(g, x, y, ko, q, c) == 1
    ensures q in AllLiberties(g, x, y) && q in ko[c] ==> ValidMovesAt(g, x, y, ko, q, c) == 0
    ensures q in AllLiberties(g, x, y) && q !in ko[c] && Captures(g, x, y, q, c) ==> ValidMovesAt(g, x, y, ko, q, c) == 1
    ensures q in AllLiberties(g, x, y) && !Captures(g, x, y, q, c) &&
              (IsSuicide(g, x, y, q, c) || IsAliveEye(g, x, y, q, c)) ==>
              ValidMovesAt(g, x, y, ko, q, c) == 0
  {
    GridCell(g, x, y, q);
    NeighborsInGrid(g, x, y, q);
    if At(g, q) == EMPTY && (forall n | n in Neighbors(x, y, q) :: InGrid(g, n) && At(g, n) == EMPTY) {
      assert q !in AllLiberties(g, x, y);
    }
  }

  /** With the registry a partition, every stone is indexed to a record. */
  lemma PartitionStonesIndexed(g: Grid, x: int, y: int, groups: map<nat, Group>, index: map<Pos, nat>)
    requires IsGrid(g, x, y) && Partition(g, x, y, groups, index)
    ensures StonesIndexed(g, x, y, groups, index)
  {
  }

  /** The free map the registry yields is the legality map of the board. */
  lemma FreeMapIsValidMoves(g: Grid, x: int, y: int, ko: map<Stone, set<Pos>>, groups: map<nat, Group>,
                            index: map<Pos, nat>, color: int)
    requires IsGrid(g, x, y) && BLACK in ko && WHITE in ko && Partition(g, x, y, groups, index)
    requires forall id | id in groups :: LibertiesExact(g, x, y, groups[id])
    ensures StonesIndexed(g, x, y, groups, index)
    ensures LibertiesIn(groups, groups.Keys) == AllLiberties(g, x, y)
    ensures forall q | InBounds(x, y, q) :: FreeCell(g, x, y, ko, groups, index, q, color) == ValidMovesAt(g, x, y, ko, q, color)
  {
    PartitionStonesIndexed(g, x, y, groups, index);
    AllLibertiesIn(g, x, y, groups, index);
    forall q | InBounds(x, y, q)
      ensures FreeCell(g, x, y, ko, groups, index, q, color) == ValidMovesAt(g, x, y, ko, q, color)
    {
      FreeCellIsValidMove(g, x, y, ko, groups, index, q, color);
    }
  }

  /** One point of `FreeMapIsValidMoves`. */
  lemma FreeCellIsValidMove(g: Grid, x: int, y: int, ko: map<Stone, set<Pos>>, groups: map<nat, Group>,
                            index: map<Pos, nat>, q: Pos, color: int)
    requires IsGrid(g, x, y) && BLACK in ko && WHITE in ko && Partition(g, x, y, groups, index)
    requires forall id | id in groups :: LibertiesExact(g, x, y, groups[id])
    requires StonesIndexed(g, x, y, groups, index) && LibertiesIn(groups, groups.Keys) == AllLiberties(g, x, y)
    requires InBounds(x, y, q)
    ensures FreeCell(g, x, y, ko, groups, index, q, color) == ValidMovesAt(g, x, y, ko, q, color)
  {
    GridCell(g, x, y, q);
    var v := ValidMovesAt(g, x, y, ko, q, color);
    if q in AllLiberties(g, x, y) {
      StonesIndexedNeighbors(g, x, y, groups, index, q);
      FreeCellLiberty(g, x, y, ko, groups, index, q, color);
      var e := EmptyFree(g, x, y, ko, groups, index, q, color);
      if color == BLACK || color == WHITE {
        PartitionNeighborRecords(g, x, y, groups, index, q);
        FreeRuleIsLegal(g, x, y, groups, index, q, color);
        assert e == if q in ko[color] then Ok(false) else Ok(LegalRule(g, x, y, q, color));
        assert v == if q !in ko[color] && LegalRule(g, x, y, q, color) then 1 else 0;
      } else {
        assert e.Err? && v == 0;
      }
    } else {
      FreeCellOther(g, x, y, ko, groups, index, q, color);
      assert q in index <==> q in Stones(g, x, y);
      assert v == if At(g, q) != EMPTY then 0 else 1;
    }
  }

  /** The liberties of all records are the empty points next to a stone. */
  lemma AllLibertiesIn(g: Grid, x: int, y: int, groups: map<nat, Group>, index: map<Pos, nat>)
    requires IsGrid(g, x, y) && Partition(g, x, y, groups, index)
    requires forall id | id in groups :: LibertiesExact(g, x, y, groups[id])
    ensures LibertiesIn(groups, groups.Keys) == AllLiberties(g, x, y)
  {
    forall q | q in AllLiberties(g, x, y) ensures q in LibertiesIn(groups, groups.Keys) {
      var m :| m in Stones(g, x, y) && Adjacent(m, q);
      assert m in index;
      assert q in LibertiesOf(g, x, y, groups[index[m]].members);
    }
    forall q | q in LibertiesIn(groups, groups.Keys) ensures q in AllLiberties(g, x, y) {
      var id :| id in groups && q in groups[id].liberties;
      var m :| m in groups[id].members && Adjacent(m, q);
      assert m in Stones(g, x, y);
    }
  }

  /** On an empty point, `FreeRule` over the registry is `LegalRule` over the chains. */
  lemma FreeRuleIsLegal(g: Grid, x: int, y: int, groups: map<nat, Group>, index: map<Pos, nat>, q: Pos, c: Stone)
    requires IsGrid(g, x, y) && InBounds(x, y, q) && NeighborRecords(g, x, y, groups, index, q)
    requires InGrid(g, q) && At(g, q) == EMPTY && NeighborsIndexed(g, x, y, groups, index, q)
    ensures FreeRule(g, x, y, groups, index, q, c) == LegalRule(g, x, y, q, c)
  {
    NeighborIdsRegistered(g, x, y, groups, index, q);
    var ids := NeighborIds(g, x, y, index, q);
    AtariIsCapture(g, x, y, groups, index, q, c);
    FriendsBridge(g, x, y, groups, index, q, c);
  }

  /** Every stone next to `q` is indexed to a record of its colour, whose
      liberties are those of the stone's chain and include `q`. */
  ghost predicate NeighborRecords(g: Grid, x: int, y: int, groups: map<nat, Group>, index: map<Pos, nat>, q: Pos)
    requires IsGrid(g, x, y) && InBounds(x, y, q)
  {
    forall n | n in Neighbors(x, y, q) && InGrid(g, n) && At(g, n) != EMPTY ::
      n in index && index[n] in groups && groups[index[n]].color == At(g, n) &&
      groups[index[n]].liberties == LibertiesOf(g, x, y, Component(g, x, y, n)) &&
      q in groups[index[n]].liberties
  }

  /** A partition with exact liberties holds the chains next to an empty point. */
  lemma PartitionNeighborRecords(g: Grid, x: int, y: int, groups: map<nat, Group>, index: map<Pos, nat>, q: Pos)
    requires IsGrid(g, x, y) && Partition(g, x, y, groups, index) && InBounds(x, y, q)
    requires forall id | id in groups :: LibertiesExact(g, x, y, groups[id])
    requires InGrid(g, q) && At(g, q) == EMPTY
    ensures NeighborRecords(g, x, y, groups, index, q)
  {
    forall n | n in Neighbors(x, y, q) && InGrid(g, n) && At(g, n) != EMPTY
      ensures n in index && index[n] in groups && groups[index[n]].color == At(g, n) &&
              groups[index[n]].liberties == LibertiesOf(g, x, y, Component(g, x, y, n)) &&
              q in groups[index[n]].liberties
    {
      assert n in Stones(g, x, y);
      var id := index[n];
      var grp := groups[id];
      assert n in grp.members && Adjacent(n, q);
      assert Component(g, x, y, n) == grp.members && LibertiesExact(g, x, y, grp);
    }
  }

  lemma AtariIsCapture(g: Grid, x: int, y: int, groups: map<nat, Group>, index: map<Pos, nat>, q: Pos, c: Stone)
    requires IsGrid(g, x, y) && InBounds(x, y, q) && NeighborRecords(g, x, y, groups, index, q)
    requires NeighborIds(g, x, y, index, q) <= groups.Keys
    ensures OpponentInAtari(groups, NeighborIds(g, x, y, index, q), c) == Captures(g, x, y, q, c)
  {
    if OpponentInAtari(groups, NeighborIds(g, x, y, index, q), c) {
      AtariCaptures(g, x, y, groups, index, q, c);
    }
    if Captures(g, x, y, q, c) {
      CaptureIsAtari(g, x, y, groups, index, q, c);
    }
  }

  /** An opponent chain in atari next to `q` is an opponent record in atari. */
  lemma CaptureIsAtari(g: Grid, x: int, y: int, groups: map<nat, Group>, index: map<Pos, nat>, q: Pos, c: Stone)
    requires IsGrid(g, x, y) && InBounds(x, y, q) && NeighborRecords(g, x, y, groups, index, q)
    requires NeighborIds(g, x, y, index, q) <= groups.Keys
    requires Captures(g, x, y, q, c)
    ensures OpponentInAtari(groups, NeighborIds(g, x, y, index, q), c)
  {
    var n :| n in Neighbors(x, y, q) && InGrid(g, n) && At(g, n) == Opp(c) &&
             |LibertiesOf(g, x, y, Component(g, x, y, n))| == 1;
    var id := index[n];
    assert id in NeighborIds(g, x, y, index, q);
    assert groups[id].color == Opp(c) && |groups[id].liberties| == 1;
  }

  /** An opponent record in atari next to `q` is an opponent chain in atari. */
  lemma AtariCaptures(g: Grid, x: int, y: int, groups: map<nat, Group>, index: map<Pos, nat>, q: Pos, c: Stone)
    requires IsGrid(g, x, y) && InBounds(x, y, q) && NeighborRecords(g, x, y, groups, index, q)
    requires NeighborIds(g, x, y, index, q) <= groups.Keys
    requires OpponentInAtari(groups, NeighborIds(g, x, y, index, q), c)
    ensures Captures(g, x, y, q, c)
  {
    var id :| id in NeighborIds(g, x, y, index, q) && groups[id].color == Opp(c) && |groups[id].liberties| == 1;
    var n :| n in Neighbors(x, y, q) && InGrid(g, n) && At(g, n) != EMPTY && n in index && index[n] == id;
    assert At(g, n) == Opp(c) && |LibertiesOf(g, x, y, Component(g, x, y, n))| == 1;
  }

  lemma FriendsBridge(g: Grid, x: int, y: int, groups: map<nat, Group>, index: map<Pos, nat>, q: Pos, c: Stone)
    requires IsGrid(g, x, y) && InBounds(x, y, q) && NeighborRecords(g, x, y, groups, index, q)
    requires NeighborIds(g, x, y, index, q) <= groups.Keys
    ensures var same := SameIds(groups, NeighborIds(g, x, y, index, q), c);
            (|same| == LibertySum(groups, same)) == FriendsInAtari(g, x, y, q, c)
  {
    var same := SameIds(groups, NeighborIds(g, x, y, index, q), c);
    FriendsHaveLiberty(g, x, y, groups, index, q, c);
    LibertySumBound(groups, same);
    FriendsAtari(g, x, y, groups, index, q, c);
  }

  /** Each friendly record next to `q` has `q` as a liberty. */
  lemma FriendsHaveLiberty(g: Grid, x: int, y: int, groups: map<nat, Group>, index: map<Pos, nat>, q: Pos, c: Stone)
    requires IsGrid(g, x, y) && InBounds(x, y, q) && NeighborRecords(g, x, y, groups, index, q)
    requires NeighborIds(g, x, y, index, q) <= groups.Keys
    ensures forall id | id in SameIds(groups, NeighborIds(g, x, y, index, q), c) :: |groups[id].liberties| >= 1
  {
    forall id | id in SameIds(groups, NeighborIds(g, x, y, index, q), c) ensures |groups[id].liberties| >= 1 {
      var n :| n in Neighbors(x, y, q) && InGrid(g, n) && At(g, n) != EMPTY && n in index && index[n] == id;
      NonEmpty(groups[id].liberties, q);
    }
  }

  /** A set holding `q` has at least one element. */
  lemma NonEmpty<T>(s: set<T>, q: T)
    requires q in s
    ensures |s| >= 1
  {
    assert s == (s - {q}) + {q};
  }

  /** The friendly records next to `q` have a single liberty each exactly
      when the friendly chains next to `q` do. */
  lemma FriendsAtari(g: Grid, x: int, y: int, groups: map<nat, Group>, index: map<Pos, nat>, q: Pos, c: Stone)
    requires IsGrid(g, x, y) && InBounds(x, y, q) && NeighborRecords(g, x, y, groups, index, q)
    requires NeighborIds(g, x, y, index, q) <= groups.Keys
    ensures (forall id | id in SameIds(groups, NeighborIds(g, x, y, index, q), c) :: |groups[id].liberties| == 1) <==>
            FriendsInAtari(g, x, y, q, c)
  {
    var same := SameIds(groups, NeighborIds(g, x, y, index, q), c);
    if forall id | id in same :: |groups[id].liberties| == 1 {
      forall n | n in Neighbors(x, y, q) && InGrid(g, n) && At(g, n) == c
        ensures |LibertiesOf(g, x, y, Component(g, x, y, n))| == 1
      {
        assert index[n] in same;
      }
    }
    if FriendsInAtari(g, x, y, q, c) {
      forall id | id in same ensures |groups[id].liberties| == 1 {
        var n :| n in Neighbors(x, y, q) && InGrid(g, n) && At(g, n) != EMPTY && n in index && index[n] == id;
      }
    }
  }
}
