/** The incremental game (go.py): one board, its group registry, the colour
    to move and a running score, all updated move by move. */
module IncrementalGame {
  import opened GoRules
  import opened IncrementalBoard
  import opened IncrementalGroups
  import opened IncrementalCapture
  import opened IncrementalMove
  import GL = GameLogic

  // ---------------------------------------------------------------------
  // Eyes among the liberties, for `get_score`
  // ---------------------------------------------------------------------

  /** The points of `libs` that are an eye of `color`. */
  function EyePoints(g: Grid, x: int, y: int, libs: set<Pos>, color: Stone): set<Pos>
    requires IsGrid(g, x, y) && forall q | q in libs :: InBounds(x, y, q)
  {
    set q | q in libs && IsEye(g, x, y, q, color)
  }

  /** Taking one more point into account adds it exactly when it is an eye. */
  lemma EyePointsAdd(g: Grid, x: int, y: int, done: set<Pos>, q: Pos, color: Stone)
    requires IsGrid(g, x, y) && InBounds(x, y, q) && forall t | t in done :: InBounds(x, y, t)
    ensures EyePoints(g, x, y, done + {q}, color) ==
            EyePoints(g, x, y, done, color) + if IsEye(g, x, y, q, color) then {q} else {}
  {
  }

  /** So it adds one eye exactly when it is one. */
  lemma EyePointsStep(g: Grid, x: int, y: int, done: set<Pos>, q: Pos, color: Stone)
    requires IsGrid(g, x, y) && InBounds(x, y, q) && q !in done && forall t | t in done :: InBounds(x, y, t)
    ensures |EyePoints(g, x, y, done + {q}, color)| == |EyePoints(g, x, y, done, color)| + if IsEye(g, x, y, q, color) then 1 else 0
  {
    EyePointsAdd(g, x, y, done, q, color);
    assert q !in EyePoints(g, x, y, done, color);
  }

  /** Off a one-point board no point is counted as an eye for both colours. */
  lemma EyesApart(g: Grid, x: int, y: int, libs: set<Pos>)
    requires IsGrid(g, x, y) && (forall q | q in libs :: InBounds(x, y, q)) && (x > 1 || y > 1)
    ensures EyePoints(g, x, y, libs, WHITE) * EyePoints(g, x, y, libs, BLACK) == {}
  {
    forall q | q in EyePoints(g, x, y, libs, WHITE) * EyePoints(g, x, y, libs, BLACK)
      ensures false
    {
      EyeOfBoth(g, x, y, q);
    }
  }

  /** Moving a point from the pending set to the handled set keeps them a split of `libs`. */
  lemma TakeOne(libs: set<Pos>, todo: set<Pos>, done: set<Pos>, q: Pos)
    requires done <= libs && todo == libs - done && q in todo
    ensures done + {q} <= libs && todo - {q} == libs - (done + {q}) && q !in done
  {
  }

  /** The loop of `get_score`: starting from `base`, add one to a colour's
      score for each point of `libs` that is an eye of that colour. */
  method CountEyes(g: Grid, x: int, y: int, libs: set<Pos>, base: Score) returns (r: Score)
    requires IsGrid(g, x, y) && forall q | q in libs :: InBounds(x, y, q)
    ensures r == Score(base.white + |EyePoints(g, x, y, libs, WHITE)|,
                       base.black + |EyePoints(g, x, y, libs, BLACK)|)
  {
    r := base;
    var todo, done := libs, {};
    while todo != {}
      invariant done <= libs && todo == libs - done
      invariant r.white == base.white + |EyePoints(g, x, y, done, WHITE)|
      invariant r.black == base.black + |EyePoints(g, x, y, done, BLACK)|
      decreases |todo|
    {
      var q :| q in todo;
      var w := if IsEye(g, x, y, q, WHITE) then 1 else 0;
      var b := if IsEye(g, x, y, q, BLACK) then 1 else 0;
      EyePointsStep(g, x, y, done, q, WHITE);
      EyePointsStep(g, x, y, done, q, BLACK);
      r := Score(r.white + w, r.black + b);
      TakeOne(libs, todo, done, q);
      todo, done := todo - {q}, done + {q};
    }
    assert done == libs;
  }

  /** The empty points of the board that are an eye of `color`. */
  function EmptyEyes(g: Grid, x: int, y: int, color: Stone): (r: set<Pos>)
    requires IsGrid(g, x, y)
    ensures forall q :: q in r <==> InBounds(x, y, q) && InGrid(g, q) && At(g, q) == EMPTY && IsEye(g, x, y, q, color)
  {
    set q | q in Positions(x, y) && InGrid(g, q) && At(g, q) == EMPTY && IsEye(g, x, y, q, color)
  }

  /** Off a one-point board, an empty eye touches a stone, so it is a
      liberty of that stone's record: the eyes among all recorded liberties
      are exactly the empty eyes of the board. */
  lemma EyesAmongLiberties(g: Grid, x: int, y: int, groups: map<nat, Group>, index: map<Pos, nat>, color: Stone)
    requires IsGrid(g, x, y) && (x > 1 || y > 1)
    requires Indexed(g, x, y, groups, index) && Exact(g, x, y, groups)
    ensures forall q | q in GL.LibertiesIn(groups, groups.Keys) :: InBounds(x, y, q)
    ensures EyePoints(g, x, y, GL.LibertiesIn(groups, groups.Keys), color) == EmptyEyes(g, x, y, color)
  {
    var libs := GL.LibertiesIn(groups, groups.Keys);
    forall q | q in libs
      ensures InBounds(x, y, q) && InGrid(g, q) && At(g, q) == EMPTY
    {
      var id :| id in groups && q in groups[id].liberties;
      assert LibertiesExact(g, x, y, groups[id]);
    }
    forall q | q in EmptyEyes(g, x, y, color)
      ensures q in libs
    {
      var n := SomeNeighbor(x, y, q);
      assert n in Stones(g, x, y);
      var id := index[n];
      assert id in groups && n in groups[id].members;
      assert LibertiesExact(g, x, y, groups[id]);
      assert q in groups[id].liberties;
    }
  }

  /** Every area point of `c` is either a stone of `c` or an empty eye of `c`, never both. */
  lemma AreaSplit(g: Grid, x: int, y: int, c: Stone)
    requires IsGrid(g, x, y)
    ensures |AreaPoints(g, x, y, c)| == |StoneSet(g, x, y, c)| + |EmptyEyes(g, x, y, c)|
  {
    var area, stones, eyes := AreaPoints(g, x, y, c), StoneSet(g, x, y, c), EmptyEyes(g, x, y, c);
    forall q | q in area
      ensures q in stones + eyes
    {
      GridCell(g, x, y, q);
    }
    forall q | q in stones + eyes
      ensures q in area
    {
      GridCell(g, x, y, q);
    }
    assert area == stones + eyes;
    assert stones * eyes == {};
  }

  /** Off a one-point board, `get_score` of a game whose registry and
      running score describe its board is the area score of that board:
      stones plus empty eyes, the count game_logic.py makes cell by cell. */
  lemma ScoreIsArea(g: Grid, x: int, y: int, free: map<Pos, bool>, groups: map<nat, Group>,
                    index: map<Pos, nat>, score: Score)
    ensures (x > 1 || y > 1) && Consistent(g, x, y, free, groups, index) && Counted(g, x, y, score) ==>
            (forall q | q in GL.LibertiesIn(groups, groups.Keys) :: InBounds(x, y, q)) &&
            var libs := GL.LibertiesIn(groups, groups.Keys);
            Score(score.white + |EyePoints(g, x, y, libs, WHITE)|, score.black + |EyePoints(g, x, y, libs, BLACK)|) ==
            Score(|AreaPoints(g, x, y, WHITE)|, |AreaPoints(g, x, y, BLACK)|)
  {
    if (x > 1 || y > 1) && Consistent(g, x, y, free, groups, index) && Counted(g, x, y, score) {
      EyesAmongLiberties(g, x, y, groups, index, WHITE);
      EyesAmongLiberties(g, x, y, groups, index, BLACK);
      AreaSplit(g, x, y, WHITE);
      AreaSplit(g, x, y, BLACK);
    }
  }

  // ---------------------------------------------------------------------
  // The game (`Game`)
  // ---------------------------------------------------------------------

  class Game {
    const board: Board
    const groups: Groups
    /** The colour to move. */
    var currColor: Stone
    /** The running score, `{WHITE: w, BLACK: b}`. */
    var score: Score

    ghost predicate Valid()
      reads this`score, board, groups
    {
      groups.board == board && groups.Valid() &&
      Consistent(board.board, board.x, board.y, board.freeMap, groups.groupSet, groups.positionToGroup) &&
      Counted(board.board, board.x, board.y, score)
    }

    /** A new game: an empty board, no groups, BLACK to move, no score. */
    constructor(x: int, y: int)
      requires x > 0 && y > 0
      ensures Valid() && board.x == x && board.y == y
      ensures board.board == EmptyGrid(x, y) && groups.groupSet == map[]
      ensures currColor == BLACK && score == Score(0, 0)
    {
      var b := new Board(x, y);
      board := b;
      groups := new Groups(b);
      currColor := BLACK;
      score := Score(0, 0);
      new;
      assert Stones(board.board, x, y) == {};
      assert StoneSet(board.board, x, y, WHITE) == {} && StoneSet(board.board, x, y, BLACK) == {};
    }

    /** The neighbour loop of `__move`: the groups `find_group` reports for
        the neighbours of `p`. */
    method FindNeighborGroups(p: Pos) returns (r: set<nat>)
      requires board.Valid() && InBounds(board.x, board.y, p)
      ensures r == FoundAmong(groups.positionToGroup, Neighbors(board.x, board.y, p))
    {
      var ns := Neighbors(board.x, board.y, p);
      r := {};
      for k := 0 to |ns|
        invariant r == FoundAmong(groups.positionToGroup, ns[..k])
      {
        FoundAmongSnoc(groups.positionToGroup, ns, k);
        var found := groups.FindGroup(ns[k]);
        if found.Some? {
          r := r + {found.value};
        }
      }
      assert ns[..|ns|] == ns;
    }

    /** The part of the state the capture loop changes, with the loop's
        own two variables. */
    ghost function Now(same: set<nat>, killed: bool): Snapshot
      reads this`score, board, groups
    {
      Snapshot(board.board, board.freeMap, board.ko, groups.groupSet, groups.positionToGroup, score, same, killed)
    }

    /** One round of the capture loop of `__move` on the record `id`. */
    method CaptureStep(id: nat, p: Pos, color: Stone, same: set<nat>, killed: bool) returns (same': set<nat>, killed': bool)
      requires groups.board == board && groups.Valid() && id in groups.groupSet
      requires p in groups.groupSet[id].liberties
      modifies this, board, groups
      ensures groups.Valid() && currColor == old(currColor) && groups.nextId == old(groups.nextId)
      ensures Now(same', killed') == Round(old(Now(same, killed)), id, p, color)
    {
      ghost var before := Now(same, killed);
      var grp := groups.groupSet[id];
      same', killed' := same, killed;
      if grp.color == Opp(color) {
        groups.TakeLiberty(id, p);
        var reduced := LosesPoint(grp, p);
        if reduced.liberties == {} {
          killed' := true;
          Kill(id, reduced, p, color);
          RoundKills(before, id, p, color);
        } else {
          RoundWeakens(before, id, p, color);
        }
      } else {
        same' := same + {id};
      }
    }

    /** The capture itself: a ko point for a single stone, the score, and
        `delete_group`. */
    method Kill(id: nat, reduced: Group, p: Pos, color: Stone)
      requires groups.board == board && groups.Valid() && id in groups.groupSet && groups.groupSet[id] == reduced
      requires reduced.color == Opp(color)
      modifies this, board, groups
      ensures groups.Valid() && currColor == old(currColor) && groups.nextId == old(groups.nextId)
      ensures board.board == Clear(old(board.board), reduced.members)
      ensures board.freeMap == old(board.freeMap) + FreedBy(reduced.members)
      ensures board.ko == KoOnCapture(old(board.ko), p, color, reduced.members)
      ensures groups.groupSet == old(groups.groupSet) - {id}
      ensures groups.positionToGroup == old(groups.positionToGroup) - reduced.members
      ensures score == old(score).Add(Opp(color), -|reduced.members|)
    {
      if |reduced.members| == 1 {
        board.SetKo(p, color);
      }
      score := score.Add(Opp(color), -|reduced.members|);
      groups.DeleteGroup(id, reduced);
    }

    /** Where the capture loop stands: the records of `seen` are done, in
        that order, those of `todo` are not. */
    ghost predicate Looping(start: Snapshot, ids: set<nat>, todo: set<nat>, seen: seq<nat>, p: Pos, color: Stone,
                            same: set<nat>, killed: bool)
      reads this, board, groups
    {
      todo <= ids && Elems(seen) == ids - todo && Runnable(start, seen) &&
      groups.board == board && groups.Valid() && Now(same, killed) == Rounds(start, seen, p, color)
    }

    /** One turn of the capture loop: some record still to do. */
    method CaptureNext(ghost start: Snapshot, ids: set<nat>, todo: set<nat>, ghost seen: seq<nat>, p: Pos, color: Stone,
                       same: set<nat>, killed: bool)
      returns (todo': set<nat>, ghost seen': seq<nat>, same': set<nat>, killed': bool)
      requires Looping(start, ids, todo, seen, p, color, same, killed) && todo != {}
      requires Ready(start.groups, start.index, ids, p, board.x, board.y)
      modifies this, board, groups
      ensures Looping(start, ids, todo', seen', p, color, same', killed') && todo' < todo
      ensures currColor == old(currColor) && groups.nextId == old(groups.nextId)
    {
      var id :| id in todo;
      RoundsSnoc(start, seen, id, p, color);
      same', killed' := CaptureStep(id, p, color, same, killed);
      seen' := seen + [id];
      todo' := todo - {id};
    }

    /** The capture loop of `__move` over the neighbour groups `ids`, in
        whatever order the set yields them. */
    method CaptureLoop(ids: set<nat>, p: Pos, color: Stone) returns (same: set<nat>, killed: bool, ghost seen: seq<nat>)
      requires groups.board == board && groups.Valid()
      requires Ready(groups.groupSet, groups.positionToGroup, ids, p, board.x, board.y)
      modifies this, board, groups
      ensures groups.Valid() && currColor == old(currColor) && groups.nextId == old(groups.nextId)
      ensures Runnable(old(Now({}, false)), seen) && Elems(seen) == ids
      ensures Now(same, killed) == Rounds(old(Now({}, false)), seen, p, color)
    {
      ghost var start := Now({}, false);
      seen := [];
      same, killed := {}, false;
      var todo := ids;
      while todo != {}
        invariant Looping(start, ids, todo, seen, p, color, same, killed)
        invariant currColor == old(currColor) && groups.nextId == old(groups.nextId)
        decreases todo
      {
        todo, seen, same, killed := CaptureNext(start, ids, todo, seen, p, color, same, killed);
      }
    }

    /** The start of `__move`: a new group, and `add_member` placing its
        stone on the free point `p`. */
    method Place(p: Pos, color: Stone) returns (nid: nat, grp: Group)
      requires groups.board == board && groups.Valid() && InBounds(board.x, board.y, p) && board.freeMap[p]
      modifies board, groups
      ensures groups.Valid() && currColor == old(currColor)
      ensures nid == old(groups.nextId) && groups.nextId == nid + 1
      ensures Now({}, false) == Placed(old(Now({}, false)), board.x, board.y, p, color)
      ensures grp == NewGroup(old(board.board), board.x, board.y, p, color)
    {
      nid := groups.NewId();
      grp := AddMember(board, Group(color, {}, {}), p);
    }

    /** `merge_groups` on the friends met and the new group. */
    method MergeStep(ghost st: Snapshot, nid: nat, grp: Group, same: set<nat>, p: Pos, color: Stone)
      requires groups.board == board && groups.Valid() && IsGrid(st.grid, board.x, board.y) && InBounds(board.x, board.y, p)
      requires forall id | id in st.groups :: id < nid && GL.OnBoard(board.x, board.y, st.groups[id])
      requires groups.nextId == nid + 1 && grp == NewGroup(st.grid, board.x, board.y, p, color)
      requires groups.groupSet == AfterCaptures(st.groups, AroundIds(board.x, board.y, st.index, p), p, color)
      requires groups.positionToGroup == st.index - Captured(st.groups, AroundIds(board.x, board.y, st.index, p), p, color)
      requires same == GL.SameIds(st.groups, AroundIds(board.x, board.y, st.index, p), color)
      modifies groups
      ensures unchanged(this, board) && groups.Valid() && groups.nextId == MergedId(same, nid) + 1
      ensures groups.groupSet == SettledGroups(st, board.x, board.y, nid, p, color)
      ensures groups.positionToGroup == MovedIndex(st, board.x, board.y, nid, p, color)
    {
      ghost var x, y, gs2, idx2 := board.x, board.y, groups.groupSet, groups.positionToGroup;
      var list := MergeList(groups.groupSet, same, nid, grp);
      NewGroupOnBoard(st.grid, x, y, p, color);
      MergeListFits(st.groups, x, y, nid, p, color, AroundIds(x, y, st.index, p), grp);
      groups.MergeGroups(list, color);
      assert MergedInto(list, color, gs2, idx2, nid + 1, groups.groupSet, groups.positionToGroup, groups.nextId);
      MergeOutcome(st, x, y, nid, p, color, gs2, idx2, same, grp, groups.groupSet, groups.positionToGroup, groups.nextId);
    }

    /** `update_groups_liberty` after a capture. */
    method Relib(ghost st: Snapshot, nid: nat, killed: bool, p: Pos, color: Stone)
      requires groups.board == board && groups.Valid() && IsGrid(st.grid, board.x, board.y) && InBounds(board.x, board.y, p)
      requires board.board == MovedGrid(st, board.x, board.y, p, color)
      requires groups.groupSet == SettledGroups(st, board.x, board.y, nid, p, color)
      requires killed == (DeadAt(st.groups, AroundIds(board.x, board.y, st.index, p), p, color) != {})
      modifies groups
      ensures unchanged(this, board) && groups.Valid() && groups.nextId == old(groups.nextId) && groups.positionToGroup == old(groups.positionToGroup)
      ensures groups.groupSet == MovedGroups(st, board.x, board.y, nid, p, color)
    {
      if killed {
        groups.UpdateGroupsLiberty();
      }
    }

    /** `update_free_map(opponent)` and the point added to the mover's
        score: the free map is refreshed at every liberty of a group. */
    method Refresh(p: Pos, color: Stone)
      requires groups.board == board && groups.Valid() && IsGrid(board.board, board.x, board.y)
      requires BLACK in board.ko && WHITE in board.ko
      requires GL.StonesIndexed(board.board, board.x, board.y, groups.groupSet, groups.positionToGroup)
      requires forall q | q in GL.LibertiesIn(groups.groupSet, groups.groupSet.Keys) :: InBounds(board.x, board.y, q)
      modifies this, board
      ensures groups.Valid() && currColor == old(currColor) && board.board == old(board.board) && board.ko == old(board.ko)
      ensures groups.groupSet == old(groups.groupSet) && groups.positionToGroup == old(groups.positionToGroup)
      ensures groups.nextId == old(groups.nextId) && score == old(score).Add(color, 1)
      ensures board.freeMap == Refreed(board.board, board.x, board.y, board.ko, groups.groupSet, groups.positionToGroup,
                                       old(board.freeMap), Opp(color))
    {
      ghost var f2 := board.freeMap;
      groups.UpdateFreeMap(Opp(color));
      RefreedIs(board.board, board.x, board.y, board.ko, groups.groupSet, groups.positionToGroup, f2, Opp(color), board.freeMap);
      score := score.Add(color, 1);
    }

    /** The merge in `__move(p, color)`, once the captures are done: merge
        the friends met, then refresh the liberties when something was
        captured. */
    method Settle(ghost st: Snapshot, nid: nat, grp: Group, same: set<nat>, killed: bool, p: Pos, color: Stone)
      requires groups.board == board && groups.Valid() && Playable(st, board.x, board.y, nid, p)
      requires groups.nextId == nid + 1 && grp == NewGroup(st.grid, board.x, board.y, p, color)
      requires CapturedTo(st, board.x, board.y, p, color, board.board, board.freeMap, board.ko,
                          groups.groupSet, groups.positionToGroup, score, same, killed)
      modifies groups
      ensures unchanged(this, board) && groups.Valid() && groups.nextId == MergedId(same, nid) + 1
      ensures board.board == MovedGrid(st, board.x, board.y, p, color)
      ensures groups.groupSet == MovedGroups(st, board.x, board.y, nid, p, color)
      ensures groups.positionToGroup == MovedIndex(st, board.x, board.y, nid, p, color)
    {
      MergeStep(st, nid, grp, same, p, color);
      Relib(st, nid, killed, p, color);
    }

    /** The end of `__move(p, color)`: refresh the free points and count
        the new stone. */
    method Finish(ghost st: Snapshot, nid: nat, p: Pos, color: Stone)
      requires groups.board == board && groups.Valid()
      requires Merged(st, board.x, board.y, nid, p, color, board.board, board.freeMap, board.ko,
                      groups.groupSet, groups.positionToGroup, score)
      modifies this, board
      ensures Valid() && currColor == old(currColor) && groups.nextId == old(groups.nextId)
      ensures MovedTo(st, board.x, board.y, nid, p, color,
                      board.board, board.freeMap, board.ko, groups.groupSet, groups.positionToGroup, score)
    {
      ghost var x, y := board.x, board.y;
      ghost var s0 := score;  // the score before the new stone is counted
      ghost var g, f0, ko, gs, ix := board.board, board.freeMap, board.ko, groups.groupSet, groups.positionToGroup;
      RefreshReady(st, x, y, nid, p, color, g, f0, ko, gs, ix, s0);
      Refresh(p, color);
      RefreshDone(st, x, y, nid, p, color, g, f0, ko, gs, ix, s0, board.freeMap, score);
    }

    /** The first half of `__move(p, color)` on a free point: place the
        stone in a new group, find the groups next to it, take the liberty
        `p` from the opponent's and capture those left without one. */
    method Capture(p: Pos, color: Stone) returns (nid: nat, grp: Group, same: set<nat>, killed: bool)
      requires Valid() && InBounds(board.x, board.y, p) && board.freeMap[p]
      modifies this, board, groups
      ensures groups.board == board && groups.Valid() && currColor == old(currColor)
      ensures nid == old(groups.nextId) && groups.nextId == nid + 1 && grp == NewGroup(old(board.board), board.x, board.y, p, color)
      ensures CapturedTo(old(Now({}, false)), board.x, board.y, p, color, board.board, board.freeMap, board.ko,
                         groups.groupSet, groups.positionToGroup, score, same, killed)
    {
      ghost var st := Now({}, false);
      ghost var x, y := board.x, board.y;
      assert Playable(st, x, y, groups.nextId, p);
      nid, grp := Place(p, color);
      ghost var placed := Now({}, false);
      var ids := FindNeighborGroups(p);
      AroundReady(st, x, y, nid, p);
      ghost var seen;
      same, killed, seen := CaptureLoop(ids, p, color);
      RoundsClosed(placed, seen, p, color);
      CaptureDone(st, x, y, p, color, placed, Now(same, killed));
    }

    /** `__move(p, color)` on a free point: place the stone, take the
        liberty `p` from the groups met and capture those left without one,
        merge the friends met, then refresh liberties and free points. */
    method MoveAs(p: Pos, color: Stone)
      requires Valid() && InBounds(board.x, board.y, p) && board.freeMap[p]
      modifies this, board, groups
      ensures Valid() && currColor == old(currColor)
      ensures MovedTo(old(Now({}, false)), board.x, board.y, old(groups.nextId), p, color,
                      board.board, board.freeMap, board.ko, groups.groupSet, groups.positionToGroup, score)
      ensures groups.nextId == MergedId(GL.SameIds(old(groups.groupSet), AroundIds(board.x, board.y, old(groups.positionToGroup), p), color),
                                        old(groups.nextId)) + 1
    {
      ghost var st := Now({}, false);
      assert Playable(st, board.x, board.y, groups.nextId, p);
      var nid, grp, same, killed := Capture(p, color);
      Settle(st, nid, grp, same, killed, p, color);
      Finish(st, nid, p, color);
    }

    /** `move(p)`: `__move` for the colour to move, then the turn passes;
        the move is always reported as made. */
    method Move(p: Pos) returns (ok: bool)
      requires Valid() && InBounds(board.x, board.y, p) && board.freeMap[p]
      modifies this, board, groups
      ensures ok && Valid() && currColor == Opp(old(currColor))
      ensures MovedTo(old(Now({}, false)), board.x, board.y, old(groups.nextId), p, old(currColor),
                      board.board, board.freeMap, board.ko, groups.groupSet, groups.positionToGroup, score)
    {
      ghost var st := Now({}, false);
      var color := currColor;
      Pass();
      assert Now({}, false) == st;
      MoveAs(p, color);
      ok := true;
    }

    /** The turn passes to the other colour; nothing else changes. */
    method Pass()
      requires Valid()
      modifies this`currColor
      ensures Valid() && currColor == Opp(old(currColor))
    {
      currColor := Opp(currColor);
    }

    /** `is_movable`: some point is marked free. */
    method IsMovable() returns (b: bool)
      requires Valid()
      ensures b <==> board.FreePoints() != {}
    {
      var n := board.CountFree();
      b := n > 0;
    }

    /** `get_score`: the running score, plus one for each liberty of a group
        that is an eye of that colour. */
    method GetScore() returns (r: Score)
      requires groups.board == board && groups.Valid()
      ensures forall q | q in GL.LibertiesIn(groups.groupSet, groups.groupSet.Keys) :: InBounds(board.x, board.y, q)
      ensures var libs := GL.LibertiesIn(groups.groupSet, groups.groupSet.Keys);
              r == Score(score.white + |EyePoints(board.board, board.x, board.y, libs, WHITE)|,
                         score.black + |EyePoints(board.board, board.x, board.y, libs, BLACK)|)
      ensures (board.x > 1 || board.y > 1) &&
              Consistent(board.board, board.x, board.y, board.freeMap, groups.groupSet, groups.positionToGroup) &&
              Counted(board.board, board.x, board.y, score) ==>
                r == Score(|AreaPoints(board.board, board.x, board.y, WHITE)|, |AreaPoints(board.board, board.x, board.y, BLACK)|)
    {
      var g, x, y := board.board, board.x, board.y;
      var libs := groups.GetAllLiberty();
      r := CountEyes(g, x, y, libs, score);
      ScoreIsArea(g, x, y, board.freeMap, groups.groupSet, groups.positionToGroup, score);
    }
  }
}
