/** The group records and the group registry of the incremental engine
    (group.py). A group record is a value; the operations that also touch
    the board take the board object. */
module IncrementalGroups {
  import opened GoRules
  import opened IncrementalBoard
  import GL = GameLogic

  /** Every point of `members` pointed at the record `id`. */
  function PointAt(members: set<Pos>, id: nat): (r: map<Pos, nat>)
    ensures r.Keys == members && forall m | m in r :: r[m] == id
  {
    map m | m in members :: id
  }

  // ---------------------------------------------------------------------
  // The operations of a group record (`Group`)
  // ---------------------------------------------------------------------

  /** `add_member`: the point joins the members and the stone is put down
      by `add_stone`, whose answer is not looked at; the neighbours of the
      point that are then empty join the liberties. */
  method AddMember(board: Board, grp: Group, p: Pos) returns (r: Group)
    requires board.Valid() && InBounds(board.x, board.y, p)
    modifies board
    ensures board.Valid() && board.ko == old(board.ko)
    ensures old(board.freeMap)[p] ==> board.board == Put(old(board.board), p, grp.color) &&
                                      board.freeMap == old(board.freeMap)[p := false]
    ensures !old(board.freeMap)[p] ==> board.board == old(board.board) && board.freeMap == old(board.freeMap)
    ensures r == Group(grp.color, grp.members + {p}, grp.liberties + LibertiesOf(board.board, board.x, board.y, {p}))
  {
    var placed := board.AddStone(p, grp.color);
    var libs := GL.AddEmptyNeighbors(board.board, board.x, board.y, p, grp.liberties);
    r := Group(grp.color, grp.members + {p}, libs);
  }

  /** A fresh record that gains its first member on a free point holds
      exactly that stone and its exact liberties. */
  lemma FirstMemberExact(g: Grid, x: int, y: int, p: Pos, c: Stone)
    requires IsGrid(g, x, y) && InBounds(x, y, p)
    ensures IsGrid(Put(g, p, c), x, y)
    ensures var r := Group(c, {} + {p}, {} + LibertiesOf(Put(g, p, c), x, y, {p}));
            LibertiesExact(Put(g, p, c), x, y, r) && r.liberties !! r.members
  {
    LibertiesAfterPut(g, x, y, p, c, {p});
  }

  /** Every point of `all` taken off `todo` is now mapped to `v`. */
  lemma MarkOne<V>(base: map<Pos, V>, all: set<Pos>, todo: set<Pos>, p: Pos, v: V)
    requires todo <= all && p in todo
    ensures (base + map m | m in all - todo :: v)[p := v] == base + map m | m in all - (todo - {p}) :: v
  {
  }

  /** The free marks `kill_self` leaves on the members of a group: free,
      unless the group is a single stone. */
  function FreedBy(members: set<Pos>): (r: map<Pos, bool>)
    ensures r.Keys == members && forall q | q in r :: r[q] == (|members| != 1)
  {
    map q | q in members :: |members| != 1
  }

  /** `kill_self`: every member is emptied and marked free; a single-stone
      group then marks its point not free and leaves it in the ko set of
      its own colour. */
  method KillSelf(board: Board, grp: Group)
    requires board.Valid() && forall m | m in grp.members :: InBounds(board.x, board.y, m)
    modifies board
    ensures board.Valid()
    ensures board.board == Clear(old(board.board), grp.members)
    ensures board.freeMap == old(board.freeMap) + FreedBy(grp.members)
    ensures board.ko == if |grp.members| == 1 then old(board.ko)[grp.color := old(board.ko)[grp.color] + grp.members]
                        else old(board.ko)
  {
    ghost var f0 := board.freeMap;
    RemoveMembers(board, grp);
    FreeMembers(board, grp.members);
    if |grp.members| == 1 {
      var m :| m in grp.members;
      GL.Singleton(grp.members, m);
      FreeMapSingle(f0, grp.members, m);
      board.UnsetFree(m);
      board.SetKo(m, grp.color);
    } else {
      FreeMapMany(f0, grp.members);
    }
  }

  lemma FreeMapSingle(f0: map<Pos, bool>, members: set<Pos>, m: Pos)
    requires members == {m}
    ensures (f0 + map q | q in members :: true)[m := false] == f0 + FreedBy(members)
  {
  }

  lemma FreeMapMany(f0: map<Pos, bool>, members: set<Pos>)
    requires |members| != 1
    ensures f0 + (map q | q in members :: true) == f0 + FreedBy(members)
  {
  }

  /** The first loop of `kill_self`: `remove_stone` on every member. */
  method RemoveMembers(board: Board, grp: Group)
    requires board.Valid() && forall m | m in grp.members :: InBounds(board.x, board.y, m)
    modifies board
    ensures board.Valid() && board.ko == old(board.ko) && board.freeMap == old(board.freeMap)
    ensures board.board == Clear(old(board.board), grp.members)
  {
    ghost var g0 := board.board;
    ClearNone(g0);
    var todo := grp.members;
    assert grp.members - todo == {};
    while todo != {}
      invariant todo <= grp.members && board.Valid() && board.ko == old(board.ko) && board.freeMap == old(board.freeMap)
      invariant board.board == Clear(g0, grp.members - todo)
      decreases |todo|
    {
      var m :| m in todo;
      GridCell(g0, board.x, board.y, m);
      board.RemoveStone(m, grp.color);
      ClearMore(g0, grp.members - todo, m);
      GL.TakeOne(grp.members, todo, m);
      todo := todo - {m};
    }
    assert grp.members - todo == grp.members;
  }

  /** The second loop of `kill_self`: `set_free` on every member. */
  method FreeMembers(board: Board, members: set<Pos>)
    requires board.Valid() && forall m | m in members :: InBounds(board.x, board.y, m)
    modifies board
    ensures board.Valid() && board.ko == old(board.ko) && board.board == old(board.board)
    ensures board.freeMap == old(board.freeMap) + map m | m in members :: true
  {
    ghost var f0 := board.freeMap;
    var todo := members;
    assert f0 + (map m | m in members - todo :: true) == f0;
    while todo != {}
      invariant todo <= members && board.Valid() && board.ko == old(board.ko) && board.board == old(board.board)
      invariant board.freeMap == f0 + map m | m in members - todo :: true
      decreases |todo|
    {
      var m :| m in todo;
      MarkOne(f0, members, todo, m, true);
      board.SetFree(m);
      todo := todo - {m};
    }
    assert members - todo == members;
  }

  // ---------------------------------------------------------------------
  // The legality rule (`__is_empty_free`)
  // ---------------------------------------------------------------------

  /** `__is_empty_free` past its ko and colour checks, in registry terms,
      with board.py's living-eye test (`IsAliveEyeAsWritten`). */
  ghost function FreeRuleAsWritten(g: Grid, x: int, y: int, groups: map<nat, Group>, index: map<Pos, nat>,
                                   p: Pos, c: Stone): bool
    requires IsGrid(g, x, y) && InBounds(x, y, p)
    requires GL.NeighborsIndexed(g, x, y, groups, index, p)
  {
    var ids := GL.NeighborIds(g, x, y, index, p);
    GL.NeighborIdsRegistered(g, x, y, groups, index, p);
    var same := GL.SameIds(groups, ids, c);
    GL.Verdict(GL.OpponentInAtari(groups, ids, c),
               CountNeighbors(g, x, y, p, c),
               |same| == GL.LibertySum(groups, same),
               IsAliveEyeAsWritten(g, x, y, p, c))
  }

  /** `__is_empty_free`: a colour other than BLACK or WHITE is an error,
      a ko point of the colour is not free, and otherwise the rule decides. */
  ghost function EmptyFreeAsWritten(g: Grid, x: int, y: int, ko: map<Stone, set<Pos>>, groups: map<nat, Group>,
                                    index: map<Pos, nat>, p: Pos, color: int): Result<bool>
    requires IsGrid(g, x, y) && InBounds(x, y, p) && BLACK in ko && WHITE in ko
    requires GL.NeighborsIndexed(g, x, y, groups, index, p)
  {
    if color != BLACK && color != WHITE then Err(WrongColor)
    else if p in ko[color] then Ok(false)
    else Ok(FreeRuleAsWritten(g, x, y, groups, index, p, color))
  }

  /** `__is_empty_free` fails exactly on a colour other than BLACK or WHITE. */
  lemma EmptyFreeColour(g: Grid, x: int, y: int, ko: map<Stone, set<Pos>>, groups: map<nat, Group>,
                        index: map<Pos, nat>, p: Pos, color: int)
    requires IsGrid(g, x, y) && InBounds(x, y, p) && BLACK in ko && WHITE in ko
    requires GL.NeighborsIndexed(g, x, y, groups, index, p)
    ensures EmptyFreeAsWritten(g, x, y, ko, groups, index, p, color).Err? <==> color != BLACK && color != WHITE
  {
  }

  /** The cases of `__is_empty_free` for a colour one by one: ko first,
      then a capture, then suicide and the living eye. */
  lemma EmptyFreeCases(g: Grid, x: int, y: int, ko: map<Stone, set<Pos>>, groups: map<nat, Group>,
                       index: map<Pos, nat>, p: Pos, c: Stone)
    requires IsGrid(g, x, y) && InBounds(x, y, p) && BLACK in ko && WHITE in ko
    requires GL.NeighborsIndexed(g, x, y, groups, index, p)
    ensures GL.NeighborIds(g, x, y, index, p) <= groups.Keys
    ensures p in ko[c] ==> EmptyFreeAsWritten(g, x, y, ko, groups, index, p, c) == Ok(false)
    ensures p !in ko[c] && GL.OpponentInAtari(groups, GL.NeighborIds(g, x, y, index, p), c) ==>
              EmptyFreeAsWritten(g, x, y, ko, groups, index, p, c) == Ok(true)
    ensures !GL.OpponentInAtari(groups, GL.NeighborIds(g, x, y, index, p), c) &&
            (IsSuicide(g, x, y, p, c) || IsAliveEyeAsWritten(g, x, y, p, c)) ==>
              EmptyFreeAsWritten(g, x, y, ko, groups, index, p, c) == Ok(false)
  {
    GL.NeighborIdsRegistered(g, x, y, groups, index, p);
    var count := CountNeighbors(g, x, y, p, c);
    assert IsSuicide(g, x, y, p, c) <==> count.diff == count.total;
  }

  /** The rule as written and game_logic.py's rule differ only through the
      living-eye test. */
  lemma AsWrittenOnlyEyeDiffers(g: Grid, x: int, y: int, ko: map<Stone, set<Pos>>, groups: map<nat, Group>,
                                index: map<Pos, nat>, p: Pos, color: int)
    requires IsGrid(g, x, y) && InBounds(x, y, p) && BLACK in ko && WHITE in ko
    requires GL.NeighborsIndexed(g, x, y, groups, index, p)
    ensures (color == BLACK || color == WHITE) ==>
              IsAliveEyeAsWritten(g, x, y, p, color) == GL.IsAliveEye(g, x, y, p, color) ==>
              EmptyFreeAsWritten(g, x, y, ko, groups, index, p, color) == GL.EmptyFree(g, x, y, ko, groups, index, p, color)
  {
    if (color == BLACK || color == WHITE) && IsAliveEyeAsWritten(g, x, y, p, color) == GL.IsAliveEye(g, x, y, p, color) {
      GL.NeighborIdsRegistered(g, x, y, groups, index, p);
      var ids := GL.NeighborIds(g, x, y, index, p);
      var same := GL.SameIds(groups, ids, color);
      assert FreeRuleAsWritten(g, x, y, groups, index, p, color)
          == GL.Verdict(GL.OpponentInAtari(groups, ids, color), CountNeighbors(g, x, y, p, color),
                        |same| == GL.LibertySum(groups, same), GL.IsAliveEye(g, x, y, p, color))
          == GL.FreeRule(g, x, y, groups, index, p, color);
      if p in ko[color] {
        assert EmptyFreeAsWritten(g, x, y, ko, groups, index, p, color) == Ok(false);
        assert GL.EmptyFree(g, x, y, ko, groups, index, p, color) == Ok(false);
      } else {
        assert EmptyFreeAsWritten(g, x, y, ko, groups, index, p, color) == Ok(FreeRuleAsWritten(g, x, y, groups, index, p, color));
        assert GL.EmptyFree(g, x, y, ko, groups, index, p, color) == Ok(GL.FreeRule(g, x, y, groups, index, p, color));
      }
    }
  }

  /** The two living-eye tests do differ. Take a point away from the edge
      and below the second row whose neighbours and diagonals all hold
      `color` except the up-right diagonal, with the cell two rows up and
      one column left not holding it (a 5 by 5 board, (2, 2), Black around
      it except at (1, 3), is one). game_logic.py's test counts seven of
      eight and calls the point an eye. board.py's reads that cell from the
      entry of the point above and does not, so when nothing else decides
      only the incremental engine lets `color` fill the point. */
  lemma AliveEyeTestsDiffer(g: Grid, x: int, y: int, p: Pos, color: int)
    requires IsGrid(g, x, y) && 2 <= p.0 < x - 1 && 1 <= p.1 < y - 1
    requires At(g, (p.0, p.1 + 1)) == color && At(g, (p.0 + 1, p.1)) == color
    requires At(g, (p.0, p.1 - 1)) == color && At(g, (p.0 - 1, p.1)) == color
    requires At(g, (p.0 + 1, p.1 + 1)) == color && At(g, (p.0 + 1, p.1 - 1)) == color
    requires At(g, (p.0 - 1, p.1 - 1)) == color
    requires At(g, (p.0 - 1, p.1 + 1)) != color && At(g, (p.0 - 2, p.1 - 1)) != color
    ensures GL.IsAliveEye(g, x, y, p, color)
    ensures !IsAliveEyeAsWritten(g, x, y, p, color)
  {
    AliveEyeAsWrittenInterior(g, x, y, p, color);
    var cells := InteriorEyeCells(x, y, p);
    NeighborsInGrid(g, x, y, p);
    DiagonalsInGrid(g, x, y, p);
    CountColourEight(g, cells, color);
    assert Hit(g, cells[0], color) == 1;
    assert Hit(g, cells[1], color) == 1;
    assert Hit(g, cells[2], color) == 1;
    assert Hit(g, cells[3], color) == 1;
    assert Hit(g, cells[4], color) == 1;
    assert Hit(g, cells[5], color) == 1;
    assert Hit(g, cells[6], color) == 1;
    assert Hit(g, cells[7], color) == 0;
  }

  /** Away from the edge, game_logic.py's test counts the four neighbours
      and then the four diagonals, in table order. */
  lemma InteriorEyeCells(x: int, y: int, p: Pos) returns (cells: seq<Pos>)
    requires 1 <= p.0 < x - 1 && 1 <= p.1 < y - 1
    ensures cells == Neighbors(x, y, p) + Diagonals(x, y, p)
    ensures cells == [(p.0, p.1 + 1), (p.0 + 1, p.1), (p.0, p.1 - 1), (p.0 - 1, p.1),
                      (p.0 + 1, p.1 + 1), (p.0 + 1, p.1 - 1), (p.0 - 1, p.1 - 1), (p.0 - 1, p.1 + 1)]
  {
    InteriorNeighbors(x, y, p);
    InteriorDiagonals(x, y, p);
    cells := NeighborCells(p) + DiagonalCells(p);
  }

  /** The verdict `update_free_map` writes at a liberty `q`. */
  ghost function FreeAt(g: Grid, x: int, y: int, ko: map<Stone, set<Pos>>, groups: map<nat, Group>,
                        index: map<Pos, nat>, q: Pos, c: Stone): bool
    requires IsGrid(g, x, y) && InBounds(x, y, q) && BLACK in ko && WHITE in ko
    requires GL.StonesIndexed(g, x, y, groups, index)
  {
    GL.StonesIndexedNeighbors(g, x, y, groups, index, q);
    EmptyFreeAsWritten(g, x, y, ko, groups, index, q, c) == Ok(true)
  }

  /** A record once `p` is taken from its liberties. */
  function LosesPoint(grp: Group, p: Pos): Group
  {
    Group(grp.color, grp.members, grp.liberties - {p})
  }

  // ---------------------------------------------------------------------
  // The group registry (`Groups`)
  // ---------------------------------------------------------------------

  /** What `merge_groups(list, color)` makes of the registry `groups`,
      `index` with next identity `nid`: a single group is registered as it
      is; otherwise a fresh group of `color` pooling the members and the
      liberties (less the members) replaces them all. */
  ghost predicate MergedInto(list: map<nat, Group>, color: Stone, groups: map<nat, Group>, index: map<Pos, nat>, nid: nat,
                             groups': map<nat, Group>, index': map<Pos, nat>, nid': nat)
  {
    (|list| == 1 ==> exists id :: id in list && nid' == nid && groups' == groups[id := list[id]] &&
                                  index' == if id in groups then index else index + PointAt(list[id].members, id)) &&
    (|list| != 1 ==> nid' == nid + 1 &&
                     groups' == (groups - list.Keys)[nid :=
                       Group(color, GL.MembersIn(list, list.Keys), GL.LibertiesIn(list, list.Keys) - GL.MembersIn(list, list.Keys))] &&
                     index' == index + PointAt(GL.MembersIn(list, list.Keys), nid))
  }

  /** The registry of the incremental engine: group records by identity,
      the group of each registered position, and the next fresh identity. */
  class Groups {
    const board: Board
    var groupSet: map<nat, Group>
    var positionToGroup: map<Pos, nat>
    var nextId: nat

    ghost predicate Valid()
      reads this, board
    {
      board.Valid() &&
      (forall id | id in groupSet :: id < nextId && GL.OnBoard(board.x, board.y, groupSet[id])) &&
      (forall q | q in positionToGroup :: InBounds(board.x, board.y, q))
    }

    constructor(board: Board)
      requires board.Valid()
      ensures Valid() && this.board == board
      ensures groupSet == map[] && positionToGroup == map[] && nextId == 0
    {
      this.board := board;
      groupSet := map[];
      positionToGroup := map[];
      nextId := 0;
    }

    /** A new identity, as creating a `Group` object gives one. */
    method NewId() returns (id: nat)
      requires Valid()
      modifies this
      ensures Valid() && id == old(nextId) && id !in groupSet && nextId == id + 1
      ensures groupSet == old(groupSet) && positionToGroup == old(positionToGroup)
    {
      id := nextId;
      nextId := nextId + 1;
    }

    /** `add_group`: register a group not yet registered and point each of
        its members at it; re-adding a registered group changes nothing. */
    method AddGroup(id: nat, grp: Group)
      requires Valid() && id < nextId && GL.OnBoard(board.x, board.y, grp)
      requires id in groupSet ==> groupSet[id] == grp
      modifies this
      ensures Valid() && nextId == old(nextId)
      ensures groupSet == old(groupSet)[id := grp]
      ensures positionToGroup == if id in old(groupSet) then old(positionToGroup)
                                 else old(positionToGroup) + PointAt(grp.members, id)
    {
      groupSet, positionToGroup := GL.Register(groupSet, positionToGroup, id, grp);
    }

    /** `remove_group`: forget the positions of a registered group's
        members (a position already forgotten is skipped) and unregister it. */
    method RemoveGroup(id: nat)
      requires Valid()
      modifies this
      ensures Valid() && nextId == old(nextId)
      ensures groupSet == old(groupSet) - {id}
      ensures positionToGroup == if id in old(groupSet) then old(positionToGroup) - old(groupSet)[id].members
                                 else old(positionToGroup)
    {
      groupSet, positionToGroup := GL.Unregister(groupSet, positionToGroup, id);
    }

    /** `delete_group`: `remove_group`, then `kill_self` on the record. */
    method DeleteGroup(id: nat, grp: Group)
      requires Valid() && GL.OnBoard(board.x, board.y, grp)
      requires id in groupSet ==> groupSet[id] == grp
      modifies this, board
      ensures Valid() && nextId == old(nextId)
      ensures groupSet == old(groupSet) - {id}
      ensures positionToGroup == if id in old(groupSet) then old(positionToGroup) - grp.members
                                 else old(positionToGroup)
      ensures board.board == Clear(old(board.board), grp.members)
      ensures board.freeMap == old(board.freeMap) + FreedBy(grp.members)
      ensures board.ko == if |grp.members| == 1 then old(board.ko)[grp.color := old(board.ko)[grp.color] + grp.members]
                          else old(board.ko)
    {
      RemoveGroup(id);
      KillSelf(board, grp);
    }

    /** `liberty_positions.remove` on a registered group, which must have
        that liberty. */
    method TakeLiberty(id: nat, p: Pos)
      requires Valid() && id in groupSet && p in groupSet[id].liberties
      modifies this
      ensures Valid() && nextId == old(nextId) && positionToGroup == old(positionToGroup)
      ensures groupSet == old(groupSet)[id := LosesPoint(old(groupSet)[id], p)]
    {
      groupSet := groupSet[id := LosesPoint(groupSet[id], p)];
    }

    /** `find_group`: the group of a position, if it has one. */
    function FindGroup(p: Pos): (r: Option<nat>)
      reads this
      ensures r.Some? <==> p in positionToGroup
      ensures r.Some? ==> r.value == positionToGroup[p]
    {
      if p in positionToGroup then Some(positionToGroup[p]) else None
    }

    /** `merge_groups`: a single group is only registered; otherwise a new
        group of `color` absorbs them all, each of them is unregistered, and
        the new group is registered in their place. */
    method MergeGroups(list: map<nat, Group>, color: Stone)
      requires Valid()
      requires forall id | id in list :: id < nextId && GL.OnBoard(board.x, board.y, list[id]) &&
                                        (id in groupSet ==> groupSet[id] == list[id])
      modifies this
      ensures Valid()
      ensures MergedInto(list, color, old(groupSet), old(positionToGroup), old(nextId), groupSet, positionToGroup, nextId)
    {
      if |list| == 1 {
        var id :| id in list;
        AddGroup(id, list[id]);
      } else {
        var mergedId := NewId();
        var merged;
        merged, groupSet, positionToGroup := GL.AbsorbAll(list, color, groupSet, positionToGroup);
        GL.MergedOnBoard(board.x, board.y, list, color);
        AddGroup(mergedId, merged);
        GL.IndexOverride(old(positionToGroup), GL.MembersIn(old(groupSet), list.Keys), GL.MembersIn(list, list.Keys), mergedId);
      }
    }

    /** `update_groups_liberty`: every registered group gets its exact
        liberties. */
    method UpdateGroupsLiberty()
      requires Valid()
      modifies this
      ensures Valid() && nextId == old(nextId) && positionToGroup == old(positionToGroup)
      ensures groupSet == GL.WithLiberties(board.board, board.x, board.y, old(groupSet))
    {
      groupSet := GL.UpdateAllLiberties(board.board, board.x, board.y, groupSet);
    }

    /** `get_all_liberty`: every liberty of every registered group. */
    method GetAllLiberty() returns (r: set<Pos>)
      requires Valid()
      ensures r == GL.LibertiesIn(groupSet, groupSet.Keys)
      ensures forall q | q in r :: InBounds(board.x, board.y, q)
    {
      r := GL.AllLibertiesOf(groupSet);
    }

    /** `get_neighbors_groups`: the groups of the stones next to `p`; every
        such stone must have a group. */
    method GetNeighborsGroups(p: Pos) returns (r: set<nat>)
      requires Valid() && InBounds(board.x, board.y, p)
      requires GL.NeighborsIndexed(board.board, board.x, board.y, groupSet, positionToGroup, p)
      ensures r == GL.NeighborIds(board.board, board.x, board.y, positionToGroup, p)
      ensures r <= groupSet.Keys
    {
      NeighborsInGrid(board.board, board.x, board.y, p);
      r := GL.CollectIds(board.board, positionToGroup, Neighbors(board.x, board.y, p));
      GL.NeighborIdsRegistered(board.board, board.x, board.y, groupSet, positionToGroup, p);
    }

    /** `__is_empty_free`: may `color` play at the empty point `p`? */
    method IsEmptyFree(p: Pos, color: int) returns (r: Result<bool>)
      requires Valid() && InBounds(board.x, board.y, p)
      requires GL.NeighborsIndexed(board.board, board.x, board.y, groupSet, positionToGroup, p)
      ensures r == EmptyFreeAsWritten(board.board, board.x, board.y, board.ko, groupSet, positionToGroup, p, color)
    {
      if color == BLACK {
        if p in board.ko[BLACK] {
          return Ok(false);
        }
      } else if color == WHITE {
        if p in board.ko[WHITE] {
          return Ok(false);
        }
      } else {
        return Err(WrongColor);
      }
      var b := FreeRuleAt(p, color);
      r := Ok(b);
    }

    /** The rest of `__is_empty_free`. */
    method FreeRuleAt(p: Pos, c: Stone) returns (b: bool)
      requires Valid() && InBounds(board.x, board.y, p)
      requires GL.NeighborsIndexed(board.board, board.x, board.y, groupSet, positionToGroup, p)
      ensures b == FreeRuleAsWritten(board.board, board.x, board.y, groupSet, positionToGroup, p, c)
    {
      var g, x, y := board.board, board.x, board.y;
      var count := CountNeighbors(g, x, y, p, c);
      var ids := GetNeighborsGroups(p);
      var found, sameCount, sameLiberty := GL.ScanNeighborGroups(groupSet, ids, c);
      if found {
        return true;
      }
      var eye := IsAliveEyeAsWritten(g, x, y, p, c);
      b := GL.Verdict(found, count, sameCount == sameLiberty, eye);
    }

    /** `update_free_map`: every liberty of every group is marked free
        exactly when `color` may play there; every other entry stays. */
    method UpdateFreeMap(color: Stone)
      requires Valid() && GL.StonesIndexed(board.board, board.x, board.y, groupSet, positionToGroup)
      modifies board
      ensures Valid() && board.board == old(board.board) && board.ko == old(board.ko)
      ensures board.freeMap.Keys == old(board.freeMap).Keys
      ensures forall q | q in board.freeMap ::
                board.freeMap[q] == if q in GL.LibertiesIn(groupSet, groupSet.Keys)
                                    then FreeAt(board.board, board.x, board.y, board.ko, groupSet, positionToGroup, q, color)
                                    else old(board.freeMap)[q]
    {
      var libs := GetAllLiberty();
      ghost var g, x, y, ko, f0 := board.board, board.x, board.y, board.ko, board.freeMap;
      ghost var gs, index := groupSet, positionToGroup;
      var todo := libs;
      while todo != {}
        invariant todo <= libs && Valid() && board.board == g && board.ko == ko
        invariant board.freeMap.Keys == f0.Keys
        invariant forall q {:trigger board.freeMap[q]} | q in board.freeMap ::
                    board.freeMap[q] == if q in libs && q !in todo then FreeAt(g, x, y, ko, gs, index, q, color) else f0[q]
        decreases |todo|
      {
        var q :| q in todo;
        ghost var f1 := board.freeMap;
        MarkFree(q, color);
        todo := todo - {q};
        ghost var f2 := board.freeMap;
        assert f2 == f1[q := FreeAt(g, x, y, ko, gs, index, q, color)];
        forall r {:trigger f2[r]} | r in f2
          ensures f2[r] == if r in libs && r !in todo then FreeAt(g, x, y, ko, gs, index, r, color) else f0[r]
        {
          if r != q {
            assert f2[r] == f1[r];
          }
        }
      }
      forall q {:trigger board.freeMap[q]} | q in board.freeMap
        ensures board.freeMap[q] == if q in GL.LibertiesIn(groupSet, groupSet.Keys)
                                    then FreeAt(board.board, board.x, board.y, board.ko, groupSet, positionToGroup, q, color)
                                    else old(board.freeMap)[q]
      {
        assert q in libs <==> q in GL.LibertiesIn(groupSet, groupSet.Keys);
      }
    }

    /** One round of `update_free_map`. */
    method MarkFree(q: Pos, color: Stone)
      requires Valid() && InBounds(board.x, board.y, q)
      requires GL.StonesIndexed(board.board, board.x, board.y, groupSet, positionToGroup)
      modifies board
      ensures Valid() && board.board == old(board.board) && board.ko == old(board.ko)
      ensures board.freeMap == old(board.freeMap)[q := FreeAt(board.board, board.x, board.y, board.ko, groupSet, positionToGroup, q, color)]
    {
      GL.StonesIndexedNeighbors(board.board, board.x, board.y, groupSet, positionToGroup, q);
      var r := IsEmptyFree(q, color);
      if r == Ok(true) {
        board.SetFree(q);
      } else {
        board.UnsetFree(q);
      }
    }
  }
}
