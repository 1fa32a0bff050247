/** Why one move of the incremental engine (go.py, `__move`) keeps the
    registry describing the board: the lemmas behind `Game.MoveAs`, on
    values. */
module IncrementalMove {
  import opened GoRules
  import opened IncrementalGroups
  import opened IncrementalCapture
  import GL = GameLogic

  /** The groups `find_group` reports for the neighbours of `p`. */
  function AroundIds(x: int, y: int, index: map<Pos, nat>, p: Pos): set<nat>
    requires InBounds(x, y, p)
  {
    FoundAmong(index, Neighbors(x, y, p))
  }

  /** What holds before `__move(p, c)`: the registry describes the board,
      every identity is below `nid`, and `p` is empty. */
  ghost predicate Playable(st: Snapshot, x: int, y: int, nid: nat, p: Pos)
  {
    Consistent(st.grid, x, y, st.free, st.groups, st.index) && InBounds(x, y, p) && At(st.grid, p) == EMPTY &&
    BLACK in st.ko && WHITE in st.ko &&
    forall id | id in st.groups :: id < nid && GL.OnBoard(x, y, st.groups[id])
  }

  /** The state once `add_member` has put the stone of `c` at `p`. */
  function Placed(st: Snapshot, x: int, y: int, p: Pos, c: Stone): (r: Snapshot)
    requires IsGrid(st.grid, x, y) && InBounds(x, y, p)
    ensures IsGrid(r.grid, x, y)
  {
    GridCell(st.grid, x, y, p);
    LibertiesAfterPut(st.grid, x, y, p, c, {});
    st.(grid := Put(st.grid, p, c), free := st.free[p := false])
  }

  /** The groups met around `p` are registered and have `p` as a liberty. */
  lemma AroundReady(st: Snapshot, x: int, y: int, nid: nat, p: Pos)
    requires Playable(st, x, y, nid, p)
    ensures Ready(st.groups, st.index, AroundIds(x, y, st.index, p), p, x, y)
  {
    var g, ids := st.grid, AroundIds(x, y, st.index, p);
    forall id | id in ids ensures id in st.groups && p in st.groups[id].liberties {
      var n :| n in Neighbors(x, y, p) && n in st.index && st.index[n] == id;
      assert n in st.groups[id].members;
      assert LibertiesExact(g, x, y, st.groups[id]);
      GridCell(g, x, y, p);
    }
  }

  /** Every group with `p` as a liberty is met around `p`. */
  lemma AroundComplete(st: Snapshot, x: int, y: int, nid: nat, p: Pos, id: nat)
    requires Playable(st, x, y, nid, p) && id in st.groups && p in st.groups[id].liberties
    ensures id in AroundIds(x, y, st.index, p)
  {
    var g := st.grid;
    assert LibertiesExact(g, x, y, st.groups[id]);
    var m :| m in st.groups[id].members && Adjacent(m, p);
    assert InGrid(g, m);
    GridCell(g, x, y, m);
    assert m in Neighbors(x, y, p);
  }

  /** The stones captured are opponent stones, and not `p`. */
  lemma CapturedOpponent(st: Snapshot, x: int, y: int, nid: nat, p: Pos, c: Stone, ids: set<nat>)
    requires Playable(st, x, y, nid, p)
    ensures Captured(st.groups, ids, p, c) <= StoneSet(st.grid, x, y, Opp(c))
    ensures p !in Captured(st.groups, ids, p, c)
  {
    forall q | q in Captured(st.groups, ids, p, c) ensures q in StoneSet(st.grid, x, y, Opp(c)) && q != p {
      var id :| id in DeadAt(st.groups, ids, p, c) && id in st.groups && q in st.groups[id].members;
      assert InGrid(st.grid, q) && At(st.grid, q) == st.groups[id].color;
      GridCell(st.grid, x, y, q);
    }
  }

  /** A record the captures leave keeps its colour and members, and loses
      `p` from its liberties when it is an opponent group met around `p`. */
  lemma Survivor(groups: map<nat, Group>, ids: set<nat>, p: Pos, c: Stone, id: nat)
    requires id in groups && id !in DeadAt(groups, ids, p, c)
    ensures id in AfterCaptures(groups, ids, p, c)
    ensures var r := AfterCaptures(groups, ids, p, c)[id];
            r.color == groups[id].color && r.members == groups[id].members &&
            r.liberties == if id in ids && groups[id].color == Opp(c) then groups[id].liberties - {p}
                           else groups[id].liberties
  {
  }

  /** Only the records that are not captured survive. */
  lemma SurvivorOnly(groups: map<nat, Group>, ids: set<nat>, p: Pos, c: Stone, id: nat)
    requires id in AfterCaptures(groups, ids, p, c)
    ensures id in groups && id !in DeadAt(groups, ids, p, c)
  {
  }

  /** The stones after the move: those before, less the captured ones,
      plus the merged group (the new stone and the friendly groups met). */
  lemma MoveStones(st: Snapshot, x: int, y: int, nid: nat, p: Pos, c: Stone, ids: set<nat>, g2: Grid, merged: set<Pos>)
    requires Playable(st, x, y, nid, p)
    requires g2 == Clear(Put(st.grid, p, c), Captured(st.groups, ids, p, c))
    requires merged == {p} + GL.MembersIn(st.groups, GL.SameIds(st.groups, ids, c))
    ensures IsGrid(g2, x, y)
    ensures Stones(g2, x, y) == (st.index.Keys - Captured(st.groups, ids, p, c)) + merged
  {
    var g, cap := st.grid, Captured(st.groups, ids, p, c);
    GridCell(g, x, y, p);
    CapturedOpponent(st, x, y, nid, p, c, ids);
    FriendsStay(st, x, y, nid, p, c, ids);
    forall q ensures q in Stones(g2, x, y) <==> q in (st.index.Keys - cap) + merged {
      if InBounds(x, y, q) {
        GridCell(g, x, y, q);
        assert At(g2, q) == if q in cap then EMPTY else if q == p then c else At(g, q);
      }
    }
  }

  /** The stones of the friendly groups met are stones before the move and
      are not captured by it. */
  lemma FriendsStay(st: Snapshot, x: int, y: int, nid: nat, p: Pos, c: Stone, ids: set<nat>)
    requires Playable(st, x, y, nid, p)
    ensures GL.MembersIn(st.groups, GL.SameIds(st.groups, ids, c)) <= st.index.Keys - Captured(st.groups, ids, p, c)
  {
    var same, cap := GL.SameIds(st.groups, ids, c), Captured(st.groups, ids, p, c);
    CapturedOpponent(st, x, y, nid, p, c, ids);
    forall q | q in GL.MembersIn(st.groups, same) ensures q in st.index.Keys - cap {
      var s :| s in same && s in st.groups && q in st.groups[s].members;
      assert InGrid(st.grid, q) && At(st.grid, q) == c;
      GridCell(st.grid, x, y, q);
    }
  }

  /** The registry once `merge_groups` has replaced the friendly groups
      `same` by the record `merged` under the identity `mid`. */
  ghost predicate Settled(gs2: map<nat, Group>, idx2: map<Pos, nat>, same: set<nat>, mid: nat, merged: Group,
                          gs3: map<nat, Group>, idx3: map<Pos, nat>)
  {
    gs3 == (gs2 - same)[mid := merged] && idx3 == idx2 + PointAt(merged.members, mid)
  }

  /** Every indexed point after the move names a record holding it. */
  lemma MoveIndexSound(st: Snapshot, x: int, y: int, nid: nat, p: Pos, c: Stone, ids: set<nat>,
                       mid: nat, merged: Group, gs3: map<nat, Group>, idx3: map<Pos, nat>)
    requires Playable(st, x, y, nid, p) && nid <= mid
    requires var same := GL.SameIds(st.groups, ids, c);
             merged.members == {p} + GL.MembersIn(st.groups, same) &&
             Settled(AfterCaptures(st.groups, ids, p, c), st.index - Captured(st.groups, ids, p, c), same, mid, merged, gs3, idx3)
    ensures GL.IndexSound(gs3, idx3)
  {
    var same, cap := GL.SameIds(st.groups, ids, c), Captured(st.groups, ids, p, c);
    forall q | q in idx3 && q !in merged.members ensures idx3[q] in gs3 && q in gs3[idx3[q]].members {
      var id := st.index[q];
      assert q in st.groups[id].members;
      assert id !in DeadAt(st.groups, ids, p, c);
      Survivor(st.groups, ids, p, c, id);
      assert id !in same;
    }
  }

  /** A member of a record the move leaves alone is not captured, not in
      the merged group, and still indexed to its record. */
  lemma MemberApart(st: Snapshot, x: int, y: int, nid: nat, p: Pos, c: Stone, ids: set<nat>, id: nat, m: Pos)
    requires Playable(st, x, y, nid, p)
    requires id in st.groups && id !in DeadAt(st.groups, ids, p, c) && id !in GL.SameIds(st.groups, ids, c)
    requires m in st.groups[id].members
    ensures st.index[m] == id && m != p
    ensures m !in Captured(st.groups, ids, p, c)
    ensures m !in GL.MembersIn(st.groups, GL.SameIds(st.groups, ids, c))
  {
    assert st.index[m] == id;
    GridCell(st.grid, x, y, p);
    assert p !in Stones(st.grid, x, y);
    forall d | d in st.groups && m in st.groups[d].members ensures d == id {
      assert st.index[m] == d;
    }
  }

  /** A member of a record after the move is indexed to it. */
  lemma MoveMemberIndexed(st: Snapshot, x: int, y: int, nid: nat, p: Pos, c: Stone, ids: set<nat>,
                          mid: nat, merged: Group, gs3: map<nat, Group>, idx3: map<Pos, nat>, id: nat, m: Pos)
    requires Playable(st, x, y, nid, p) && nid <= mid
    requires var same := GL.SameIds(st.groups, ids, c);
             merged.members == {p} + GL.MembersIn(st.groups, same) &&
             Settled(AfterCaptures(st.groups, ids, p, c), st.index - Captured(st.groups, ids, p, c), same, mid, merged, gs3, idx3)
    requires id in gs3 && m in gs3[id].members
    ensures m in idx3 && idx3[m] == id
  {
    var gs2 := AfterCaptures(st.groups, ids, p, c);
    var idx2 := st.index - Captured(st.groups, ids, p, c);
    if id == mid {
      assert m in merged.members;
    } else {
      assert id in gs2 && gs3[id] == gs2[id];
      SurvivorOnly(st.groups, ids, p, c, id);
      Survivor(st.groups, ids, p, c, id);
      MemberApart(st, x, y, nid, p, c, ids, id, m);
      assert m !in PointAt(merged.members, mid).Keys;
      assert m in idx2 && idx2[m] == id;
    }
  }

  /** Every member of a record after the move is indexed to it. */
  lemma MoveGroupsIndexed(st: Snapshot, x: int, y: int, nid: nat, p: Pos, c: Stone, ids: set<nat>,
                          mid: nat, merged: Group, gs3: map<nat, Group>, idx3: map<Pos, nat>)
    requires Playable(st, x, y, nid, p) && nid <= mid
    requires var same := GL.SameIds(st.groups, ids, c);
             merged.members == {p} + GL.MembersIn(st.groups, same) &&
             Settled(AfterCaptures(st.groups, ids, p, c), st.index - Captured(st.groups, ids, p, c), same, mid, merged, gs3, idx3)
    ensures GL.GroupsIndexed(gs3, idx3)
  {
    forall id, m {:trigger m in gs3[id].members} | id in gs3 && m in gs3[id].members ensures m in idx3 && idx3[m] == id {
      MoveMemberIndexed(st, x, y, nid, p, c, ids, mid, merged, gs3, idx3, id, m);
    }
  }

  /** The position index after the move holds exactly the stones, and
      agrees with the records both ways. */
  lemma MoveIndexed(st: Snapshot, x: int, y: int, nid: nat, p: Pos, c: Stone, ids: set<nat>, g2: Grid,
                    mid: nat, merged: Group, gs3: map<nat, Group>, idx3: map<Pos, nat>)
    requires Playable(st, x, y, nid, p) && nid <= mid
    requires g2 == Clear(Put(st.grid, p, c), Captured(st.groups, ids, p, c))
    requires var same := GL.SameIds(st.groups, ids, c);
             merged.members == {p} + GL.MembersIn(st.groups, same) &&
             Settled(AfterCaptures(st.groups, ids, p, c), st.index - Captured(st.groups, ids, p, c), same, mid, merged, gs3, idx3)
    ensures IsGrid(g2, x, y) && Indexed(g2, x, y, gs3, idx3)
  {
    MoveStones(st, x, y, nid, p, c, ids, g2, merged.members);
    MoveIndexSound(st, x, y, nid, p, c, ids, mid, merged, gs3, idx3);
    MoveGroupsIndexed(st, x, y, nid, p, c, ids, mid, merged, gs3, idx3);
    assert idx3.Keys == (st.index.Keys - Captured(st.groups, ids, p, c)) + merged.members;
  }

  /** A stone of the merged group is a stone of the mover after the move. */
  lemma MergedColour(st: Snapshot, x: int, y: int, nid: nat, p: Pos, c: Stone, ids: set<nat>, g2: Grid, m: Pos)
    requires Playable(st, x, y, nid, p)
    requires g2 == Clear(Put(st.grid, p, c), Captured(st.groups, ids, p, c))
    requires m in {p} + GL.MembersIn(st.groups, GL.SameIds(st.groups, ids, c))
    ensures InGrid(g2, m) && At(g2, m) == c
  {
    GridCell(st.grid, x, y, p);
    CapturedOpponent(st, x, y, nid, p, c, ids);
    if m != p {
      var s :| s in GL.SameIds(st.groups, ids, c) && s in st.groups && m in st.groups[s].members;
      assert InGrid(st.grid, m) && At(st.grid, m) == c;
    }
  }

  /** A stone of a record the move leaves alone keeps its colour. */
  lemma SurvivorColour(st: Snapshot, x: int, y: int, nid: nat, p: Pos, c: Stone, ids: set<nat>, g2: Grid, id: nat, m: Pos)
    requires Playable(st, x, y, nid, p)
    requires g2 == Clear(Put(st.grid, p, c), Captured(st.groups, ids, p, c))
    requires id in st.groups && id !in DeadAt(st.groups, ids, p, c) && id !in GL.SameIds(st.groups, ids, c)
    requires m in st.groups[id].members
    ensures InGrid(g2, m) && At(g2, m) == st.groups[id].color
  {
    MemberApart(st, x, y, nid, p, c, ids, id, m);
    assert InGrid(st.grid, m) && At(st.grid, m) == st.groups[id].color;
  }

  /** Every member of a record after the move is a stone of its colour. */
  lemma MoveColoured(st: Snapshot, x: int, y: int, nid: nat, p: Pos, c: Stone, ids: set<nat>, g2: Grid,
                     mid: nat, merged: Group, gs3: map<nat, Group>, idx3: map<Pos, nat>)
    requires Playable(st, x, y, nid, p) && nid <= mid
    requires g2 == Clear(Put(st.grid, p, c), Captured(st.groups, ids, p, c))
    requires var same := GL.SameIds(st.groups, ids, c);
             merged.color == c && merged.members == {p} + GL.MembersIn(st.groups, same) &&
             Settled(AfterCaptures(st.groups, ids, p, c), st.index - Captured(st.groups, ids, p, c), same, mid, merged, gs3, idx3)
    ensures Coloured(g2, gs3)
  {
    var gs2 := AfterCaptures(st.groups, ids, p, c);
    forall id, m {:trigger m in gs3[id].members} | id in gs3 && m in gs3[id].members ensures InGrid(g2, m) && At(g2, m) == gs3[id].color {
      if id == mid {
        MergedColour(st, x, y, nid, p, c, ids, g2, m);
      } else {
        assert id in gs2 && gs3[id] == gs2[id];
        SurvivorOnly(st.groups, ids, p, c, id);
        Survivor(st.groups, ids, p, c, id);
        SurvivorColour(st, x, y, nid, p, c, ids, g2, id, m);
      }
    }
  }

  /** Without a capture, every record after the move keeps exactly its
      empty neighbours, given that the merged record does. */
  lemma MoveExact(st: Snapshot, x: int, y: int, nid: nat, p: Pos, c: Stone, g2: Grid,
                  mid: nat, merged: Group, gs3: map<nat, Group>, idx3: map<Pos, nat>)
    requires Playable(st, x, y, nid, p) && nid <= mid
    requires var ids := AroundIds(x, y, st.index, p);
             DeadAt(st.groups, ids, p, c) == {} &&
             g2 == Clear(Put(st.grid, p, c), Captured(st.groups, ids, p, c)) &&
             IsGrid(g2, x, y) && LibertiesExact(g2, x, y, merged) &&
             Settled(AfterCaptures(st.groups, ids, p, c), st.index - Captured(st.groups, ids, p, c),
                     GL.SameIds(st.groups, ids, c), mid, merged, gs3, idx3)
    ensures Exact(g2, x, y, gs3)
  {
    var g, ids := st.grid, AroundIds(x, y, st.index, p);
    var gs2 := AfterCaptures(st.groups, ids, p, c);
    assert Captured(st.groups, ids, p, c) == {};
    ClearNone(Put(st.grid, p, c));
    forall id | id in gs3 ensures LibertiesExact(g2, x, y, gs3[id]) {
      if id != mid {
        assert id in gs2 && gs3[id] == gs2[id];
        SurvivorOnly(st.groups, ids, p, c, id);
        Survivor(st.groups, ids, p, c, id);
        var members := st.groups[id].members;
        assert LibertiesExact(g, x, y, st.groups[id]);
        LibertiesAfterPut(g, x, y, p, c, members);
        if p in st.groups[id].liberties {
          AroundComplete(st, x, y, nid, p, id);
        }
      }
    }
  }

  /** Recomputing every record's liberties keeps the index and the colours
      and makes every record exact. */
  lemma RelibertiedKeeps(g: Grid, x: int, y: int, groups: map<nat, Group>, index: map<Pos, nat>)
    requires IsGrid(g, x, y) && Indexed(g, x, y, groups, index) && Coloured(g, groups)
    ensures Indexed(g, x, y, GL.WithLiberties(g, x, y, groups), index)
    ensures Coloured(g, GL.WithLiberties(g, x, y, groups))
    ensures Exact(g, x, y, GL.WithLiberties(g, x, y, groups))
  {
  }

  /** Only empty points are free after the move: the liberties are empty
      once the records are exact, a captured point is empty, and `p` is
      no longer free. */
  lemma MoveFreeEmpty(g0: Grid, x: int, y: int, f0: map<Pos, bool>, groups: map<nat, Group>, index: map<Pos, nat>,
                      p: Pos, c: Stone, cap: set<Pos>, g2: Grid, gs4: map<nat, Group>, f5: map<Pos, bool>)
    requires IsGrid(g0, x, y) && InBounds(x, y, p) && FreeEmpty(g0, f0)
    requires cap <= Stones(g0, x, y) && g2 == Clear(Put(g0, p, c), cap) && IsGrid(g2, x, y) && Exact(g2, x, y, gs4)
    requires var f2 := FreedAfter(f0[p := false], groups, index, cap);
             forall q | q in f5 && q !in GL.LibertiesIn(gs4, gs4.Keys) :: q in f2 && f5[q] == f2[q]
    ensures FreeEmpty(g2, f5)
  {
    var f2 := FreedAfter(f0[p := false], groups, index, cap);
    GridCell(g0, x, y, p);
    forall q | q in f5 && f5[q] ensures InGrid(g2, q) && At(g2, q) == EMPTY {
      if q in GL.LibertiesIn(gs4, gs4.Keys) {
        var id :| id in gs4 && q in gs4[id].liberties;
        assert LibertiesExact(g2, x, y, gs4[id]);
      } else if q !in cap {
        assert q != p && f0[q];
      }
    }
  }

  /** The mover's stones after the move: those before and `p`. */
  lemma OwnAfterMove(g0: Grid, x: int, y: int, p: Pos, c: Stone, cap: set<Pos>, g2: Grid)
    requires IsGrid(g0, x, y) && InBounds(x, y, p) && InGrid(g0, p) && At(g0, p) == EMPTY
    requires cap <= StoneSet(g0, x, y, Opp(c)) && g2 == Clear(Put(g0, p, c), cap) && IsGrid(g2, x, y)
    ensures StoneSet(g2, x, y, c) == StoneSet(g0, x, y, c) + {p}
  {
    forall q | InBounds(x, y, q) ensures q in StoneSet(g2, x, y, c) <==> q in StoneSet(g0, x, y, c) + {p} {
      GridCell(g0, x, y, q);
    }
  }

  /** The opponent's stones after the move: those before less the captured. */
  lemma OtherAfterMove(g0: Grid, x: int, y: int, p: Pos, c: Stone, cap: set<Pos>, g2: Grid)
    requires IsGrid(g0, x, y) && InBounds(x, y, p) && InGrid(g0, p) && At(g0, p) == EMPTY
    requires g2 == Clear(Put(g0, p, c), cap) && IsGrid(g2, x, y)
    ensures StoneSet(g2, x, y, Opp(c)) == StoneSet(g0, x, y, Opp(c)) - cap
  {
    forall q | InBounds(x, y, q) ensures q in StoneSet(g2, x, y, Opp(c)) <==> q in StoneSet(g0, x, y, Opp(c)) - cap {
      GridCell(g0, x, y, q);
    }
  }

  /** The board counts after the move: one more stone of `c`, and the
      captured stones fewer of the opponent. */
  lemma MoveCounted(g0: Grid, x: int, y: int, score: Score, p: Pos, c: Stone, cap: set<Pos>, g2: Grid)
    requires IsGrid(g0, x, y) && InBounds(x, y, p) && Counted(g0, x, y, score)
    requires InGrid(g0, p) && At(g0, p) == EMPTY && cap <= StoneSet(g0, x, y, Opp(c))
    requires g2 == Clear(Put(g0, p, c), cap) && IsGrid(g2, x, y)
    ensures Counted(g2, x, y, score.Add(Opp(c), -|cap|).Add(c, 1))
  {
    OwnAfterMove(g0, x, y, p, c, cap, g2);
    OtherAfterMove(g0, x, y, p, c, cap, g2);
    CountsAfterMove(score, p, c, cap, StoneSet(g0, x, y, WHITE), StoneSet(g0, x, y, BLACK),
                    StoneSet(g2, x, y, WHITE), StoneSet(g2, x, y, BLACK));
  }

  /** The counting step of `MoveCounted`, on the stone sets alone. */
  lemma CountsAfterMove(score: Score, p: Pos, c: Stone, cap: set<Pos>,
                        white: set<Pos>, black: set<Pos>, white2: set<Pos>, black2: set<Pos>)
    requires score == Score(|white|, |black|) && white !! black && p !in white + black
    requires c == WHITE ==> cap <= black && white2 == white + {p} && black2 == black - cap
    requires c == BLACK ==> cap <= white && black2 == black + {p} && white2 == white - cap
    ensures score.Add(Opp(c), -|cap|).Add(c, 1) == Score(|white2|, |black2|)
  {
    if c == WHITE {
      SizeApart(black, cap);
    } else {
      SizeApart(white, cap);
    }
  }

  lemma SizeApart(a: set<Pos>, b: set<Pos>)
    requires b <= a
    ensures |a - b| == |a| - |b|
  {
    assert a == (a - b) + b;
  }

  // ---------------------------------------------------------------------
  // The merge (`merge_groups(same_color_groups, color)`)
  // ---------------------------------------------------------------------

  /** The groups handed to `merge_groups`: the friendly groups met, as the
      captures left them, and the new stone's group under `nid`. */
  function MergeList(groups: map<nat, Group>, same: set<nat>, nid: nat, grp: Group): (r: map<nat, Group>)
    ensures r.Keys == (same * groups.Keys) + {nid} && r[nid] == grp
  {
    (map s | s in same && s in groups :: groups[s])[nid := grp]
  }

  /** The identity of the group holding the new stone after the merge: the
      new group's own when it meets no friend, a fresh one otherwise. */
  function MergedId(same: set<nat>, nid: nat): nat
  {
    if same == {} then nid else nid + 1
  }

  /** The group holding the new stone after the merge. */
  function MergedGroup(groups: map<nat, Group>, same: set<nat>, nid: nat, grp: Group, c: Stone): Group
  {
    var list := MergeList(groups, same, nid, grp);
    if same == {} then grp else Group(c, GL.MembersIn(list, list.Keys), GL.LibertiesIn(list, list.Keys) - GL.MembersIn(list, list.Keys))
  }

  /** The friendly groups met come through the captures unchanged. */
  lemma FriendsKept(groups: map<nat, Group>, ids: set<nat>, p: Pos, c: Stone)
    ensures var gs2 := AfterCaptures(groups, ids, p, c);
            forall s | s in GL.SameIds(groups, ids, c) :: s in gs2 && gs2[s] == groups[s]
  {
    forall s | s in GL.SameIds(groups, ids, c)
      ensures s in AfterCaptures(groups, ids, p, c) && AfterCaptures(groups, ids, p, c)[s] == groups[s]
    {
      Survivor(groups, ids, p, c, s);
    }
  }

  /** The merge list pools the members of the new group and of the
      friends. */
  lemma ListMembers(groups: map<nat, Group>, before: map<nat, Group>, same: set<nat>, nid: nat, grp: Group)
    requires forall s | s in same :: s in groups && s in before && groups[s] == before[s]
    ensures var list := MergeList(groups, same, nid, grp);
            GL.MembersIn(list, list.Keys) <= grp.members + GL.MembersIn(before, same) &&
            grp.members + GL.MembersIn(before, same - {nid}) <= GL.MembersIn(list, list.Keys)
  {
    var list := MergeList(groups, same, nid, grp);
    forall q | q in GL.MembersIn(before, same - {nid}) ensures q in GL.MembersIn(list, list.Keys) {
      var s :| s in same - {nid} && s in before && q in before[s].members;
      assert q in list[s].members;
    }
  }

  /** The merge list pools the liberties of the new group and of the
      friends. */
  lemma ListLiberties(groups: map<nat, Group>, before: map<nat, Group>, same: set<nat>, nid: nat, grp: Group)
    requires forall s | s in same :: s in groups && s in before && groups[s] == before[s]
    ensures var list := MergeList(groups, same, nid, grp);
            GL.LibertiesIn(list, list.Keys) <= grp.liberties + GL.LibertiesIn(before, same) &&
            grp.liberties + GL.LibertiesIn(before, same - {nid}) <= GL.LibertiesIn(list, list.Keys)
  {
    var list := MergeList(groups, same, nid, grp);
    forall q | q in GL.LibertiesIn(before, same - {nid}) ensures q in GL.LibertiesIn(list, list.Keys) {
      var s :| s in same - {nid} && s in before && q in before[s].liberties;
      assert q in list[s].liberties;
    }
  }

  /** The merge list `__move` builds holds the friends and the new group,
      whose members and liberties it pools. */
  lemma MergeListOfMove(groups: map<nat, Group>, nid: nat, p: Pos, c: Stone, ids: set<nat>, grp: Group)
    requires forall id | id in groups :: id < nid
    ensures var same, gs2 := GL.SameIds(groups, ids, c), AfterCaptures(groups, ids, p, c);
            var list := MergeList(gs2, same, nid, grp);
            nid !in gs2 && list.Keys == same + {nid} && (|list| == 1 <==> same == {}) &&
            (forall s | s in same :: s in gs2 && gs2[s] == groups[s]) &&
            GL.MembersIn(list, list.Keys) == grp.members + GL.MembersIn(groups, same) &&
            GL.LibertiesIn(list, list.Keys) == grp.liberties + GL.LibertiesIn(groups, same)
  {
    var same, gs2 := GL.SameIds(groups, ids, c), AfterCaptures(groups, ids, p, c);
    FriendsKept(groups, ids, p, c);
    assert nid !in same && nid !in gs2;
    assert same - {nid} == same;
    ListMembers(gs2, groups, same, nid, grp);
    ListLiberties(gs2, groups, same, nid, grp);
    var list := MergeList(gs2, same, nid, grp);
    assert list.Keys == same + {nid};
    assert |list.Keys| == |same| + 1;
  }

  /** The new stone's group lies on the board. */
  lemma NewGroupOnBoard(g: Grid, x: int, y: int, p: Pos, c: Stone)
    requires IsGrid(g, x, y) && InBounds(x, y, p)
    ensures GL.OnBoard(x, y, NewGroup(g, x, y, p, c))
  {
  }

  /** The merge list `__move` builds meets what `merge_groups` asks of it. */
  lemma MergeListFits(groups: map<nat, Group>, x: int, y: int, nid: nat, p: Pos, c: Stone, ids: set<nat>, grp: Group)
    requires (forall id | id in groups :: id < nid && GL.OnBoard(x, y, groups[id])) && GL.OnBoard(x, y, grp)
    ensures var same, gs2 := GL.SameIds(groups, ids, c), AfterCaptures(groups, ids, p, c);
            var list := MergeList(gs2, same, nid, grp);
            forall id | id in list :: id < nid + 1 && GL.OnBoard(x, y, list[id]) && (id in gs2 ==> gs2[id] == list[id])
  {
    MergeListOfMove(groups, nid, p, c, ids, grp);
  }

  /** `merge_groups` on the new group alone registers it under `nid`. */
  lemma SettledAlone(gs2: map<nat, Group>, idx2: map<Pos, nat>, nid: nat, grp: Group, gs3: map<nat, Group>,
                     idx3: map<Pos, nat>, id: nat)
    requires nid !in gs2 && id in MergeList(gs2, {}, nid, grp)
    requires gs3 == gs2[id := MergeList(gs2, {}, nid, grp)[id]]
    requires idx3 == if id in gs2 then idx2 else idx2 + PointAt(MergeList(gs2, {}, nid, grp)[id].members, id)
    ensures Settled(gs2, idx2, {}, nid, grp, gs3, idx3)
  {
    assert id == nid;
    assert gs2 - {} == gs2;
  }

  /** What `merge_groups` promises, for the list `__move` builds, is the
      settled registry with the merged group under `MergedId`. */
  lemma MergeSettled(gs2: map<nat, Group>, idx2: map<Pos, nat>, same: set<nat>, nid: nat, grp: Group, c: Stone,
                     gs3: map<nat, Group>, idx3: map<Pos, nat>, nid3: nat)
    requires var list := MergeList(gs2, same, nid, grp);
             nid !in gs2 && list.Keys == same + {nid} && (|list| == 1 <==> same == {}) &&
             MergedInto(list, c, gs2, idx2, nid + 1, gs3, idx3, nid3)
    ensures Settled(gs2, idx2, same, MergedId(same, nid), MergedGroup(gs2, same, nid, grp, c), gs3, idx3)
    ensures nid3 == MergedId(same, nid) + 1
  {
    var list := MergeList(gs2, same, nid, grp);
    if same == {} {
      var id :| id in list && gs3 == gs2[id := list[id]] &&
                idx3 == if id in gs2 then idx2 else idx2 + PointAt(list[id].members, id);
      SettledAlone(gs2, idx2, nid, grp, gs3, idx3, id);
    } else {
      assert gs2 - list.Keys == gs2 - same;
    }
  }

  /** `merge_groups` on the list `__move` builds: what it may be given, and
      the records and the index it leaves. */
  lemma MergeOutcome(st: Snapshot, x: int, y: int, nid: nat, p: Pos, c: Stone,
                     gs2: map<nat, Group>, idx2: map<Pos, nat>, same: set<nat>, grp: Group,
                     gs3: map<nat, Group>, idx3: map<Pos, nat>, nid3: nat)
    requires IsGrid(st.grid, x, y) && InBounds(x, y, p) && forall id | id in st.groups :: id < nid
    requires gs2 == AfterCaptures(st.groups, AroundIds(x, y, st.index, p), p, c)
    requires idx2 == st.index - Captured(st.groups, AroundIds(x, y, st.index, p), p, c)
    requires same == GL.SameIds(st.groups, AroundIds(x, y, st.index, p), c) && grp == NewGroup(st.grid, x, y, p, c)
    requires MergedInto(MergeList(gs2, same, nid, grp), c, gs2, idx2, nid + 1, gs3, idx3, nid3)
    ensures gs3 == SettledGroups(st, x, y, nid, p, c) && idx3 == MovedIndex(st, x, y, nid, p, c)
    ensures nid3 == MergedId(same, nid) + 1
  {
    MergeListOfMove(st.groups, nid, p, c, AroundIds(x, y, st.index, p), grp);
    MergeSettled(gs2, idx2, same, nid, grp, c, gs3, idx3, nid3);
  }

  /** The liberties of exact records pool to the liberties of their
      members. */
  lemma PooledExact(g: Grid, x: int, y: int, groups: map<nat, Group>, same: set<nat>)
    requires IsGrid(g, x, y) && forall s | s in same && s in groups :: LibertiesExact(g, x, y, groups[s])
    ensures GL.LibertiesIn(groups, same) == LibertiesOf(g, x, y, GL.MembersIn(groups, same))
  {
    var ms := GL.MembersIn(groups, same);
    forall q ensures q in GL.LibertiesIn(groups, same) <==> q in LibertiesOf(g, x, y, ms) {
      if q in LibertiesOf(g, x, y, ms) {
        var m :| m in ms && Adjacent(m, q);
        var s :| s in same && s in groups && m in groups[s].members;
        assert q in LibertiesOf(g, x, y, groups[s].members);
      }
      if q in GL.LibertiesIn(groups, same) {
        var s :| s in same && s in groups && q in groups[s].liberties;
        assert q in LibertiesOf(g, x, y, groups[s].members);
      }
    }
  }

  /** The new stone's liberties pooled with the friends' liberties, less
      the members, are the empty neighbours of the members once the stone
      is placed on the empty point `p`. */
  lemma MergedExact(g: Grid, x: int, y: int, p: Pos, c: Stone, friends: set<Pos>, pooled: set<Pos>, libs: set<Pos>)
    requires IsGrid(g, x, y) && InBounds(x, y, p) && InGrid(g, p) && At(g, p) == EMPTY
    requires forall m | m in friends :: InGrid(g, m) && At(g, m) != EMPTY
    requires pooled == LibertiesOf(g, x, y, friends) && libs == LibertiesOf(Put(g, p, c), x, y, {p})
    ensures IsGrid(Put(g, p, c), x, y)
    ensures libs + pooled - ({p} + friends) == LibertiesOf(Put(g, p, c), x, y, {p} + friends)
  {
    var g1 := Put(g, p, c);
    LibertiesAfterPut(g, x, y, p, c, friends);
    LibertiesOfUnion(g1, x, y, {p}, friends);
    LibertiesOfStones(g, x, y, friends);
    LibertiesOfStones(g1, x, y, {p} + friends);
  }

  // ---------------------------------------------------------------------
  // The whole move
  // ---------------------------------------------------------------------

  /** The group `add_member` makes for the new stone. */
  function NewGroup(g: Grid, x: int, y: int, p: Pos, c: Stone): Group
    requires IsGrid(g, x, y) && InBounds(x, y, p)
  {
    GridCell(g, x, y, p);
    LibertiesAfterPut(g, x, y, p, c, {});
    Group(c, {p}, LibertiesOf(Put(g, p, c), x, y, {p}))
  }

  /** The board after `__move(p, c)`: the stone placed, the captured
      groups emptied. */
  function MovedGrid(st: Snapshot, x: int, y: int, p: Pos, c: Stone): (r: Grid)
    requires IsGrid(st.grid, x, y) && InBounds(x, y, p)
    ensures IsGrid(r, x, y)
  {
    GridCell(st.grid, x, y, p);
    Clear(Put(st.grid, p, c), Captured(st.groups, AroundIds(x, y, st.index, p), p, c))
  }

  /** The records once `merge_groups` is done. */
  function SettledGroups(st: Snapshot, x: int, y: int, nid: nat, p: Pos, c: Stone): map<nat, Group>
    requires IsGrid(st.grid, x, y) && InBounds(x, y, p)
  {
    var ids := AroundIds(x, y, st.index, p);
    var same, gs2 := GL.SameIds(st.groups, ids, c), AfterCaptures(st.groups, ids, p, c);
    (gs2 - same)[MergedId(same, nid) := MergedGroup(gs2, same, nid, NewGroup(st.grid, x, y, p, c), c)]
  }

  /** The position index after `__move(p, c)`. */
  function MovedIndex(st: Snapshot, x: int, y: int, nid: nat, p: Pos, c: Stone): map<Pos, nat>
    requires IsGrid(st.grid, x, y) && InBounds(x, y, p)
  {
    var ids := AroundIds(x, y, st.index, p);
    var same, gs2 := GL.SameIds(st.groups, ids, c), AfterCaptures(st.groups, ids, p, c);
    var merged := MergedGroup(gs2, same, nid, NewGroup(st.grid, x, y, p, c), c);
    (st.index - Captured(st.groups, ids, p, c)) + PointAt(merged.members, MergedId(same, nid))
  }

  /** The records after `__move(p, c)`: after a capture, every record has
      its liberties recomputed (`update_groups_liberty`). */
  function MovedGroups(st: Snapshot, x: int, y: int, nid: nat, p: Pos, c: Stone): map<nat, Group>
    requires IsGrid(st.grid, x, y) && InBounds(x, y, p)
  {
    var gs3 := SettledGroups(st, x, y, nid, p, c);
    if DeadAt(st.groups, AroundIds(x, y, st.index, p), p, c) != {} then GL.WithLiberties(MovedGrid(st, x, y, p, c), x, y, gs3)
    else gs3
  }

  /** The group holding the new stone: the new group, or the merge of it
      and the friends met, under an identity from `nid` on. */
  lemma MergedShape(groups: map<nat, Group>, nid: nat, p: Pos, c: Stone, ids: set<nat>, grp: Group)
    requires (forall id | id in groups :: id < nid) && grp.color == c && grp.members == {p}
    ensures var same, gs2 := GL.SameIds(groups, ids, c), AfterCaptures(groups, ids, p, c);
            var merged := MergedGroup(gs2, same, nid, grp, c);
            nid <= MergedId(same, nid) && merged.color == c && merged.members == {p} + GL.MembersIn(groups, same)
  {
    MergeListOfMove(groups, nid, p, c, ids, grp);
  }

  /** The members of coloured records are stones. */
  lemma RecordsAreStones(g: Grid, groups: map<nat, Group>, ids: set<nat>)
    requires Coloured(g, groups)
    ensures forall m | m in GL.MembersIn(groups, ids) :: InGrid(g, m) && At(g, m) != EMPTY
  {
    forall m | m in GL.MembersIn(groups, ids) ensures InGrid(g, m) && At(g, m) != EMPTY {
      var s :| s in ids && s in groups && m in groups[s].members;
      assert InGrid(g, m) && At(g, m) == groups[s].color;
    }
  }

  /** Without a capture, the group holding the new stone has exactly the
      empty neighbours of its members. */
  lemma MergedExactMove(st: Snapshot, x: int, y: int, nid: nat, p: Pos, c: Stone)
    requires Playable(st, x, y, nid, p) && DeadAt(st.groups, AroundIds(x, y, st.index, p), p, c) == {}
    ensures var ids := AroundIds(x, y, st.index, p);
            var same, gs2 := GL.SameIds(st.groups, ids, c), AfterCaptures(st.groups, ids, p, c);
            LibertiesExact(MovedGrid(st, x, y, p, c), x, y, MergedGroup(gs2, same, nid, NewGroup(st.grid, x, y, p, c), c))
  {
    var g, ids := st.grid, AroundIds(x, y, st.index, p);
    var same, gs2 := GL.SameIds(st.groups, ids, c), AfterCaptures(st.groups, ids, p, c);
    var grp := NewGroup(g, x, y, p, c);
    var friends := GL.MembersIn(st.groups, same);
    MergeListOfMove(st.groups, nid, p, c, ids, grp);
    assert Captured(st.groups, ids, p, c) == {};
    GridCell(g, x, y, p);
    ClearNone(Put(g, p, c));
    if same != {} {
      PooledExact(g, x, y, st.groups, same);
      RecordsAreStones(g, st.groups, same);
      MergedExact(g, x, y, p, c, friends, GL.LibertiesIn(st.groups, same), grp.liberties);
    }
  }

  /** After the move the registry still describes the board: the index,
      the colours and the liberties. */
  lemma MoveRegistry(st: Snapshot, x: int, y: int, nid: nat, p: Pos, c: Stone)
    requires Playable(st, x, y, nid, p)
    ensures var g, groups, index := MovedGrid(st, x, y, p, c), MovedGroups(st, x, y, nid, p, c), MovedIndex(st, x, y, nid, p, c);
            Indexed(g, x, y, groups, index) && Coloured(g, groups) && Exact(g, x, y, groups) &&
            GL.StonesIndexed(g, x, y, groups, index) &&
            forall q | q in GL.LibertiesIn(groups, groups.Keys) :: InBounds(x, y, q)
  {
    var ids := AroundIds(x, y, st.index, p);
    var same, gs2 := GL.SameIds(st.groups, ids, c), AfterCaptures(st.groups, ids, p, c);
    var merged := MergedGroup(gs2, same, nid, NewGroup(st.grid, x, y, p, c), c);
    var g, gs3, idx3 := MovedGrid(st, x, y, p, c), SettledGroups(st, x, y, nid, p, c), MovedIndex(st, x, y, nid, p, c);
    var mid := MergedId(same, nid);
    MergedShape(st.groups, nid, p, c, ids, NewGroup(st.grid, x, y, p, c));
    assert Settled(gs2, st.index - Captured(st.groups, ids, p, c), same, mid, merged, gs3, idx3);
    MoveIndexed(st, x, y, nid, p, c, ids, g, mid, merged, gs3, idx3);
    MoveColoured(st, x, y, nid, p, c, ids, g, mid, merged, gs3, idx3);
    if DeadAt(st.groups, ids, p, c) != {} {
      RelibertiedKeeps(g, x, y, gs3, idx3);
    } else {
      MergedExactMove(st, x, y, nid, p, c);
      MoveExact(st, x, y, nid, p, c, g, mid, merged, gs3, idx3);
    }
    var groups := MovedGroups(st, x, y, nid, p, c);
    forall q | q in GL.LibertiesIn(groups, groups.Keys) ensures InBounds(x, y, q) {
      var id :| id in groups && q in groups[id].liberties;
      assert LibertiesExact(g, x, y, groups[id]);
    }
  }

  /** The state once the capture loop has run from the placed stone over
      the groups met: the board with the dead groups emptied and their
      points freed, the ko points of single-stone captures, the surviving
      records, the score less the captured stones, and the friends met. */
  ghost predicate CapturedTo(st: Snapshot, x: int, y: int, p: Pos, c: Stone,
                             g: Grid, f: map<Pos, bool>, ko: map<Stone, set<Pos>>, groups: map<nat, Group>,
                             index: map<Pos, nat>, score: Score, same: set<nat>, killed: bool)
    requires IsGrid(st.grid, x, y) && InBounds(x, y, p) && BLACK in st.ko && WHITE in st.ko
  {
    var ids := AroundIds(x, y, st.index, p);
    var cap := Captured(st.groups, ids, p, c);
    g == MovedGrid(st, x, y, p, c) && f == FreedAfter(st.free[p := false], st.groups, st.index, cap) &&
    ko == KoAfter(st.ko, st.groups, ids, p, c) && groups == AfterCaptures(st.groups, ids, p, c) &&
    index == st.index - cap && score == st.score.Add(Opp(c), -|cap|) &&
    same == GL.SameIds(st.groups, ids, c) && killed == (DeadAt(st.groups, ids, p, c) != {})
  }

  /** After the capture loop, the board, the free map and the ko sets are
      those of the placed stone and the captures it made. */
  lemma CapturedBoard(st: Snapshot, x: int, y: int, p: Pos, c: Stone, st1: Snapshot, now: Snapshot)
    requires IsGrid(st.grid, x, y) && InBounds(x, y, p) && BLACK in st.ko && WHITE in st.ko
    requires st1.grid == Put(st.grid, p, c) && st1.free == st.free[p := false] && st1.ko == st.ko
    requires st1.groups == st.groups && st1.index == st.index && st1.score == st.score && st1.same == {} && !st1.killed
    requires SeenAll(now, st1, AroundIds(x, y, st.index, p), p, c)
    ensures var ids := AroundIds(x, y, st.index, p);
            now.grid == MovedGrid(st, x, y, p, c) &&
            now.free == FreedAfter(st.free[p := false], st.groups, st.index, Captured(st.groups, ids, p, c)) &&
            now.ko == KoAfter(st.ko, st.groups, ids, p, c)
  {
  }

  /** After the capture loop, the records, the index and the score are
      those the captures leave. */
  lemma CapturedRecords(st: Snapshot, x: int, y: int, p: Pos, c: Stone, st1: Snapshot, now: Snapshot)
    requires IsGrid(st.grid, x, y) && InBounds(x, y, p) && BLACK in st.ko && WHITE in st.ko
    requires st1.grid == Put(st.grid, p, c) && st1.free == st.free[p := false] && st1.ko == st.ko
    requires st1.groups == st.groups && st1.index == st.index && st1.score == st.score && st1.same == {} && !st1.killed
    requires SeenAll(now, st1, AroundIds(x, y, st.index, p), p, c)
    ensures var ids := AroundIds(x, y, st.index, p);
            var cap := Captured(st.groups, ids, p, c);
            now.groups == AfterCaptures(st.groups, ids, p, c) && now.index == st.index - cap &&
            now.score == st.score.Add(Opp(c), -|cap|)
  {
  }

  /** After the capture loop, its own two variables: the friends met, and
      whether anything was captured. */
  lemma CapturedMet(st: Snapshot, x: int, y: int, p: Pos, c: Stone, st1: Snapshot, now: Snapshot)
    requires IsGrid(st.grid, x, y) && InBounds(x, y, p) && BLACK in st.ko && WHITE in st.ko
    requires st1.grid == Put(st.grid, p, c) && st1.free == st.free[p := false] && st1.ko == st.ko
    requires st1.groups == st.groups && st1.index == st.index && st1.score == st.score && st1.same == {} && !st1.killed
    requires SeenAll(now, st1, AroundIds(x, y, st.index, p), p, c)
    ensures now.same == GL.SameIds(st.groups, AroundIds(x, y, st.index, p), c)
    ensures now.killed == (DeadAt(st.groups, AroundIds(x, y, st.index, p), p, c) != {})
  {
  }

  /** The capture loop over all the groups met, from the placed stone,
      reaches `CapturedTo`. */
  lemma CaptureDone(st: Snapshot, x: int, y: int, p: Pos, c: Stone, st1: Snapshot, now: Snapshot)
    requires IsGrid(st.grid, x, y) && InBounds(x, y, p) && BLACK in st.ko && WHITE in st.ko
    requires st1.grid == Put(st.grid, p, c) && st1.free == st.free[p := false] && st1.ko == st.ko
    requires st1.groups == st.groups && st1.index == st.index && st1.score == st.score && st1.same == {} && !st1.killed
    requires SeenAll(now, st1, AroundIds(x, y, st.index, p), p, c)
    ensures CapturedTo(st, x, y, p, c, now.grid, now.free, now.ko, now.groups, now.index, now.score, now.same, now.killed)
  {
    CapturedBoard(st, x, y, p, c, st1, now);
    CapturedRecords(st, x, y, p, c, st1, now);
    CapturedMet(st, x, y, p, c, st1, now);
  }

  /** `update_free_map(c)`: each liberty of a record is re-judged by
      `is_empty_free`; every other point keeps its flag. */
  ghost function Refreed(g: Grid, x: int, y: int, ko: map<Stone, set<Pos>>, groups: map<nat, Group>,
                         index: map<Pos, nat>, free: map<Pos, bool>, c: Stone): map<Pos, bool>
    requires IsGrid(g, x, y) && BLACK in ko && WHITE in ko && GL.StonesIndexed(g, x, y, groups, index)
    requires forall q | q in GL.LibertiesIn(groups, groups.Keys) :: InBounds(x, y, q)
  {
    map q | q in free :: if q in GL.LibertiesIn(groups, groups.Keys) then FreeAt(g, x, y, ko, groups, index, q, c) else free[q]
  }

  /** `update_free_map` leaves every point that is no liberty of a record as it was. */
  lemma RefreedElsewhere(g: Grid, x: int, y: int, ko: map<Stone, set<Pos>>, groups: map<nat, Group>,
                         index: map<Pos, nat>, free: map<Pos, bool>, c: Stone)
    requires IsGrid(g, x, y) && BLACK in ko && WHITE in ko && GL.StonesIndexed(g, x, y, groups, index)
    requires forall q | q in GL.LibertiesIn(groups, groups.Keys) :: InBounds(x, y, q)
    ensures var f := Refreed(g, x, y, ko, groups, index, free, c);
            f.Keys == free.Keys && forall q | q in f && q !in GL.LibertiesIn(groups, groups.Keys) :: f[q] == free[q]
  {
  }

  /** The state after `__move(p, c)`, field by field, with `nid` the
      identity the new stone's group receives: the board after placing and
      capturing, the registry after merging and refreshing liberties, the
      free map refreshed at every liberty of a group of the new registry,
      the ko points of the capture, and the score with the captured stones
      taken from the opponent and the new stone added. */
  ghost predicate MovedTo(st: Snapshot, x: int, y: int, nid: nat, p: Pos, c: Stone,
                          g: Grid, f: map<Pos, bool>, ko: map<Stone, set<Pos>>, groups: map<nat, Group>,
                          index: map<Pos, nat>, score: Score)
    requires Playable(st, x, y, nid, p)
  {
    var ids := AroundIds(x, y, st.index, p);
    var cap := Captured(st.groups, ids, p, c);
    g == MovedGrid(st, x, y, p, c) && groups == MovedGroups(st, x, y, nid, p, c) &&
    index == MovedIndex(st, x, y, nid, p, c) && ko == KoAfter(st.ko, st.groups, ids, p, c) &&
    score == st.score.Add(Opp(c), -|cap|).Add(c, 1) &&
    IsGrid(g, x, y) && BLACK in ko && WHITE in ko && GL.StonesIndexed(g, x, y, groups, index) &&
    (forall q | q in GL.LibertiesIn(groups, groups.Keys) :: InBounds(x, y, q)) &&
    f == Refreed(g, x, y, ko, groups, index, FreedAfter(st.free[p := false], st.groups, st.index, cap), Opp(c))
  }

  /** What `update_free_map` promises, on the board and registry after the
      merge, is the free map `Refreed` describes. */
  lemma RefreedIs(g: Grid, x: int, y: int, ko: map<Stone, set<Pos>>, groups: map<nat, Group>,
                  index: map<Pos, nat>, free: map<Pos, bool>, c: Stone, f: map<Pos, bool>)
    requires IsGrid(g, x, y) && BLACK in ko && WHITE in ko && GL.StonesIndexed(g, x, y, groups, index)
    requires forall q | q in GL.LibertiesIn(groups, groups.Keys) :: InBounds(x, y, q)
    requires f.Keys == free.Keys
    requires forall q | q in f :: f[q] == if q in GL.LibertiesIn(groups, groups.Keys) then FreeAt(g, x, y, ko, groups, index, q, c) else free[q]
    ensures f == Refreed(g, x, y, ko, groups, index, free, c)
  {
  }

  /** Before `update_free_map`: the board and the registry after the merge
      meet what it needs. */
  lemma RefreshReady(st: Snapshot, x: int, y: int, nid: nat, p: Pos, c: Stone,
                     g: Grid, f0: map<Pos, bool>, ko: map<Stone, set<Pos>>, groups: map<nat, Group>,
                     index: map<Pos, nat>, s0: Score)
    requires Merged(st, x, y, nid, p, c, g, f0, ko, groups, index, s0)
    ensures IsGrid(g, x, y) && BLACK in ko && WHITE in ko && GL.StonesIndexed(g, x, y, groups, index)
    ensures forall q | q in GL.LibertiesIn(groups, groups.Keys) :: InBounds(x, y, q)
  {
    MoveRegistry(st, x, y, nid, p, c);
  }

  /** After a move, every point marked free is empty. */
  lemma MoveFreeKept(st: Snapshot, x: int, y: int, nid: nat, p: Pos, c: Stone,
                     g: Grid, f: map<Pos, bool>, ko: map<Stone, set<Pos>>, groups: map<nat, Group>, index: map<Pos, nat>)
    requires Playable(st, x, y, nid, p)
    requires g == MovedGrid(st, x, y, p, c) && Exact(g, x, y, groups)
    requires IsGrid(g, x, y) && BLACK in ko && WHITE in ko && GL.StonesIndexed(g, x, y, groups, index)
    requires forall q | q in GL.LibertiesIn(groups, groups.Keys) :: InBounds(x, y, q)
    requires var cap := Captured(st.groups, AroundIds(x, y, st.index, p), p, c);
             f == Refreed(g, x, y, ko, groups, index, FreedAfter(st.free[p := false], st.groups, st.index, cap), Opp(c))
    ensures FreeEmpty(g, f)
  {
    var ids := AroundIds(x, y, st.index, p);
    var cap := Captured(st.groups, ids, p, c);
    CapturedOpponent(st, x, y, nid, p, c, ids);
    GridCell(st.grid, x, y, p);
    RefreedElsewhere(g, x, y, ko, groups, index, FreedAfter(st.free[p := false], st.groups, st.index, cap), Opp(c));
    MoveFreeEmpty(st.grid, x, y, st.free, st.groups, st.index, p, c, cap, g, groups, f);
  }

  /** After a move, the score counts the stones of each colour. */
  lemma MoveScoreKept(st: Snapshot, x: int, y: int, nid: nat, p: Pos, c: Stone, g: Grid, score: Score)
    requires Playable(st, x, y, nid, p) && Counted(st.grid, x, y, st.score)
    requires g == MovedGrid(st, x, y, p, c)
    requires score == st.score.Add(Opp(c), -|Captured(st.groups, AroundIds(x, y, st.index, p), p, c)|).Add(c, 1)
    ensures Counted(g, x, y, score)
  {
    var ids := AroundIds(x, y, st.index, p);
    CapturedOpponent(st, x, y, nid, p, c, ids);
    GridCell(st.grid, x, y, p);
    MoveCounted(st.grid, x, y, st.score, p, c, Captured(st.groups, ids, p, c), g);
  }

  /** A move keeps the registry describing the board, and the score
      counting the stones. */
  lemma MoveKeeps(st: Snapshot, x: int, y: int, nid: nat, p: Pos, c: Stone,
                  g: Grid, f: map<Pos, bool>, ko: map<Stone, set<Pos>>, groups: map<nat, Group>,
                  index: map<Pos, nat>, score: Score)
    requires Playable(st, x, y, nid, p) && Counted(st.grid, x, y, st.score)
    requires MovedTo(st, x, y, nid, p, c, g, f, ko, groups, index, score)
    ensures Consistent(g, x, y, f, groups, index) && Counted(g, x, y, score)
  {
    MoveRegistry(st, x, y, nid, p, c);
    MoveFreeKept(st, x, y, nid, p, c, g, f, ko, groups, index);
    MoveScoreKept(st, x, y, nid, p, c, g, score);
  }

  /** The state of `__move(p, c)` once the merge is done and before
      `update_free_map`: the board, the free map, the ko sets, the records
      and the index as the captures and the merge leave them, and the
      score with the captured stones added for the opponent. */
  ghost predicate Merged(st: Snapshot, x: int, y: int, nid: nat, p: Pos, c: Stone,
                         g: Grid, f0: map<Pos, bool>, ko: map<Stone, set<Pos>>, groups: map<nat, Group>,
                         index: map<Pos, nat>, s0: Score)
  {
    Playable(st, x, y, nid, p) && Counted(st.grid, x, y, st.score) &&
    var ids := AroundIds(x, y, st.index, p);
    var cap := Captured(st.groups, ids, p, c);
    g == MovedGrid(st, x, y, p, c) && f0 == FreedAfter(st.free[p := false], st.groups, st.index, cap) &&
    ko == KoAfter(st.ko, st.groups, ids, p, c) && s0 == st.score.Add(Opp(c), -|cap|) &&
    groups == MovedGroups(st, x, y, nid, p, c) && index == MovedIndex(st, x, y, nid, p, c)
  }

  /** The end of `__move(p, c)`: once the merge is done, refreshing the
      free map and counting the new stone reach the state `MovedTo`
      describes, and the registry still describes the board. */
  lemma RefreshDone(st: Snapshot, x: int, y: int, nid: nat, p: Pos, c: Stone,
                    g: Grid, f0: map<Pos, bool>, ko: map<Stone, set<Pos>>, groups: map<nat, Group>,
                    index: map<Pos, nat>, s0: Score, f: map<Pos, bool>, score: Score)
    requires Merged(st, x, y, nid, p, c, g, f0, ko, groups, index, s0)
    requires IsGrid(g, x, y) && BLACK in ko && WHITE in ko && GL.StonesIndexed(g, x, y, groups, index)
    requires forall q | q in GL.LibertiesIn(groups, groups.Keys) :: InBounds(x, y, q)
    requires f == Refreed(g, x, y, ko, groups, index, f0, Opp(c)) && score == s0.Add(c, 1)
    ensures MovedTo(st, x, y, nid, p, c, g, f, ko, groups, index, score)
    ensures Consistent(g, x, y, f, groups, index) && Counted(g, x, y, score)
  {
    MoveKeeps(st, x, y, nid, p, c, g, f, ko, groups, index, score);
  }
}
