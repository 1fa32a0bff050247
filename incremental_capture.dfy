/** What one move of the incremental engine (go.py, `__move`) does to the
    board and the group registry, on values: the invariant the engine keeps
    between moves, and the capture loop round by round. */
module IncrementalCapture {
  import opened GoRules
  import opened IncrementalGroups
  import GL = GameLogic

  // ---------------------------------------------------------------------
  // What the engine keeps true between moves
  // ---------------------------------------------------------------------

  /** The position index holds exactly the stones; each points to a record
      that holds it, and each member of a record points back to it. */
  ghost predicate Indexed(g: Grid, x: int, y: int, groups: map<nat, Group>, index: map<Pos, nat>)
    requires IsGrid(g, x, y)
  {
    index.Keys == Stones(g, x, y) && GL.IndexSound(groups, index) && GL.GroupsIndexed(groups, index)
  }

  /** Every member of a record is a stone of the record's colour. */
  ghost predicate Coloured(g: Grid, groups: map<nat, Group>)
  {
    forall id, m | id in groups && m in groups[id].members :: InGrid(g, m) && At(g, m) == groups[id].color
  }

  /** Every record keeps exactly the empty neighbours of its members. */
  ghost predicate Exact(g: Grid, x: int, y: int, groups: map<nat, Group>)
    requires IsGrid(g, x, y)
  {
    forall id | id in groups :: LibertiesExact(g, x, y, groups[id])
  }

  /** Only empty points are marked free. */
  ghost predicate FreeEmpty(g: Grid, free: map<Pos, bool>)
  {
    forall q | q in free && free[q] :: InGrid(g, q) && At(g, q) == EMPTY
  }

  /** The registry describes the board. */
  ghost predicate Consistent(g: Grid, x: int, y: int, free: map<Pos, bool>, groups: map<nat, Group>,
                             index: map<Pos, nat>)
  {
    IsGrid(g, x, y) && Indexed(g, x, y, groups, index) && Coloured(g, groups) && Exact(g, x, y, groups) &&
    FreeEmpty(g, free)
  }

  /** The running score is the number of stones of each colour. */
  ghost predicate Counted(g: Grid, x: int, y: int, score: Score)
    requires IsGrid(g, x, y)
  {
    score == Score(|StoneSet(g, x, y, WHITE)|, |StoneSet(g, x, y, BLACK)|)
  }

  // ---------------------------------------------------------------------
  // The neighbour groups of a move and its captures
  // ---------------------------------------------------------------------

  /** The groups `find_group` reports for the points of `ns`. */
  function FoundAmong(index: map<Pos, nat>, ns: seq<Pos>): (r: set<nat>)
    ensures forall id :: id in r <==> exists n :: n in ns && n in index && index[n] == id
  {
    if ns == [] then {}
    else
      var n := ns[|ns| - 1];
      FoundAmong(index, ns[..|ns| - 1]) + (if n in index then {index[n]} else {})
  }

  lemma FoundAmongSnoc(index: map<Pos, nat>, ns: seq<Pos>, k: nat)
    requires k < |ns|
    ensures FoundAmong(index, ns[..k + 1]) ==
            FoundAmong(index, ns[..k]) + (if ns[k] in index then {index[ns[k]]} else {})
  {
    assert ns[..k + 1][..k] == ns[..k];
  }

  /** The opponent records among `ids` with no liberty but `p`: the ones a
      stone of `c` at `p` captures. */
  function DeadAt(groups: map<nat, Group>, ids: set<nat>, p: Pos, c: Stone): (r: set<nat>)
    ensures forall id :: id in r <==> id in ids && id in groups && groups[id].color == Opp(c) &&
                                      groups[id].liberties - {p} == {}
  {
    set id | id in ids && id in groups && groups[id].color == Opp(c) && groups[id].liberties - {p} == {}
  }

  /** The records once each opponent record among `ids` has lost `p` and
      those left with no liberty are gone. */
  function AfterCaptures(groups: map<nat, Group>, ids: set<nat>, p: Pos, c: Stone): map<nat, Group>
  {
    map id | id in groups.Keys - DeadAt(groups, ids, p, c) ::
      if id in ids && groups[id].color == Opp(c) then LosesPoint(groups[id], p) else groups[id]
  }

  /** A captured point stays free unless its group was a single stone. */
  function KeepsFree(groups: map<nat, Group>, index: map<Pos, nat>, m: Pos): bool
  {
    m in index && index[m] in groups && |groups[index[m]].members| != 1
  }

  /** The free map once the points of `s` are captured. */
  function FreedAfter(free: map<Pos, bool>, groups: map<nat, Group>, index: map<Pos, nat>, s: set<Pos>): (r: map<Pos, bool>)
    ensures r.Keys == free.Keys + s
    ensures forall q | q in r :: r[q] == if q in s then KeepsFree(groups, index, q) else free[q]
  {
    free + map m | m in s :: KeepsFree(groups, index, m)
  }

  /** The ko sets once the single stones `singles` are captured by `c` at
      `p`: `p` becomes a ko point of `c` when there is one, and every such
      stone a ko point of its own colour. */
  function KoAfterCapture(ko: map<Stone, set<Pos>>, p: Pos, c: Stone, singles: set<Pos>): map<Stone, set<Pos>>
    requires BLACK in ko && WHITE in ko
  {
    ko[c := ko[c] + (if singles == {} then {} else {p})][Opp(c) := ko[Opp(c)] + singles]
  }

  /** What the capture loop needs of the records it meets: each is
      registered and has `p` among its liberties, each member points to its
      record, and all lie on the board. */
  ghost predicate Ready(groups: map<nat, Group>, index: map<Pos, nat>, ids: set<nat>, p: Pos, x: int, y: int)
  {
    ids <= groups.Keys && (forall id | id in ids :: p in groups[id].liberties) &&
    GL.GroupsIndexed(groups, index) && (forall id | id in groups :: GL.OnBoard(x, y, groups[id]))
  }

  lemma DeadStep(groups: map<nat, Group>, done: set<nat>, id: nat, p: Pos, c: Stone)
    requires id in groups
    ensures DeadAt(groups, done + {id}, p, c) ==
            DeadAt(groups, done, p, c) +
            (if groups[id].color == Opp(c) && groups[id].liberties - {p} == {} then {id} else {})
  {
  }

  lemma AfterCapturesStep(groups: map<nat, Group>, done: set<nat>, id: nat, p: Pos, c: Stone)
    requires id in groups && id !in done
    ensures var r, grp := AfterCaptures(groups, done, p, c), groups[id];
            AfterCaptures(groups, done + {id}, p, c) ==
              if grp.color != Opp(c) then r
              else if grp.liberties - {p} == {} then r[id := LosesPoint(grp, p)] - {id}
              else r[id := LosesPoint(grp, p)]
  {
    DeadStep(groups, done, id, p, c);
  }

  /** The members of two different records never meet. */
  lemma MembersApart(groups: map<nat, Group>, index: map<Pos, nat>, ids: set<nat>, id: nat)
    requires GL.GroupsIndexed(groups, index) && id in groups && id !in ids
    ensures GL.MembersIn(groups, ids) !! groups[id].members
  {
    forall m | m in groups[id].members ensures m !in GL.MembersIn(groups, ids) {
      assert index[m] == id;
    }
  }

  lemma FreedStep(free: map<Pos, bool>, groups: map<nat, Group>, index: map<Pos, nat>, s: set<Pos>, id: nat)
    requires GL.GroupsIndexed(groups, index) && id in groups
    ensures FreedAfter(free, groups, index, s) + FreedBy(groups[id].members) ==
            FreedAfter(free, groups, index, s + groups[id].members)
  {
    var a := FreedAfter(free, groups, index, s) + FreedBy(groups[id].members);
    var b := FreedAfter(free, groups, index, s + groups[id].members);
    forall q | q in a ensures q in b && a[q] == b[q] {
      if q in groups[id].members {
        assert index[q] == id;
      }
    }
    assert a.Keys == b.Keys;
  }

  /** Two ko maps with the same set for each colour are equal. */
  lemma KoSame(a: map<Stone, set<Pos>>, b: map<Stone, set<Pos>>)
    requires BLACK in a && WHITE in a && BLACK in b && WHITE in b
    requires a[BLACK] == b[BLACK] && a[WHITE] == b[WHITE]
    ensures a == b
  {
    forall s: Stone ensures s in a && s in b && a[s] == b[s] {
    }
    assert a.Keys == b.Keys;
  }

  /** Capturing one more single stone adds `p` to the capturer's ko set and
      the stone to its own colour's. */
  lemma KoStep(ko: map<Stone, set<Pos>>, p: Pos, c: Stone, singles: set<Pos>, members: set<Pos>)
    requires BLACK in ko && WHITE in ko && members != {}
    ensures var k := KoAfterCapture(ko, p, c, singles);
            k[c := k[c] + {p}][Opp(c) := k[Opp(c)] + members] == KoAfterCapture(ko, p, c, singles + members)
  {
    var k := KoAfterCapture(ko, p, c, singles);
    var k' := KoAfterCapture(ko, p, c, singles + members);
    var k2 := k[c := k[c] + {p}][Opp(c) := k[Opp(c)] + members];
    assert k2[c] == k'[c];
    assert k2[Opp(c)] == k'[Opp(c)];
    assert k2.Keys == k'.Keys;
  }

  lemma CapturedCount(groups: map<nat, Group>, index: map<Pos, nat>, dead: set<nat>, id: nat)
    requires GL.GroupsIndexed(groups, index) && id in groups && id !in dead
    ensures GL.MembersIn(groups, dead + {id}) == GL.MembersIn(groups, dead) + groups[id].members
    ensures |GL.MembersIn(groups, dead + {id})| == |GL.MembersIn(groups, dead)| + |groups[id].members|
  {
    GL.MembersInAdd(groups, dead, id);
    MembersApart(groups, index, dead, id);
  }

  /** Whether the round of the capture loop on the record `grp` captures
      it: an opponent group whose only liberty is `p`. */
  predicate Dies(grp: Group, p: Pos, c: Stone)
  {
    grp.color == Opp(c) && grp.liberties - {p} == {}
  }

  /** The stones a stone of `c` at `p` captures among the records `done`. */
  function Captured(groups: map<nat, Group>, done: set<nat>, p: Pos, c: Stone): set<Pos>
  {
    GL.MembersIn(groups, DeadAt(groups, done, p, c))
  }

  /** The ko sets once the records among `done` are captured. */
  function KoAfter(ko: map<Stone, set<Pos>>, groups: map<nat, Group>, done: set<nat>, p: Pos, c: Stone)
    : map<Stone, set<Pos>>
    requires BLACK in ko && WHITE in ko
  {
    KoAfterCapture(ko, p, c, GL.SinglesIn(groups, DeadAt(groups, done, p, c), Opp(c)))
  }

  /** A round that captures a single stone adds to the ko sets. */
  lemma KoAfterStep(ko: map<Stone, set<Pos>>, groups: map<nat, Group>, done: set<nat>, id: nat, p: Pos, c: Stone)
    requires BLACK in ko && WHITE in ko && id in groups && id !in done
    ensures var k, grp := KoAfter(ko, groups, done, p, c), groups[id];
            KoAfter(ko, groups, done + {id}, p, c) ==
              if Dies(grp, p, c) then KoOnCapture(k, p, c, grp.members) else k
  {
    var grp, dead := groups[id], DeadAt(groups, done, p, c);
    DeadStep(groups, done, id, p, c);
    if Dies(grp, p, c) {
      assert DeadAt(groups, done + {id}, p, c) == dead + {id};
      GL.SinglesInAdd(groups, dead, id, Opp(c));
      var singles := GL.SinglesIn(groups, dead, Opp(c));
      if |grp.members| == 1 {
        KoStep(ko, p, c, singles, grp.members);
      } else {
        assert GL.SinglesIn(groups, dead + {id}, Opp(c)) == singles;
      }
    } else {
      assert DeadAt(groups, done + {id}, p, c) == dead;
    }
  }

  /** A round collects the record when it is friendly. */
  lemma SameStep(groups: map<nat, Group>, done: set<nat>, id: nat, c: Stone)
    requires id in groups
    ensures GL.SameIds(groups, done + {id}, c) ==
            GL.SameIds(groups, done, c) + (if groups[id].color != Opp(c) then {id} else {})
  {
  }

  lemma AddTwice(s: Score, c: Stone, a: int, b: int)
    ensures s.Add(c, a).Add(c, b) == s.Add(c, a + b)
  {
  }

  /** What the capture loop of `__move` changes: the grid, the free map,
      the ko sets, the registry, the score, and the loop's own two
      variables (the friendly groups met and whether anything died). */
  datatype Snapshot = Snapshot(grid: Grid, free: map<Pos, bool>, ko: map<Stone, set<Pos>>,
                               groups: map<nat, Group>, index: map<Pos, nat>, score: Score,
                               same: set<nat>, killed: bool)

  /** The ko sets once `c`, playing at `p`, captures the group `m`: when it
      is a single stone, `p` becomes a ko point of `c` and the stone's point
      one of its own colour. */
  function KoOnCapture(ko: map<Stone, set<Pos>>, p: Pos, c: Stone, m: set<Pos>): (r: map<Stone, set<Pos>>)
    requires BLACK in ko && WHITE in ko
    ensures BLACK in r && WHITE in r
  {
    if |m| == 1 then ko[c := ko[c] + {p}][Opp(c) := ko[Opp(c)] + m] else ko
  }

  /** One round of the capture loop on the record `id`: a friendly record
      is collected; an opponent record loses the liberty `p` and, left with
      none, is captured: `p` becomes a ko point of `c` and the stone one of
      its own colour when it was a single stone, the opponent's score drops
      by its size, and `delete_group` takes it off the grid, the index and
      the registry and marks its points free. */
  function Round(st: Snapshot, id: nat, p: Pos, c: Stone): (r: Snapshot)
    requires id in st.groups && BLACK in st.ko && WHITE in st.ko
    ensures BLACK in r.ko && WHITE in r.ko
    ensures forall j | j in st.groups && j != id :: j in r.groups && r.groups[j] == st.groups[j]
  {
    var grp := st.groups[id];
    if grp.color != Opp(c) then st.(same := st.same + {id})
    else if !Dies(grp, p, c) then st.(groups := st.groups[id := LosesPoint(grp, p)])
    else
      var m := grp.members;
      st.(grid := Clear(st.grid, m), free := st.free + FreedBy(m), ko := KoOnCapture(st.ko, p, c, m),
          groups := st.groups - {id}, index := st.index - m, score := st.score.Add(Opp(c), -|m|),
          killed := true)
  }

  /** A round that captures, as `Kill` carries it out. */
  lemma RoundKills(st: Snapshot, id: nat, p: Pos, c: Stone)
    requires id in st.groups && BLACK in st.ko && WHITE in st.ko && Dies(st.groups[id], p, c)
    ensures var m := st.groups[id].members;
            Round(st, id, p, c) ==
              Snapshot(Clear(st.grid, m), st.free + FreedBy(m), KoOnCapture(st.ko, p, c, m),
                       st.groups[id := LosesPoint(st.groups[id], p)] - {id}, st.index - m,
                       st.score.Add(Opp(c), -|m|), st.same, true)
  {
    assert st.groups[id := LosesPoint(st.groups[id], p)] - {id} == st.groups - {id};
  }

  /** A round on an opponent record that survives only takes its liberty. */
  lemma RoundWeakens(st: Snapshot, id: nat, p: Pos, c: Stone)
    requires id in st.groups && BLACK in st.ko && WHITE in st.ko
    requires st.groups[id].color == Opp(c) && !Dies(st.groups[id], p, c)
    ensures Round(st, id, p, c) == st.(groups := st.groups[id := LosesPoint(st.groups[id], p)])
  {
  }

  /** The records of a sequence. */
  function Elems(ids: seq<nat>): (r: set<nat>)
    ensures forall id :: id in r <==> id in ids
  {
    set id | id in ids
  }

  /** What running the loop over `ids`, in that order, needs: a ko set for
      each colour, and each record registered once. */
  ghost predicate Runnable(st: Snapshot, ids: seq<nat>)
  {
    BLACK in st.ko && WHITE in st.ko && Distinct(ids) && forall k | 0 <= k < |ids| :: ids[k] in st.groups
  }

  lemma RunnablePrefix(st: Snapshot, ids: seq<nat>)
    requires Runnable(st, ids) && ids != []
    ensures Runnable(st, ids[..|ids| - 1]) && ids[|ids| - 1] !in ids[..|ids| - 1]
    ensures Elems(ids) == Elems(ids[..|ids| - 1]) + {ids[|ids| - 1]}
  {
    var n := |ids| - 1;
    assert ids == ids[..n] + [ids[n]];
  }

  /** The rounds of the loop over `ids`, in that order. */
  function Rounds(st: Snapshot, ids: seq<nat>, p: Pos, c: Stone): (r: Snapshot)
    requires Runnable(st, ids)
    ensures BLACK in r.ko && WHITE in r.ko
    ensures forall j | j in st.groups && j !in ids :: j in r.groups && r.groups[j] == st.groups[j]
    decreases |ids|
  {
    if ids == [] then st
    else
      RunnablePrefix(st, ids);
      var n := |ids| - 1;
      Round(Rounds(st, ids[..n], p, c), ids[n], p, c)
  }

  /** One more round, on a record not seen yet. */
  lemma RoundsSnoc(st: Snapshot, ids: seq<nat>, id: nat, p: Pos, c: Stone)
    requires Runnable(st, ids) && id in st.groups && id !in ids
    ensures Runnable(st, ids + [id]) && Elems(ids + [id]) == Elems(ids) + {id}
    ensures id in Rounds(st, ids, p, c).groups && Rounds(st, ids, p, c).groups[id] == st.groups[id]
    ensures Rounds(st, ids + [id], p, c) == Round(Rounds(st, ids, p, c), id, p, c)
  {
    assert (ids + [id])[..|ids|] == ids;
  }

  // Whatever the order, the rounds over `ids` end in the same state,
  // described component by component in terms of the records before the
  // loop.

  /** The stones captured are the members of the dead records. */
  lemma CapturedSetStep(groups: map<nat, Group>, done: set<nat>, id: nat, p: Pos, c: Stone)
    requires id in groups && id !in done
    ensures Captured(groups, done + {id}, p, c) ==
            Captured(groups, done, p, c) + (if Dies(groups[id], p, c) then groups[id].members else {})
  {
    var dead := DeadAt(groups, done, p, c);
    DeadStep(groups, done, id, p, c);
    if Dies(groups[id], p, c) {
      assert DeadAt(groups, done + {id}, p, c) == dead + {id};
      GL.MembersInAdd(groups, dead, id);
    } else {
      assert DeadAt(groups, done + {id}, p, c) == dead;
    }
  }

  /** The grid after one round. */
  lemma RoundGrid(st: Snapshot, id: nat, p: Pos, c: Stone)
    requires id in st.groups && BLACK in st.ko && WHITE in st.ko
    ensures Round(st, id, p, c).grid ==
            if Dies(st.groups[id], p, c) then Clear(st.grid, st.groups[id].members) else st.grid
  {
  }

  lemma {:induction false} RoundsGrid(st: Snapshot, ids: seq<nat>, p: Pos, c: Stone)
    requires Runnable(st, ids)
    ensures Rounds(st, ids, p, c).grid == Clear(st.grid, Captured(st.groups, Elems(ids), p, c))
    decreases |ids|
  {
    if ids == [] {
      assert Elems(ids) == {};
      assert Captured(st.groups, {}, p, c) == {};
      ClearNone(st.grid);
    } else {
      var n := |ids| - 1;
      RunnablePrefix(st, ids);
      var prev, id := Rounds(st, ids[..n], p, c), ids[n];
      var cap := Captured(st.groups, Elems(ids[..n]), p, c);
      assert prev.groups[id] == st.groups[id];
      assert Rounds(st, ids, p, c) == Round(prev, id, p, c);
      RoundGrid(prev, id, p, c);
      RoundsGrid(st, ids[..n], p, c);
      CapturedSetStep(st.groups, Elems(ids[..n]), id, p, c);
      var m := st.groups[id].members;
      if Dies(st.groups[id], p, c) {
        ClearTwice(st.grid, cap, m);
        assert Captured(st.groups, Elems(ids), p, c) == cap + m;
      } else {
        assert Captured(st.groups, Elems(ids), p, c) == cap;
      }
    }
  }

  /** The free map after one round. */
  lemma RoundFree(st: Snapshot, id: nat, p: Pos, c: Stone)
    requires id in st.groups && BLACK in st.ko && WHITE in st.ko
    ensures Round(st, id, p, c).free ==
            if Dies(st.groups[id], p, c) then st.free + FreedBy(st.groups[id].members) else st.free
  {
  }

  lemma {:induction false} RoundsFree(st: Snapshot, ids: seq<nat>, p: Pos, c: Stone)
    requires Runnable(st, ids) && GL.GroupsIndexed(st.groups, st.index)
    ensures Rounds(st, ids, p, c).free == FreedAfter(st.free, st.groups, st.index, Captured(st.groups, Elems(ids), p, c))
    decreases |ids|
  {
    if ids == [] {
      assert Elems(ids) == {};
      assert Captured(st.groups, {}, p, c) == {};
      assert FreedAfter(st.free, st.groups, st.index, {}) == st.free;
    } else {
      var n := |ids| - 1;
      RunnablePrefix(st, ids);
      var prev, id := Rounds(st, ids[..n], p, c), ids[n];
      var cap := Captured(st.groups, Elems(ids[..n]), p, c);
      assert prev.groups[id] == st.groups[id];
      assert Rounds(st, ids, p, c) == Round(prev, id, p, c);
      RoundFree(prev, id, p, c);
      RoundsFree(st, ids[..n], p, c);
      CapturedSetStep(st.groups, Elems(ids[..n]), id, p, c);
      var m := st.groups[id].members;
      if Dies(st.groups[id], p, c) {
        FreedStep(st.free, st.groups, st.index, cap, id);
        assert Captured(st.groups, Elems(ids), p, c) == cap + m;
      } else {
        assert Captured(st.groups, Elems(ids), p, c) == cap;
      }
    }
  }

  /** The index after one round. */
  lemma RoundIndex(st: Snapshot, id: nat, p: Pos, c: Stone)
    requires id in st.groups && BLACK in st.ko && WHITE in st.ko
    ensures Round(st, id, p, c).index ==
            if Dies(st.groups[id], p, c) then st.index - st.groups[id].members else st.index
  {
  }

  lemma {:induction false} RoundsIndex(st: Snapshot, ids: seq<nat>, p: Pos, c: Stone)
    requires Runnable(st, ids)
    ensures Rounds(st, ids, p, c).index == st.index - Captured(st.groups, Elems(ids), p, c)
    decreases |ids|
  {
    if ids == [] {
      assert Elems(ids) == {};
      assert Captured(st.groups, {}, p, c) == {};
      GL.MapMinusNone(st.index);
    } else {
      var n := |ids| - 1;
      RunnablePrefix(st, ids);
      var prev, id := Rounds(st, ids[..n], p, c), ids[n];
      var cap := Captured(st.groups, Elems(ids[..n]), p, c);
      assert prev.groups[id] == st.groups[id];
      assert Rounds(st, ids, p, c) == Round(prev, id, p, c);
      RoundIndex(prev, id, p, c);
      RoundsIndex(st, ids[..n], p, c);
      CapturedSetStep(st.groups, Elems(ids[..n]), id, p, c);
      var m := st.groups[id].members;
      if Dies(st.groups[id], p, c) {
        GL.MapMinusTwice(st.index, cap, m);
        assert Captured(st.groups, Elems(ids), p, c) == cap + m;
      } else {
        assert Captured(st.groups, Elems(ids), p, c) == cap;
      }
    }
  }

  /** The score after one round. */
  lemma RoundScore(st: Snapshot, id: nat, p: Pos, c: Stone)
    requires id in st.groups && BLACK in st.ko && WHITE in st.ko
    ensures Round(st, id, p, c).score ==
            if Dies(st.groups[id], p, c) then st.score.Add(Opp(c), -|st.groups[id].members|) else st.score
  {
  }

  /** A capture adds the size of the captured record to the count. */
  lemma CapturedCountStep(groups: map<nat, Group>, index: map<Pos, nat>, done: set<nat>, id: nat, p: Pos, c: Stone)
    requires GL.GroupsIndexed(groups, index) && id in groups && id !in done
    ensures |Captured(groups, done + {id}, p, c)| ==
            |Captured(groups, done, p, c)| + (if Dies(groups[id], p, c) then |groups[id].members| else 0)
  {
    var dead := DeadAt(groups, done, p, c);
    DeadStep(groups, done, id, p, c);
    if Dies(groups[id], p, c) {
      assert DeadAt(groups, done + {id}, p, c) == dead + {id};
      CapturedCount(groups, index, dead, id);
    } else {
      assert DeadAt(groups, done + {id}, p, c) == dead;
    }
  }

  lemma {:induction false} RoundsScore(st: Snapshot, ids: seq<nat>, p: Pos, c: Stone)
    requires Runnable(st, ids) && GL.GroupsIndexed(st.groups, st.index)
    ensures Rounds(st, ids, p, c).score == st.score.Add(Opp(c), -|Captured(st.groups, Elems(ids), p, c)|)
    decreases |ids|
  {
    if ids == [] {
      assert Elems(ids) == {};
      assert Captured(st.groups, {}, p, c) == {};
    } else {
      var n := |ids| - 1;
      RunnablePrefix(st, ids);
      var prev, id := Rounds(st, ids[..n], p, c), ids[n];
      var cap := Captured(st.groups, Elems(ids[..n]), p, c);
      assert prev.groups[id] == st.groups[id];
      assert Rounds(st, ids, p, c) == Round(prev, id, p, c);
      RoundScore(prev, id, p, c);
      RoundsScore(st, ids[..n], p, c);
      CapturedCountStep(st.groups, st.index, Elems(ids[..n]), id, p, c);
      var m := st.groups[id].members;
      if Dies(st.groups[id], p, c) {
        AddTwice(st.score, Opp(c), -|cap|, -|m|);
      }
    }
  }

  /** The ko sets after one round. */
  lemma RoundKo(st: Snapshot, id: nat, p: Pos, c: Stone)
    requires id in st.groups && BLACK in st.ko && WHITE in st.ko
    ensures Round(st, id, p, c).ko ==
            if Dies(st.groups[id], p, c) then KoOnCapture(st.ko, p, c, st.groups[id].members) else st.ko
  {
  }

  lemma {:induction false} RoundsKo(st: Snapshot, ids: seq<nat>, p: Pos, c: Stone)
    requires Runnable(st, ids)
    ensures Rounds(st, ids, p, c).ko == KoAfter(st.ko, st.groups, Elems(ids), p, c)
    decreases |ids|
  {
    if ids == [] {
      assert Elems(ids) == {} && DeadAt(st.groups, {}, p, c) == {};
      assert GL.SinglesIn(st.groups, {}, Opp(c)) == {};
      var k := KoAfterCapture(st.ko, p, c, {});
      assert k[c] == st.ko[c] && k[Opp(c)] == st.ko[Opp(c)];
      KoSame(k, st.ko);
    } else {
      var n := |ids| - 1;
      RunnablePrefix(st, ids);
      var prev, id := Rounds(st, ids[..n], p, c), ids[n];
      assert prev.groups[id] == st.groups[id];
      assert Rounds(st, ids, p, c) == Round(prev, id, p, c);
      RoundKo(prev, id, p, c);
      RoundsKo(st, ids[..n], p, c);
      KoAfterStep(st.ko, st.groups, Elems(ids[..n]), id, p, c);
    }
  }

  /** The registry after one round. */
  lemma RoundGroups(st: Snapshot, id: nat, p: Pos, c: Stone)
    requires id in st.groups && BLACK in st.ko && WHITE in st.ko
    ensures var r, grp := st.groups, st.groups[id];
            Round(st, id, p, c).groups ==
              if grp.color != Opp(c) then r
              else if grp.liberties - {p} == {} then r[id := LosesPoint(grp, p)] - {id}
              else r[id := LosesPoint(grp, p)]
  {
    var r, grp := st.groups, st.groups[id];
    if Dies(grp, p, c) {
      assert r[id := LosesPoint(grp, p)] - {id} == r - {id};
    }
  }

  lemma {:induction false} RoundsGroups(st: Snapshot, ids: seq<nat>, p: Pos, c: Stone)
    requires Runnable(st, ids)
    ensures Rounds(st, ids, p, c).groups == AfterCaptures(st.groups, Elems(ids), p, c)
    decreases |ids|
  {
    if ids == [] {
      assert Elems(ids) == {} && DeadAt(st.groups, {}, p, c) == {};
      assert AfterCaptures(st.groups, {}, p, c) == st.groups;
    } else {
      var n := |ids| - 1;
      RunnablePrefix(st, ids);
      var prev, id := Rounds(st, ids[..n], p, c), ids[n];
      assert prev.groups[id] == st.groups[id];
      assert Rounds(st, ids, p, c) == Round(prev, id, p, c);
      RoundGroups(prev, id, p, c);
      RoundsGroups(st, ids[..n], p, c);
      AfterCapturesStep(st.groups, Elems(ids[..n]), id, p, c);
    }
  }

  /** The loop's own variables after one round. */
  lemma RoundFlags(st: Snapshot, id: nat, p: Pos, c: Stone)
    requires id in st.groups && BLACK in st.ko && WHITE in st.ko
    ensures Round(st, id, p, c).same == st.same + (if st.groups[id].color != Opp(c) then {id} else {})
    ensures Round(st, id, p, c).killed == (st.killed || Dies(st.groups[id], p, c))
  {
  }

  lemma {:induction false} RoundsSame(st: Snapshot, ids: seq<nat>, p: Pos, c: Stone)
    requires Runnable(st, ids)
    ensures Rounds(st, ids, p, c).same == st.same + GL.SameIds(st.groups, Elems(ids), c)
    decreases |ids|
  {
    if ids == [] {
      assert Elems(ids) == {};
      assert GL.SameIds(st.groups, {}, c) == {};
    } else {
      var n := |ids| - 1;
      RunnablePrefix(st, ids);
      var prev, id := Rounds(st, ids[..n], p, c), ids[n];
      assert prev.groups[id] == st.groups[id];
      assert Rounds(st, ids, p, c) == Round(prev, id, p, c);
      RoundFlags(prev, id, p, c);
      RoundsSame(st, ids[..n], p, c);
      SameStep(st.groups, Elems(ids[..n]), id, c);
    }
  }

  lemma {:induction false} RoundsKilled(st: Snapshot, ids: seq<nat>, p: Pos, c: Stone)
    requires Runnable(st, ids)
    ensures Rounds(st, ids, p, c).killed == (st.killed || DeadAt(st.groups, Elems(ids), p, c) != {})
    decreases |ids|
  {
    if ids == [] {
      assert Elems(ids) == {};
      assert DeadAt(st.groups, {}, p, c) == {};
    } else {
      var n := |ids| - 1;
      RunnablePrefix(st, ids);
      var prev, id := Rounds(st, ids[..n], p, c), ids[n];
      assert prev.groups[id] == st.groups[id];
      assert Rounds(st, ids, p, c) == Round(prev, id, p, c);
      RoundFlags(prev, id, p, c);
      RoundsKilled(st, ids[..n], p, c);
      DeadStep(st.groups, Elems(ids[..n]), id, p, c);
    }
  }

  /** `st` is the state once the capture loop has seen the records `done`,
      starting from `st0`: the captured stones are the members of the dead
      records, every other component follows from them. */
  ghost predicate SeenAll(st: Snapshot, st0: Snapshot, done: set<nat>, p: Pos, c: Stone)
    requires BLACK in st0.ko && WHITE in st0.ko
  {
    var cap := Captured(st0.groups, done, p, c);
    st.grid == Clear(st0.grid, cap) && st.free == FreedAfter(st0.free, st0.groups, st0.index, cap) &&
    st.index == st0.index - cap && st.score == st0.score.Add(Opp(c), -|cap|) &&
    st.ko == KoAfter(st0.ko, st0.groups, done, p, c) && st.groups == AfterCaptures(st0.groups, done, p, c) &&
    st.same == st0.same + GL.SameIds(st0.groups, done, c) &&
    st.killed == (st0.killed || DeadAt(st0.groups, done, p, c) != {})
  }

  /** The rounds over `ids`, in any order, end in the state `SeenAll`
      describes. */
  lemma RoundsClosed(st: Snapshot, ids: seq<nat>, p: Pos, c: Stone)
    requires Runnable(st, ids) && GL.GroupsIndexed(st.groups, st.index)
    ensures SeenAll(Rounds(st, ids, p, c), st, Elems(ids), p, c)
  {
    RoundsGrid(st, ids, p, c);
    RoundsFree(st, ids, p, c);
    RoundsIndex(st, ids, p, c);
    RoundsScore(st, ids, p, c);
    RoundsKo(st, ids, p, c);
    RoundsGroups(st, ids, p, c);
    RoundsSame(st, ids, p, c);
    RoundsKilled(st, ids, p, c);
  }
}
