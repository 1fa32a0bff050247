# Go rules engines of mini-alpha-zero, in Dafny

The repository trains an AlphaZero-style player for small Go boards and carries two rules engines.

- **The game wrapper engine** is `game_logic.py` together with the `game.py` interface the training loop calls. Each query builds a throw-away `Board`.
  - `get_valid_moves` and `add_stone` flood-fill the stones into `Group` records held by a `Groups` registry.
  - They then recompute every group's liberties.
  - `add_stone` kills the groups left without a liberty.
  - The free map is the legality map: ko, a capture, suicide rules and the alive-eye rule.
  - `get_score` counts area points: a stone of a colour, or an empty point whose every orthogonal neighbour is of that colour.
- **The incremental engine** is `board.py`, `group.py` and `go.py`. One `Board` keeps a grid, a free map and per-colour ko sets, and one `Groups` registry is updated move by move.
  - `__move` places the stone in a new group.
  - It takes the point from each neighbouring opponent group, kills those left with no liberty, and keeps a running score.
  - It then merges the friendly groups with the new one, refreshes every liberty after a capture, and re-judges the free map.

The model follows the same split.

| file | module | models |
|---|---|---|
| `go_rules.dfy` | `GoRules` | Colours, grids, the neighbour and diagonal tables, the counting predicates, the group record and its `add_group`. Also same-colour chains (connected components) and area points. |
| `game_logic.dfy` | `GameLogic` | `game_logic.py`'s classes `Board` and `Groups`, its `Group` operations, the flood fill, the free map, and the proofs that connect them to the Go rules on a bare grid. |
| `game_interface.dfy` | `GameInterface` | `game.py`'s `Game` class over plain n by n grids. Also ravel and reshape, and the eight symmetries. |
| `incremental_board.dfy` | `IncrementalBoard` | `board.py`'s `Board` class. |
| `incremental_groups.dfy` | `IncrementalGroups` | `group.py`'s `Group` operations and its `Groups` class. |
| `incremental_capture.dfy` | `IncrementalCapture` | The capture loop of `go.py`'s `__move` as a function of its state (`Round`, `Rounds`), and its closed form, whatever order the groups are visited in. |
| `incremental_move.dfy` | `IncrementalMove` | The state after `__move`, and the proof that a move keeps the registry describing the board and the score counting the stones. |
| `incremental_game.dfy` | `IncrementalGame` | `go.py`'s `Game` class. |

Some conventions run through the whole model.

- **Groups:** Python `Group` objects are compared by identity. The model gives each record a number (`nextId`, `NewId`). A registry is a map from numbers to `Group` values plus the `positionToGroup` index.
- **Board:** the grid is a `seq<seq<Cell>>` that the board methods reassign. The free map is a `map<Pos, bool>`, and the ko sets are a `map<Stone, set<Pos>>`.
- **Colours:** BLACK = -1, EMPTY = 0, WHITE = 1, as in the source. A colour is the subset type `Stone` wherever the source can only receive BLACK or WHITE. The one colour check the source reaches with other values, in `__is_empty_free`, is modelled as a `Result` error.
- **Set iteration:** loops over Python sets run in an arbitrary order. The capture loop is specified for every order: `Game.CaptureLoop` ends in `Rounds` over a ghost sequence `seen`, and `RoundsClosed` states the outcome independently of that sequence.

## Model

| member | source | states |
|---|---|---|
| GoRules.Opp | game_logic.py:3-5 | The opposite colour is the negation (WHITE = 1, BLACK = -1) |
| GoRules.EmptyGrid | game_logic.py:13 | `np.zeros([x, y])`: an x by y grid whose every cell is EMPTY |
| GoRules.Put | game_logic.py:123 | Writing one cell keeps the shape and changes only that cell |
| GoRules.Positions | game_logic.py:21 | The keys of the neighbour tables: exactly the on-board coordinates |
| GoRules.IsBound | game_logic.py:180-181 | `__is_bound` (both coordinates unchanged modulo the size) holds exactly for on-board points |
| GoRules.BoundFilter | game_logic.py:16-20 | Filtering keeps exactly the listed on-board cells, in order and without repeats |
| GoRules.Neighbors | game_logic.py:14-22 | A neighbour-table entry holds exactly the on-board orthogonal neighbours, at most four and distinct |
| GoRules.Diagonals | game_logic.py:23-31 | game_logic.py's diagonal entry holds exactly the on-board diagonal cells, at most four and distinct |
| GoRules.DiagonalsAsWritten | board.py:24-32 | board.py's diagonal entry holds every on-board diagonal cell except the up-right one (x-1, y+1) |
| GoRules.DiagonalsAsWrittenDiffer | board.py:28-29 | Away from the edge, board.py's entry has four cells with a repeat and lacks the up-right cell, which game_logic.py's entry has |
| GoRules.InteriorNeighbors | game_logic.py:14-22 | Away from the edge a neighbour-table entry holds all four neighbours, right, down, left, up |
| GoRules.LastNeighbor | board.py:15-23 | The last cell of a neighbour-table entry is the point above when there is one, and otherwise the point to the left when there is one |
| GoRules.CountColour | game_logic.py:82-85 | A same-colour counter over a list is at most its length, and equals it exactly when every listed cell holds the colour |
| GoRules.CountTwoColours | game_logic.py:168-174 | Counts of two different colours never exceed the total, and add up to it exactly when every cell holds one of them |
| GoRules.CountOneShort | game_logic.py:92 | `same == total - 1` holds exactly when one listed cell differs from the colour |
| GoRules.IsEye | game_logic.py:97-107 | `is_eye` holds exactly when every orthogonal neighbour holds the colour |
| GoRules.IsSuicide | game_logic.py:109-116 | `is_suiside` holds exactly when every orthogonal neighbour holds the opposite colour |
| GoRules.CountNeighbors | game_logic.py:164-174 | `count_neighbors`: `total` is the neighbour count (at most 4). `same == total` is `is_eye`, `diff == total` is `is_suiside`, and `same + diff == total` means no empty neighbour |
| GoRules.AliveEyeCount | game_logic.py:90-95 | The alive-eye verdict: all listed cells hold the colour, or there are 8 cells and exactly one differs |
| GoRules.LibertiesOf | game_logic.py:372-377 | The liberties of a member set: exactly the on-board empty points adjacent to a member |
| GoRules.LibertiesOfStones | game_logic.py:359 | Liberties of stones are never among the stones |
| GoRules.LibertiesOfUnion | game_logic.py:356-359 | Liberties distribute over the union of member sets |
| GoRules.LibertiesAfterPut | group.py:162-167 | Placing a stone removes that point, and only it, from every liberty set |
| GoRules.ConnectedSymmetric | game_logic.py:64-70 | Same-colour reachability is symmetric |
| GoRules.ConnectedTransitive | game_logic.py:64-70 | Same-colour reachability is transitive |
| GoRules.ComponentClosed | game_logic.py:68-70 | A component holds every same-colour neighbour of its members |
| GoRules.ClosedContainsComponent | game_logic.py:68-70 | A closed set holds the whole component of each member |
| GoRules.ComponentOfMember | game_logic.py:60 | Every member of a component has that same component, so visited stones are never re-grouped |
| GoRules.ComponentBasics | game_logic.py:63-66 | A component holds its seed and only cells of the seed's colour |
| GoRules.StoneSet | game_logic.py:47-50 | The stones of one colour: exactly the on-board cells holding it |
| GoRules.Stones | game_logic.py:60 | The stones: exactly the on-board non-empty cells |
| GoRules.Clear | game_logic.py:383-384 | Emptying a set of cells keeps the shape, empties exactly those cells, and keeps the rest |
| GoRules.ClearTwice | game_logic.py:196-197 | Emptying two sets one after the other empties their union |
| GoRules.AreaPoints | game_logic.py:40-50 | The points counted for a colour are exactly its stones and the empty points that are its eyes |
| GoRules.EyeOfBoth | game_logic.py:41-45 | A point is an eye of both colours only on a 1 by 1 board (no neighbour at all) |
| GoRules.Score.Add | go.py:60 | Adding to one colour's score changes only that colour's count, by exactly the amount |
| GoRules.Signed | game.py:104-109 | `player * board` multiplies every cell by the player's colour and keeps the shape |
| GoRules.SignedInvolution | game.py:104-109 | Multiplying twice by the same colour gives the board back |
| GoRules.SignedWhite | game.py:104-109 | For WHITE the standard board is the board itself |
| GoRules.SignedScores | game.py:104-109 | On the standard board, a colour's area points are those of the player's colour, or of the opponent's if the player is BLACK |
| GoRules.AddGroup | game_logic.py:356-359 | `Group.add_group`: same colour, members the union, liberties the union of both groups' liberties less the new members (so disjoint from them) |
| GoRules.AddGroupExact | game_logic.py:356-359 | Merging two groups with exact liberties gives exact liberties (the empty neighbours of the merged members) |
| GameLogic.GridCountAll | game_logic.py:40 | Enumerating the x by y grid row by row visits every on-board cell of a set once |
| GameLogic.CellPoints | game_logic.py:41-50 | One cell of `get_score` adds 1 to a colour exactly when the cell is among that colour's area points |
| GameLogic.ScoreRow | game_logic.py:40-50 | One row of the `get_score` loop counts that row's area points |
| GameLogic.ScoreGrid | game_logic.py:38-50 | The two loops of `get_score` count all area points of each colour |
| GameLogic.Board.GetScore | game_logic.py:37-51 | `get_score` returns the number of area points of each colour |
| GameLogic.Unvisited | game_logic.py:68-70 | The neighbours pushed: exactly the listed cells of the colour not yet visited |
| GameLogic.PushNeighbors | game_logic.py:68-70 | The neighbour loop appends the unvisited same-colour neighbours to the buffer, in table order |
| GameLogic.ComponentUnvisited | game_logic.py:60 | A stone not yet visited belongs to a wholly unvisited component |
| GameLogic.FloodFrom | game_logic.py:61-71 | The flood fill from an unvisited stone collects exactly its same-colour component and marks it visited |
| GameLogic.Fill | game_logic.py:64-70 | The `while len(buffer) > 0` loop ends with the seed collected, inside the component, and every same-colour neighbour of a member collected |
| GameLogic.FillStep | game_logic.py:65-70 | One pop of the buffer keeps the loop invariant and decreases the termination measure |
| GameLogic.FillKeeps | game_logic.py:65-70 | Popping, recording, marking and pushing keeps the loop invariant |
| GameLogic.FillMeasure | game_logic.py:64-70 | Each round collects a new cell of the component or pops a cell already collected, so the loop ends |
| GameLogic.FrontierStep | game_logic.py:68-70 | Every same-colour neighbour of a collected cell is collected or still waiting in the buffer |
| GameLogic.ClosedFill | game_logic.py:64-70 | A closed set that holds the seed and lies within its component is that component |
| GameLogic.IsAliveEye | game_logic.py:79-95 | `is_alive_eye`: every orthogonal and diagonal cell holds the colour, or there are 8 of them and exactly one differs |
| GameLogic.Board.constructor | game_logic.py:9-13 | A new board is the empty x by y grid with empty ko sets for both colours |
| GameLogic.Board.RemoveStone | game_logic.py:148-149 | `remove_stone` empties the point and keeps the ko sets |
| GameLogic.Board.SetKo | game_logic.py:152-153 | `set_ko` adds the point to the colour's ko set only |
| GameLogic.Board.UnsetKo | game_logic.py:156-157 | `unset_ko` empties the colour's ko set only |
| GameLogic.Board.SetCell | game_logic.py:145 | `board[p] = v` changes that cell only |
| GameLogic.Board.CollectGroups | game_logic.py:57-74 | The scan registers each stone's whole component once, as a partition of the stones into registered, indexed groups |
| GameLogic.Board.AddStone | game_logic.py:122-145 | `add_stone` leaves the stone placed and every stone whose chain has no liberty removed. The ko sets gain the captured single stones |
| GameLogic.Board.RemoveCaptured | game_logic.py:124-144 | Rebuilding the groups, their liberties and `kill_dead_group` empties exactly the stones whose chain has no liberty, with the capture ko points |
| GameLogic.Board.GetValidMoves | game_logic.py:53-77 | `get_valid_moves` fails exactly on a bad colour with some liberty on the board. Otherwise it returns, at every point, the legality rule `ValidMovesAt` |
| GameLogic.EmptyAmong | game_logic.py:375-377 | The empty cells among a neighbour list |
| GameLogic.AddEmptyAmong | game_logic.py:375-377 | The inner loop adds exactly the empty listed cells |
| GameLogic.EmptyNeighbors | game_logic.py:375-377 | The empty neighbours of a member are its liberties |
| GameLogic.UpdateLiberty | game_logic.py:372-377 | `update_liberty` keeps colour and members and makes the liberties exactly the empty neighbours of the members, disjoint from stone members |
| GameLogic.AddPosition | game_logic.py:363-367 | `add_position` adds the member and its empty neighbours; exact liberties stay exact |
| GameLogic.KillSelf | game_logic.py:382-387 | `kill_self` empties every member. A single-stone group's point joins its colour's ko set; otherwise ko is unchanged |
| GameLogic.PartitionAdd | game_logic.py:72-74 | Registering an unvisited component as a new group keeps the registry a partition of the visited stones |
| GameLogic.ComponentFacts | game_logic.py:63-70 | Every member of a component is on the board, of the seed's colour, and has the same component |
| GameLogic.MembersIn | game_logic.py:196-197 | The members of the named records |
| GameLogic.LibertiesIn | game_logic.py:200-204 | The liberties of the named records |
| GameLogic.WithLiberties | game_logic.py:268-270 | Every record keeps colour and members and gets exact liberties |
| GameLogic.IdsAmong | game_logic.py:289-292 | The groups of the stone neighbours in a list |
| GameLogic.NeighborIds | game_logic.py:287-293 | The groups of the stones next to a point |
| GameLogic.AbsorbOne | game_logic.py:261-262 | Absorbing a group into a merge in progress pools members and liberties less members |
| GameLogic.CollectIds | game_logic.py:289-292 | The loop of `get_neighbors_groups` collects exactly the indexed stone neighbours' groups |
| GameLogic.DeadAmong | game_logic.py:192-194 | The records with no liberty left |
| GameLogic.SinglesIn | game_logic.py:385-387 | The points of the single-stone records of a colour |
| GameLogic.KoAfterKill | game_logic.py:196-197 | After the kills each colour's ko set gains the points of its killed single stones; the keys stay |
| GameLogic.KoAfterOne | game_logic.py:385-387 | Killing one more record adds its point to its colour's ko set exactly when it is a single stone |
| GameLogic.KillAll | game_logic.py:196-197 | The second loop of `kill_dead_group` empties all members of the killed records and applies their ko points |
| GameLogic.KillOne | game_logic.py:197 | One `kill_self` round extends the cleared set and the ko sets by one record |
| GameLogic.SameIds | game_logic.py:315-317 | The neighbour records of the mover's colour |
| GameLogic.LibertySumAdd | game_logic.py:317 | The liberty total grows by each added record's liberty count |
| GameLogic.LibertySumBound | game_logic.py:326 | If every friendly group has a liberty, the total is at least the group count, with equality exactly when each has one |
| GameLogic.NeighborIdsRegistered | game_logic.py:291 | With every stone neighbour indexed, the neighbour groups are all registered |
| GameLogic.StonesIndexedNeighbors | game_logic.py:291 | Every stone indexed implies every stone next to a point is indexed |
| GameLogic.FreeCellLiberty | game_logic.py:225-227 | On a liberty, the free map holds `__is_empty_free`'s verdict (1 for true) |
| GameLogic.FreeCellOther | game_logic.py:217-219 | Off the liberties, the free map is 0 exactly on indexed points |
| GameLogic.MarkOne | game_logic.py:226-227 | One write of the second loop extends the free map's finished part by one point |
| GameLogic.Ones | game_logic.py:217 | `np.ones([x, y])`: an x by y grid whose every cell is 1 |
| GameLogic.Register | game_logic.py:230-234 | The registry half of `add_group`: the record is stored; only a new one's members are indexed to it |
| GameLogic.Unregister | game_logic.py:240-248 | The registry half of `remove_group`: the record is dropped; a registered one's members leave the index |
| GameLogic.AbsorbAll | game_logic.py:260-263 | The `merge_groups` loop pools every listed group into a new record and unregisters each of them |
| GameLogic.AbsorbStep | game_logic.py:262-263 | One round of the merge loop absorbs and unregisters one more group |
| GameLogic.UpdateAllLiberties | game_logic.py:268-270 | Every record gets exact liberties, as `WithLiberties` |
| GameLogic.AllLibertiesOf | game_logic.py:200-204 | The union of all records' liberties |
| GameLogic.MergedOnBoard | game_logic.py:260-264 | A merge of on-board groups is on the board |
| GameLogic.Groups.constructor | game_logic.py:185-188 | A new registry is empty and bound to its board |
| GameLogic.Groups.NewId | game_logic.py:72 | A new group gets a fresh identity; the registry is unchanged |
| GameLogic.Groups.AddGroup | game_logic.py:230-234 | `add_group` stores the group; only a group not yet registered gets its members indexed |
| GameLogic.Groups.RemoveGroup | game_logic.py:240-248 | `remove_group` discards the group, and a registered group's members leave the index |
| GameLogic.Groups.FindGroup | game_logic.py:250-251 | `find_group` finds the group exactly when the position is indexed, and returns the indexed group |
| GameLogic.Groups.MergeGroups | game_logic.py:254-265 | A single group is only registered. Otherwise a new record pools the members and the liberties not among the members, replaces the listed groups, and indexes all their members |
| GameLogic.Groups.UpdateGroupsLiberty | game_logic.py:268-270 | Every registered group gets exact liberties; the index is kept |
| GameLogic.Groups.KillDeadGroup | game_logic.py:190-198 | Groups with no liberty are unregistered and their stones emptied, with the ko points of single stones. The index is left stale, as in the source |
| GameLogic.Groups.FindDead | game_logic.py:192-194 | The first loop finds exactly the groups with no liberty |
| GameLogic.Groups.IsEmptyFree | game_logic.py:296-329 | `__is_empty_free` is the registry rule `EmptyFree`: a colour error, ko first, then a capture, then the suicide and alive-eye checks |
| GameLogic.Groups.FreeRuleAt | game_logic.py:309-329 | The part of `__is_empty_free` after the ko check is `FreeRule` |
| GameLogic.Groups.CalculateFreeMap | game_logic.py:216-228 | `calculate_free_map` fails exactly on a bad colour with some liberty present. Otherwise each point holds `FreeCell`: 0 on indexed points and the verdict on liberties |
| GameLogic.Groups.MarkIndexed | game_logic.py:217-219 | The first loop gives 0 on indexed points and 1 elsewhere |
| GameLogic.Groups.MarkLiberties | game_logic.py:221-227 | The second loop fails exactly on a bad colour with liberties; otherwise every liberty holds its verdict |
| GameLogic.Groups.MarkStep | game_logic.py:226-227 | One liberty is judged, or the colour error is raised |
| GameLogic.Groups.GetAllLiberty | game_logic.py:200-204 | `get_all_liberty` is the union of the groups' liberties, all on the board |
| GameLogic.Groups.GetNeighborsGroups | game_logic.py:287-293 | `get_neighbors_groups` returns the groups of the stone neighbours |
| GameLogic.ScanNeighborGroups | game_logic.py:311-323 | The group loop returns early exactly when an opponent group has a single liberty. Otherwise it counts the friendly groups and sums their liberties |
| GameLogic.CollectAt | game_logic.py:59-74 | One cell of the scan: an unvisited stone's component is registered and the partition grows |
| GameLogic.FillComponent | game_logic.py:61-74 | Flood-filling a stone yields its component, on the board, and registering it keeps the partition |
| GameLogic.ScannedAll | game_logic.py:59 | After the scan the visited cells are exactly the stones |
| GameLogic.PartitionWithLiberties | game_logic.py:143 | Recomputing liberties keeps the registry a partition |
| GameLogic.Captured | game_logic.py:143-144 | The captured stones: those whose chain has no liberty |
| GameLogic.CapturedSingles | game_logic.py:385-387 | The captured stones of a colour that are a chain on their own |
| GameLogic.KoAfter | game_logic.py:385-387 | After captures each colour's ko set gains its captured single stones |
| GameLogic.AfterAddStone | game_logic.py:122-145 | The grid `add_stone` leaves is a grid of the same size |
| GameLogic.AddStoneEffect | game_logic.py:122-145 | After `add_stone` the stone is on the point. Every other point is emptied if its chain is captured once the stone is placed, and kept otherwise |
| GameLogic.AddStoneKeepsLiving | game_logic.py:143-145 | A stone whose chain keeps a liberty stays, and one whose chain has none is removed |
| GameLogic.DeadAreCaptured | game_logic.py:190-198 | With a partition and exact liberties, the killed groups' members are exactly the captured stones, and the ko update agrees |
| GameLogic.SinglesAreCaptured | game_logic.py:385-387 | The killed single-stone records are exactly the captured single-stone chains |
| GameLogic.ValidMovesRules | game_logic.py:216-329 | The legality map point by point. Stones are 0, and an empty point with no stone neighbour is 1. On a liberty, a ko point is 0, a capture is 1, and otherwise a suicide or an alive eye is 0 |
| GameLogic.PartitionStonesIndexed | game_logic.py:234 | A partition indexes every stone |
| GameLogic.FreeMapIsValidMoves | game_logic.py:216-228 | The free map the rebuilt registry yields equals, at every point, the legality rule stated on chains |
| GameLogic.FreeCellIsValidMove | game_logic.py:216-228 | The same at one point |
| GameLogic.AllLibertiesIn | game_logic.py:221-223 | The registry's liberties are exactly the empty points next to a stone |
| GameLogic.FreeRuleIsLegal | game_logic.py:309-329 | On an empty point, the registry rule equals the chain rule `LegalRule` |
| GameLogic.PartitionNeighborRecords | game_logic.py:287-293 | A partition with exact liberties holds, for each stone next to an empty point, a record of its colour with its chain |
| GameLogic.AtariIsCapture | game_logic.py:319-321 | An opponent neighbour group with one liberty exists exactly when playing captures an adjacent opponent chain |
| GameLogic.CaptureIsAtari | game_logic.py:319-321 | A capture implies an opponent group in atari |
| GameLogic.AtariCaptures | game_logic.py:319-321 | An opponent group in atari implies a capture |
| GameLogic.FriendsBridge | game_logic.py:326 | `same_color_count == same_color_liberty` holds exactly when every adjacent friendly chain has a single liberty |
| GameLogic.FriendsHaveLiberty | game_logic.py:315-317 | Each friendly group next to an empty point has that point as a liberty |
| GameLogic.FriendsAtari | game_logic.py:326 | Every friendly neighbour group has one liberty exactly when every adjacent friendly chain is in atari |
| GameInterface.DivUnique | game.py:52 | Euclidean quotient and remainder are unique, so `(int(a / n), a % n)` recovers row and column |
| GameInterface.RavelLength | game.py:63 | Ravelling an r by c matrix gives r * c entries |
| GameInterface.RavelAt | game.py:63 | Entry (i, j) is entry i * c + j of the ravel |
| GameInterface.Reshape | game.py:117 | `np.reshape(p, (n, n))` gives an n by n matrix |
| GameInterface.ReshapeRavel | game.py:117 | Reshaping a ravel gives the matrix back |
| GameInterface.RavelReshape | game.py:128 | Ravelling a reshape gives the vector back |
| GameInterface.Rot90 | game.py:121-122 | `np.rot90` moves cell (j, n-1-i) to (i, j) |
| GameInterface.FlipLR | game.py:125-126 | `np.fliplr` reverses the columns |
| GameInterface.RotN | game.py:121-122 | `np.rot90(m, k)` keeps the shape |
| GameInterface.FourTurns | game.py:120-122 | Four quarter turns are the identity |
| GameInterface.FlipTwice | game.py:125-126 | Flipping twice is the identity |
| GameInterface.Apply | game.py:120-127 | A symmetry keeps the shape |
| GameInterface.ApplyMovesCells | game.py:120-127 | Each entry of a transformed board is an entry of the board |
| GameInterface.Value | game.py:70-84 | 0 means not ended, and a positive value means a win or a draw (1e-12) |
| GameInterface.Judge | game.py:96-102 | Win exactly when the player's score is higher, loss exactly when lower, never "not ended" |
| GameInterface.StandingAntisymmetric | game.py:96-102 | The other player's outcome is the swap of this player's |
| GameInterface.NoKo | game.py:50 | A fresh `Board` has empty ko sets for both colours |
| GameInterface.SumZero | game.py:75 | A sum of non-negative entries is 0 exactly when every entry is 0 |
| GameInterface.Game.constructor | game.py:16-17 | Stores the board size |
| GameInterface.Game.GetInitBoard | game.py:19-25 | An n by n grid of EMPTY |
| GameInterface.Game.ActionsAreCells | game.py:34-54 | Actions below n * n and on-board cells correspond one to one through `(int(a / n), a % n)` and the row-major index |
| GameInterface.Game.DecodeInBounds | game.py:52 | Every action below n * n decodes to an on-board cell |
| GameInterface.Game.EncodeInRange | game.py:39 | Every cell's index is an action below n * n |
| GameInterface.Game.GetNextState | game.py:41-54 | -1 keeps the board. Any other action plays the decoded cell through `add_stone` (captures included). The next player is -player |
| GameInterface.Game.GetValidMoves | game.py:56-63 | The flattened legality map of the board with no ko, or the colour error |
| GameInterface.Game.ValidMovesBinary | game.py:75 | The flattened legality map sums to 0 exactly when the colour has no legal point |
| GameInterface.Game.ScoreOf | game.py:76 | The area points of each colour |
| GameInterface.Game.CheckIsEnd | game.py:65-84 | The game has ended exactly when neither colour has a legal point, and then it reports the area-score outcome |
| GameInterface.Game.GetCurrentWinLose | game.py:86-102 | The area-score outcome, ended or not |
| GameInterface.Game.GetStandardBoard | game.py:104-109 | `player * board`: multiplying back by the player gives the board; WHITE keeps it |
| GameInterface.Game.GetAllPerspectives | game.py:111-129 | Eight pairs, turned and flipped alike, with the policy reshaped, transformed and ravelled; the first pair is the input |
| IncrementalBoard.Row | board.py:14 | The first j cells of row i, in order |
| IncrementalBoard.KeyOrder | board.py:14 | The free map's keys in insertion order: every on-board point, row by row |
| IncrementalBoard.OrderedConcat | board.py:14 | Rows in order make the key order |
| IncrementalBoard.FreeAmong | board.py:165-170 | The free cells of a key list, in list order |
| IncrementalBoard.FreeAmongOrdered | board.py:167-169 | Keeping the free cells keeps the order |
| IncrementalBoard.OrderedCount | board.py:165-170 | An ordered list has no repeats |
| IncrementalBoard.DiagonalSource | board.py:46-50 | The first loop of `is_alive_eye` rebinds `position`, so the second loop looks up the diagonal entry of the last neighbour: the point above when there is one, the point to the left on the top row |
| IncrementalBoard.EyeCellsAsWritten | board.py:46-53 | The cells `is_alive_eye` counts: the point's neighbours, then that neighbour's diagonal entry as written; at most 8, all on the board |
| IncrementalBoard.EyeCellsInterior | board.py:46-53 | Away from the edge and below the second row, the counted cells are the four neighbours, the right and left neighbours again, and (x-2, y-1) twice: no diagonal of the point |
| IncrementalBoard.IsAliveEyeAsWritten | board.py:43-59 | board.py's `is_alive_eye`: every counted cell holds the colour, or 8 are counted and exactly one differs |
| IncrementalBoard.AliveEyeAsWrittenInterior | board.py:43-59 | Away from the edge and below the second row, the test holds exactly when the left and right neighbours and (x-2, y-1) hold the colour, and so does the point above or the point below |
| IncrementalBoard.AliveEyeIgnoresDiagonals | board.py:46-53 | There, overwriting any diagonal of the point never changes the verdict |
| IncrementalBoard.Board.constructor | board.py:9-14 | A new board is the empty grid, every point free, both ko sets empty |
| IncrementalBoard.Board.FreePoints | board.py:116-121 | The points the free map marks free |
| IncrementalBoard.Board.AddStone | board.py:83-89 | On a free point, places the stone, marks it not free and returns true; otherwise changes nothing and returns false |
| IncrementalBoard.Board.RemoveStone | board.py:92-93 | Empties the point; free map and ko unchanged |
| IncrementalBoard.Board.SetKo | board.py:96-97 | Adds the point to the colour's ko set only |
| IncrementalBoard.Board.UnsetKo | board.py:100-101 | Empties the colour's ko set only |
| IncrementalBoard.Board.SetFree | board.py:108-109 | Marks the point free only |
| IncrementalBoard.Board.UnsetFree | board.py:112-113 | Marks the point not free only |
| IncrementalBoard.Board.CountFree | board.py:116-121 | The number of free points |
| IncrementalBoard.Board.GetFreePositions | board.py:165-170 | Exactly the free points, each once, row by row |
| IncrementalBoard.Board.FreeListIsFreePoints | board.py:165-170 | The free cells of the key order are the free points, ordered and without repeats |
| IncrementalBoard.Board.GetState | board.py:154-160 | The grid for BLACK, its negation for WHITE, nothing for any other colour |
| IncrementalGroups.PointAt | group.py:34-35 | Every member indexed to the record |
| IncrementalGroups.AddMember | group.py:162-167 | `add_member` adds the member and its empty neighbours as liberties. On a free point it places the stone and marks the point not free; otherwise the board is unchanged |
| IncrementalGroups.FirstMemberExact | group.py:162-167 | A new group's first stone gets exact liberties, disjoint from its members |
| IncrementalGroups.FreedBy | group.py:185-189 | The free marks `kill_self` leaves: free, unless the group was a single stone |
| IncrementalGroups.KillSelf | group.py:182-190 | Empties every member and marks them free. A single stone is marked not free and joins its colour's ko set |
| IncrementalGroups.RemoveMembers | group.py:183-184 | The first loop empties every member |
| IncrementalGroups.FreeMembers | group.py:185-186 | The second loop marks every member free |
| IncrementalGroups.EmptyFreeColour | group.py:97-106 | `__is_empty_free` fails exactly on a colour other than BLACK or WHITE |
| IncrementalGroups.AliveEyeTestsDiffer | board.py:43-59 | On every board where a point away from the edge and below the second row has the colour on all neighbours and diagonals but the up-right one, and the cell (x-2, y-1) does not hold the colour, game_logic.py's test calls the point an eye and board.py's does not |
| IncrementalGroups.InteriorEyeCells | game_logic.py:82-89 | Away from the edge, game_logic.py's test counts the four neighbours and then the four diagonals, in table order |
| IncrementalGroups.EmptyFreeCases | group.py:97-128 | Ko forbids first, then an opponent group in atari allows, then a suicide or an alive eye forbids |
| IncrementalGroups.AsWrittenOnlyEyeDiffers | group.py:97-128 | group.py's rule equals game_logic.py's wherever their alive-eye tests agree |
| IncrementalGroups.Groups.constructor | group.py:10-13 | A new registry is empty |
| IncrementalGroups.Groups.NewId | group.py:132-136 | A new group gets a fresh identity |
| IncrementalGroups.Groups.AddGroup | group.py:31-35 | Stores the group; only a group not yet registered gets its members indexed |
| IncrementalGroups.Groups.RemoveGroup | group.py:41-49 | Discards the group; a registered group's members leave the index |
| IncrementalGroups.Groups.DeleteGroup | group.py:37-39 | `remove_group` then `kill_self`: the group leaves the registry and index, its stones are emptied and freed, with the single-stone ko point |
| IncrementalGroups.Groups.TakeLiberty | go.py:54 | `liberty_positions.remove(p)` on a group that has it as a liberty; nothing else changes |
| IncrementalGroups.Groups.FindGroup | group.py:51-52 | Finds the group exactly when the position is indexed |
| IncrementalGroups.Groups.MergeGroups | group.py:55-66 | A single group is registered. Otherwise a new record pools the members and the liberties less the members, replaces the listed groups, and indexes all members |
| IncrementalGroups.Groups.UpdateGroupsLiberty | group.py:69-71 | Every group gets exact liberties; the index is kept |
| IncrementalGroups.Groups.GetAllLiberty | group.py:15-19 | The union of the groups' liberties, all on the board |
| IncrementalGroups.Groups.GetNeighborsGroups | group.py:88-94 | The registered groups of the stone neighbours |
| IncrementalGroups.Groups.IsEmptyFree | group.py:97-128 | `__is_empty_free` as written, including board.py's alive-eye test |
| IncrementalGroups.Groups.FreeRuleAt | group.py:108-128 | The part of `__is_empty_free` past the ko check |
| IncrementalGroups.Groups.UpdateFreeMap | group.py:22-29 | Every liberty of a group is re-judged for the colour; every other point keeps its mark; board and ko unchanged |
| IncrementalGroups.Groups.MarkFree | group.py:28-29 | One point of the free map re-judged |
| IncrementalCapture.FoundAmong | go.py:44-47 | The groups `find_group` reports for the listed positions |
| IncrementalCapture.DeadAt | go.py:53-56 | The opponent groups whose only liberty is the played point |
| IncrementalCapture.FreedAfter | group.py:185-189 | The free map after captures: captured points are freed unless a single stone |
| IncrementalCapture.MembersApart | group.py:31-35 | Members of different records never meet |
| IncrementalCapture.FreedStep | group.py:185-189 | Freeing one more captured group extends the freed set |
| IncrementalCapture.KoStep | go.py:58-59 | Capturing one more single stone adds the played point to the mover's ko set and the stone to the opponent's |
| IncrementalCapture.CapturedCount | go.py:60 | The captured count grows by the size of each captured group |
| IncrementalCapture.KoAfterStep | go.py:58-61 | A capture of a single stone updates both ko sets |
| IncrementalCapture.KoOnCapture | go.py:58-61 | Both ko sets stay defined after a capture |
| IncrementalCapture.Round | go.py:52-66 | One round of the capture loop leaves every other record alone |
| IncrementalCapture.RoundKills | go.py:54-61 | A capturing round empties and frees the group and applies the ko points. It also unregisters the group, takes its stones from the opponent's score and sets `killed` |
| IncrementalCapture.RoundWeakens | go.py:53-54 | A surviving opponent group only loses the point |
| IncrementalCapture.Rounds | go.py:52-66 | The rounds over a visiting order leave every unvisited record alone |
| IncrementalCapture.RoundsSnoc | go.py:52 | One more round, on a record not visited yet |
| IncrementalCapture.RoundsGrid | go.py:52-66 | In any order, the grid ends with exactly the captured stones emptied |
| IncrementalCapture.RoundsFree | go.py:52-66 | In any order, the free map ends with the captured points freed, except single stones |
| IncrementalCapture.RoundsIndex | go.py:52-66 | In any order, the index ends without the captured stones |
| IncrementalCapture.RoundsScore | go.py:60 | In any order, the opponent's score drops by the number of captured stones |
| IncrementalCapture.RoundsKo | go.py:58-61 | In any order, the ko sets end as `KoAfter` |
| IncrementalCapture.RoundsGroups | go.py:52-66 | In any order, the registry ends as `AfterCaptures` |
| IncrementalCapture.RoundsSame | go.py:63-64 | In any order, the friendly groups met are collected |
| IncrementalCapture.RoundsKilled | go.py:57 | In any order, `killed` is set exactly when some group is captured |
| IncrementalCapture.RoundsClosed | go.py:52-66 | The capture loop's outcome does not depend on the order of the set |
| IncrementalMove.Placed | group.py:162-167 | After `add_member` the grid is a grid of the same size |
| IncrementalMove.AroundReady | go.py:42-47 | The groups met around a free point are registered and have it as a liberty |
| IncrementalMove.AroundComplete | go.py:42-47 | Every group with the point as a liberty is met |
| IncrementalMove.CapturedOpponent | go.py:53-61 | Only opponent stones are captured, never the played point |
| IncrementalMove.FriendsStay | go.py:53-69 | The stones of the friendly groups met were stones before the move and are not captured by it |
| IncrementalMove.MoveStones | go.py:36-73 | The stones after the move: those before, less the captured, plus the merged group |
| IncrementalMove.MoveIndexSound | go.py:69 | Every indexed point after the move names a record holding it |
| IncrementalMove.MoveGroupsIndexed | go.py:69 | Every member of a record after the move is indexed to it |
| IncrementalMove.MoveIndexed | go.py:36-73 | The index after the move holds exactly the stones |
| IncrementalMove.MoveColoured | go.py:36-73 | Every member of a record after the move is a stone of its colour |
| IncrementalMove.MoveExact | go.py:69-73 | Without a capture, every record keeps exactly its empty neighbours as liberties |
| IncrementalMove.RelibertiedKeeps | go.py:72-73 | Refreshing the liberties after a capture keeps the index and colours and makes liberties exact |
| IncrementalMove.MoveFreeEmpty | go.py:76 | After the move only empty points are free |
| IncrementalMove.OwnAfterMove | go.py:77 | The mover has the stones before plus the played point |
| IncrementalMove.OtherAfterMove | go.py:60 | The opponent has the stones before less the captured ones |
| IncrementalMove.MoveCounted | go.py:60-77 | The running score counts each colour's stones after the move |
| IncrementalMove.MergeList | go.py:48-64 | The groups `merge_groups` gets: the friends met and the new group |
| IncrementalMove.MergeListOfMove | go.py:48-69 | The merge list holds the unchanged friends and the new group |
| IncrementalMove.MergeListFits | go.py:69 | The merge list meets what `merge_groups` asks |
| IncrementalMove.MergeSettled | go.py:69 | `merge_groups` on that list gives the merged group under its identity |
| IncrementalMove.MergeOutcome | go.py:69 | After `merge_groups` the registry and index are `SettledGroups` and `MovedIndex` |
| IncrementalMove.PooledExact | group.py:155-158 | Exact groups' liberties pool to the liberties of their pooled members |
| IncrementalMove.MergedExact | group.py:155-158 | The merged group's liberties are exactly the empty neighbours of its members |
| IncrementalMove.MovedGrid | go.py:36-66 | The board after the move is a grid of the same size |
| IncrementalMove.MergedExactMove | go.py:69 | Without a capture, the group holding the new stone has exact liberties |
| IncrementalMove.MoveRegistry | go.py:36-76 | After the move the index holds exactly the stones, each record has its colour's stones, and liberties are exact |
| IncrementalMove.CapturedBoard | go.py:51-66 | After the capture loop the grid, free map and ko sets are the captures' |
| IncrementalMove.CapturedRecords | go.py:51-66 | After the capture loop the registry, index and score are the captures' |
| IncrementalMove.CapturedMet | go.py:51-66 | After the capture loop the friends met and the `killed` flag are the captures' |
| IncrementalMove.CaptureDone | go.py:51-66 | The capture loop from the placed stone ends in `CapturedTo` |
| IncrementalMove.RefreedElsewhere | group.py:22-29 | `update_free_map` leaves points that are no liberty unchanged |
| IncrementalMove.RefreedIs | group.py:22-29 | What `UpdateFreeMap` promises is the map `Refreed` |
| IncrementalMove.RefreshReady | go.py:76 | Before `update_free_map` the registry indexes every stone and liberties are on the board |
| IncrementalMove.MoveFreeKept | go.py:76 | After a move every free point is empty |
| IncrementalMove.MoveScoreKept | go.py:60-77 | After a move the score counts the stones |
| IncrementalMove.MoveKeeps | go.py:36-78 | A move keeps the registry describing the board and the score counting the stones |
| IncrementalMove.RefreshDone | go.py:76-77 | From the state after the merge, refreshing the free map and counting the new stone give the state `MovedTo` describes, with the registry describing the board and the score counting the stones |
| IncrementalGame.EyePointsAdd | go.py:28-32 | One more liberty adds itself exactly when it is an eye |
| IncrementalGame.EyePointsStep | go.py:28-32 | One more liberty adds one exactly when it is an eye |
| IncrementalGame.EyesApart | go.py:28-32 | Off a 1 by 1 board no liberty counts for both colours |
| IncrementalGame.CountEyes | go.py:26-33 | The `get_score` loop adds, to each colour, the number of liberties that are its eyes |
| IncrementalGame.EyesAmongLiberties | go.py:26-32 | Off a 1 by 1 board, when the registry describes the board, the liberties that are eyes of a colour are exactly the empty points that are its eyes, since every such eye touches a recorded stone |
| IncrementalGame.AreaSplit | game_logic.py:40-50 | The area points of a colour are its stones plus the empty points that are its eyes, and no point is both |
| IncrementalGame.ScoreIsArea | go.py:25-33 | Off a 1 by 1 board, when the running score counts the stones and the registry describes the board, the incremental `get_score` equals game_logic.py's area score for each colour |
| IncrementalGame.Game.constructor | go.py:12-16 | A new game: empty board, no groups, BLACK to move, score zero; the invariant holds |
| IncrementalGame.Game.FindNeighborGroups | go.py:42-47 | The groups `find_group` reports for the neighbours |
| IncrementalGame.Game.CaptureStep | go.py:53-66 | One capture-loop round is `Round` of the state |
| IncrementalGame.Game.Kill | go.py:57-61 | A capture empties and frees the group, applies ko, unregisters it, and lowers the opponent's score |
| IncrementalGame.Game.CaptureNext | go.py:52-66 | One more group visited keeps the loop invariant |
| IncrementalGame.Game.CaptureLoop | go.py:51-66 | The capture loop ends in `Rounds` over a visiting order of exactly the met groups |
| IncrementalGame.Game.Place | go.py:38-39 | A new group and `add_member` place the stone, as `Placed` |
| IncrementalGame.Game.MergeStep | go.py:69 | `merge_groups` leaves `SettledGroups` and `MovedIndex` |
| IncrementalGame.Game.Relib | go.py:72-73 | After a capture every group's liberties are refreshed, giving `MovedGroups` |
| IncrementalGame.Game.Refresh | go.py:76-77 | `update_free_map(-color)` and the new stone's point |
| IncrementalGame.Game.Settle | go.py:69-73 | The merge and refresh give the board, registry and index after the move |
| IncrementalGame.Game.Finish | go.py:76-77 | The free map and score end as `MovedTo`, and the invariant holds again |
| IncrementalGame.Game.Capture | go.py:38-66 | Placing and the capture loop end in `CapturedTo` |
| IncrementalGame.Game.MoveAs | go.py:36-78 | `__move(p, color)` leaves the state `MovedTo` and keeps the invariant |
| IncrementalGame.Game.Move | go.py:83-87 | `move` returns true, applies `__move` for the colour to move, and passes the turn |
| IncrementalGame.Game.Pass | go.py:85 | `curr_color *= -1` |
| IncrementalGame.Game.IsMovable | go.py:98-99 | True exactly when some point is free |
| IncrementalGame.Game.GetScore | go.py:25-33 | The running score plus, for each colour, the number of liberties that are its eyes. When the game is valid on a board larger than 1 by 1, that is the number of area points of each colour, the same as `GameLogic.Board.GetScore` |

## Left out

- I/O and display: every `print` method, `game.py`'s `display` and `to_string`, and `go.py`'s interactive `start` loop are not modelled. That also covers the loop's pass path and its `unset_ko` calls; readers may call `Board.UnsetKo` directly.
- `go.py`'s `random_move`: it draws a random index. Its effect is `Move` on an element of `GetFreePositions`.
- `go.py`'s `__calculate_final_score` does nothing. `Game.get_state` and `Game.get_current_free_map` only delegate to the board (`Board.GetState`, the `freeMap` field).
- `game.py`'s `get_board_size` returns `(n, n)` and `game_logic.py`'s `Board.get_size` returns `(x, y)`: plain pairs. `get_action_size` is modelled as `GetActionSize`, and the `n` field is exposed directly.
- `game_logic.py`'s `Groups.update_free_map` and `get_neighbors_liberties`, and `group.py`'s `get_neighbors_liberties`, are never called. They are not modelled.
- `Group.get_liberty`, `is_member`, `contains` and `Board.is_empty` are single expressions (`|liberties|`, set membership, a cell test), written inline where used.
- Connectivity of incremental groups: the incremental model proves that each group record has exact liberties and is indexed and coloured. It does not prove that each record is one connected chain.
- GameInterface.Game.GetNextState: requires `-1 <= action < n * n`, so it leaves out what game.py:52 does with the other actions. There `int(action / n)` truncates toward zero while `action % n` floors, so for `-n < action < -1` the move is row 0, column `n + action`, the same cell as action `n + action`. For `action <= -n` the row is negative; numpy's `self.board[position] = color` in `add_stone` (game_logic.py:123) counts a row in `-n .. -1` from the last row and raises IndexError below `-n`. For `action >= n * n` the row is at least `n` and that same assignment raises IndexError; the requires drops this error path rather than modelling it.
- GameInterface.Game.GetAllPerspectives: requires `|p| == n * n`, which is the source's own `assert`.
- GameInterface.Game: the player is typed as a colour (`Stone`) except in `GetValidMoves`, where the colour error of `calculate_free_map` is reachable. The size `n` is positive.
- GameInterface.Game.GetValidMoves: the ko sets are always empty, because `game.py` builds a fresh `Board` for every query.
- GameLogic.Groups.KillDeadGroup: leaves `positionToGroup` stale, as the source does. Only `add_stone` calls it, and that registry is then dropped.
- IncrementalGroups.KillSelf: `member_positions.pop()` on a single-stone group (group.py:188) empties the record's member set. The model keeps the record value unchanged, because `delete_group` has already unregistered it.
- GameLogic.KillSelf: `position_set.pop()` on a single-stone group empties the record's member set. The model keeps the record value unchanged, because the record is already discarded.
- IncrementalGame.Game.MoveAs: requires the point to be free. `__move` assumes this without checking (`add_member` states the assumption), and when it fails the source corrupts its registry.
- IncrementalGame.Game.Move: requires a free point for the same reason. It always returns true, as `__move` does.
- IncrementalGame.Game: colours are `Stone`. The `raise ValueError("wrong color")` of `__move` is unreachable, because every group has a colour BLACK or WHITE.
- IncrementalBoard.Board.SetFree and IncrementalBoard.Board.UnsetFree: require an on-board point. The source only calls them on group members.
- IncrementalBoard.Board.GetState: returns `None` for a colour other than BLACK or WHITE, where the source prints and returns `None`.
- board.py's `is_alive_eye` is modelled as written, and so is its diagonal table. The table's fourth entry repeats `(x - 1, y - 1)` instead of `(x - 1, y + 1)`, as `DiagonalsAsWrittenDiffer` states. Also, the function's first loop rebinds `position`, so the second loop reads the diagonal entry of the last neighbour rather than the point's own (`DiagonalSource`). Away from the edge no diagonal of the point is read at all (`EyeCellsInterior`, `AliveEyeIgnoresDiagonals`). `AliveEyeTestsDiffer` gives the boards where the two engines' tests disagree. game_logic.py's test reads the point's own intended table.
- Loop order over Python sets is arbitrary. Every set loop is specified for any order.
- `np.int8` overflow: cell values stay in -1..1, and counts are unbounded integers. No wrap-around arises on the boards the program uses.
