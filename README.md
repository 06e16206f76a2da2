# One-round simulator of the tower-defence starter algo

This project models the Python simulator that replays one round of the game
on a 28 x 28 diamond board (`python-algo/simulator`). The model covers six parts.

- **Constants and configuration.** These are the edge and unit-type enums, the
  type-to-index table and the unit statistics the simulator reads
  (`constants.dfy`).
- **Board geometry.** This covers the diamond's in-bounds test, the quadrants,
  the four edge lists, Euclidean distance and the orthogonal neighbours
  (`board.dfy`).
- **Units.** Structures (walls and turrets), supports, and walker stacks with
  one health entry per walker. All three are classes updated in place
  (`units.dfy`).
- **The occupancy map.** A 28 x 28 array of cells, with the loops that list
  edges, scan a range, find the nearest edge and choose an attack target
  (`game_map.dfy`).
- **The pathfinder.** An idealness flood finds the most desirable cell of the
  start's pocket. A breadth-first labelling of path lengths follows. The path
  walk then prefers to alternate vertical and horizontal moves
  (`navigation.dfy`, with the heap-free labelling invariants in
  `labelling.dfy`).
- **The game state.** Loading a frame record builds the state: structures,
  supports, walker stacks, upgrades, then one path per stack. `get_results`
  reports it back. `run_frame` runs one frame: every support shields the stacks
  it covers, then every stack breaches at its edge or takes a step
  (`game_state.dfy`). The value-level pieces are in `frame_step.dfy` and
  `sums.dfy`: shields adding up over supports, breach damage, and how breaches
  settle into the players' health and SP.

Notes on how the model reads the code:

- **Distances.** They are compared as squared integer distances. The square
  root is monotone, so every comparison the simulator makes comes out the
  same.
- **Ranges.** They are reals. A range test `sqrt(d) < r + 0.01` is stated as
  `d < (r + 0.01)^2` with `r + 0.01 >= 0`.
- **Tuples and lists.** Python never finds a tuple equal to a list, and the
  model keeps this.
  - The pathfinder's start point is a tuple and the edge lists hold lists. So
    the start is never "in" the endpoints; its idealness is its positional
    score (`Navigation.Location`).
  - `get_best_target` compares a stack's health list with a number
    (`target.health == best_target_hp`). That is never true.
  - `get_best_target` calls `distance_to_closest_edge` with one argument.
    That raises. The model's `Crash` outcome stands for both this and
    reading `.unit_type` of an empty cell. The first of these is also listed
    under Findings.
- **The step branch of the movement loop, as written.** The stack takes the
  front of its queue. The new cell is cleared and the stack is written there.
  The cell it came from is not cleared and still names the stack.
- **The movement loop's iteration.** It runs over `walker_stacks` while
  removing from that set, which CPython refuses. The model iterates over a
  snapshot of the set taken before the loop, in any order. This is listed
  under Findings.
- **Empty queues.** Taking a step from an empty queue blocks forever in the
  simulator (`Queue.get()`). The model reports this as a `Stalled` frame.
- **Edge order.** The docstring of `get_edges` gives an order of the four
  lists that the code does not use. The model follows the code: the list of
  quadrant `q` sits at index `q.value`.

## Model

| member | source | states |
|---|---|---|
| Constants.MapEdges.Value | python-algo/simulator/constants.py:3-7 | each edge's numeric value is below 4 and serves as its index among the edge lists |
| Constants.UnitType.Value | python-algo/simulator/constants.py:9-28 | each unit type's value is below 8, and `unit_type_to_index` maps the type to that same value |
| Constants.UnitTypeOf | python-algo/simulator/constants.py:9-17 | `UnitType(v)` exists exactly for 0 <= v < 8 and is the member whose value is v |
| Constants.UnitTypeRoundTrip | python-algo/simulator/constants.py:9-28 | converting a type to its value and back gives the same type |
| Constants.StartHealth | python-algo/simulator/game_configs.py:2-98 | every unit type in the table starts with a positive health |
| Constants.AttackRange | python-algo/simulator/sim_unit.py:17 | the range read with default 0 is never negative, and is positive exactly for turrets and the three walker types |
| Constants.DamageStructure | python-algo/simulator/sim_unit.py:18 | damage to structures is positive exactly for scouts and demolishers |
| Constants.DamageWalker | python-algo/simulator/sim_unit.py:19 | damage to walkers is positive exactly for turrets and the three walker types |
| Board.InBounds | python-algo/simulator/sim_game_map.py:38-60 | the row-by-row test holds exactly on the diamond: rows 0-13 span columns 13-y to 14+y, rows 14-27 span columns y-14 to 41-y |
| Board.InBoundsInGrid | python-algo/simulator/sim_game_map.py:38-60 | every in-bounds cell indexes the 28 x 28 map |
| Board.InBoundsSymmetric | python-algo/simulator/sim_game_map.py:38-60 | the board is symmetric under the half-turn and under the left-right mirror |
| Board.Quadrant | python-algo/simulator/sim_game_map.py:62-73 | each quadrant is exactly the cells on its side of 14 on both axes, so every cell has one quadrant |
| Board.EdgeList | python-algo/simulator/sim_game_map.py:78-107 | each edge list has 14 cells, the n-th running outwards from the middle column |
| Board.EdgeListFacts | python-algo/simulator/sim_game_map.py:78-107 | an edge list holds 14 distinct in-bounds cells of its own quadrant, and they are exactly that quadrant's outer-boundary cells |
| Board.AtEdgeIffOuterBoundary | python-algo/simulator/sim_game_state.py:237-238 | an in-bounds cell is on its quadrant's edge list exactly when it is on the diamond's outer boundary |
| Board.DistSq | python-algo/simulator/sim_game_map.py:109-123 | the distance measure is non-negative and zero only between equal locations |
| Board.Neighbors | python-algo/simulator/sim_navigation.py:106-110 | a cell has four neighbours, and they are exactly the cells one orthogonal step away |
| Board.AdjacentIffUnitDistance | python-algo/simulator/sim_navigation.py:106-110 | two cells are neighbours exactly when their distance is 1 |
| Units.UpgradeStats | python-algo/simulator/sim_unit.py:26-30 | an upgrade always sets the flag; only a turret also takes the upgraded range and walker damage, and any other type keeps its stats |
| Units.UpgradeIdempotent | python-algo/simulator/sim_unit.py:26-30 | upgrading twice is the same as upgrading once |
| Units.SimUnit.constructor | python-algo/simulator/sim_unit.py:9-19 | a new structure has its type, owner and position; a falsy health means the type's start health; it is not upgraded and has its type's stats |
| Units.SimUnit.InflictDamage | python-algo/simulator/sim_unit.py:22-24 | health drops by exactly the damage, and the new health is returned |
| Units.SimUnit.Upgrade | python-algo/simulator/sim_unit.py:26-30 | the new stats are the old ones upgraded for the unit's type |
| Units.UpgradedShieldIsStronger | python-algo/simulator/game_configs.py:15-32 | an upgraded support has a larger range, shield per unit and bonus per row than a basic one |
| Units.SimSupport.constructor | python-algo/simulator/sim_unit.py:55-60 | a new support is a fresh support-type structure of its owner at its position, with no stacks shielded yet and the basic shield stats |
| Units.SimSupport.Upgrade | python-algo/simulator/sim_unit.py:62-65 | the support gets the upgraded shield stats and its `upgraded` flag is left unchanged |
| Units.TargetEdgeFor | python-algo/simulator/sim_unit.py:82-87 | a stack aims at a top edge, and every cell of that edge is on the other side of the middle column |
| Units.SimWalkerStack.constructor | python-algo/simulator/sim_unit.py:75-80 | a new stack holds `count` walkers at the type's start health with an empty queue; `unit_count` is 1 because the count lands in the health slot of the base constructor |
| Units.SimWalkerStack.SetPath | python-algo/simulator/sim_unit.py:89-92 | afterwards the queue holds exactly the given steps, in order |
| Units.SimWalkerStack.NextStep | python-algo/simulator/sim_unit.py:94-95 | the front of the queue is returned, and the queue keeps the rest in order |
| Units.SimWalkerStack.AddToStack | python-algo/simulator/sim_unit.py:97-99 | one more walker, with the front walker's health; existing entries unchanged; the gap between count and list length is kept |
| Units.SimWalkerStack.InflictDamage | python-algo/simulator/sim_unit.py:101-114 | an empty stack returns 0; otherwise only the last walker is hurt, it leaves the stack when its health reaches 0 or below, and its new health is returned |
| Units.SimWalkerStack.Upgrade | python-algo/simulator/sim_unit.py:26-30 | the inherited upgrade only sets the flag on a stack |
| GameMap.Ceil | python-algo/simulator/sim_game_map.py:162 | the result is the least integer not below the radius |
| GameMap.MinDistSq | python-algo/simulator/sim_game_map.py:126-134 | the result is the distance to some cell of the list and is no greater than the distance to any cell of it |
| GameMap.SimGameMap.constructor | python-algo/simulator/sim_game_map.py:11-12 | a new map has every cell empty |
| GameMap.SimGameMap.At | python-algo/simulator/sim_game_map.py:14-15 | an empty cell reads as None; an occupied cell holds a unit of the map that stands on an in-bounds cell, and on that very cell when every occupant stands where the map holds it |
| GameMap.SimGameMap.AddUnit | python-algo/simulator/sim_game_map.py:136-137 | the cell is overwritten with the unit, and no other cell changes |
| GameMap.SimGameMap.RemoveUnit | python-algo/simulator/sim_game_map.py:139-142 | an in-bounds cell becomes empty, an out-of-bounds one is left alone, and no other cell changes |
| GameMap.SimGameMap.GetEdges | python-algo/simulator/sim_game_map.py:78-107 | there are four lists, and the list at index `q.value` is edge q's list |
| GameMap.SimGameMap.GetEdgeLocations | python-algo/simulator/sim_game_map.py:75-76 | the result is the edge list of the given quadrant |
| GameMap.SimGameMap.DistanceToClosestEdge | python-algo/simulator/sim_game_map.py:126-134 | the result is the distance to some edge cell of the location's quadrant and is no greater than the distance to any of them |
| GameMap.SimGameMap.GetLocationsInRange | python-algo/simulator/sim_game_map.py:144-170 | the result holds exactly the in-bounds locations within radius + 0.01 of the centre, in scan order (by x, then y) and without repeats; it contains the centre |
| GameMap.RangeScanUnique | python-algo/simulator/sim_game_map.py:144-170 | the range scan is determined by its centre and radius |
| GameMap.InRangeInSquare | python-algo/simulator/sim_game_map.py:162-168 | every location in range lies inside the scanned square of half-side `ceil(radius)` |
| GameMap.SimGameMap.Challenge | python-algo/simulator/sim_game_map.py:178-235 | one comparison of the target loop keeps the champion or moves it to an eligible candidate's location; it raises only for an eligible candidate at the champion's distance |
| GameMap.SimGameMap.ChallengeFacts | python-algo/simulator/sim_game_map.py:178-235 | a comparison never loses an occupied champion and never makes it a worse target (further, or as near with more health); it leaves a champion no worse than a living candidate |
| GameMap.SimGameMap.ChallengeRungs | python-algo/simulator/sim_game_map.py:213-233 | at equal distance from an occupied champion: a living candidate with less health wins; at equal health player 0 takes the lower row and player 1 the higher; the same row raises; anything else keeps the champion |
| GameMap.SimGameMap.ChampionFacts | python-algo/simulator/sim_game_map.py:172-236 | unless the loop raises, the final champion is the first location or an eligible one it saw; it is occupied, and no living candidate is nearer, or as near with less health |
| GameMap.SimGameMap.GetBestTarget | python-algo/simulator/sim_game_map.py:172-236 | the loop walks the attacker's range scan and returns the champion's occupant, or raises exactly when the comparisons do; no living candidate is nearer than the target, or as near with less health |
| GameMap.SimGameMap.EdgeTieAsWritten | python-algo/simulator/sim_game_map.py:175-177 | the first visible location challenges itself, so an eligible structure or support there makes selection raise |
| GameMap.SimGameMap.ChallengeCorrectedFacts | python-algo/simulator/sim_game_map.py:230-233 | with the edge rung corrected, a comparison agrees with the one as written wherever that one does not raise, never raises against an occupied champion, and settles a same-row tie for the candidate exactly when it is nearer to its edge |
| GameMap.SimGameMap.ChallengeCorrectedKeepsSelf | python-algo/simulator/sim_game_map.py:175-177 | with the edge rung corrected, an occupied first location that challenges itself stays the champion |
| Navigation.Direction | python-algo/simulator/sim_navigation.py:112-129 | each component is 1 or -1, and it is -1 exactly when the first endpoint lies below 14 on that axis |
| Navigation.Idealness | python-algo/simulator/sim_navigation.py:131-153 | a listed endpoint scores `sys.maxsize`; any other cell of the grid scores between 0 and 783 |
| Navigation.PositionalOrder | python-algo/simulator/sim_navigation.py:141-153 | positional scores order cells by row towards the target side first, then by column; distinct cells never tie |
| Navigation.EndpointMostIdeal | python-algo/simulator/sim_navigation.py:131-153 | a listed endpoint is strictly more ideal than any other cell |
| Navigation.ConsiderFour | python-algo/simulator/sim_navigation.py:215-247 | the move choice considers the four neighbours in order, one at a time |
| Navigation.ChoiceFollowsTable | python-algo/simulator/sim_navigation.py:215-284 | on graded path lengths with a nearer neighbour, the chosen move is the table's pick: alternate direction first, then towards the target side |
| Navigation.TableChoiceLower | python-algo/simulator/sim_navigation.py:215-284 | the table always picks a neighbour that is one step nearer |
| Navigation.Map.constructor | python-algo/simulator/sim_navigation.py:29-31 | a new scratch grid has 28 x 28 unvisited, unblocked nodes with path length -1 |
| Navigation.SimShortestPathFinder.constructor | python-algo/simulator/sim_navigation.py:45-49 | a pathfinder refers to the given map and owns a fresh, untouched scratch grid |
| Navigation.SimShortestPathFinder.FillWalls | python-algo/simulator/sim_navigation.py:66-70 | afterwards a node is blocked exactly when its cell holds a structure or a support |
| Navigation.SimShortestPathFinder.IdealnessSearch | python-algo/simulator/sim_navigation.py:76-104 | the flood visits exactly the start's pocket of open cells; the result is a pocket cell no other pocket cell beats; it is the start only if nothing scores higher |
| Navigation.SimShortestPathFinder.ScanIdealness | python-algo/simulator/sim_navigation.py:88-102 | one expansion queues exactly the open neighbours not yet reached, and the best score covers every open neighbour |
| Navigation.SimShortestPathFinder.SearchStep | python-algo/simulator/sim_navigation.py:87-102 | expanding the head of the queue keeps the flood's invariant and grows the reached set |
| Navigation.SimShortestPathFinder.SearchEnd | python-algo/simulator/sim_navigation.py:87-104 | when the queue runs dry, the reached cells are closed under open steps: they are the pocket |
| Navigation.SimShortestPathFinder.BestStep | python-algo/simulator/sim_navigation.py:94-98 | updating the best after scanning a cell's neighbours keeps it the best over the pocket so far |
| Navigation.SimShortestPathFinder.Validate | python-algo/simulator/sim_navigation.py:155-189 | the path lengths become a breadth-first labelling: 0 exactly on the seeds (the whole edge when the ideal tile is on it, otherwise the tile), graded along open neighbours |
| Navigation.SimShortestPathFinder.SeedValidate | python-algo/simulator/sim_navigation.py:159-171 | the seeds are labelled 0 and queued, and no other cell is labelled |
| Navigation.SimShortestPathFinder.Propagate | python-algo/simulator/sim_navigation.py:173-185 | the queue loop runs until the queue is empty and keeps the labelling invariant |
| Navigation.SimShortestPathFinder.Expand | python-algo/simulator/sim_navigation.py:174-185 | one round labels the head's unlabelled open neighbours at its length plus one, keeps the invariant and decreases the measure |
| Navigation.SimShortestPathFinder.ScanValidate | python-algo/simulator/sim_navigation.py:176-185 | exactly the open, unlabelled neighbours of an open head are labelled and queued |
| Navigation.SimShortestPathFinder.LabelsFromDist | python-algo/simulator/sim_navigation.py:155-189 | a finished labelling on the grid is consistent, and 0 exactly on the seeds |
| Navigation.SimShortestPathFinder.ChooseNextMove | python-algo/simulator/sim_navigation.py:215-247 | the chosen move is the champion after the four neighbours have been considered in order, filtered by path length and `_better_direction` |
| Navigation.SimShortestPathFinder.ChoiceDescends | python-algo/simulator/sim_navigation.py:215-284 | around a labelled cell, the choice is the table's step and is one step nearer |
| Navigation.SimShortestPathFinder.ChoiceStep | python-algo/simulator/sim_navigation.py:215-247 | on a breadth-first labelling, the move chosen from a cell of length k >= 1 is an open neighbour of length k - 1 |
| Navigation.SimShortestPathFinder.GetPath | python-algo/simulator/sim_navigation.py:191-213 | the walk has as many steps as the start's path length, and each step goes to an open neighbour one step nearer the seeds |
| Navigation.SimShortestPathFinder.StartLabelled | python-algo/simulator/sim_navigation.py:72-74 | when the ideal tile lies in the start's pocket, the start gets a path length |
| Navigation.SimShortestPathFinder.PathIsShortest | python-algo/simulator/sim_navigation.py:191-213 | a descending path ends on a seed, and no open walk from the start to a seed is shorter |
| Navigation.SimShortestPathFinder.NavigateMultipleEndpoints | python-algo/simulator/sim_navigation.py:51-74 | there is no path exactly when the start holds a structure; otherwise the path is a shortest open walk to the seeds, chosen from the pocket's most ideal tile |
| Labelling.BfsStart | python-algo/simulator/sim_navigation.py:159-171 | the seeded queue satisfies the breadth-first invariant |
| Labelling.BfsStep | python-algo/simulator/sim_navigation.py:174-185 | labelling the head's new neighbours at its length plus one keeps the labels, queue order and closedness invariants |
| Labelling.BfsEnd | python-algo/simulator/sim_navigation.py:173-185 | with the queue empty, labels are graded along open neighbours, every non-seed has a neighbour one nearer, and 0 marks exactly the seeds |
| FrameStep.Raised | python-algo/simulator/sim_game_state.py:229 | the shielded health list has one entry per walker, each the old entry plus the amount |
| FrameStep.RaisedByIs | python-algo/simulator/sim_game_state.py:229 | a list with the amount added to every entry is the mapped list |
| FrameStep.GainStep | python-algo/simulator/sim_game_state.py:220-229 | supports may shield in any order: each one adds its amount only to the stacks it gives to, so the sum over givers builds up |
| FrameStep.GainAll | python-algo/simulator/sim_game_state.py:220-229 | after one support runs, every stack's health is raised by the sum of the shields handled so far |
| FrameStep.BreachDamage | python-algo/simulator/sim_game_state.py:247 | a breach deals one per walker, two for demolishers, and is never negative |
| FrameStep.Charge | python-algo/simulator/sim_game_state.py:246-249 | the opponent loses the damage in health, the owner gains it in SP, and nothing else changes |
| FrameStep.SettledNone | python-algo/simulator/sim_game_state.py:231-250 | a frame without breaches leaves the stats unchanged |
| FrameStep.SettledStep | python-algo/simulator/sim_game_state.py:238-250 | charging one more breach settles the larger set, so breaches may be charged in any order |
| FrameStep.SettledConserves | python-algo/simulator/sim_game_state.py:246-249 | breaches move health to SP: the total of both players' health and SP is unchanged |
| FrameStep.SettledMonotone | python-algo/simulator/sim_game_state.py:246-249 | breaches never raise a player's health or lower its SP |
| FrameStep.EdgeNeverReachedAsWritten | python-algo/simulator/sim_game_state.py:237-238 | as written, the tuple probe is never found among the list cells, even on the edge cell (13, 0) |
| FrameStep.DemolisherNotDoubledAsWritten | python-algo/simulator/sim_game_state.py:247 | as written, a demolisher stack stored with an integer type deals 3 for three walkers instead of 6 |
| FrameStep.ShieldNamesAsWritten | python-algo/simulator/sim_game_state.py:222-229 | the names the shield loop reads are not attributes of a support; the names the support defines give its range and shield |
| GameState.LastAt | python-algo/simulator/sim_game_state.py:65-80 | the index of the last record on a cell, or -1 exactly when no record names it |
| GameState.OverlayLast | python-algo/simulator/sim_game_state.py:65-80 | after placements in order, a cell is written exactly when some record names it, and holds the unit of the last such record |
| GameState.ParseStats | python-algo/simulator/sim_game_state.py:44-59 | a player's stats are the first three entries of its stats row: health, SP, MP |
| GameState.StatsRecord | python-algo/simulator/sim_game_state.py:181-182 | the results stats row has four entries, the last 0, and parsing it gives back the stats |
| GameState.MergeUnits | python-algo/simulator/sim_game_state.py:33-34 | the merge is as long as the shorter record, and slot i is the two slots i concatenated |
| GameState.MergeWithEmpty | python-algo/simulator/sim_game_state.py:33-34 | merging with empty slots keeps every placement, in order |
| GameState.RowCountAppend | python-algo/simulator/sim_game_state.py:187-191 | filing one row in one slot adds one to the row count |
| GameState.TallyStep | python-algo/simulator/sim_game_state.py:187-191 | filing one more unit in its owner's slot of its type keeps the tally of filed units |
| GameState.NoRowAsWritten | python-algo/simulator/sim_game_state.py:189-191 | as written, no unit the loader makes yields a row: `health[0]` fails on structures and `.value` on the integer type of stacks |
| GameState.LoadOwn | python-algo/simulator/sim_game_state.py:124-135 | the walker loop that reads each record's cell: every record's cell ends up with a stack, other cells unchanged, and owners are kept |
| GameState.StaleUnitCounterexample | python-algo/simulator/sim_game_state.py:137-147 | as written, a second-player scout is added to the first player's stack on another cell; without an earlier first-player record the loop raises |
| GameState.TouchedNext | python-algo/simulator/sim_game_state.py:238-257 | each handled stack writes only its own cell (breach) or its next cell (step) |
| GameState.StepTo | python-algo/simulator/sim_game_state.py:254-255 | the stack takes the front of its queue as its position, and no other stack's spot changes |
| GameState.SimGameState.constructor | python-algo/simulator/sim_game_state.py:14-30 | a new state has frame -1, no units, an empty map, and each player's stats parsed from the frame record |
| GameState.SimGameState.PlaceUnit | python-algo/simulator/sim_game_state.py:66-72 | one wall or turret record overwrites its cell with a new unit; the unit joins `all_units`, and `fighters` when it is a turret |
| GameState.SimGameState.PlaceUnits | python-algo/simulator/sim_game_state.py:65-80 | a wall or turret loop places one unit per record: each cell holds its last record's unit and every unit made is kept (the turret loops are at 103-120) |
| GameState.SimGameState.PlaceSupport | python-algo/simulator/sim_game_state.py:85-92 | one support record overwrites its cell with a new support, which joins `supports` and `all_units` |
| GameState.SimGameState.PlaceSupports | python-algo/simulator/sim_game_state.py:82-101 | a support loop places one support per record: each cell holds its last record's support and every support made is kept |
| GameState.SimGameState.StartStack | python-algo/simulator/sim_game_state.py:128-133 | on an empty cell, a new one-walker stack is put there and joins `walker_stacks`, `fighters` and `all_units`; nothing else changes |
| GameState.SimGameState.JoinStack | python-algo/simulator/sim_game_state.py:134-135 | on a cell holding a stack, that stack gets one more walker |
| GameState.SimGameState.PlaceWalkers | python-algo/simulator/sim_game_state.py:122-147 | a walker loop raises exactly when a record names a structure; otherwise new stacks appear on empty named cells and each count grows by the records on its cell |
| GameState.SimGameState.WalkerLoop | python-algo/simulator/sim_game_state.py:124-135 | the records are placed in order up to the first that names a structure or a support |
| GameState.SimGameState.UpgradeAt | python-algo/simulator/sim_game_state.py:150-151 | an upgrade record raises exactly on an empty cell; otherwise the occupant is upgraded as its class does it and stays upgraded |
| GameState.SimGameState.UpgradeAll | python-algo/simulator/sim_game_state.py:149-155 | an upgrade loop moves no occupant; it raises exactly when a record names an empty cell; otherwise every named occupant is upgraded |
| GameState.SimGameState.FindRoute | python-algo/simulator/sim_game_state.py:159-161 | from a cell free of structures, the found path is a shortest open route to the target edge or the pocket's ideal tile |
| GameState.SimGameState.RouteStack | python-algo/simulator/sim_game_state.py:158-162 | a stack's queue becomes a shortest open route from its cell to its aim |
| GameState.SimGameState.InitPaths | python-algo/simulator/sim_game_state.py:157-162 | every stack is given a shortest open route from its cell to its target edge, or to its pocket's ideal tile |
| GameState.SimGameState.LoadStructures | python-algo/simulator/sim_game_state.py:65-120 | the structure and support loops leave the board without stacks |
| GameState.SimGameState.LoadWalkers | python-algo/simulator/sim_game_state.py:122-147 | the walker loops keep the board invariants and, when none raises, register every stack |
| GameState.SimGameState.LoadFinish | python-algo/simulator/sim_game_state.py:149-162 | the upgrade loops, then the path loop: when loading completes, every stack holds a shortest route to its aim |
| GameState.SimGameState.LoadUnits | python-algo/simulator/sim_game_state.py:62-162 | when loading completes, every stack is registered and holds a shortest open route from its cell to its target edge or pocket's ideal tile |
| GameState.SimGameState.GetResults | python-algo/simulator/sim_game_state.py:176-195 | the results have both players' stats rows and eight slots each; every unit has its row in its owner's slot of its type, every row comes from a unit, and the counts match |
| GameState.SimGameState.ResultsFiled | python-algo/simulator/sim_game_state.py:187-191 | filed slots read back as exactly the rows of the units of `all_units` |
| GameState.SimGameState.HoldsStructureType | python-algo/simulator/sim_game_state.py:197-199 | the state's structure test agrees with the map's own `contains_stationary_unit` |
| GameState.SimGameState.StartPlan | python-algo/simulator/sim_game_state.py:219-229 | the shield plan records the board's stacks, the starting health of each stack, its givers, and what each support has shielded and covers |
| GameState.SimGameState.ShieldStart | python-algo/simulator/sim_game_state.py:219-229 | before any support runs, the plan describes the state |
| GameState.SimGameState.ShieldNext | python-algo/simulator/sim_game_state.py:220-229 | one support's turn keeps the shield loop's invariant with that support done |
| GameState.SimGameState.ShieldEnd | python-algo/simulator/sim_game_state.py:219-229 | after the last support, each stack's health is its start health raised by the sum of its givers' shields, and each support has recorded the stacks it covers |
| GameState.SimGameState.ShieldRun | python-algo/simulator/sim_game_state.py:220-229 | the support loop finishes with every support done, and no stack's walker count changes |
| GameState.SimGameState.ShieldPhase | python-algo/simulator/sim_game_state.py:219-229 | after the shield phase, each stack's health is raised by all covering same-player supports, in any order, and each support records the stacks it shielded |
| GameState.SimGameState.ShieldFrom | python-algo/simulator/sim_game_state.py:221-229 | one support shields exactly its unshielded same-player stacks in range, once each, raising each walker's health by its shield |
| GameState.SimGameState.ShieldScan | python-algo/simulator/sim_game_state.py:224-229 | scanning the range adds the stacks found to the shielded set and raises exactly those stacks |
| GameState.SimGameState.ShieldStack | python-algo/simulator/sim_game_state.py:227-229 | a shielded stack is recorded by the support and every walker gains the shield |
| GameState.SimGameState.ShieldStep | python-algo/simulator/sim_game_state.py:219-229 | the shield phase completes its plan and leaves positions and queues alone |
| GameState.SimGameState.Breach | python-algo/simulator/sim_game_state.py:238-250 | a breaching stack leaves the board and every set; the opponent loses the breach damage and the owner gains it as SP; only its cell changes |
| GameState.SimGameState.Advance | python-algo/simulator/sim_game_state.py:252-257 | a stepping stack moves to the front of its queue and is written on the new cell; no other cell changes, so the old cell still names it |
| GameState.SimGameState.StartMove | python-algo/simulator/sim_game_state.py:231-233 | the move plan records each stack's position, queue and breach damage, plus the sets, stats and board |
| GameState.SimGameState.StartPlanned | python-algo/simulator/sim_game_state.py:231-233 | the move plan knows every stack and every cell |
| GameState.SimGameState.MoveStart | python-algo/simulator/sim_game_state.py:231-233 | before any stack is handled, the plan describes the state |
| GameState.SimGameState.StartSummary | python-algo/simulator/sim_game_state.py:233-238 | the plan stalls exactly when some stack off its edge has an empty queue, and its non-breaching stacks are the ones off their edges |
| GameState.SimGameState.MoveNext | python-algo/simulator/sim_game_state.py:234-257 | one turn stalls exactly when the stack is off its edge with an empty queue; otherwise it breaches or steps and keeps the loop's invariant |
| GameState.SimGameState.BreachNext | python-algo/simulator/sim_game_state.py:238-250 | a breach keeps the move loop's invariant with that stack done |
| GameState.SimGameState.AdvanceNext | python-algo/simulator/sim_game_state.py:252-257 | a step keeps the move loop's invariant with that stack done |
| GameState.SimGameState.MoveEnd | python-algo/simulator/sim_game_state.py:231-257 | after the last stack, the breaching stacks have left `walker_stacks` and every breach has been charged |
| FrameStep.BreachAbortsAsWritten | python-algo/simulator/sim_game_state.py:232-250 | iterating over `walker_stacks` itself, the loop finishes exactly when no stack breaches; otherwise it raises right after the first breach and the later stacks are not handled |
| GameState.SimGameState.MoveRun | python-algo/simulator/sim_game_state.py:232-257 | the loop over the snapshot stalls exactly when the plan is stuck; otherwise every stack has been handled |
| GameState.SimGameState.MovePhase | python-algo/simulator/sim_game_state.py:231-257 | the move phase stalls exactly when some stack off its edge has nothing queued; otherwise the staying stacks remain and the stats are settled for every breach |
| GameState.SimGameState.FramePhases | python-algo/simulator/sim_game_state.py:219-257 | shield then move: a stall exactly when the state was jammed; otherwise exactly the stacks off their edges remain |
| GameState.SimGameState.RunFrame | python-algo/simulator/sim_game_state.py:211-257 | nothing changes exactly when no stack is left; otherwise the frame advances; it stalls exactly when jammed; a completed frame keeps exactly the stacks off their edges |

## Left out

- Drawing (`pygame`), printing, the JSON entry point `__main__.py` and the unused `find_path_to_edge` are not modelled. They do I/O or nothing.
- The attack phase of `run_frame` (`sim_game_state.py:259-299`) is commented out in the simulator and is not modelled. `get_best_target` is modelled on its own.
- `get_walkers`, `get_supports`, `get_fighters` and `is_round_over` are field reads. The model reads the fields directly; `IsRoundOver` is the empty-set test that `RunFrame` uses.
- The `cost`, `speed` and `color_by_health` data of units are not modelled. No modelled operation reads them.
- The warning and invalid-coordinates calls of `get_locations_in_range` are not modelled: those methods do not exist on the map. `GameMap.SimGameMap.GetLocationsInRange` requires an in-bounds centre and a radius between 0 and 28 instead.
- Floating point is modelled by exact reals. Distances are compared squared instead of through `math.sqrt`.
- GameState.SimGameState.InitPaths: the simulator reuses one pathfinder, whose scratch grid keeps visited flags and path lengths between stacks. The model gives each stack a fresh pathfinder, so a later stack's search is not disturbed by earlier ones. The reuse's effect on later stacks is not modelled.
- Navigation.SimShortestPathFinder.GetPath: states the walk's length and that every step descends one path length to an open neighbour. The tie-break table is stated per step by `ChooseNextMove` and `ChoiceDescends`, not for the path as a whole.
- GameState.SimGameState.RunFrame: states the frame-level summary. The per-stack health after shielding is on `ShieldStep` and `ShieldPhase`; the settled stats are on `MovePhase`.
- GameState.SimGameState.GetResults: reports the health of a stack as the health of its first walker, and 0 for an empty stack. In the simulator, `health[0]` raises on an empty stack.
- GameState.SimGameState.LoadUnits: records are assumed to name in-bounds cells; the simulator does not check them, and an out-of-range index would raise in Python.
- The order of iteration over Python sets is not modelled. The shield and move loops are proved for any order.

## Findings

| source | as written | input that shows it | evidently intended | confidence | as-written member | corrected member |
|---|---|---|---|---|---|---|
| python-algo/simulator/sim_game_state.py:238 | the probe `(x, y)` is a tuple and the edge lists hold `[x, y]` lists, so no stack is ever found on an edge | a stack at (13, 0), the first cell of the bottom-left edge | the stack breaches when its cell is on its quadrant's edge list | not executed | FrameStep.EdgeNeverReachedAsWritten | GameState.SimGameState.Breach |
| python-algo/simulator/sim_game_state.py:222-229 | the loop reads `support.shield_range` and `support.shield_per_unit`; a support defines `shieldRange` and `shieldPerUnit`, so the lookup raises | any support on the board | each support shields with its own `shieldRange` and `shieldPerUnit` | not executed | FrameStep.ShieldNamesAsWritten | GameState.SimGameState.ShieldFrom |
| python-algo/simulator/sim_game_state.py:247 | `load_units` stores a stack's type as the integer `i`, so `unit_type == UnitType.DEMOLISHER` is false and a demolisher deals single damage | a stack of three demolishers breaching | two damage per demolisher | not executed | FrameStep.DemolisherNotDoubledAsWritten | FrameStep.BreachDamage |
| python-algo/simulator/sim_game_state.py:137-147 | the second player's walker loop tests the stale `unit` from the first player's loop instead of reading its own cell | two first-player scouts on (13, 0), then one second-player scout on (14, 27) | each record reads its own cell: a new stack on an empty cell, one more walker on a stack | not executed | GameState.StaleUnitCounterexample | GameState.SimGameState.PlaceWalkers |
| python-algo/simulator/sim_game_state.py:189-191 | `unit.health[0]` fails on a structure's number, and `unit.unit_type.value` fails on a stack's integer type | any loaded state with a unit | one row per unit, in its owner's slot of its type, with its health | not executed | GameState.NoRowAsWritten | GameState.SimGameState.GetResults |
| python-algo/simulator/sim_game_map.py:232 | the "closest to an edge" tie-break calls `distance_to_closest_edge(best_target_location)` with one argument, which raises; the first visible location always challenges itself and reaches this rung when it holds an enemy structure | a scout whose first visible cell holds an enemy wall | the candidate wins a same-row tie when it is nearer to its edge than the champion is to its own | not executed | GameMap.SimGameMap.EdgeTieAsWritten | GameMap.SimGameMap.ChallengeCorrected |
| python-algo/simulator/sim_game_state.py:232-250 | a breach removes its stack from `walker_stacks` while the loop iterates over that set, so CPython raises RuntimeError at the next iteration step (once the edge test at line 238 lets breaches happen) | three stacks in iteration order, only the second on its edge: the third is never handled | the loop handles every stack present when it began | not executed | FrameStep.BreachAbortsAsWritten | GameState.SimGameState.MoveRun |
