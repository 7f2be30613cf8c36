# Grid planning, mission and lab agents of zalu224/cs440, in Dafny

This project models the planning and decision core of a course repository of
game agents played on a square grid:

- the special-operations agent: the A* planner, the waypoint stack it builds
  and the infiltrate/exfiltrate mission it runs;
- the risk policy of the concrete infiltration agent: closest-enemy
  distance, the risk-weighted edge cost and the unsafe-plan test;
- the three stealth maze planners (breadth-first, depth-first and Dijkstra)
  and the helpers they share;
- the maze `Coordinate` value and the four `DistanceMetric` distances;
- the stochastic maze agent's transition model and reward table;
- the bookkeeping of the pitfall Bayesian agent (adjacency, the validity
  test, the frontier/other split, the frontier power set);
- the board-feature counters, the board reward, the feature vector and the count table of the
  Tetris Q-learning agent;
- the decision rule of the open-loop agent.

The host game is abstracted as a read-only `World` record. It holds the map
size, the resource squares, the live units by id, and which unit stands on
each square. The search nodes of the unseen graph package are the `Path`
datatype. A node is a root or an extension of a parent by one square, with
the edge cost and the heuristic value recorded.

Each search is an imperative method over sequences and maps. It is proved
against walks on the grid: the result is a valid walk from the start, and
when the search fails no walk reaches the goal. The breadth-first result has
the fewest moves, and the Dijkstra result has the least total cost, among
all walks to a square next to the goal. Objects the source updates in place
are classes:

- the mission agent (`Mission.SpecOpsAgent`);
- the pitfall network (`Bayesian.PitfallBayesianNetwork`);
- the Tetris agent (`Tetris.TetrisQAgent`).

Costs and probabilities are exact: reals for costs, and tenths for the
transition probabilities.

## Model

| member | source | states |
|---|---|---|
| Coordinate.Equals | jarsrc/edu/bu/labs/rl/maze/utilities/Coordinate.java:42-51 | two coordinates are equal exactly when both components agree |
| Coordinate.HashRespectsEquals | jarsrc/edu/bu/labs/rl/maze/utilities/Coordinate.java:35-40 | equal coordinates have equal hash codes |
| Coordinate.HashInjective | jarsrc/edu/bu/labs/rl/maze/utilities/Coordinate.java:35-40 | on non-negative coordinates, two squares with the same hash are the same square |
| Coordinate.HashOnto | jarsrc/edu/bu/labs/rl/maze/utilities/Coordinate.java:35-40 | every natural number is the hash of a square with non-negative coordinates, so with `HashInjective` the hash numbers that quadrant one-to-one |
| Coordinate.Clone | jarsrc/edu/bu/labs/rl/maze/utilities/Coordinate.java:54 | the copy equals the original |
| Coordinate.AdjacentCoordinate | jarsrc/edu/bu/labs/rl/maze/utilities/Coordinate.java:56-59 | the square one step in the given direction is one king's move away: never the square itself, never further |
| Coordinate.CardinalNeighboursSpec | jarsrc/edu/bu/labs/rl/maze/utilities/Coordinate.java:61-76 | the cardinal neighbour set (also returned for "all adjacent") has four members: exactly the squares at Manhattan distance 1 |
| Coordinate.DirectionToSpec | jarsrc/edu/bu/labs/rl/maze/utilities/Coordinate.java:78-104 | a direction is reported exactly for the eight squares around, it is always cardinal, and for a Manhattan neighbour it leads there |
| Coordinate.DirectionToRoundTrip | jarsrc/edu/bu/labs/rl/maze/utilities/Coordinate.java:78-104 | stepping in a cardinal direction and asking for the direction back returns that direction |
| Coordinate.DirectionToDiagonal | jarsrc/edu/bu/labs/rl/maze/utilities/Coordinate.java:78-104 | because x is examined first, a diagonal neighbour gets a horizontal direction, which does not reach it |
| DistanceMetric.MetricAxioms | jarsrc/edu/bu/labs/rl/maze/utilities/DistanceMetric.java:15-34 | the three distances are symmetric; Chebyshev and Manhattan vanish exactly on equal squares |
| DistanceMetric.MetricBounds | jarsrc/edu/bu/labs/rl/maze/utilities/DistanceMetric.java:15-34 | Chebyshev ≤ Manhattan ≤ 2·Chebyshev, and the "euclidean" value (a squared distance) is at least Chebyshev squared |
| DistanceMetric.PDistanceSpecialCases | jarsrc/edu/bu/labs/rl/maze/utilities/DistanceMetric.java:36-42 | the p-distance without a root is Manhattan for p = 1 and the squared distance for p = 2 |
| Paths.NeighbourSetSpec | SpecOpsAgent.java:562-597 | the neighbour set of a square is the one-move relation of its passability rule; it has at most eight squares and never the square itself |
| Paths.PollMin | src/labs/stealth/agents/DijkstraMazeAgent.java:86 | polling the frontier gives an entry whose key is minimal; ties are left open |
| Maze.GetAdjacentVertices | src/labs/stealth/agents/BFSMazeAgent.java:37-57 | the eight tries keep exactly the passable squares one king's move away: on the map, no resource and, under the Dijkstra rule (DijkstraMazeAgent.java:52-55), no unit |
| Maze.IsAdjacentSpec | src/labs/stealth/agents/BFSMazeAgent.java:59-68 | `isAdjacent` holds exactly at Chebyshev distance 1; it is symmetric and never holds between a square and itself |
| Maze.ShouldReplacePlan | src/labs/stealth/agents/BFSMazeAgent.java:123-140 | asks for a new plan exactly when some plan square holds a unit not named "TownHall"; the same code serves DFSMazeAgent.java:109-126 and DijkstraMazeAgent.java:132-148 |
| Maze.UnitEdgesCost | src/labs/stealth/agents/BFSMazeAgent.java:96 | when every edge was recorded with cost 1, a node's cost is its number of moves |
| BfsMaze.Search | src/labs/stealth/agents/BFSMazeAgent.java:73-108 | start = goal gives the root. Otherwise a result is a non-revisiting walk of unit moves from the start, ending on a square other than the start next to the goal, and no such walk is shorter. No result means no walk from the start reaches a square other than the start next to the goal |
| BfsMaze.FirstHitIsShortest | src/labs/stealth/agents/BFSMazeAgent.java:87-105 | the first goal-adjacent square found, one level below the current one, is as close as any walk gets |
| DfsMaze.Search | src/labs/stealth/agents/DFSMazeAgent.java:62-96 | start = goal gives the root. Otherwise a result is a non-revisiting walk of unit moves from the start, ending on a square other than the start next to the goal. No result means no walk from the start reaches a square other than the start next to the goal |
| DijkstraMaze.EdgeWeightSpec | src/labs/stealth/agents/DijkstraMazeAgent.java:105-129 | every move costs at least 1: north 10, south 1, east and west 5, and each diagonal its rounded diagonal length; anything that is not a move costs 0 |
| DijkstraMaze.DiagonalCosts | src/labs/stealth/agents/DijkstraMazeAgent.java:105-129 | each diagonal constant squared lies within 1e-5 of the sum of its components' squares, longer than its longer component and shorter than the sum of its components |
| DijkstraMaze.Relax | src/labs/stealth/agents/DijkstraMazeAgent.java:93-100 | relaxing keeps the search invariant and bounds the neighbour's distance by the new route; distances only go down; a stale node changes nothing |
| DijkstraMaze.FoundCheapest | src/labs/stealth/agents/DijkstraMazeAgent.java:85-91 | the minimum popped from the frontier is a walk from the start that is no dearer than any walk ending next to the goal |
| DijkstraMaze.Search | src/labs/stealth/agents/DijkstraMazeAgent.java:70-104 | start = goal gives the root. Otherwise a result is a walk from the start, ending next to the goal, whose cost is the sum of its move weights and no more than any such walk's. No result means no walk from the start comes next to the goal |
| InfilExfil.Scanned | src/labs/infexf/agents/InfilExfilAgent.java:71-75 | the enemies a scan looks at: the ids before the first id whose unit is gone |
| InfilExfil.MinEnemyDistance | src/labs/infexf/agents/InfilExfilAgent.java:69-82 | the loop computes the running minimum over the scanned enemies, from 1000 |
| InfilExfil.MinEnemyDistSpec | src/labs/infexf/agents/InfilExfilAgent.java:69-82 | the closest-enemy distance lies in [0, 1000]; it is at most every scanned enemy's Chebyshev distance and equals one of them, or 1000 |
| InfilExfil.GetEdgeWeight | src/labs/infexf/agents/InfilExfilAgent.java:84-111 | the weight is 1 + 10000/m² + 1000·k, where m is the closest-enemy distance and k counts the scanned enemies within range + 2 of the destination |
| InfilExfil.WeightFormulaBounds | src/labs/infexf/agents/InfilExfilAgent.java:103 | the weight exceeds 1 + 1000·k, and each further enemy in range adds exactly 1000 |
| InfilExfil.WeightFormulaAntitone | src/labs/infexf/agents/InfilExfilAgent.java:103 | with the enemy count fixed, the weight does not grow as the closest enemy gets farther |
| InfilExfil.NeighbourWeightDefined | src/labs/infexf/agents/InfilExfilAgent.java:103 | on every square the A* planner may enter, the closest-enemy distance is positive, so the division is defined |
| InfilExfil.ShouldReplacePlan | src/labs/infexf/agents/InfilExfilAgent.java:124-138 | asks for a new plan exactly when some plan square holds a unit not named "TownHall", or lies within 3 of a scanned enemy |
| SpecOps.GetNeighbors | SpecOpsAgent.java:562-597 | the nested offset loop keeps exactly the squares one move away that are on the map, hold no resource, and hold no unit other than the target |
| SpecOps.DirectionToMoveToSpec | SpecOpsAgent.java:484-528 | a direction is produced exactly for the eight adjacent squares, and moving that way lands on the destination |
| SpecOps.DirectionToMoveToRoundTrip | SpecOpsAgent.java:484-528 | the direction of a one-square move is recovered from its two ends, so the eight offsets get eight distinct directions |
| SpecOps.Expand | SpecOpsAgent.java:657-680 | every pushed node is a child of the polled one onto an unsettled square, its estimate beating the best recorded; recorded estimates only go down; every neighbour ends up settled or recorded |
| SpecOps.StepKeepsInv | SpecOpsAgent.java:647-681 | one poll-and-expand step keeps the frontier made of walks from the start whose parents are settled, and settles a new square |
| SpecOps.MeasureShrinks | SpecOpsAgent.java:647-681 | settling a square leaves fewer unsettled squares, so the search ends |
| SpecOps.Search | SpecOpsAgent.java:625-684 | start = goal gives no result. A result is a non-revisiting walk from the start, one move from the goal, that avoids the goal. No result otherwise means no walk from the start reaches the goal |
| SpecOps.ParentIsPath | SpecOpsAgent.java:654 | the parent of a non-root node is a walk from the start, one move short of the node |
| SpecOps.PlanFromPath | SpecOpsAgent.java:457-471 | the stack, top first, is the route's squares after the start in walking order, then the entry point when exfiltrating |
| SpecOps.PlanFromPathReaches | SpecOpsAgent.java:457-471 | a stacked search result is a non-revisiting walk from the start; when exfiltrating it ends on the destination, otherwise one move from it |
| Mission.PlannerWeightAgrees | SpecOpsAgent.java:661 | on every square the planner may enter, the weight it is given is the infiltration agent's edge weight of that square |
| Mission.NextPhase | SpecOpsAgent.java:322-329 | the phase changes exactly when infiltrating with the target gone, and exfiltration is never left |
| Mission.Advance | SpecOpsAgent.java:336-341 | the stack is popped exactly when a waypoint remains and the pending one is reached (or none is pending); the popped square becomes the pending one |
| Mission.TickAction | SpecOpsAgent.java:344-369 | at most one action, for the own unit. It is a move towards a pending waypoint the unit is not on; otherwise an attack on a live target at Chebyshev distance ≤ 1; otherwise nothing |
| Mission.MoveReachesWaypoint | SpecOpsAgent.java:344-350 | a move towards an adjacent waypoint carries the direction that lands on it |
| Mission.SpecOpsAgent.MakePlan | SpecOpsAgent.java:434-472 | a missing unit or goal gives no plan. A plan is a route from the unit to the goal of the current phase. Otherwise no plan means the unit stands on the goal or no walk reaches it |
| Mission.SpecOpsAgent.InitialStep | SpecOpsAgent.java:288-293 | the unit's square becomes the entry point and the plan is a route to the target |
| Mission.SpecOpsAgent.MiddleStep | SpecOpsAgent.java:316-372 | the phase follows `NextPhase` and a replan happens only on a phase change or an unsafe plan. The stack advances by `Advance` and the action is `TickAction`; a crash happens only on a missing unit or a failed replan |
| Stochastic.PerpendicularSpec | jarsrc/edu/bu/labs/rl/maze/agents/StochasticAgent.java:45-59 | perpendicularity holds only between cardinal directions, is symmetric, excludes the direction itself and its opposite, covers every other cardinal pair, and means a zero dot product |
| Stochastic.MovesSpec | jarsrc/edu/bu/labs/rl/maze/agents/StochasticAgent.java:68-86 | for a cardinal intention, three outcomes: the intended move and its two perpendiculars, never the opposite; none otherwise |
| Stochastic.TransitionsSpec | jarsrc/edu/bu/labs/rl/maze/agents/StochasticAgent.java:68-86 | the transitions are the intended move at 8 tenths and the perpendicular moves at 1 tenth each, in cardinal order, summing to 10 tenths |
| Stochastic.LandingSpec | jarsrc/edu/bu/labs/rl/maze/agents/StochasticAgent.java:72-77 | an outcome lands on the square moved to, or stays on the source when that square is off the map or a resource |
| Stochastic.GetTransitionProbs | jarsrc/edu/bu/labs/rl/maze/agents/StochasticAgent.java:61-93 | a non-cardinal direction is the fatal error; a cardinal one gives one entry per outcome, the same coordinate possibly twice |
| Stochastic.NextDirectionCandidates | jarsrc/edu/bu/labs/rl/maze/agents/StochasticAgent.java:194-213 | the candidate list is the outcomes in cardinal order, each with its weight in tenths |
| Stochastic.CandidatesMatchModel | jarsrc/edu/bu/labs/rl/maze/agents/StochasticAgent.java:194-213 | the list the agent draws from is the transition model's, and its weights sum to one |
| Stochastic.GetReward | jarsrc/edu/bu/labs/rl/maze/agents/StochasticAgent.java:100-117 | +1 exactly at (3,0), −1 exactly at (3,1), −0.04 everywhere else |
| Bayesian.AdjacentCoordinatesSpec | src/labs/pitfall/agents/BayesianAgent.java:208-216 | the adjacent squares are the four cardinal neighbours, those at Manhattan distance 1 |
| Bayesian.IsOnEdge | src/labs/pitfall/agents/BayesianAgent.java:240-243 | true exactly when x = 1 or y = 1; the far edges are never detected |
| Bayesian.PitfallBayesianNetwork.CountAdjacentBreezes | src/labs/pitfall/agents/BayesianAgent.java:156-164 | the number of neighbours known to show a breeze, at most 4 |
| Bayesian.PitfallBayesianNetwork.IsValid | src/labs/pitfall/agents/BayesianAgent.java:188-206 | true exactly when no square of the set is known to be safe and at least one is known to show a breeze |
| Bayesian.PowerSetStep | src/labs/pitfall/agents/BayesianAgent.java:170-184 | doubling the list by a new square (or leaving it unchanged when the square is not valid) keeps it the power set of the valid squares so far |
| Bayesian.PitfallBayesianNetwork.GetPowerSetOfFrontier | src/labs/pitfall/agents/BayesianAgent.java:166-186 | the result begins with the empty set, has 2^k members, and lists every subset of the k frontier squares whose neighbourhoods pass the validity test, and only such subsets |
| Bayesian.PitfallBayesianNetwork.GetNextCoordinateToExplore | src/labs/pitfall/agents/BayesianAgent.java:83-110 | no square exactly when the frontier is empty; otherwise a frontier square |
| Bayesian.IsFrontierSpec | src/labs/pitfall/agents/BayesianAgent.java:379-397 | a square is on the frontier exactly when some cardinal neighbour lies inside the border and is not a hidden square |
| Bayesian.IsFrontierCoordinate | src/labs/pitfall/agents/BayesianAgent.java:379-397 | the loop over the four offsets decides the frontier test |
| Bayesian.HiddenCoordinatesSpec | src/labs/pitfall/agents/BayesianAgent.java:399-444 | the hidden coordinates are exactly the positions of units named (case-insensitively) "HiddenSquare" |
| Bayesian.KnownBreezesSpec | src/labs/pitfall/agents/BayesianAgent.java:399-444 | a square is known exactly when it holds a breeze or safe square, and it is marked true only for a breeze |
| Bayesian.PartsSplit | src/labs/pitfall/agents/BayesianAgent.java:399-444 | the frontier part and the other part of the hidden squares are disjoint and together make up all of them |
| Bayesian.MakeObservations | src/labs/pitfall/agents/BayesianAgent.java:399-444 | after the observations the known squares, the frontier and the other squares are the functions of the units above; the previous contents are dropped |
| Tetris.CalculateHoles | src/pas/tetris/agents/TetrisQAgent.java:692-705 | the count is the sum, over columns, of the empty cells below the column's first occupied cell |
| Tetris.CalculateHolesOfImage | src/pas/tetris/agents/TetrisQAgent.java:182-196 | the image version counts the holes of the board whose occupied cells are the non-zero pixels, so the two versions agree |
| Tetris.HolesAreHeightLessBlocks | src/pas/tetris/agents/TetrisQAgent.java:692-705 | in each column, holes plus occupied cells equal the column's height, and the height is at most the number of rows |
| Tetris.ColumnCounts | src/pas/tetris/agents/TetrisQAgent.java:692-720 | per column: empty plus filled cells is the column length; holes are the empties after the leading empties, blockades the filled cells after the leading filled ones |
| Tetris.UniformColumnCounts | src/pas/tetris/agents/TetrisQAgent.java:707-720 | a completely full or completely empty column has no holes and no blockades |
| Tetris.UniformBoards | src/pas/tetris/agents/TetrisQAgent.java:182-212 | an empty or a full board has no holes and no blockades, and an empty board has zero total height |
| Tetris.CalculateBlockades | src/pas/tetris/agents/TetrisQAgent.java:707-720 | the count is the sum, over columns, of the occupied cells below the column's first empty cell |
| Tetris.CalculateBlockadesOfImage | src/pas/tetris/agents/TetrisQAgent.java:198-212 | the image version counts the blockades of the non-zero-pixel board |
| Tetris.CalculateSumOfHeights | src/pas/tetris/agents/TetrisQAgent.java:727-738 | the sum, over columns, of rows minus the first occupied row, with 0 for an empty column |
| Tetris.ColumnHeightZero | src/pas/tetris/agents/TetrisQAgent.java:727-738 | a column's height is 0 exactly when it holds no block |
| Tetris.FullRowsSpec | src/pas/tetris/agents/TetrisQAgent.java:666-690 | the full rows are listed in strictly increasing order, a row is listed exactly when it is full, and there are at most as many as rows |
| Tetris.GetFullLines | src/pas/tetris/agents/TetrisQAgent.java:666-690 | the loop returns the full rows in increasing order |
| Tetris.CalculateClears | src/pas/tetris/agents/TetrisQAgent.java:722-725 | the number of full rows, at most the number of rows |
| Tetris.CalculatePotentialLineCompletion | src/pas/tetris/agents/TetrisQAgent.java:565-580 | the image version counts the full rows of the non-zero-pixel board |
| Tetris.CountEdgeContacts | src/pas/tetris/agents/TetrisQAgent.java:744-790 | block, wall and floor contacts are the sums of the per-cell contacts, and the score is 3·block + 2.5·wall + 5·floor |
| Tetris.CountEdgeContactsOfImage | src/pas/tetris/agents/TetrisQAgent.java:797-846 | the image version counts the contacts of the non-zero-pixel board |
| Tetris.WallAndFloorContacts | src/pas/tetris/agents/TetrisQAgent.java:744-790 | wall contacts are the blocks in the two outer columns, and floor contacts the blocks in the bottom row |
| Tetris.TetrisQAgent.CalculateEdgeScores | src/pas/tetris/agents/TetrisQAgent.java:744-790 | the three edge fields are reset to the board's contact counts and the score is returned; nothing else changes |
| Tetris.TetrisQAgent.CalculateEdgeScoresOfImage | src/pas/tetris/agents/TetrisQAgent.java:797-846 | the image version writes the same three fields and leaves the three `M` fields untouched |
| Tetris.QFeaturesLength | src/pas/tetris/agents/TetrisQAgent.java:70 | the feature row has R·C + C + 6 entries, the network's input width |
| Tetris.TetrisQAgent.GetQFunctionInput | src/pas/tetris/agents/TetrisQAgent.java:109-170 | a 1 × (R·C + C + 6) row: the pixels by rows, one height per column, then full lines, holes and blockades, then the three `M` edge fields, which are always 0 |
| Tetris.CountsStep | src/pas/tetris/agents/TetrisQAgent.java:431-432 | raising one piece's count by one keeps every count equal to that piece's number of placements |
| Tetris.TotalIsSumOfCounts | src/pas/tetris/agents/TetrisQAgent.java:345-347 | when the counts match the placements, they sum to the total count |
| Tetris.RewardTerms | src/pas/tetris/agents/TetrisQAgent.java:276-301 | the reward is −0.03 per unit of height, +8 per full row and the edge score of `calculateEdgeScores`; because the negative hole and blockade weights are subtracted, each hole adds 7.5 and each blockade 3.5 |
| Tetris.RewardGrowsWithHoles | src/pas/tetris/agents/TetrisQAgent.java:276-301 | with every other feature equal, the board with more holes gets the larger reward |
| Tetris.RewardOfEmptyBoard | src/pas/tetris/agents/TetrisQAgent.java:276-301 | an empty board with at least one column has reward 0: no height, rows, holes, blockades or contacts |
| Tetris.TetrisQAgent.CalculateReward | src/pas/tetris/agents/TetrisQAgent.java:276-301 | returns the weighted feature sum of the board and leaves that board's contact counts in the three board fields; nothing else changes |
| Tetris.TetrisQAgent.UpdateActionRewardAndCount | src/pas/tetris/agents/TetrisQAgent.java:416-436 | the piece's reward grows by the reward of the placed board, its count by one and the total by one; no other entry changes, the counts still sum to the total, and the three board fields hold the placed board's contact counts |
| OpenLoop.IsAdjacentSpec | src/labs/openLoop/agents/OpenLoopAgent.java:187-190 | adjacency is Manhattan distance 1 and is symmetric: exactly the four cardinal neighbours, never the square itself |
| OpenLoop.DirectionToMoveTowardsAsWritten | src/labs/openLoop/agents/OpenLoopAgent.java:191-203 | the source's choice: no direction exactly when the squares coincide |
| OpenLoop.DirectionAsWrittenMovesAway | src/labs/openLoop/agents/OpenLoopAgent.java:197-198 | a unit at (0,0) heading for (0,1) is sent north, which takes it to distance 2 from distance 1 |
| OpenLoop.DirectionToMoveTowards | src/labs/openLoop/agents/OpenLoopAgent.java:191-203 | the corrected choice: no direction exactly when the squares coincide |
| OpenLoop.DirectionToMoveTowardsSpec | src/labs/openLoop/agents/OpenLoopAgent.java:191-203 | the corrected choice agrees with the source whenever x differs, and its step is cardinal and brings the unit one square closer |
| OpenLoop.MiddleStep | src/labs/openLoop/agents/OpenLoopAgent.java:205-247 | exactly one order, and it is for the own unit |
| OpenLoop.MiddleStepSpec | src/labs/openLoop/agents/OpenLoopAgent.java:221-244 | the four cases are exclusive and exhaustive. Each order is given exactly in its case: gather east next to the mine, step north while the mine exists but is not adjacent, step east once it is gone and the enemy is not adjacent, attack an enemy one step away |

## Left out

- Floating point: costs, weights, rewards and features are exact reals (tenths for probabilities). There is no float rounding, except that the two Dijkstra diagonal constants are the single-precision values of the square roots.
- Coordinate.HashCode: unbounded integers, so the 32-bit overflow of the Java hash on large coordinates is not modelled.
- The A* heuristic comes from a distance class of the graph package that is not part of this model. It is a parameter of `SpecOps.Search` and of the mission agent, with no property assumed.
- `Vertex`, `Path`, `MazeAgent`, `Board`, `Matrix`, the game state and the `nn` library are not part of this model. `Path` is a datatype; `Board` is a grid of booleans; `Matrix` is rows of reals, flattened by rows into a 1 × R·C image.
- SpecOps.Expand: the source's `heap.remove(newPath)` depends on an unseen `Path.equals`. The model keeps the superseded entry in the queue. When it is polled later, its square is already settled; `SpecOps.Search` settles it again and expands it, and that expansion pushes a node only where it beats the recorded estimate.
- DijkstraMaze.EdgeWeight: the direction of a move comes from the inherited `MazeAgent.getDirectionToMoveTo`, which is not part of this model. `SpecOps.DirectionToMoveTo` (SpecOpsAgent.java:484-528) stands in for it: it names the direction of each of the eight one-square moves and nothing otherwise.
- Mission.PlannerWeight: where the infiltration weight would divide by zero, an enemy stands on the square. Such a square is never a neighbour (`Mission.PlannerWeightAgrees`), so the fallback value 0 is never used.
- Iteration order of `HashSet`s and `HashMap`s: sets are modelled as sets, so the order in which neighbours are pushed is left open. Each search ensures only what holds for every order.
- Randomness: `pickRandomDirection`, `shouldExplore`, and the shuffle tie-break of `getNextCoordinateToExplore`. Bayesian.PitfallBayesianNetwork.GetNextCoordinateToExplore returns some frontier square, without the pit-probability ranking.
- Probability arithmetic of the pitfall agent: `calculatePitProb` and `checkEdgeBreezeForMaxPitProbability`.
- Tetris rewards and exploration: `getReward`, `getExplorationMove` (UCB with `log` and `sqrt`), `calculateOptimisticRewardEstimate` and `calculateRewardFromFeatures`. These are floating-point formulas over the features modelled here.
- Tetris.TetrisQAgent.UpdateActionRewardAndCount: `Board.addMino` is not part of this model, so the board with the piece placed is a parameter. The reward is computed from it by `calculateReward(Board)`, which is modelled.
- `initQFunction` and `trainQFunction`: thin wrappers over the neural-network library.
- Tetris counters return natural numbers, not the source's `double`s (which hold them exactly). A piece (`Mino`) is modelled by its identity alone.
- OpenLoop.MiddleStep: `goldMineExists` becomes an optional mine square; unit and resource lookups are positions handed in.
- Host plumbing: unit discovery in `initialStep`, `terminalStep`, console output, `System.exit`, saving and loading, and the `try`/`catch` around the feature matrix. A fatal exit or a null dereference is `None` or `Crashed`.
- DistanceMetric.PDistanceSpecialCases: only non-negative exponents are modelled (a negative `p` gives a fraction in the source).
- Grid.ToLower: lower-cases ASCII letters only, which is all the template names use.
- Bayesian.Uncovered: an occupant id with no unit behind it counts as not hidden; a host snapshot never shows one.

## Findings

| source | as written | input that shows it | evidently intended | confidence | as-written member | corrected member |
|---|---|---|---|---|---|---|
| src/labs/openLoop/agents/OpenLoopAgent.java:197-198 | when the unit's y is smaller than the target's, the direction is NORTH | unit at (0,0), target at (0,1): the move goes to (0,−1), Manhattan distance 2 instead of 0 | SOUTH, since y grows southwards on this map (the move table sends SOUTH to y + 1) | not executed | OpenLoop.DirectionToMoveTowardsAsWritten, OpenLoop.DirectionAsWrittenMovesAway | OpenLoop.DirectionToMoveTowards, OpenLoop.DirectionToMoveTowardsSpec |
