# A* grid path-finding engine, modelled in Dafny

The repository is an interactive A* visualiser. The user paints walls and moves the
START and TARGET cells on a fixed grid. Each frame, the search either advances by one
expansion or reveals one more node of the finished path. This project models the engine
and its per-frame driver:

- `grid.py` (root): the `Grid` class with the IDLE/RUNNING/FINISHED state machine and
  the truncated Euclidean distance `int(sqrt(dx² + dy²))`.
- `code/grid.py`: the same engine with these differences:
  - the octile distance (10 per straight step, 14 per diagonal step);
  - a `run` flag instead of the state machine;
  - no guard against an empty open set;
  - a `reset` that rebuilds the whole board.
- `code/main.py`: the frame step, `use_tool` and `update_grid`. The driver imports
  `GridState` and calls `clear`, which only the root engine has, so it is modelled
  against the root engine.

## Modules

| file | module | contents |
|---|---|---|
| geometry.dfy | `Geometry` | positions, `is_in_bounds`, both `get_distance` metrics, the neighbour offsets |
| nodes.dfy | `Nodes` | node kinds, costs, the node arena, the choice of the next node, neighbour relaxation, parent chains, building a fresh matrix |
| search.dfy | `Search` | the invariant of a grid on the values of its fields, one expansion (`ExpandNode`) with the metric as a parameter, and the proofs that an expansion keeps the invariant |
| grid.dfy | `AStarGrid` | the root `Grid` class and its `reset` |
| code_grid.dfy | `OctileGrid` | the `code/` `Grid` class |
| main.dfy | `Driver` | tools, the toolbar's selection, the painting policy, the frame step |

### How the model represents the program

- **Nodes have identity.** Python `Node` objects live in an arena
  `nodes: map<NodeId, Node>`, and `matrix` holds ids. Identity matters because the root
  `reset` keeps the old START, TARGET and WALL node objects, with their costs and their
  `parent`. That `parent` may point to a node that is no longer in the matrix but still
  exists. New objects get fresh ids from `nextId`.
- **Infinite costs.** The float `infinity` of a fresh node's h and f costs is the
  `Infinity` case of `Cost`. `CostLess` orders it above every integer.
- **Square roots.** `int(sqrt(n))` is `FloorSqrt`, the exact integer square root.
- **Choice of the next node.** `set_current_node` breaks ties by set iteration order.
  `SelectLowest` scans the open set in an arbitrary order and promises only a node that
  no open node beats on (f, h).
- **Configuration.** The configuration constants (`COLUMNS`, `ROWS`, the START and
  TARGET coordinates, `CAN_GO_DIAGONAL`) come from `consts.py`, which is not part of this
  model. They become constructor parameters stored in `const` fields. The constructor
  requires both positions to be on the board and to differ.
- **The class invariant.** `Valid()` is `GridOk` on the field values. It requires:
  - every node well costed: either fresh, or with a parent, a finite h and f = g + h;
  - every parent in the arena;
  - a node at its own position in every cell;
  - exactly one START cell, holding `startNode`, and exactly one TARGET cell, holding
    `targetNode`;
  - `open` and `closed` disjoint subsets of the arena;
  - `current` in `closed`;
  - path nodes in the arena;
  - every open and every closed node the node of some cell (`OnBoard`). Because of this,
    the closed set never exceeds `columns * rows` nodes, and every expansion adds one node
    to it. So between two resets or clears, `find_path` expands at most `columns * rows`
    nodes; every further call finds the open set empty and makes the search FINISHED.
- **How operations are built.** Each operation computes new field values with value
  methods that are proved against specification functions (`ExpandNode`, `RelaxAll`,
  `ParentChain`, `IsResetOf`, `Paint`). It then stores them with `SetSearch` and
  `SetBoard`, whose precondition is the invariant on the new values.
- **Parent loops.** `add_node_and_parent_to_path` recurses along `parent` links.
  `ParentChain` follows the same links with a set of visited nodes. Revisiting a node
  means the Python recursion would never end. In that case the model reports `cyclic`
  and leaves the path as it was.

### What the code does where other behaviour might be expected

The model follows the code in each of these cases:

- **`reset` and search costs.** One might expect `reset` to discard everything the last
  search computed. The root `reset` (grid.py:137-140) keeps START, TARGET and WALL node
  objects as they are, stale g/h/f costs and `parent` included. Only the other cells get
  fresh nodes. `ResetNode` and `IsResetOf` state exactly that.
- **Resetting twice.** One might expect a second `reset` to change nothing. In the code
  (grid.py:139-140) it again replaces every cell that is not START, TARGET or WALL with a
  new `Node` object. `ResetTwice` proves that every cell holds an equal node afterwards: the
  same object where the first reset kept one, otherwise an equal fresh DEFAULT node with
  a new identity.
- **Optimality.** One might expect shortest paths from an A* search. The code does not
  promise them. With diagonal moves, the root engine's truncated Euclidean heuristic
  (grid.py:168-173) overestimates: `EuclideanOverestimates` shows (0,0)→(3,3) estimated at
  4 against a true cost of 3.
- **Looping parent links.** One might expect every parent chain to end.
  `add_node_and_parent_to_path` (grid.py:113-116) assumes so. But `reset` keeps old parents
  (grid.py:139-140), and the tools move START and TARGET onto such nodes
  (code/main.py:73-82). So a later search can make two kept nodes each other's parent.
  `Search.ParentLoop` shows a 2 by 1 board that meets the whole grid invariant (`GridOk`)
  with START and TARGET each other's parent, and `MutualParentsLoop` that such a chain never
  ends. The model reports this case as `cyclic` instead of recursing. `ParentChainEnds`
  stands alone: it states when chains do end (every parent cheaper than its child), a
  condition the code does not maintain across resets.

## Model

| member | source | states |
|---|---|---|
| Geometry.FloorSqrt | grid.py:173 | the result r is the integer square root: r·r ≤ n < (r+1)·(r+1) |
| Geometry.FloorSqrtUnique | grid.py:173 | exactly one r satisfies r·r ≤ n < (r+1)·(r+1), so the truncated square root is determined |
| Geometry.InBounds | grid.py:163-165 | a position can be in bounds only on a board with at least one column and one row |
| Geometry.EuclideanDistance | grid.py:168-173 | the root `get_distance` lies between the Chebyshev distance max(dx, dy) and the Manhattan distance dx + dy |
| Geometry.EuclideanDistanceProperties | grid.py:168-173 | the root `get_distance` is symmetric, is 0 exactly for equal positions, and is the floor of sqrt(dx²+dy²) |
| Geometry.EuclideanStep | grid.py:168-173 | every straight or diagonal neighbour pair is at distance 1 |
| Geometry.EuclideanOverestimates | grid.py:168-173 | the heuristic estimates (0,0)→(3,3) at 4, above the true cost 3 of three diagonal steps |
| Geometry.OctileDistance | code/grid.py:143-150 | the octile `get_distance` lies between 10 and 14 times the Chebyshev distance |
| Geometry.OctileDistanceProperties | code/grid.py:143-150 | the octile `get_distance` is 14·min + 10·(max−min) = 10·max + 4·min, is symmetric, is 0 exactly for equal positions, and is 10 for a straight step and 14 for a diagonal one |
| Geometry.StepCostPositive | grid.py:104 | under either metric a step between neighbours costs at least 1 |
| Geometry.Offsets | grid.py:72-75 | 8 offsets with diagonals, 4 without |
| Geometry.OffsetsAreSteps | grid.py:72-75 | the offsets are exactly the king moves (with diagonals) or the rook moves (without) |
| Geometry.OffsetsDistinct | grid.py:72-75 | no offset is listed twice |
| Geometry.ShiftedInBounds | grid.py:77-81 | the cells kept are exactly the in-bounds shifts of p by an offset, never more than the offsets |
| Geometry.ShiftedInBoundsDistinct | grid.py:77-81 | distinct offsets give distinct cells |
| Geometry.Neighbors | grid.py:70-81 | `get_neighbors` yields exactly the in-bounds cells one step away, each at Chebyshev distance 1 and never p itself; at most 8 with diagonals, at most 4 (orthogonal only) without |
| Geometry.NeighborsDistinct | grid.py:70-81 | no neighbour position is yielded twice |
| Nodes.FreshNode | grid.py:24-34 | a new node has the given position and kind, no parent, and is well costed (g = 0, h and f infinite) |
| Nodes.OpenedKind | grid.py:126-128 | `add_to_open` draws a node OPEN or leaves its kind; the result is START or TARGET exactly when the node was |
| Nodes.ClosedKind | grid.py:131-133 | `add_to_closed` draws a node CLOSED or leaves its kind; the result is START or TARGET exactly when the node was |
| Nodes.RevealedKind | grid.py:119-121 | `reveal_path` draws a node PATH or leaves its kind; the result is START or TARGET exactly when the node was |
| Nodes.KindsAgreeKeepBoard | grid.py:126-134 | redrawing nodes without making or unmaking START or TARGET keeps every cell's node and the single START and TARGET cells |
| Nodes.Redraw | grid.py:126-134 | drawing one node as OPEN, CLOSED or PATH keeps it well costed and keeps the board well formed |
| Nodes.MatrixInjective | grid.py:44 | two cells hold the same node exactly when they are the same cell |
| Nodes.CellsAt | grid.py:81 | the nodes `self.matrix[new_y][new_x]` for the given positions, in order, each at its own position |
| Nodes.NeighborCells | grid.py:70-81 | the neighbour nodes: each in bounds, in its own cell and one step away, at most 8 or 4 of them, and every in-bounds cell one step away is among them |
| Nodes.NeighborCellsDistinct | grid.py:70-81 | no neighbour node is yielded twice |
| Nodes.BuildMatrix | grid.py:44 | a fresh DEFAULT node at its own position in every cell, none of them an existing node; existing nodes untouched |
| Nodes.NewBoard | grid.py:44-48 | the fresh matrix with START and TARGET drawn at the configured positions; exactly one START and one TARGET cell; existing nodes untouched |
| Nodes.SelectLowest | grid.py:63-68 | `set_current_node` returns a member of the non-empty open set that no open node beats on lower f, or equal f and lower h |
| Nodes.Relax | grid.py:101-111 | one turn of the neighbour loop keeps the set of nodes and can only add that neighbour to the open set |
| Nodes.RelaxAll | grid.py:100-111 | the neighbour loop neither creates nor drops nodes |
| Nodes.RelaxEffect | grid.py:100-111 | a wall, a closed node, or an open node whose cost the route does not improve is left alone; otherwise the neighbour gets g = g(current) + step, h = distance to the target, f = g + h and parent = current, is open afterwards, and is drawn OPEN if it was newly opened; no other node or open membership changes |
| Nodes.RelaxFrame | grid.py:100-111 | relaxing one neighbour changes only that neighbour and its open membership |
| Nodes.RelaxLocal | grid.py:104-111 | the outcome for a neighbour depends only on that neighbour, its open membership and the current node |
| Nodes.RelaxAllEffect | grid.py:100-111 | over distinct neighbours, each neighbour ends as relaxing it alone would leave it, and nothing outside the neighbours changes |
| Nodes.RelaxPreserves | grid.py:100-111 | one relaxation keeps nodes well costed, keeps the node set, only adds to the open set, adds no closed node to it, and changes no START, TARGET or WALL drawing |
| Nodes.RelaxAllPreserves | grid.py:100-111 | the whole neighbour loop keeps the same invariants |
| Nodes.RelaxOne | grid.py:101-111 | one turn of the loop, on the arena and the open set, is `Relax` |
| Nodes.RelaxNeighbors | grid.py:100-111 | the loop over the neighbours computes `RelaxAll` |
| Nodes.RelaxedCostsMore | grid.py:104-109 | a neighbour one king move away that the loop relaxes (not a wall, not closed, and not yet open or reached more cheaply) gets the current node as parent and a strictly larger g cost |
| Nodes.ParentChain | grid.py:113-116 | a chain that ends holds at most as many nodes as the arena has outside the already appended ones |
| Nodes.ParentChainShape | grid.py:113-116 | the appended nodes start at the given node and follow parent links; each has a parent, the last one's parent has none (the parentless start is excluded), and none repeats |
| Nodes.ParentChainInNodes | grid.py:113-116 | every node on the chain is in the arena |
| Nodes.ParentChainEnds | grid.py:113-116 | when every parent costs strictly less than its child, the recursion ends |
| Nodes.MutualParentsLoop | grid.py:113-116 | when two nodes are each other's parent, the chain from either of them never ends |
| Search.ParentLoop | grid.py:113-116 | a 2 by 1 board meeting the whole grid invariant `GridOk`, whose START and TARGET are each other's parent, so the chain from TARGET never ends |
| Nodes.RowCellsCard | grid.py:44 | a row of n cells holds at most n nodes |
| Nodes.CellsSplit | grid.py:44 | the nodes of the matrix are those of its earlier rows plus those of its last row |
| Nodes.CellsCard | grid.py:44 | a matrix of `rows` rows of `columns` cells holds at most `columns * rows` nodes |
| Nodes.RelaxAllOpens | grid.py:100-111 | the neighbour loop opens no node but the neighbours it is given |
| Search.CloseKeepsInvariant | grid.py:93-94 | moving the chosen node from `open` to `closed`, drawn CLOSED, keeps the invariant |
| Search.RelaxKeepsInvariant | grid.py:100-111 | relaxing neighbours keeps the invariant, including disjoint open and closed sets |
| Search.PathKeepsInvariant | grid.py:96-98 | appending arena nodes to the path keeps the invariant |
| Search.RevealKeepsInvariant | grid.py:118-124 | popping the last path node and drawing it PATH (unless START or TARGET) keeps the invariant |
| Search.ExpandNode | grid.py:93-111 | one expansion keeps the arena's identities; what it does is stated by `ExpandKeepsInvariant` and by the `Relax` and `ParentChain` lemmas it is built from |
| Search.ExpandKeepsInvariant | grid.py:93-111 | expanding an open node keeps the invariant, with that node current and closed |
| Search.ExpandTargetKeeps | grid.py:93-98 | expanding the target changes only its drawing (CLOSED unless an endpoint), removes it from the open set and opens nothing; the path gains exactly its parent chain and `cyclic` is false, or, when the chain loops, the path is unchanged and `cyclic` is true; the invariant holds |
| Search.ExpandOtherKeeps | grid.py:100-111 | expanding any other node keeps the invariant |
| Search.ParentPath | grid.py:113-116 | the loop returns the parent chain from the node, or reports that the links loop |
| Search.ExpandOnce | grid.py:88-111 | `current` becomes a lowest node of the open set, `closed` gains it as a new member (so it grows by exactly one, staying within `columns * rows`), the rest is `ExpandNode`, and the invariant holds afterwards |
| Search.ClosedBounded | grid.py:93-94 | a set of matrix nodes, such as the closed set, has at most `columns * rows` members |
| Search.SubsetCard | grid.py:93-94 | a subset is no larger than its superset |
| Search.ClosedGrows | grid.py:93-94 | closing an open node of the board adds a node the closed set did not have, and the result stays within `columns * rows` |
| Search.StartOnBoard | grid.py:84-85 | the start node that `find_path` seeds the open set with is the node of a cell |
| Search.NeighborCellsOnBoard | grid.py:70-81 | every neighbour `get_neighbors` yields is the node of a cell |
| Search.ExpandKeepsOnBoard | grid.py:93-111 | after an expansion every open and closed node is still the node of a cell |
| Search.ExpandParentIsNeighbour | grid.py:100-109 | expanding a node other than the target changes a node's parent only to the expanded node, which is one king move from it, and the re-pointed node then costs strictly more |
| Search.ExpandStep | grid.py:93-111 | closing the node and then appending the target's chain or running the neighbour loop computes `ExpandNode` |
| AStarGrid.ResetNode | grid.py:137-140 | `reset` keeps a cell's position; the node stays START, TARGET or WALL exactly when it was one; any other becomes DEFAULT with no parent; a well-costed node stays well costed |
| AStarGrid.ResetNodeIdempotent | grid.py:137-140 | resetting a cell's node twice gives what resetting it once gives, and keeps whether reset keeps it |
| AStarGrid.ResetTwice | grid.py:136-146 | after two resets every cell holds a node equal to the one after the first, the very same node where the first kept one |
| AStarGrid.ResetBoard | grid.py:137-140 | the loops of `reset` keep START, TARGET and WALL nodes in place and give every other cell a new fresh DEFAULT node at its position; all earlier nodes still exist unchanged |
| AStarGrid.ResetRow | grid.py:138-140 | the inner loop does this for one row and leaves later rows as they were |
| AStarGrid.ResetKeepsBoard | grid.py:136-146 | the board after `reset` is well formed with the same START and TARGET nodes |
| AStarGrid.Grid.constructor | grid.py:41-55 | a new board with START and TARGET at the configured positions, empty search state, IDLE |
| AStarGrid.Grid.SetCurrentNode | grid.py:63-68 | `current` becomes an open node no open node beats |
| AStarGrid.Grid.AddToOpen | grid.py:126-129 | the node joins `open`, drawn OPEN unless START or TARGET |
| AStarGrid.Grid.AddToClosed | grid.py:131-134 | the node joins `closed`, drawn CLOSED unless START or TARGET |
| AStarGrid.Grid.AddNodeAndParentToPath | grid.py:113-116 | the path grows by exactly the parent chain of the node, or is left alone when the links loop |
| AStarGrid.Grid.FindPath | grid.py:83-111 | the start node is seeded while nothing has been expanded; an empty open set makes the search FINISHED with nothing else changed; otherwise exactly one expansion (`ExpandedOnce`) with the state unchanged; `current` ends in `closed` and not in `open`; the matrix and the endpoints stay; either the search is FINISHED with `closed` unchanged or `closed` grew by exactly one, and it never exceeds `columns * rows`; the invariant holds |
| AStarGrid.Grid.RevealPath | grid.py:118-124 | exactly the last path node is removed and drawn PATH unless START or TARGET; the search becomes FINISHED exactly when it was the TARGET; the open and closed sets and `current` are unchanged |
| AStarGrid.Grid.Reset | grid.py:136-146 | the board as `IsResetOf` says, the same START and TARGET nodes, empty open, closed and path, no current node, FINISHED |
| AStarGrid.Grid.Clear | grid.py:148-160 | a new board as the constructor builds it (earlier nodes untouched), empty search state, FINISHED |
| OctileGrid.Grid.constructor | code/grid.py:32-46 | a new board, empty search state, `run` False |
| OctileGrid.Grid.FindPath | code/grid.py:73-96 | with a non-empty seeded open set, exactly one expansion with the octile distance; `current` ends in `closed` and not in `open`; `closed` grows by exactly one and stays within `columns * rows`; the invariant holds |
| OctileGrid.Grid.RevealPath | code/grid.py:103-109 | exactly the last path node is removed and drawn PATH unless START or TARGET; `run` becomes None exactly when it was the TARGET |
| OctileGrid.Grid.Reset | code/grid.py:121-135 | a whole new board, so no wall remains; START and TARGET at the configured positions; empty search state; `run` False |
| Driver.ToolBar.constructor | code/toolbar.py:24-27 | the toolbar starts with ERASE, its fourth tool, selected |
| Driver.Paint | code/main.py:60-82 | a click changes at most the clicked node and the previous START or TARGET node, and only their drawing |
| Driver.PaintRules | code/main.py:65-82 | ERASE turns only a WALL into DEFAULT; WALL turns only a DEFAULT into WALL; START or TARGET on a DEFAULT or WALL cell demotes the old one to DEFAULT and promotes the clicked node, leaving the other endpoint alone; anything else changes nothing |
| Driver.MoveStartKeepsBoard | code/main.py:73-77 | moving START keeps exactly one START and one TARGET cell |
| Driver.MoveTargetKeepsBoard | code/main.py:78-82 | moving TARGET keeps exactly one START and one TARGET cell and never overwrites START |
| Driver.PaintKeepsBoard | code/main.py:60-82 | every click keeps the board well formed |
| Driver.PaintKeepsGrid | code/main.py:60-82 | every click keeps the grid's invariant |
| Driver.Frame | code/main.py:31-34 | exactly one of: `reveal_path` when the path is non-empty; otherwise `find_path` when RUNNING; otherwise no change; the matrix, `nextId` and the START and TARGET nodes never change |
| Driver.UseTool | code/main.py:43-57 | a clicked tool becomes the selection; RESET resets, CLEAR clears, PAUSE sets IDLE and PLAY sets RUNNING with nothing else changed; the other tools leave the grid alone; a click beside the toolbar changes nothing |
| Driver.UpdateGrid | code/main.py:60-82 | the clicked cell is painted as `Paint` says, the matrix and search state untouched, the invariant kept; a click beside the grid changes nothing |

## Left out

- pygame: window setup, images (the payloads of `NodeType` and `ToolType`), `Node.rect`, `get_clicked_cell`, `get_clicked_tool`, drawing, the clock and the event loop. The clicked tool and the clicked cell are parameters of `UseTool` and `UpdateGrid`. `Frame` is one turn of the `while True` loop after the events.
- The `code/` engine's `set_current_node`, `get_neighbors`, `add_node_and_parent_to_path`, `add_to_open` and `add_to_closed` are the same code as the root engine's. They are modelled once, as `AStarGrid.Grid` members and as the shared value-level functions `OctileGrid.Grid.FindPath` uses.
- The `code/` engine's `reset` reassigns `rows` and `columns` to the same constants; they are `const` fields here.
- AStarGrid.Grid.AddNodeAndParentToPath: when parent links loop, the source recurses until Python's recursion limit raises, having appended some nodes. The model reports `cyclic` and leaves the path unchanged. The source also raises `RecursionError` on an acyclic chain longer than Python's recursion limit (1000 frames by default); the model appends such a chain in full, since the limit is a property of the interpreter, not of the program.
- AStarGrid.Grid.FindPath: the same applies when the target's parent links loop. `OctileGrid.Grid.FindPath` and `Search.ExpandNode` do the same.
- OctileGrid.Grid.FindPath: requires a non-empty open set after seeding. On an empty one the source raises `StopIteration`, which is not modelled.
- AStarGrid.Grid.RevealPath: requires a non-empty path, where the source raises `IndexError` on `pop()`. `OctileGrid.Grid.RevealPath` does the same. The driver only calls it with a non-empty path.
- Floating point: `sqrt` is modelled as the exact integer floor square root. For very large coordinates, float rounding in `int(sqrt(...))` could differ from it.
- Set iteration order, which decides ties in `set_current_node`. The model promises some lowest node, not a particular one.
- That a walled-in target ends the search FINISHED with an empty path is not proved. It needs a reachability argument over the whole search, and user edits during a search break its natural invariant: moving START turns a node of the open or closed set DEFAULT, and the WALL tool can then wall it. The model does prove that a search expands at most `columns * rows` nodes (`Search.ClosedGrows`, `AStarGrid.Grid.FindPath`), and that the path changes only when the target is expanded (`ExpandNode`).
- Global optimality and path continuity (consecutive path nodes being neighbours) are not proved. The code does not promise optimality, and `EuclideanOverestimates` shows the root heuristic can overestimate. The model does prove that consecutive path nodes are parent-linked (`ParentChainShape`), and that an expansion re-points a node only to the expanded node, one king move away and strictly cheaper (`Search.ExpandParentIsNeighbour`, built on `RelaxedCostsMore`). Lifting that to every parent link of the arena as an invariant is not done: `reset` keeps old parent links, which may point to nodes no longer on the board.
- Python integers are unbounded, so there is no wrap-around to model.
