/**
 * The root engine (`grid.py`): a grid of nodes with an explicit search state
 * (IDLE, RUNNING, FINISHED), an A* expansion per `FindPath` call, path
 * playback, and the two ways of starting over (`Reset` keeps the drawing,
 * `Clear` wipes it). Edge costs and the heuristic use the truncated
 * Euclidean distance.
 */
module AStarGrid {
  import opened Geometry
  import opened Nodes
  import opened Search

  datatype GridState = Idle | Running | Finished

  /** The kinds `reset` keeps in place. */
  predicate KeptByReset(k: NodeType) { k == Start || k == Target || k == Wall }

  /** What `reset` leaves in a cell: a START, TARGET or WALL node as it is (costs and parent
      included), anything else replaced by a fresh DEFAULT node at the same position. */
  function ResetNode(n: Node): (r: Node)
    ensures r.pos == n.pos
    ensures KeptByReset(r.kind) <==> KeptByReset(n.kind)
    ensures KeptByReset(n.kind) || (r.kind == Default && r.parent.None?)
    ensures WellCosted(n) ==> WellCosted(r)
  {
    if KeptByReset(n.kind) then n else FreshNode(n.pos, Default)
  }

  /** Resetting a cell twice leaves what resetting it once does. */
  lemma ResetNodeIdempotent(n: Node)
    ensures ResetNode(ResetNode(n)) == ResetNode(n)
    ensures KeptByReset(ResetNode(n).kind) <==> KeptByReset(n.kind)
  {
  }

  /** One cell after `reset`, given the board before it (`m0`, `n0`): the node `ResetNode`
      makes of the old one; the same node if `reset` keeps it, otherwise a new one. */
  ghost predicate ResetCell(m0: seq<seq<NodeId>>, n0: map<NodeId, Node>,
                            matrix: seq<seq<NodeId>>, nodes: map<NodeId, Node>, y: int, x: int) {
    && 0 <= y < |m0| && 0 <= x < |m0[y]| && m0[y][x] in n0
    && 0 <= y < |matrix| && 0 <= x < |matrix[y]| && matrix[y][x] in nodes
    && nodes[matrix[y][x]] == ResetNode(n0[m0[y][x]])
    && (KeptByReset(n0[m0[y][x]].kind) ==> matrix[y][x] == m0[y][x])
    && (!KeptByReset(n0[m0[y][x]].kind) ==> matrix[y][x] !in n0)
  }

  /** The board after `reset`: every cell as `ResetCell` says, and every node that existed
      before still there, unchanged. */
  ghost predicate IsResetOf(m0: seq<seq<NodeId>>, n0: map<NodeId, Node>,
                            matrix: seq<seq<NodeId>>, nodes: map<NodeId, Node>, columns: nat, rows: nat) {
    && |matrix| == rows && (forall y :: 0 <= y < rows ==> |matrix[y]| == columns)
    && (forall id :: id in n0 ==> id in nodes && nodes[id] == n0[id])
    && (forall y, x :: 0 <= y < rows && 0 <= x < columns ==> ResetCell(m0, n0, matrix, nodes, y, x))
  }

  /** A second `reset` leaves every cell as the first one did: the same node where the
      first kept one, and an equal fresh DEFAULT node (under a new identity) elsewhere. */
  lemma ResetTwice(m0: seq<seq<NodeId>>, n0: map<NodeId, Node>, m1: seq<seq<NodeId>>, n1: map<NodeId, Node>,
                   m2: seq<seq<NodeId>>, n2: map<NodeId, Node>, columns: nat, rows: nat)
    requires IsResetOf(m0, n0, m1, n1, columns, rows) && IsResetOf(m1, n1, m2, n2, columns, rows)
    ensures forall y, x :: 0 <= y < rows && 0 <= x < columns ==>
              && m1[y][x] in n1 && m2[y][x] in n2 && n2[m2[y][x]] == n1[m1[y][x]]
              && (KeptByReset(n1[m1[y][x]].kind) ==> m2[y][x] == m1[y][x])
  {
    forall y, x | 0 <= y < rows && 0 <= x < columns
      ensures && m1[y][x] in n1 && m2[y][x] in n2 && n2[m2[y][x]] == n1[m1[y][x]]
              && (KeptByReset(n1[m1[y][x]].kind) ==> m2[y][x] == m1[y][x])
    {
      assert ResetCell(m0, n0, m1, n1, y, x) && ResetCell(m1, n1, m2, n2, y, x);
      ResetNodeIdempotent(n0[m0[y][x]]);
    }
  }

  /** The loops of `reset`: every cell whose node is not START, TARGET or WALL gets a fresh
      DEFAULT node at the same position, allocated with ids from `nextId` on. */
  method ResetBoard(m0: seq<seq<NodeId>>, n0: map<NodeId, Node>, nextId: nat, columns: nat, rows: nat)
    returns (matrix: seq<seq<NodeId>>, nodes: map<NodeId, Node>, nextId': nat)
    requires MatrixOk(m0, n0, columns, rows) && NodesOk(n0) && forall id :: id in n0 ==> id < nextId
    ensures IsResetOf(m0, n0, matrix, nodes, columns, rows)
    ensures NodesOk(nodes) && forall id :: id in nodes ==> id < nextId'
  {
    matrix, nodes, nextId' := m0, n0, nextId;
    var y := 0;
    while y < rows
      invariant 0 <= y <= rows
      invariant |matrix| == rows && forall yy :: 0 <= yy < rows ==> |matrix[yy]| == columns
      invariant forall id :: id in n0 ==> id in nodes && nodes[id] == n0[id]
      invariant NodesOk(nodes) && forall id :: id in nodes ==> id < nextId'
      invariant forall yy, xx :: 0 <= yy < rows && 0 <= xx < columns ==>
                  if yy < y then ResetCell(m0, n0, matrix, nodes, yy, xx) else matrix[yy][xx] == m0[yy][xx]
    {
      matrix, nodes, nextId' := ResetRow(m0, n0, columns, rows, y, matrix, nodes, nextId');
      y := y + 1;
    }
  }

  /** The inner loop of `reset`, over row `y`. */
  method ResetRow(m0: seq<seq<NodeId>>, n0: map<NodeId, Node>, columns: nat, rows: nat, y: nat,
                  m1: seq<seq<NodeId>>, n1: map<NodeId, Node>, next1: nat)
    returns (matrix: seq<seq<NodeId>>, nodes: map<NodeId, Node>, nextId': nat)
    requires MatrixOk(m0, n0, columns, rows) && y < rows
    requires |m1| == rows && forall yy :: 0 <= yy < rows ==> |m1[yy]| == columns
    requires forall id :: id in n0 ==> id in n1 && n1[id] == n0[id]
    requires NodesOk(n1) && forall id :: id in n1 ==> id < next1
    requires forall yy, xx :: 0 <= yy < rows && 0 <= xx < columns ==>
               if yy < y then ResetCell(m0, n0, m1, n1, yy, xx) else m1[yy][xx] == m0[yy][xx]
    ensures |matrix| == rows && forall yy :: 0 <= yy < rows ==> |matrix[yy]| == columns
    ensures forall id :: id in n0 ==> id in nodes && nodes[id] == n0[id]
    ensures NodesOk(nodes) && forall id :: id in nodes ==> id < nextId'
    ensures forall yy, xx :: 0 <= yy < rows && 0 <= xx < columns ==>
              if yy <= y then ResetCell(m0, n0, matrix, nodes, yy, xx) else matrix[yy][xx] == m0[yy][xx]
  {
    matrix, nodes, nextId' := m1, n1, next1;
    var x := 0;
    while x < columns
      invariant 0 <= x <= columns
      invariant |matrix| == rows && forall yy :: 0 <= yy < rows ==> |matrix[yy]| == columns
      invariant forall id :: id in n0 ==> id in nodes && nodes[id] == n0[id]
      invariant NodesOk(nodes) && forall id :: id in nodes ==> id < nextId'
      invariant forall yy, xx :: 0 <= yy < rows && 0 <= xx < columns ==>
                  if yy < y || (yy == y && xx < x) then ResetCell(m0, n0, matrix, nodes, yy, xx)
                  else matrix[yy][xx] == m0[yy][xx]
    {
      var node := nodes[matrix[y][x]];
      if !KeptByReset(node.kind) {
        nodes := nodes[nextId' := FreshNode(node.pos, Default)];
        var row: seq<NodeId> := matrix[y][x := nextId'];
        matrix := matrix[y := row];
        nextId' := nextId' + 1;
      }
      x := x + 1;
    }
  }

  /** `reset` keeps the board well formed, with the same START and TARGET nodes. */
  lemma ResetKeepsBoard(m0: seq<seq<NodeId>>, n0: map<NodeId, Node>, nextId: nat, columns: nat, rows: nat,
                        startNode: NodeId, targetNode: NodeId,
                        matrix: seq<seq<NodeId>>, nodes: map<NodeId, Node>, nextId': nat)
    requires BoardOk(m0, n0, nextId, columns, rows, startNode, targetNode)
    requires IsResetOf(m0, n0, matrix, nodes, columns, rows)
    requires NodesOk(nodes) && forall id :: id in nodes ==> id < nextId'
    ensures BoardOk(matrix, nodes, nextId', columns, rows, startNode, targetNode)
  {
    assert MatrixOk(matrix, nodes, columns, rows) by {
      forall y, x | 0 <= y < rows && 0 <= x < columns
        ensures matrix[y][x] in nodes && nodes[matrix[y][x]].pos == Pos(x, y)
      {
        assert ResetCell(m0, n0, matrix, nodes, y, x);
      }
    }
    forall y, x | 0 <= y < rows && 0 <= x < columns
      ensures && (nodes[matrix[y][x]].kind == Start <==> matrix[y][x] == startNode)
              && (nodes[matrix[y][x]].kind == Target <==> matrix[y][x] == targetNode)
    {
      assert ResetCell(m0, n0, matrix, nodes, y, x);
    }
    var s, t := n0[startNode].pos, n0[targetNode].pos;
    assert ResetCell(m0, n0, matrix, nodes, s.y, s.x);
    assert ResetCell(m0, n0, matrix, nodes, t.y, t.x);
  }

  class Grid {
    // The configuration (`COLUMNS`, `ROWS`, `START_NODE_X/Y`, `TARGET_NODE_X/Y`, `CAN_GO_DIAGONAL`).
    const columns: nat
    const rows: nat
    const startPos: Pos
    const targetPos: Pos
    const diagonal: bool

    /** Every `Node` object created so far, by identity; the next identity to hand out. */
    var nodes: map<NodeId, Node>
    var nextId: nat

    var matrix: seq<seq<NodeId>>
    var startNode: NodeId
    var targetNode: NodeId
    var open: set<NodeId>
    var closed: set<NodeId>
    var current: Option<NodeId>
    var path: seq<NodeId>
    var state: GridState

    /** The class invariant: a sensible configuration, a well-formed board, a consistent
        search state. */
    ghost predicate Valid()
      reads this`matrix, this`nodes, this`nextId, this`startNode, this`targetNode
      reads this`open, this`closed, this`current, this`path
    {
      GridOk(columns, rows, startPos, targetPos, matrix, nodes, nextId, startNode, targetNode, open, closed, current, path)
    }

    /** A new board (`NewBoardOf`) with no search state. */
    ghost predicate IsNewBoard(n0: map<NodeId, Node>)
      reads this
    {
      && NewBoardOf(n0, matrix, nodes, startNode, targetNode, columns, rows, startPos, targetPos)
      && open == {} && closed == {} && current == None && path == []
    }

    /** `__init__`: a new board in the IDLE state. */
    constructor (columns: nat, rows: nat, startPos: Pos, targetPos: Pos, diagonal: bool)
      requires InBounds(startPos, columns, rows) && InBounds(targetPos, columns, rows) && startPos != targetPos
      ensures Valid()
      ensures this.columns == columns && this.rows == rows && this.diagonal == diagonal
      ensures this.startPos == startPos && this.targetPos == targetPos
      ensures IsNewBoard(map[]) && state == Idle
    {
      this.columns, this.rows, this.diagonal := columns, rows, diagonal;
      this.startPos, this.targetPos := startPos, targetPos;
      var m, ns, next, s, t := NewBoard(columns, rows, startPos, targetPos, map[], 0);
      matrix, nodes, nextId, startNode, targetNode := m, ns, next, s, t;
      open, closed, current := {}, {}, None;
      path := [];
      state := Idle;
    }

    /** The node in the cell at an in-bounds position. */
    function CellAt(p: Pos): NodeId
      reads this
      requires MatrixOk(matrix, nodes, columns, rows) && InBounds(p, columns, rows)
    {
      matrix[p.y][p.x]
    }

    /** `get_neighbors` on this board. */
    function GetNeighbors(id: NodeId): seq<NodeId>
      reads this
      requires MatrixOk(matrix, nodes, columns, rows) && id in nodes
    {
      NeighborCells(matrix, nodes, columns, rows, diagonal, nodes[id].pos)
    }

    /** Stores a new board that satisfies the invariant with the current search state. */
    method SetBoard(matrix: seq<seq<NodeId>>, nodes: map<NodeId, Node>, nextId: nat, startNode: NodeId, targetNode: NodeId)
      requires GridOk(columns, rows, startPos, targetPos, matrix, nodes, nextId, startNode, targetNode, open, closed, current, path)
      modifies this`matrix, this`nodes, this`nextId, this`startNode, this`targetNode
      ensures this.matrix == matrix && this.nodes == nodes && this.nextId == nextId
      ensures this.startNode == startNode && this.targetNode == targetNode
      ensures Valid()
    {
      this.matrix, this.nodes, this.nextId, this.startNode, this.targetNode := matrix, nodes, nextId, startNode, targetNode;
    }

    /** Stores a new search state that satisfies the invariant with the current board. */
    method SetSearch(nodes: map<NodeId, Node>, open: set<NodeId>, closed: set<NodeId>, current: Option<NodeId>, path: seq<NodeId>)
      requires GridOk(columns, rows, startPos, targetPos, matrix, nodes, nextId, startNode, targetNode, open, closed, current, path)
      modifies this`nodes, this`open, this`closed, this`current, this`path
      ensures this.nodes == nodes && this.open == open && this.closed == closed && this.current == current && this.path == path
      ensures Valid()
    {
      this.nodes, this.open, this.closed, this.current, this.path := nodes, open, closed, current, path;
    }

    /** `set_current_node`: `current` becomes an open node that no open node beats on
        (f cost, h cost). An empty open set raises in the source; callers check first.
        `FindPath` does the same step on values, through `SelectLowest` in `ExpandOnce`. */
    method SetCurrentNode()
      requires open != {} && open <= nodes.Keys
      modifies this`current
      ensures current.Some? && IsLowest(current.value, open, nodes)
    {
      var c := SelectLowest(open, nodes);
      current := Some(c);
    }

    /** `add_to_open`: the node joins the open set, drawn OPEN unless it is START or TARGET.
        `FindPath` does the same step on values, as `Relax` does with `OpenedKind`. */
    method AddToOpen(id: NodeId)
      requires id in nodes
      modifies this`nodes, this`open
      ensures nodes == old(nodes)[id := old(nodes)[id].(kind := OpenedKind(old(nodes)[id].kind))]
      ensures open == old(open) + {id}
    {
      if !IsEndpoint(nodes[id].kind) {
        nodes := nodes[id := nodes[id].(kind := Open)];
      }
      open := open + {id};
    }

    /** `add_to_closed`: the node joins the closed set, drawn CLOSED unless it is START or
        TARGET. `FindPath` does the same step on values, as `ExpandNode` does with `ClosedKind`. */
    method AddToClosed(id: NodeId)
      requires id in nodes
      modifies this`nodes, this`closed
      ensures nodes == old(nodes)[id := old(nodes)[id].(kind := ClosedKind(old(nodes)[id].kind))]
      ensures closed == old(closed) + {id}
    {
      if !IsEndpoint(nodes[id].kind) {
        nodes := nodes[id := nodes[id].(kind := Closed)];
      }
      closed := closed + {id};
    }

    /** `add_node_and_parent_to_path`: appends `id` and its ancestors, as long as they have a
        parent, to `path`. If the parent links loop back, the source recurses without end;
        the model stops at the first repeated node and reports `cyclic`. */
    method AddNodeAndParentToPath(id: NodeId) returns (cyclic: bool)
      requires NodesOk(nodes) && id in nodes
      modifies this`path
      ensures cyclic <==> ParentChain(nodes, id, {}).None?
      ensures path == if cyclic then old(path) else old(path) + ParentChain(nodes, id, {}).value
    {
      var chain;
      chain, cyclic := ParentPath(nodes, id);
      if !cyclic {
        path := path + chain;
      }
    }

    /** What one `find_path` call does, relative to the state before it. The start node is
        put in the open set if no node has been expanded yet. If the open set is then empty,
        the search is FINISHED and nothing else changes; otherwise one node is expanded. */
    ghost predicate ExpandedFrom(n0: map<NodeId, Node>, open0: set<NodeId>, closed0: set<NodeId>,
                                 current0: Option<NodeId>, path0: seq<NodeId>, state0: GridState, cyclic: bool)
      reads this
    {
      var seeded := if current0.None? then open0 + {startNode} else open0;
      if seeded == {} then
        && state == Finished && nodes == n0 && open == open0 && closed == closed0
        && current == current0 && path == path0 && !cyclic
      else
        && state == state0
        && ExpandedOnce(matrix, columns, rows, diagonal, Euclidean, targetNode, n0, seeded, closed0, path0,
                        nodes, open, closed, current, path, cyclic)
    }

    /** `find_path`: one A* step. */
    method FindPath() returns (cyclic: bool)
      requires Valid()
      modifies this`nodes, this`open, this`closed, this`current, this`path, this`state
      ensures Valid()
      ensures ExpandedFrom(old(nodes), old(open), old(closed), old(current), old(path), old(state), cyclic)
      ensures current.Some? ==> current.value in closed && current.value !in open
      ensures matrix == old(matrix) && nextId == old(nextId)
      ensures startNode == old(startNode) && targetNode == old(targetNode)
      ensures (state == Finished && closed == old(closed)) || |closed| == |old(closed)| + 1
      ensures |closed| <= columns * rows
    {
      var open0 := open;
      if current.None? {
        StartOnBoard(matrix, nodes, nextId, columns, rows, startNode, targetNode);
        open0 := open0 + {startNode};
      }
      if open0 == {} {
        state := Finished;
        ClosedBounded(matrix, columns, rows, closed);
        return false;
      }
      var e, c := ExpandOnce(columns, rows, startPos, targetPos, diagonal, Euclidean, matrix, nodes, nextId, startNode, targetNode,
                             open0, closed, current, path);
      SetSearch(e.nodes, e.open, closed + {c}, Some(c), e.path);
      cyclic := e.cyclic;
    }

    /** What `reveal_path` does: the last path node is removed from the path and drawn as
        PATH unless it is START or TARGET; popping the TARGET finishes the search. The open
        and closed sets and the current node stay as they were. */
    ghost predicate RevealedFrom(n0: map<NodeId, Node>, open0: set<NodeId>, closed0: set<NodeId>, current0: Option<NodeId>,
                                 path0: seq<NodeId>, state0: GridState)
      reads this
    {
      && open == open0 && closed == closed0 && current == current0
      && path0 != [] && path0[|path0| - 1] in n0
      && var id := path0[|path0| - 1];
         && path == path0[..|path0| - 1]
         && nodes == n0[id := n0[id].(kind := RevealedKind(n0[id].kind))]
         && state == (if n0[id].kind == Target then Finished else state0)
    }

    /** `reveal_path`: pops one node off the path. Popping an empty path raises in the
        source; the driver only calls this with a non-empty path. */
    method RevealPath()
      requires Valid() && path != []
      modifies this`nodes, this`open, this`closed, this`current, this`path, this`state
      ensures Valid()
      ensures RevealedFrom(old(nodes), old(open), old(closed), old(current), old(path), old(state))
    {
      var id := path[|path| - 1];
      var n1: map<NodeId, Node> := nodes[id := nodes[id].(kind := RevealedKind(nodes[id].kind))];
      RevealKeepsInvariant(matrix, nodes, nextId, columns, rows, startNode, targetNode, open, closed, current, path);
      if n1[id].kind == Target {
        state := Finished;
      }
      SetSearch(n1, open, closed, current, path[..|path| - 1]);
    }

    /** What `reset` does, relative to the board before it (`m0`, `n0`, `start0`, `target0`):
        the drawing kept as `IsResetOf` says, the same START and TARGET nodes, no search
        state, FINISHED. */
    ghost predicate ResetFrom(m0: seq<seq<NodeId>>, n0: map<NodeId, Node>, start0: NodeId, target0: NodeId)
      reads this
    {
      && IsResetOf(m0, n0, matrix, nodes, columns, rows)
      && startNode == start0 && targetNode == target0
      && open == {} && closed == {} && current == None && path == [] && state == Finished
    }

    /** `reset`: keeps the drawing (START, TARGET, WALL nodes, stale costs and parents
        included), replaces every other cell with a fresh DEFAULT node and drops the search. */
    method Reset()
      requires Valid()
      modifies this
      ensures Valid()
      ensures ResetFrom(old(matrix), old(nodes), old(startNode), old(targetNode))
    {
      var m, ns, next := ResetBoard(matrix, nodes, nextId, columns, rows);
      ResetKeepsBoard(matrix, nodes, nextId, columns, rows, startNode, targetNode, m, ns, next);
      state := Finished;
      SetSearch(nodes, {}, {}, None, []);
      SetBoard(m, ns, next, startNode, targetNode);
    }

    /** What `clear` does: a new board (nodes in `n0` kept aside), FINISHED. */
    ghost predicate ClearedFrom(n0: map<NodeId, Node>)
      reads this
    {
      IsNewBoard(n0) && state == Finished
    }

    /** `clear`: a new board, FINISHED. */
    method Clear()
      requires Valid()
      modifies this
      ensures Valid()
      ensures ClearedFrom(old(nodes))
    {
      var m, ns, next, s, t := NewBoard(columns, rows, startPos, targetPos, nodes, nextId);
      state := Finished;
      SetSearch(nodes, {}, {}, None, []);
      SetBoard(m, ns, next, s, t);
    }
  }
}
