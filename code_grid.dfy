/**
 * The second engine (`code/grid.py`): the same grid and the same A* step as the
 * root engine, with the integer octile distance, a `run` flag in place of the
 * state machine, no guard against an empty open set, and a `reset` that builds
 * a whole new board (walls included are wiped).
 */
module OctileGrid {
  import opened Geometry
  import opened Nodes
  import opened Search

  class Grid {
    // The configuration (`COLUMNS`, `ROWS`, `START_NODE_X/Y`, `TARGET_NODE_X/Y`, `CAN_GO_DIAGONAL`).
    const columns: nat
    const rows: nat
    const startPos: Pos
    const targetPos: Pos
    const diagonal: bool

    /** Every `Node` object created so far, by identity; the next identity to hand out. */
    var nodes: map<NodeId, Node>
    var nextId: nat

    var matrix: seq<seq<NodeId>>
    var startNode: NodeId
    var targetNode: NodeId
    var open: set<NodeId>
    var closed: set<NodeId>
    var current: Option<NodeId>
    var path: seq<NodeId>
    /** `run`: `Some(false)` and `Some(true)` are Python's False and True, `None` is None. */
    var run: Option<bool>

    /** The class invariant: a sensible configuration, a well-formed board, a consistent
        search state. */
    ghost predicate Valid()
      reads this`matrix, this`nodes, this`nextId, this`startNode, this`targetNode
      reads this`open, this`closed, this`current, this`path
    {
      GridOk(columns, rows, startPos, targetPos, matrix, nodes, nextId, startNode, targetNode, open, closed, current, path)
    }

    /** A new board (`NewBoardOf`) with no search state. */
    ghost predicate IsNewBoard(n0: map<NodeId, Node>)
      reads this
    {
      && NewBoardOf(n0, matrix, nodes, startNode, targetNode, columns, rows, startPos, targetPos)
      && open == {} && closed == {} && current == None && path == []
    }

    /** `__init__`: a new board, `run` False. */
    constructor (columns: nat, rows: nat, startPos: Pos, targetPos: Pos, diagonal: bool)
      requires InBounds(startPos, columns, rows) && InBounds(targetPos, columns, rows) && startPos != targetPos
      ensures Valid()
      ensures this.columns == columns && this.rows == rows && this.diagonal == diagonal
      ensures this.startPos == startPos && this.targetPos == targetPos
      ensures IsNewBoard(map[]) && run == Some(false)
    {
      this.columns, this.rows, this.diagonal := columns, rows, diagonal;
      this.startPos, this.targetPos := startPos, targetPos;
      var m, ns, next, s, t := NewBoard(columns, rows, startPos, targetPos, map[], 0);
      matrix, nodes, nextId, startNode, targetNode := m, ns, next, s, t;
      open, closed, current := {}, {}, None;
      path := [];
      run := Some(false);
    }

    /** Stores a new board that satisfies the invariant with the current search state. */
    method SetBoard(matrix: seq<seq<NodeId>>, nodes: map<NodeId, Node>, nextId: nat, startNode: NodeId, targetNode: NodeId)
      requires GridOk(columns, rows, startPos, targetPos, matrix, nodes, nextId, startNode, targetNode, open, closed, current, path)
      modifies this`matrix, this`nodes, this`nextId, this`startNode, this`targetNode
      ensures this.matrix == matrix && this.nodes == nodes && this.nextId == nextId
      ensures this.startNode == startNode && this.targetNode == targetNode
      ensures Valid()
    {
      this.matrix, this.nodes, this.nextId, this.startNode, this.targetNode := matrix, nodes, nextId, startNode, targetNode;
    }

    /** Stores a new search state that satisfies the invariant with the current board. */
    method SetSearch(nodes: map<NodeId, Node>, open: set<NodeId>, closed: set<NodeId>, current: Option<NodeId>, path: seq<NodeId>)
      requires GridOk(columns, rows, startPos, targetPos, matrix, nodes, nextId, startNode, targetNode, open, closed, current, path)
      modifies this`nodes, this`open, this`closed, this`current, this`path
      ensures this.nodes == nodes && this.open == open && this.closed == closed && this.current == current && this.path == path
      ensures Valid()
    {
      this.nodes, this.open, this.closed, this.current, this.path := nodes, open, closed, current, path;
    }

    /** `find_path`: one A* step with the octile distance. The source has no guard: with no
        node expanded yet the start node is added to the open set, and an open set that is
        still empty makes `set_current_node` raise, so callers must not let that happen. */
    method FindPath() returns (cyclic: bool)
      requires Valid()
      requires current.None? || open != {}
      modifies this`nodes, this`open, this`closed, this`current, this`path
      ensures Valid()
      ensures ExpandedOnce(matrix, columns, rows, diagonal, Octile, targetNode, old(nodes),
                           if old(current).None? then old(open) + {startNode} else old(open),
                           old(closed), old(path), nodes, open, closed, current, path, cyclic)
      ensures current.Some? && current.value in closed && current.value !in open
      ensures |closed| == |old(closed)| + 1 && |closed| <= columns * rows
    {
      var open0 := open;
      if current.None? {
        StartOnBoard(matrix, nodes, nextId, columns, rows, startNode, targetNode);
        open0 := open0 + {startNode};
      }
      var e, c := ExpandOnce(columns, rows, startPos, targetPos, diagonal, Octile, matrix, nodes, nextId, startNode, targetNode,
                             open0, closed, current, path);
      SetSearch(e.nodes, e.open, closed + {c}, Some(c), e.path);
      cyclic := e.cyclic;
    }

    /** `reveal_path`: pops the last node off the path and draws it as PATH unless it is START
        or TARGET; popping the TARGET sets `run` to None. Popping an empty path raises in the
        source. */
    method RevealPath()
      requires Valid() && path != []
      modifies this`nodes, this`open, this`closed, this`current, this`path, this`run
      ensures Valid()
      ensures var id := old(path)[|old(path)| - 1];
              && id in old(nodes)
              && path == old(path)[..|old(path)| - 1]
              && nodes == old(nodes)[id := old(nodes)[id].(kind := RevealedKind(old(nodes)[id].kind))]
              && open == old(open) && closed == old(closed) && current == old(current)
              && run == (if old(nodes)[id].kind == Target then None else old(run))
    {
      var id := path[|path| - 1];
      var n1: map<NodeId, Node> := nodes[id := nodes[id].(kind := RevealedKind(nodes[id].kind))];
      RevealKeepsInvariant(matrix, nodes, nextId, columns, rows, startNode, targetNode, open, closed, current, path);
      if n1[id].kind == Target {
        run := None;
      }
      SetSearch(n1, open, closed, current, path[..|path| - 1]);
    }

    /** `reset`: a whole new board, as `__init__` builds it, with `run` False. */
    method Reset()
      requires Valid()
      modifies this
      ensures Valid()
      ensures IsNewBoard(old(nodes)) && run == Some(false)
    {
      var m, ns, next, s, t := NewBoard(columns, rows, startPos, targetPos, nodes, nextId);
      run := Some(false);
      SetSearch(nodes, {}, {}, None, []);
      SetBoard(m, ns, next, s, t);
    }
  }
}
