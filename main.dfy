/**
 * The per-frame driver of `code/main.py`, run against the root engine (the
 * driver uses `GridState` and `clear`, which only the root engine has). Mouse
 * polling is replaced by parameters: the tool whose button was clicked, if any,
 * and the in-bounds cell under the pressed mouse, if any.
 */
module Driver {
  import opened Geometry
  import opened Nodes
  import opened Search
  import opened AStarGrid

  /** `ToolType` without its image. */
  datatype ToolType = StartTool | TargetTool | WallTool | EraseTool | ResetTool | ClearTool | PauseTool | PlayTool

  /** The tools in the order of the toolbar, which is the order `ToolType` declares them in. */
  const Tools: seq<ToolType> := [StartTool, TargetTool, WallTool, EraseTool, ResetTool, ClearTool, PauseTool, PlayTool]

  /** `ToolBar`, reduced to its selected tool. */
  class ToolBar {
    var currentTool: ToolType

    /** The toolbar starts with its fourth tool, ERASE, selected. */
    constructor ()
      ensures currentTool == EraseTool
    {
      currentTool := Tools[3];
    }
  }

  /** The part of a grid the drawing tools change: the nodes, and which of them are the
      START and the TARGET node. */
  datatype Board = Board(nodes: map<NodeId, Node>, startNode: NodeId, targetNode: NodeId)

  /** The node `id` drawn as `k`. */
  function Redrawn(nodes: map<NodeId, Node>, id: NodeId, k: NodeType): map<NodeId, Node>
    requires id in nodes
  {
    nodes[id := nodes[id].(kind := k)]
  }

  /** What `update_grid` does to the board when the cell holding node `id` is clicked with
      `tool`. Only the clicked node and the previous START or TARGET node change, and only in
      how they are drawn. */
  function Paint(tool: ToolType, b: Board, id: NodeId): (r: Board)
    requires id in b.nodes && b.startNode in b.nodes && b.targetNode in b.nodes
    ensures r.nodes.Keys == b.nodes.Keys
    ensures forall x :: x in b.nodes ==> r.nodes[x] == b.nodes[x].(kind := r.nodes[x].kind)
    ensures forall x :: x in b.nodes && x != id && x != b.startNode && x != b.targetNode ==> r.nodes[x] == b.nodes[x]
  {
    var k := b.nodes[id].kind;
    match tool
    case EraseTool => if k == Wall then b.(nodes := Redrawn(b.nodes, id, Default)) else b
    case WallTool => if k == Default then b.(nodes := Redrawn(b.nodes, id, Wall)) else b
    case StartTool =>
      if k == Default || k == Wall then
        Board(Redrawn(Redrawn(b.nodes, b.startNode, Default), id, Start), id, b.targetNode)
      else b
    case TargetTool =>
      if k == Default || k == Wall then
        Board(Redrawn(Redrawn(b.nodes, b.targetNode, Default), id, Target), b.startNode, id)
      else b
    case _ => b
  }

  /** The drawing rules. ERASE turns a WALL into DEFAULT, WALL turns a DEFAULT into a WALL,
      and neither changes anything else. START (TARGET) on a DEFAULT or WALL cell turns the
      previous START (TARGET) into DEFAULT and makes the clicked node the START (TARGET);
      on any other cell, START, TARGET and every other tool change nothing. */
  lemma PaintRules(tool: ToolType, b: Board, id: NodeId)
    requires id in b.nodes && b.startNode in b.nodes && b.targetNode in b.nodes
    requires b.nodes[b.startNode].kind == Start && b.nodes[b.targetNode].kind == Target
    ensures var r, k := Paint(tool, b, id), b.nodes[id].kind;
            && (tool == EraseTool ==> r == b.(nodes := r.nodes) && r.nodes[id].kind == (if k == Wall then Default else k))
            && (tool == WallTool ==> r == b.(nodes := r.nodes) && r.nodes[id].kind == (if k == Default then Wall else k))
            && (tool == StartTool && (k == Default || k == Wall) ==>
                  && r.startNode == id && r.targetNode == b.targetNode
                  && r.nodes[id].kind == Start && r.nodes[b.startNode].kind == Default
                  && r.nodes[b.targetNode] == b.nodes[b.targetNode])
            && (tool == TargetTool && (k == Default || k == Wall) ==>
                  && r.targetNode == id && r.startNode == b.startNode
                  && r.nodes[id].kind == Target && r.nodes[b.targetNode].kind == Default
                  && r.nodes[b.startNode] == b.nodes[b.startNode])
            && (tool in {StartTool, TargetTool} && k != Default && k != Wall ==> r == b)
            && (tool in {ResetTool, ClearTool, PauseTool, PlayTool} ==> r == b)
  {
  }

  /** Redrawing nodes keeps every node well costed and every parent in the arena. */
  lemma RedrawnKeepsNodes(nodes: map<NodeId, Node>, id: NodeId, k: NodeType)
    requires NodesOk(nodes) && id in nodes
    ensures NodesOk(Redrawn(nodes, id, k)) && Redrawn(nodes, id, k).Keys == nodes.Keys
  {
  }

  /** Moving START from node `s` to the node `id` of a DEFAULT or WALL cell keeps exactly one
      START cell and one TARGET cell. */
  lemma MoveStartKeepsBoard(matrix: seq<seq<NodeId>>, nodes: map<NodeId, Node>, nextId: nat, columns: nat, rows: nat,
                            s: NodeId, t: NodeId, p: Pos)
    requires BoardOk(matrix, nodes, nextId, columns, rows, s, t) && InBounds(p, columns, rows)
    requires var id := matrix[p.y][p.x]; nodes[id].kind == Default || nodes[id].kind == Wall
    ensures var id := matrix[p.y][p.x];
            BoardOk(matrix, Redrawn(Redrawn(nodes, s, Default), id, Start), nextId, columns, rows, id, t)
  {
    var id := matrix[p.y][p.x];
    var n1 := Redrawn(nodes, s, Default);
    RedrawnKeepsNodes(nodes, s, Default);
    RedrawnKeepsNodes(n1, id, Start);
    var n2 := Redrawn(n1, id, Start);
    assert nodes[s].kind == Start && nodes[t].kind == Target;
    forall y, x | 0 <= y < rows && 0 <= x < columns
      ensures && (n2[matrix[y][x]].kind == Start <==> matrix[y][x] == id)
              && (n2[matrix[y][x]].kind == Target <==> matrix[y][x] == t)
    {
      var c := matrix[y][x];
      assert nodes[c].kind == Start <==> c == s;
    }
    assert n2[id].pos == nodes[id].pos;
  }

  /** Moving TARGET from node `t` to the node `id` of a DEFAULT or WALL cell keeps exactly one
      START cell and one TARGET cell. */
  lemma MoveTargetKeepsBoard(matrix: seq<seq<NodeId>>, nodes: map<NodeId, Node>, nextId: nat, columns: nat, rows: nat,
                             s: NodeId, t: NodeId, p: Pos)
    requires BoardOk(matrix, nodes, nextId, columns, rows, s, t) && InBounds(p, columns, rows)
    requires var id := matrix[p.y][p.x]; nodes[id].kind == Default || nodes[id].kind == Wall
    ensures var id := matrix[p.y][p.x];
            BoardOk(matrix, Redrawn(Redrawn(nodes, t, Default), id, Target), nextId, columns, rows, s, id)
  {
    var id := matrix[p.y][p.x];
    var n1 := Redrawn(nodes, t, Default);
    RedrawnKeepsNodes(nodes, t, Default);
    RedrawnKeepsNodes(n1, id, Target);
    var n2 := Redrawn(n1, id, Target);
    assert nodes[s].kind == Start && nodes[t].kind == Target;
    forall y, x | 0 <= y < rows && 0 <= x < columns
      ensures && (n2[matrix[y][x]].kind == Start <==> matrix[y][x] == s)
              && (n2[matrix[y][x]].kind == Target <==> matrix[y][x] == id)
    {
      var c := matrix[y][x];
      assert nodes[c].kind == Target <==> c == t;
    }
    assert n2[id].pos == nodes[id].pos;
  }

  /** Painting keeps the board well formed: exactly one START cell, which is the start node,
      and exactly one TARGET cell, which is the target node. */
  lemma PaintKeepsBoard(tool: ToolType, matrix: seq<seq<NodeId>>, b: Board, nextId: nat, columns: nat, rows: nat, p: Pos)
    requires BoardOk(matrix, b.nodes, nextId, columns, rows, b.startNode, b.targetNode)
    requires InBounds(p, columns, rows)
    ensures var r := Paint(tool, b, matrix[p.y][p.x]);
            BoardOk(matrix, r.nodes, nextId, columns, rows, r.startNode, r.targetNode)
  {
    var id := matrix[p.y][p.x];
    var k := b.nodes[id].kind;
    if (tool == EraseTool && k == Wall) || (tool == WallTool && k == Default) {
      var k' := if k == Wall then Default else Wall;
      Redraw(matrix, b.nodes, columns, rows, b.startNode, b.targetNode, id, k');
      assert Paint(tool, b, id).nodes == Redrawn(b.nodes, id, k');
    } else if tool == StartTool && (k == Default || k == Wall) {
      MoveStartKeepsBoard(matrix, b.nodes, nextId, columns, rows, b.startNode, b.targetNode, p);
    } else if tool == TargetTool && (k == Default || k == Wall) {
      MoveTargetKeepsBoard(matrix, b.nodes, nextId, columns, rows, b.startNode, b.targetNode, p);
    }
  }

  /** Painting keeps the invariant of a grid; the search state is left as it is. */
  lemma PaintKeepsGrid(tool: ToolType, columns: nat, rows: nat, startPos: Pos, targetPos: Pos,
                       matrix: seq<seq<NodeId>>, b: Board, nextId: nat,
                       open: set<NodeId>, closed: set<NodeId>, current: Option<NodeId>, path: seq<NodeId>, p: Pos)
    requires GridOk(columns, rows, startPos, targetPos, matrix, b.nodes, nextId, b.startNode, b.targetNode, open, closed, current, path)
    requires InBounds(p, columns, rows)
    ensures var r := Paint(tool, b, matrix[p.y][p.x]);
            GridOk(columns, rows, startPos, targetPos, matrix, r.nodes, nextId, r.startNode, r.targetNode, open, closed, current, path)
  {
    PaintKeepsBoard(tool, matrix, b, nextId, columns, rows, p);
  }

  /** The per-frame step of `main`: one `reveal_path` if the path is not empty, otherwise one
      `find_path` if the grid is RUNNING, otherwise nothing. `cyclic` is what `find_path`
      reports, and false when it is not called. */
  method Frame(grid: Grid) returns (cyclic: bool)
    requires grid.Valid()
    modifies grid`nodes, grid`open, grid`closed, grid`current, grid`path, grid`state
    ensures grid.Valid()
    ensures grid.matrix == old(grid.matrix) && grid.nextId == old(grid.nextId)
    ensures grid.startNode == old(grid.startNode) && grid.targetNode == old(grid.targetNode)
    ensures old(grid.path) != [] ==>
              grid.RevealedFrom(old(grid.nodes), old(grid.open), old(grid.closed), old(grid.current), old(grid.path), old(grid.state))
              && !cyclic
    ensures old(grid.path) == [] && old(grid.state) == Running ==>
              grid.ExpandedFrom(old(grid.nodes), old(grid.open), old(grid.closed), old(grid.current), old(grid.path),
                                old(grid.state), cyclic)
    ensures old(grid.path) == [] && old(grid.state) != Running ==> unchanged(grid) && !cyclic
  {
    cyclic := false;
    if grid.path != [] {
      grid.RevealPath();
    } else if grid.state == Running {
      cyclic := grid.FindPath();
    }
  }

  /** `use_tool`: a click on a tool button selects that tool; RESET resets the grid, CLEAR
      clears it, PAUSE makes it IDLE and PLAY makes it RUNNING, and the other tools change
      nothing but the selection. A click beside the buttons does nothing. */
  method UseTool(toolbar: ToolBar, grid: Grid, clicked: Option<ToolType>)
    requires grid.Valid()
    modifies toolbar, grid
    ensures grid.Valid()
    ensures clicked.None? ==> unchanged(toolbar) && unchanged(grid)
    ensures clicked.Some? ==> toolbar.currentTool == clicked.value
    ensures clicked == Some(ResetTool) ==>
              grid.ResetFrom(old(grid.matrix), old(grid.nodes), old(grid.startNode), old(grid.targetNode))
    ensures clicked == Some(ClearTool) ==> grid.ClearedFrom(old(grid.nodes))
    ensures clicked == Some(PauseTool) || clicked == Some(PlayTool) ==>
              && grid.state == (if clicked == Some(PauseTool) then Idle else Running)
              && unchanged(grid`matrix, grid`nodes, grid`nextId, grid`startNode, grid`targetNode)
              && unchanged(grid`open, grid`closed, grid`current, grid`path)
    ensures clicked.Some? && clicked.value in {StartTool, TargetTool, WallTool, EraseTool} ==> unchanged(grid)
  {
    if clicked.None? {
      return;
    }
    toolbar.currentTool := clicked.value;
    match toolbar.currentTool
    case ResetTool => grid.Reset();
    case ClearTool => grid.Clear();
    case PauseTool => grid.state := Idle;
    case PlayTool => grid.state := Running;
    case _ =>
  }

  /** `update_grid`: with the mouse pressed over the cell at `clicked`, the selected tool
      paints that cell as `Paint` says; with the mouse elsewhere nothing changes. The matrix,
      the search state and the grid's state are never touched. */
  method UpdateGrid(toolbar: ToolBar, grid: Grid, clicked: Option<Pos>)
    requires grid.Valid()
    requires clicked.Some? ==> InBounds(clicked.value, grid.columns, grid.rows)
    modifies grid`matrix, grid`nodes, grid`nextId, grid`startNode, grid`targetNode
    ensures grid.Valid()
    ensures clicked.None? ==> unchanged(grid)
    ensures clicked.Some? ==>
              Board(grid.nodes, grid.startNode, grid.targetNode)
              == Paint(toolbar.currentTool, Board(old(grid.nodes), old(grid.startNode), old(grid.targetNode)),
                       old(grid.matrix)[clicked.value.y][clicked.value.x])
    ensures grid.matrix == old(grid.matrix) && grid.nextId == old(grid.nextId)
  {
    if clicked.None? {
      return;
    }
    var p := clicked.value;
    var b := Board(grid.nodes, grid.startNode, grid.targetNode);
    var r := Paint(toolbar.currentTool, b, grid.matrix[p.y][p.x]);
    PaintKeepsGrid(toolbar.currentTool, grid.columns, grid.rows, grid.startPos, grid.targetPos, grid.matrix, b, grid.nextId,
                   grid.open, grid.closed, grid.current, grid.path, p);
    grid.SetBoard(grid.matrix, r.nodes, grid.nextId, r.startNode, r.targetNode);
  }
}
