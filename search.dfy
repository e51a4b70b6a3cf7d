/**
 * What both engines share: the invariant of a grid on the values of its fields, one A*
 * expansion (`find_path` after the open set is known to be non-empty) as a function of
 * those values, and the proof that an expansion keeps the invariant. The engines differ
 * only in the metric, which is a parameter here.
 */
module Search {
  import opened Geometry
  import opened Nodes

  /** Both configured positions lie on the board and differ. */
  predicate ConfigOk(columns: nat, rows: nat, startPos: Pos, targetPos: Pos) {
    InBounds(startPos, columns, rows) && InBounds(targetPos, columns, rows) && startPos != targetPos
  }

  /** Every node has an identity below `nextId` and is well costed; the matrix holds a node at
      its own position in every cell, exactly one START and exactly one TARGET. */
  ghost predicate BoardOk(matrix: seq<seq<NodeId>>, nodes: map<NodeId, Node>, nextId: nat, columns: nat, rows: nat,
                          startNode: NodeId, targetNode: NodeId) {
    && (forall id :: id in nodes ==> id < nextId)
    && NodesOk(nodes)
    && MatrixOk(matrix, nodes, columns, rows)
    && EndpointsOk(matrix, nodes, columns, rows, startNode, targetNode)
  }

  /** The open and closed sets are disjoint sets of nodes; something has been expanded
      exactly when `current` is set, and it is closed; the path holds nodes. */
  ghost predicate SearchOk(nodes: map<NodeId, Node>, open: set<NodeId>, closed: set<NodeId>,
                           current: Option<NodeId>, path: seq<NodeId>) {
    && open <= nodes.Keys && closed <= nodes.Keys
    && open !! closed
    && (current.Some? ==> current.value in closed)
    && (current.None? ==> closed == {})
    && (forall i :: 0 <= i < |path| ==> path[i] in nodes)
  }

  /** The invariant of a grid, on the values of its fields. */
  ghost predicate GridOk(columns: nat, rows: nat, startPos: Pos, targetPos: Pos,
                         matrix: seq<seq<NodeId>>, nodes: map<NodeId, Node>, nextId: nat,
                         startNode: NodeId, targetNode: NodeId,
                         open: set<NodeId>, closed: set<NodeId>, current: Option<NodeId>, path: seq<NodeId>) {
    && ConfigOk(columns, rows, startPos, targetPos)
    && BoardOk(matrix, nodes, nextId, columns, rows, startNode, targetNode)
    && SearchOk(nodes, open, closed, current, path)
    && OnBoard(matrix, open, closed)
  }

  /** Every open and every closed node is the node of a cell: the search only ever opens
      the start node and neighbours taken from the matrix. */
  ghost predicate OnBoard(matrix: seq<seq<NodeId>>, open: set<NodeId>, closed: set<NodeId>) {
    open <= Cells(matrix) && closed <= Cells(matrix)
  }

  /** The closed set never holds more nodes than the board has cells; since every expansion
      adds a node to it, a search expands at most columns * rows nodes. */
  lemma ClosedBounded(matrix: seq<seq<NodeId>>, columns: nat, rows: nat, closed: set<NodeId>)
    requires |matrix| == rows && forall y :: 0 <= y < rows ==> |matrix[y]| == columns
    requires closed <= Cells(matrix)
    ensures |closed| <= columns * rows
  {
    CellsCard(matrix, columns);
    SubsetCard(closed, Cells(matrix));
  }

  /** Expanding an open node of a board adds a new node to the closed set, and the closed
      set stays within the number of cells. */
  lemma ClosedGrows(matrix: seq<seq<NodeId>>, columns: nat, rows: nat, open: set<NodeId>, closed: set<NodeId>, c: NodeId)
    requires |matrix| == rows && forall y :: 0 <= y < rows ==> |matrix[y]| == columns
    requires OnBoard(matrix, open, closed) && open !! closed && c in open
    ensures c !in closed && |closed + {c}| == |closed| + 1 <= columns * rows
  {
    ClosedBounded(matrix, columns, rows, closed + {c});
  }

  lemma {:induction false} SubsetCard(a: set<NodeId>, b: set<NodeId>)
    requires a <= b
    ensures |a| <= |b|
    decreases |a|
  {
    if a != {} {
      var x :| x in a;
      SubsetCard(a - {x}, b - {x});
    }
  }

  /** The start node is the node of a cell. */
  lemma StartOnBoard(matrix: seq<seq<NodeId>>, nodes: map<NodeId, Node>, nextId: nat, columns: nat, rows: nat,
                     startNode: NodeId, targetNode: NodeId)
    requires BoardOk(matrix, nodes, nextId, columns, rows, startNode, targetNode)
    ensures startNode in Cells(matrix)
  {
    var p := nodes[startNode].pos;
    assert matrix[p.y][p.x] == startNode;
  }

  /** The board `__init__`, `clear` and the `code/` engine's `reset` build: a fresh DEFAULT
      node in every cell but START and TARGET at the configured positions. Nodes in `n0` (the
      ones that existed before) are untouched and none of them is on the board. */
  ghost predicate NewBoardOf(n0: map<NodeId, Node>, matrix: seq<seq<NodeId>>, nodes: map<NodeId, Node>,
                             startNode: NodeId, targetNode: NodeId, columns: nat, rows: nat, startPos: Pos, targetPos: Pos)
  {
    && MatrixOk(matrix, nodes, columns, rows)
    && (forall id :: id in n0 ==> id in nodes && nodes[id] == n0[id])
    && (forall y, x :: 0 <= y < rows && 0 <= x < columns ==>
          matrix[y][x] !in n0 && nodes[matrix[y][x]] == FreshNode(Pos(x, y), ConfiguredKind(Pos(x, y), startPos, targetPos)))
    && startNode in nodes && nodes[startNode].pos == startPos
    && targetNode in nodes && nodes[targetNode].pos == targetPos
  }

  /** Moving a node `c` of the open set to the closed set, drawn CLOSED, and making it the
      current node keeps the board and the search state consistent. */
  lemma CloseKeepsInvariant(matrix: seq<seq<NodeId>>, n0: map<NodeId, Node>, nextId: nat, columns: nat, rows: nat,
                            startNode: NodeId, targetNode: NodeId,
                            open0: set<NodeId>, closed0: set<NodeId>, current0: Option<NodeId>, path0: seq<NodeId>, c: NodeId)
    requires BoardOk(matrix, n0, nextId, columns, rows, startNode, targetNode)
    requires SearchOk(n0, open0, closed0, current0, path0)
    requires c in open0
    ensures var n1 := n0[c := n0[c].(kind := ClosedKind(n0[c].kind))];
            && open0 <= n0.Keys
            && BoardOk(matrix, n1, nextId, columns, rows, startNode, targetNode)
            && KindsAgree(n0, n1)
            && SearchOk(n1, open0 - {c}, closed0 + {c}, Some(c), path0)
  {
    Redraw(matrix, n0, columns, rows, startNode, targetNode, c, ClosedKind(n0[c].kind));
  }

  /** Relaxing neighbours keeps the board and the search state consistent. */
  lemma RelaxKeepsInvariant(matrix: seq<seq<NodeId>>, n1: map<NodeId, Node>, nextId: nat, columns: nat, rows: nat,
                            startNode: NodeId, targetNode: NodeId,
                            open1: set<NodeId>, closed: set<NodeId>, c: NodeId, path: seq<NodeId>, r: Frontier)
    requires BoardOk(matrix, n1, nextId, columns, rows, startNode, targetNode)
    requires SearchOk(n1, open1, closed, Some(c), path)
    requires RelaxKeeps(Frontier(n1, open1), r, closed)
    ensures BoardOk(matrix, r.nodes, nextId, columns, rows, startNode, targetNode)
    ensures SearchOk(r.nodes, r.open, closed, Some(c), path)
  {
    KindsAgreeKeepBoard(matrix, n1, r.nodes, columns, rows, startNode, targetNode);
    forall x | x in r.open
      ensures x !in closed
    {
      assert x in closed ==> x in r.open * closed;
    }
  }

  /** Appending nodes of the arena to the path keeps the search state consistent. */
  lemma PathKeepsInvariant(nodes: map<NodeId, Node>, open: set<NodeId>, closed: set<NodeId>, current: Option<NodeId>,
                           path0: seq<NodeId>, path: seq<NodeId>)
    requires SearchOk(nodes, open, closed, current, path0)
    requires |path0| <= |path| && path[..|path0|] == path0
    requires forall i :: |path0| <= i < |path| ==> path[i] in nodes
    ensures SearchOk(nodes, open, closed, current, path)
  {
    forall i | 0 <= i < |path0|
      ensures path[i] in nodes
    {
      assert path[i] == path0[i];
    }
  }

  /** Popping the last node of the path and drawing it as PATH (unless it is START or
      TARGET) keeps the board and the search state consistent. */
  lemma RevealKeepsInvariant(matrix: seq<seq<NodeId>>, n0: map<NodeId, Node>, nextId: nat, columns: nat, rows: nat,
                             startNode: NodeId, targetNode: NodeId,
                             open: set<NodeId>, closed: set<NodeId>, current: Option<NodeId>, path: seq<NodeId>)
    requires BoardOk(matrix, n0, nextId, columns, rows, startNode, targetNode)
    requires SearchOk(n0, open, closed, current, path)
    requires path != []
    ensures var id := path[|path| - 1];
            var n1 := n0[id := n0[id].(kind := RevealedKind(n0[id].kind))];
            && BoardOk(matrix, n1, nextId, columns, rows, startNode, targetNode)
            && SearchOk(n1, open, closed, current, path[..|path| - 1])
  {
    var id := path[|path| - 1];
    Redraw(matrix, n0, columns, rows, startNode, targetNode, id, RevealedKind(n0[id].kind));
  }

  /** Closing a node of a well-formed arena keeps it well formed. This is the part of
      `Redraw` that holds without `EndpointsOk`, which `ExpandNode` does not require. */
  lemma CloseKeepsShape(matrix: seq<seq<NodeId>>, n0: map<NodeId, Node>, columns: nat, rows: nat, c: NodeId)
    requires NodesOk(n0) && MatrixOk(matrix, n0, columns, rows) && c in n0
    ensures var n1 := n0[c := n0[c].(kind := ClosedKind(n0[c].kind))];
            NodesOk(n1) && MatrixOk(matrix, n1, columns, rows) && n1.Keys == n0.Keys
  {
  }

  /** What expanding the open node `c` leads to: the nodes, the open set, the path, and
      whether the parent links of the target loop. `c` moves to the closed set and is drawn
      CLOSED. If it is the target, its parent chain is appended to the path (a looping chain
      leaves the path as it is); otherwise each neighbour is relaxed from it as `RelaxAll`
      says, with the engine's metric. */
  datatype Expansion = Expansion(nodes: map<NodeId, Node>, open: set<NodeId>, path: seq<NodeId>, cyclic: bool)

  function ExpandNode(matrix: seq<seq<NodeId>>, columns: nat, rows: nat, diagonal: bool, metric: Metric, targetNode: NodeId,
                      n0: map<NodeId, Node>, open0: set<NodeId>, closed0: set<NodeId>, path0: seq<NodeId>, c: NodeId): (e: Expansion)
    requires NodesOk(n0) && MatrixOk(matrix, n0, columns, rows) && open0 <= n0.Keys && c in n0 && targetNode in n0
    ensures e.nodes.Keys == n0.Keys
  {
    CloseKeepsShape(matrix, n0, columns, rows, c);
    var n1 := n0[c := n0[c].(kind := ClosedKind(n0[c].kind))];
    if c == targetNode then
      match ParentChain(n1, c, {})
      case None => Expansion(n1, open0 - {c}, path0, true)
      case Some(chain) => Expansion(n1, open0 - {c}, path0 + chain, false)
    else
      var ids := NeighborCells(matrix, n1, columns, rows, diagonal, n1[c].pos);
      var r := RelaxAll(Frontier(n1, open0 - {c}), ids, c, closed0 + {c}, n1[targetNode].pos, metric);
      Expansion(r.nodes, r.open, path0, false)
  }

  /** One expansion as `find_path` performs it, relative to the state before it (`n0`,
      `open0`, `closed0`, `path0`): `current` becomes a node `set_current_node` may choose
      from the non-empty open set, it joins the closed set, and the rest is `ExpandNode`. */
  ghost predicate ExpandedOnce(matrix: seq<seq<NodeId>>, columns: nat, rows: nat, diagonal: bool, metric: Metric, targetNode: NodeId,
                               n0: map<NodeId, Node>, open0: set<NodeId>, closed0: set<NodeId>, path0: seq<NodeId>,
                               nodes: map<NodeId, Node>, open: set<NodeId>, closed: set<NodeId>,
                               current: Option<NodeId>, path: seq<NodeId>, cyclic: bool)
  {
    && NodesOk(n0) && MatrixOk(matrix, n0, columns, rows) && open0 <= n0.Keys && targetNode in n0
    && current.Some? && IsLowest(current.value, open0, n0)
    && closed == closed0 + {current.value}
    && Expansion(nodes, open, path, cyclic)
       == ExpandNode(matrix, columns, rows, diagonal, metric, targetNode, n0, open0, closed0, path0, current.value)
  }

  /** Expanding an open node keeps the board and the search state consistent, with the
      expanded node as `current`. */
  lemma ExpandKeepsInvariant(matrix: seq<seq<NodeId>>, n0: map<NodeId, Node>, nextId: nat, columns: nat, rows: nat,
                             diagonal: bool, metric: Metric, startNode: NodeId, targetNode: NodeId,
                             open0: set<NodeId>, closed0: set<NodeId>, current0: Option<NodeId>, path0: seq<NodeId>,
                             c: NodeId)
    requires BoardOk(matrix, n0, nextId, columns, rows, startNode, targetNode)
    requires SearchOk(n0, open0, closed0, current0, path0)
    requires c in open0
    ensures var e := ExpandNode(matrix, columns, rows, diagonal, metric, targetNode, n0, open0, closed0, path0, c);
            && BoardOk(matrix, e.nodes, nextId, columns, rows, startNode, targetNode)
            && SearchOk(e.nodes, e.open, closed0 + {c}, Some(c), e.path)
  {
    CloseKeepsInvariant(matrix, n0, nextId, columns, rows, startNode, targetNode, open0, closed0, current0, path0, c);
    if c == targetNode {
      ExpandTargetKeeps(matrix, n0, nextId, columns, rows, diagonal, metric, startNode, targetNode, open0, closed0, path0, c);
    } else {
      ExpandOtherKeeps(matrix, n0, nextId, columns, rows, diagonal, metric, startNode, targetNode, open0, closed0, path0, c);
    }
  }

  /** Expanding the target closes it, opens no node, and appends its parent chain to the
      path (or, if the parent links loop, leaves the path as it is); the invariant holds
      afterwards. */
  lemma ExpandTargetKeeps(matrix: seq<seq<NodeId>>, n0: map<NodeId, Node>, nextId: nat, columns: nat, rows: nat,
                          diagonal: bool, metric: Metric, startNode: NodeId, targetNode: NodeId,
                          open0: set<NodeId>, closed0: set<NodeId>, path0: seq<NodeId>, c: NodeId)
    requires c == targetNode && NodesOk(n0) && MatrixOk(matrix, n0, columns, rows) && open0 <= n0.Keys && c in open0
    requires var n1 := n0[c := n0[c].(kind := ClosedKind(n0[c].kind))];
             && BoardOk(matrix, n1, nextId, columns, rows, startNode, targetNode)
             && SearchOk(n1, open0 - {c}, closed0 + {c}, Some(c), path0)
    ensures var e := ExpandNode(matrix, columns, rows, diagonal, metric, targetNode, n0, open0, closed0, path0, c);
            var n1 := n0[c := n0[c].(kind := ClosedKind(n0[c].kind))];
            && e.nodes == n1 && e.open == open0 - {c}
            && (ParentChain(n1, c, {}).Some? ==> e.path == path0 + ParentChain(n1, c, {}).value && !e.cyclic)
            && (ParentChain(n1, c, {}).None? ==> e.path == path0 && e.cyclic)
            && BoardOk(matrix, e.nodes, nextId, columns, rows, startNode, targetNode)
            && SearchOk(e.nodes, e.open, closed0 + {c}, Some(c), e.path)
  {
    var n1 := n0[c := n0[c].(kind := ClosedKind(n0[c].kind))];
    var e := ExpandNode(matrix, columns, rows, diagonal, metric, targetNode, n0, open0, closed0, path0, c);
    match ParentChain(n1, c, {})
    case None =>
      assert e.path == path0;
    case Some(chain) =>
      assert e.path == path0 + chain;
      ParentChainInNodes(n1, c);
      PathKeepsInvariant(n1, open0 - {c}, closed0 + {c}, Some(c), path0, e.path);
  }

  /** Expanding any other node keeps the invariant. */
  lemma ExpandOtherKeeps(matrix: seq<seq<NodeId>>, n0: map<NodeId, Node>, nextId: nat, columns: nat, rows: nat,
                         diagonal: bool, metric: Metric, startNode: NodeId, targetNode: NodeId,
                         open0: set<NodeId>, closed0: set<NodeId>, path0: seq<NodeId>, c: NodeId)
    requires c != targetNode && targetNode in n0 && NodesOk(n0) && MatrixOk(matrix, n0, columns, rows) && open0 <= n0.Keys && c in open0
    requires var n1 := n0[c := n0[c].(kind := ClosedKind(n0[c].kind))];
             && BoardOk(matrix, n1, nextId, columns, rows, startNode, targetNode)
             && SearchOk(n1, open0 - {c}, closed0 + {c}, Some(c), path0)
    ensures var e := ExpandNode(matrix, columns, rows, diagonal, metric, targetNode, n0, open0, closed0, path0, c);
            && BoardOk(matrix, e.nodes, nextId, columns, rows, startNode, targetNode)
            && SearchOk(e.nodes, e.open, closed0 + {c}, Some(c), e.path)
  {
    var n1 := n0[c := n0[c].(kind := ClosedKind(n0[c].kind))];
    var ids := NeighborCells(matrix, n1, columns, rows, diagonal, n1[c].pos);
    var fr := Frontier(n1, open0 - {c});
    var r := RelaxAll(fr, ids, c, closed0 + {c}, n1[targetNode].pos, metric);
    var e := ExpandNode(matrix, columns, rows, diagonal, metric, targetNode, n0, open0, closed0, path0, c);
    assert e == Expansion(r.nodes, r.open, path0, false);
    RelaxAllPreserves(fr, ids, c, closed0 + {c}, n1[targetNode].pos, metric);
    RelaxKeepsInvariant(matrix, n1, nextId, columns, rows, startNode, targetNode, open0 - {c}, closed0 + {c}, c, path0, r);
  }

  /** Every neighbour is the node of a cell. */
  lemma NeighborCellsOnBoard(matrix: seq<seq<NodeId>>, nodes: map<NodeId, Node>, columns: nat, rows: nat, diagonal: bool, p: Pos)
    requires MatrixOk(matrix, nodes, columns, rows)
    ensures forall id :: id in NeighborCells(matrix, nodes, columns, rows, diagonal, p) ==> id in Cells(matrix)
  {
    var ids := NeighborCells(matrix, nodes, columns, rows, diagonal, p);
    forall i | 0 <= i < |ids| ensures ids[i] in Cells(matrix) {
      var q := nodes[ids[i]].pos;
      assert matrix[q.y][q.x] == ids[i];
    }
  }

  /** Expanding an open node of a board only ever opens nodes of cells: the neighbours come
      from the matrix. */
  lemma ExpandKeepsOnBoard(matrix: seq<seq<NodeId>>, n0: map<NodeId, Node>, columns: nat, rows: nat,
                           diagonal: bool, metric: Metric, targetNode: NodeId,
                           open0: set<NodeId>, closed0: set<NodeId>, path0: seq<NodeId>, c: NodeId)
    requires NodesOk(n0) && MatrixOk(matrix, n0, columns, rows) && open0 <= n0.Keys && targetNode in n0
    requires c in open0 && OnBoard(matrix, open0, closed0)
    ensures var e := ExpandNode(matrix, columns, rows, diagonal, metric, targetNode, n0, open0, closed0, path0, c);
            OnBoard(matrix, e.open, closed0 + {c})
  {
    if c != targetNode {
      var n1 := n0[c := n0[c].(kind := ClosedKind(n0[c].kind))];
      CloseKeepsShape(matrix, n0, columns, rows, c);
      var ids := NeighborCells(matrix, n1, columns, rows, diagonal, n1[c].pos);
      var fr := Frontier(n1, open0 - {c});
      RelaxAllOpens(fr, ids, c, closed0 + {c}, n1[targetNode].pos, metric);
      NeighborCellsOnBoard(matrix, n1, columns, rows, diagonal, n1[c].pos);
    }
  }

  /** Expanding a node other than the target re-points only neighbours of it: a node whose
      parent changes now has the expanded node as parent, stands one king move from it, and
      costs strictly more. */
  lemma ExpandParentIsNeighbour(matrix: seq<seq<NodeId>>, n0: map<NodeId, Node>, columns: nat, rows: nat,
                                diagonal: bool, metric: Metric, targetNode: NodeId,
                                open0: set<NodeId>, closed0: set<NodeId>, path0: seq<NodeId>, c: NodeId, id: NodeId)
    requires NodesOk(n0) && MatrixOk(matrix, n0, columns, rows) && open0 <= n0.Keys && targetNode in n0
    requires c in open0 && c != targetNode && id in n0
    ensures var e := ExpandNode(matrix, columns, rows, diagonal, metric, targetNode, n0, open0, closed0, path0, c);
            e.nodes[id].parent != n0[id].parent ==>
              && e.nodes[id].parent == Some(c)
              && Chebyshev(n0[c].pos, n0[id].pos) == 1
              && e.nodes[id].g > n0[c].g
  {
    var n1 := n0[c := n0[c].(kind := ClosedKind(n0[c].kind))];
    CloseKeepsShape(matrix, n0, columns, rows, c);
    var ids := NeighborCells(matrix, n1, columns, rows, diagonal, n1[c].pos);
    NeighborCellsDistinct(matrix, n1, columns, rows, diagonal, n1[c].pos);
    var fr := Frontier(n1, open0 - {c});
    RelaxAllEffect(fr, ids, c, closed0 + {c}, n1[targetNode].pos, metric);
    if id in ids {
      var i :| 0 <= i < |ids| && ids[i] == id;
      var r := Relax(fr, id, c, closed0 + {c}, n1[targetNode].pos, metric);
      if r.nodes[id].parent != n1[id].parent {
        RelaxedCostsMore(fr, id, c, closed0 + {c}, n1[targetNode].pos, metric);
      }
    }
  }

  /** Parent links can loop on a board that meets the whole invariant: on a 2 by 1 board
      whose START and TARGET are each other's parent, rebuilding the path from TARGET never
      ends. */
  lemma ParentLoop()
    ensures var nodes := map[0 := Node(Pos(0, 0), Start, Some(1), 1, Finite(1), Finite(2)),
                             1 := Node(Pos(1, 0), Target, Some(0), 1, Finite(1), Finite(2))];
            && GridOk(2, 1, Pos(0, 0), Pos(1, 0), [[0, 1]], nodes, 2, 0, 1, {}, {}, None, [])
            && ParentChain(nodes, 1, {}).None?
  {
    var nodes := map[0 := Node(Pos(0, 0), Start, Some(1), 1, Finite(1), Finite(2)),
                     1 := Node(Pos(1, 0), Target, Some(0), 1, Finite(1), Finite(2))];
    assert GridOk(2, 1, Pos(0, 0), Pos(1, 0), [[0, 1]], nodes, 2, 0, 1, {}, {}, None, []);
    MutualParentsLoop(nodes, 1, 0);
  }

  /** The path `add_node_and_parent_to_path` appends. */
  method ParentPath(nodes: map<NodeId, Node>, id: NodeId) returns (chain: seq<NodeId>, cyclic: bool)
    requires NodesOk(nodes) && id in nodes
    ensures cyclic <==> ParentChain(nodes, id, {}).None?
    ensures !cyclic ==> chain == ParentChain(nodes, id, {}).value
    ensures forall i :: 0 <= i < |chain| ==> chain[i] in nodes
  {
    chain, cyclic := [], false;
    var node := id;
    var seen: set<NodeId> := {};
    ExtendConcat([], [], ParentChain(nodes, id, {}));
    while nodes[node].parent.Some?
      invariant node in nodes && seen <= nodes.Keys
      invariant forall i :: 0 <= i < |chain| ==> chain[i] in nodes
      invariant ParentChain(nodes, id, {}) == Extend(chain, ParentChain(nodes, node, seen))
      decreases nodes.Keys - seen
    {
      if node in seen {
        cyclic := true;
        return;
      }
      var parent := nodes[node].parent.value;
      assert ParentChain(nodes, node, seen) == Extend([node], ParentChain(nodes, parent, seen + {node}));
      ExtendConcat(chain, [node], ParentChain(nodes, parent, seen + {node}));
      chain := chain + [node];
      seen := seen + {node};
      node := parent;
    }
  }

  /** One expansion on the values of a grid's fields: the choice of `current` and
      `ExpandStep`; the result satisfies the invariant of a grid. */
  method ExpandOnce(columns: nat, rows: nat, startPos: Pos, targetPos: Pos, diagonal: bool, metric: Metric,
                    matrix: seq<seq<NodeId>>, nodes: map<NodeId, Node>, nextId: nat, startNode: NodeId, targetNode: NodeId,
                    open: set<NodeId>, closed: set<NodeId>, current: Option<NodeId>, path: seq<NodeId>)
    returns (e: Expansion, c: NodeId)
    requires GridOk(columns, rows, startPos, targetPos, matrix, nodes, nextId, startNode, targetNode, open, closed, current, path)
    requires open != {}
    ensures GridOk(columns, rows, startPos, targetPos, matrix, e.nodes, nextId, startNode, targetNode, e.open, closed + {c}, Some(c), e.path)
    ensures ExpandedOnce(matrix, columns, rows, diagonal, metric, targetNode, nodes, open, closed, path,
                         e.nodes, e.open, closed + {c}, Some(c), e.path, e.cyclic)
    ensures c in open && c !in closed && |closed + {c}| == |closed| + 1 <= columns * rows
  {
    c := SelectLowest(open, nodes);
    ExpandKeepsInvariant(matrix, nodes, nextId, columns, rows, diagonal, metric, startNode, targetNode, open, closed, current, path, c);
    ExpandKeepsOnBoard(matrix, nodes, columns, rows, diagonal, metric, targetNode, open, closed, path, c);
    ClosedGrows(matrix, columns, rows, open, closed, c);
    e := ExpandStep(matrix, columns, rows, diagonal, metric, targetNode, nodes, open, closed, path, c);
  }

  /** The body of `find_path` after the choice of `c`: `c` is closed, then either the
      target's parent chain is appended to the path or the neighbours of `c` are relaxed. */
  method ExpandStep(matrix: seq<seq<NodeId>>, columns: nat, rows: nat, diagonal: bool, metric: Metric, targetNode: NodeId,
                    nodes: map<NodeId, Node>, open: set<NodeId>, closed: set<NodeId>, path: seq<NodeId>, c: NodeId)
    returns (e: Expansion)
    requires NodesOk(nodes) && MatrixOk(matrix, nodes, columns, rows) && open <= nodes.Keys && c in nodes && targetNode in nodes
    ensures e == ExpandNode(matrix, columns, rows, diagonal, metric, targetNode, nodes, open, closed, path, c)
  {
    CloseKeepsShape(matrix, nodes, columns, rows, c);
    var n1: map<NodeId, Node> := nodes[c := nodes[c].(kind := ClosedKind(nodes[c].kind))];
    if c == targetNode {
      var chain, cyclic := ParentPath(n1, c);
      e := Expansion(n1, open - {c}, if cyclic then path else path + chain, cyclic);
    } else {
      var ids := NeighborCells(matrix, n1, columns, rows, diagonal, n1[c].pos);
      var r := RelaxNeighbors(Frontier(n1, open - {c}), ids, c, closed + {c}, n1[targetNode].pos, metric);
      e := Expansion(r.nodes, r.open, path, false);
    }
  }

}
