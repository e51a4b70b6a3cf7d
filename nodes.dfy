/**
 * Search nodes and the parts of an A* expansion that both engines share:
 * node kinds, costs with an infinity sentinel, the choice of the next node,
 * the relaxation of a node's neighbours, and the parent chain a path is
 * rebuilt from.
 *
 * A grid's `Node` objects live in an arena `nodes: map<NodeId, Node>`; the
 * matrix holds ids. Object identity matters: the root engine's `reset` keeps
 * some old nodes, whose `parent` may refer to nodes that are no longer in the
 * matrix but still exist.
 */
module Nodes {
  import opened Geometry

  datatype Option<T> = None | Some(value: T)

  /** Identity of a `Node` object. */
  type NodeId = nat

  /** `NodeType` without its image: what a cell is drawn as. */
  datatype NodeType = Default | Wall | Start | Target | Open | Closed | Path

  /** A cost: a whole number, or the `infinity` a fresh node starts with. */
  datatype Cost = Finite(n: int) | Infinity

  /** `<` on costs, with infinity above every whole number and not below itself. */
  predicate CostLess(a: Cost, b: Cost) {
    match a
    case Infinity => false
    case Finite(x) => b.Infinity? || x < b.n
  }

  datatype Node = Node(pos: Pos, kind: NodeType, parent: Option<NodeId>, g: nat, h: Cost, f: Cost)

  /** `Node(position, node_type)`: no parent, g cost 0, h and f costs infinite. */
  function FreshNode(pos: Pos, kind: NodeType): (n: Node)
    ensures WellCosted(n) && n.parent.None?
    ensures n.pos == pos && n.kind == kind
  {
    Node(pos, kind, None, 0, Infinity, Infinity)
  }

  /** START and TARGET keep their look when opened, closed or revealed. */
  predicate IsEndpoint(k: NodeType) { k == Start || k == Target }

  /** The kind `add_to_open` gives a node. */
  function OpenedKind(k: NodeType): (r: NodeType)
    ensures IsEndpoint(r) <==> IsEndpoint(k)
    ensures r == k || r == Open
  {
    if IsEndpoint(k) then k else Open
  }

  /** The kind `add_to_closed` gives a node. */
  function ClosedKind(k: NodeType): (r: NodeType)
    ensures IsEndpoint(r) <==> IsEndpoint(k)
    ensures r == k || r == Closed
  {
    if IsEndpoint(k) then k else Closed
  }

  /** The kind `reveal_path` gives a node. */
  function RevealedKind(k: NodeType): (r: NodeType)
    ensures IsEndpoint(r) <==> IsEndpoint(k)
    ensures r == k || r == Path
  {
    if IsEndpoint(k) then k else Path
  }

  /** A node either is fresh (no parent, g = 0, h = f = infinity) or has been relaxed
      (a parent, a finite h, and f = g + h). */
  predicate WellCosted(n: Node) {
    || (n.parent.None? && n.g == 0 && n.h == Infinity && n.f == Infinity)
    || (n.parent.Some? && n.h.Finite? && n.f == Finite(n.g + n.h.n))
  }

  /** Every node is well costed and every parent is a node of the arena. */
  ghost predicate NodesOk(nodes: map<NodeId, Node>) {
    forall id :: id in nodes ==>
      WellCosted(nodes[id]) && (nodes[id].parent.Some? ==> nodes[id].parent.value in nodes)
  }

  // ---------------------------------------------------------------------
  // The matrix of node ids
  // ---------------------------------------------------------------------

  /** `matrix[y][x]` is a node of the arena positioned at (x, y). */
  ghost predicate MatrixOk(matrix: seq<seq<NodeId>>, nodes: map<NodeId, Node>, columns: nat, rows: nat) {
    && |matrix| == rows
    && (forall y :: 0 <= y < rows ==> |matrix[y]| == columns)
    && (forall y, x :: 0 <= y < rows && 0 <= x < columns ==>
          matrix[y][x] in nodes && nodes[matrix[y][x]].pos == Pos(x, y))
  }

  /** Exactly one matrix cell is START, the node `start`, and exactly one is TARGET, the node
      `target`; both sit in the matrix at their own positions. */
  ghost predicate EndpointsOk(matrix: seq<seq<NodeId>>, nodes: map<NodeId, Node>, columns: nat, rows: nat,
                              start: NodeId, target: NodeId)
    requires MatrixOk(matrix, nodes, columns, rows)
  {
    && start in nodes && target in nodes
    && InBounds(nodes[start].pos, columns, rows) && matrix[nodes[start].pos.y][nodes[start].pos.x] == start
    && InBounds(nodes[target].pos, columns, rows) && matrix[nodes[target].pos.y][nodes[target].pos.x] == target
    && (forall y, x :: 0 <= y < rows && 0 <= x < columns ==>
          && (nodes[matrix[y][x]].kind == Start <==> matrix[y][x] == start)
          && (nodes[matrix[y][x]].kind == Target <==> matrix[y][x] == target))
  }

  /** `n1` differs from `n0` at most in node kinds, and no node became or stopped being
      START or TARGET. */
  ghost predicate KindsAgree(n0: map<NodeId, Node>, n1: map<NodeId, Node>) {
    && n1.Keys == n0.Keys
    && forall id :: id in n0 ==>
         && n1[id].pos == n0[id].pos
         && (n1[id].kind == Start <==> n0[id].kind == Start)
         && (n1[id].kind == Target <==> n0[id].kind == Target)
  }

  /** Changes that keep kinds in agreement keep the matrix and its endpoints well formed. */
  lemma KindsAgreeKeepBoard(matrix: seq<seq<NodeId>>, n0: map<NodeId, Node>, n1: map<NodeId, Node>,
                            columns: nat, rows: nat, start: NodeId, target: NodeId)
    requires MatrixOk(matrix, n0, columns, rows) && EndpointsOk(matrix, n0, columns, rows, start, target)
    requires KindsAgree(n0, n1)
    ensures MatrixOk(matrix, n1, columns, rows) && EndpointsOk(matrix, n1, columns, rows, start, target)
  {
  }

  /** Redrawing one node keeps every node well costed, and keeps the board well formed when
      the new kind is an endpoint exactly when the old one is. */
  lemma Redraw(matrix: seq<seq<NodeId>>, nodes: map<NodeId, Node>, columns: nat, rows: nat,
               start: NodeId, target: NodeId, id: NodeId, k: NodeType)
    requires NodesOk(nodes) && id in nodes
    requires MatrixOk(matrix, nodes, columns, rows) && EndpointsOk(matrix, nodes, columns, rows, start, target)
    requires k == nodes[id].kind || (!IsEndpoint(k) && !IsEndpoint(nodes[id].kind))
    ensures var n1 := nodes[id := nodes[id].(kind := k)];
            && NodesOk(n1) && KindsAgree(nodes, n1)
            && MatrixOk(matrix, n1, columns, rows) && EndpointsOk(matrix, n1, columns, rows, start, target)
  {
    KindsAgreeKeepBoard(matrix, nodes, nodes[id := nodes[id].(kind := k)], columns, rows, start, target);
  }

  /** Distinct cells of a well-formed matrix hold distinct nodes. */
  lemma MatrixInjective(matrix: seq<seq<NodeId>>, nodes: map<NodeId, Node>, columns: nat, rows: nat, p: Pos, q: Pos)
    requires MatrixOk(matrix, nodes, columns, rows)
    requires InBounds(p, columns, rows) && InBounds(q, columns, rows)
    ensures matrix[p.y][p.x] == matrix[q.y][q.x] <==> p == q
  {
  }

  /** The nodes the matrix holds. */
  ghost function Cells(matrix: seq<seq<NodeId>>): set<NodeId> {
    set y, x | 0 <= y < |matrix| && 0 <= x < |matrix[y]| :: matrix[y][x]
  }

  /** The nodes one row holds. */
  ghost function RowCells(row: seq<NodeId>): set<NodeId> {
    set x | 0 <= x < |row| :: row[x]
  }

  /** A row of n cells holds at most n nodes. */
  lemma {:induction false} RowCellsCard(row: seq<NodeId>)
    ensures |RowCells(row)| <= |row|
  {
    if row != [] {
      var front := row[..|row| - 1];
      RowCellsCard(front);
      assert RowCells(row) == RowCells(front) + {row[|row| - 1]} by {
        forall e | e in RowCells(row) ensures e in RowCells(front) + {row[|row| - 1]} {
          var x :| 0 <= x < |row| && row[x] == e;
          if x < |row| - 1 {
            assert front[x] == e;
          }
        }
        forall e | e in RowCells(front) ensures e in RowCells(row) {
          var x :| 0 <= x < |front| && front[x] == e;
          assert row[x] == e;
        }
      }
    }
  }

  /** The nodes of a matrix are those of all its rows but the last, and those of the last. */
  lemma CellsSplit(matrix: seq<seq<NodeId>>)
    requires matrix != []
    ensures Cells(matrix) == Cells(matrix[..|matrix| - 1]) + RowCells(matrix[|matrix| - 1])
  {
    var front, last := matrix[..|matrix| - 1], matrix[|matrix| - 1];
    forall e | e in Cells(matrix) ensures e in Cells(front) + RowCells(last) {
      var y, x :| 0 <= y < |matrix| && 0 <= x < |matrix[y]| && matrix[y][x] == e;
      if y < |matrix| - 1 {
        assert front[y][x] == e;
      } else {
        assert last[x] == e;
      }
    }
    forall e | e in Cells(front) ensures e in Cells(matrix) {
      var y, x :| 0 <= y < |front| && 0 <= x < |front[y]| && front[y][x] == e;
      assert matrix[y][x] == e;
    }
    forall e | e in RowCells(last) ensures e in Cells(matrix) {
      var x :| 0 <= x < |last| && last[x] == e;
      assert matrix[|matrix| - 1][x] == e;
    }
  }

  /** A matrix of rows of `columns` cells holds at most |matrix| * columns nodes, so no set of
      its nodes is larger. */
  lemma {:induction false} CellsCard(matrix: seq<seq<NodeId>>, columns: nat)
    requires forall y :: 0 <= y < |matrix| ==> |matrix[y]| == columns
    ensures |Cells(matrix)| <= |matrix| * columns
  {
    if matrix != [] {
      var front := matrix[..|matrix| - 1];
      CellsCard(front, columns);
      RowCellsCard(matrix[|matrix| - 1]);
      CellsSplit(matrix);
      var n := |front|;
      assert (n + 1) * columns == n * columns + columns;
    }
  }

  /** The nodes at the given in-bounds positions, in order (the nodes a neighbour generator yields). */
  function CellsAt(matrix: seq<seq<NodeId>>, nodes: map<NodeId, Node>, columns: nat, rows: nat, ps: seq<Pos>): (r: seq<NodeId>)
    requires MatrixOk(matrix, nodes, columns, rows)
    requires forall i :: 0 <= i < |ps| ==> 0 <= ps[i].x < columns && 0 <= ps[i].y < rows
    ensures |r| == |ps|
    ensures forall i :: 0 <= i < |ps| ==> r[i] == matrix[ps[i].y][ps[i].x] && r[i] in nodes && nodes[r[i]].pos == ps[i]
  {
    if ps == [] then []
    else
      [matrix[ps[0].y][ps[0].x]] + CellsAt(matrix, nodes, columns, rows, ps[1..])
  }

  /** `get_neighbors`: the nodes in the in-bounds cells one straight (or, with diagonals, one
      diagonal) step from `p`, in the order of the offsets, each once. */
  function NeighborCells(matrix: seq<seq<NodeId>>, nodes: map<NodeId, Node>, columns: nat, rows: nat,
                         diagonal: bool, p: Pos): (r: seq<NodeId>)
    requires MatrixOk(matrix, nodes, columns, rows)
    ensures diagonal ==> |r| <= 8
    ensures !diagonal ==> |r| <= 4
    ensures forall i :: 0 <= i < |r| ==>
              && r[i] in nodes && InBounds(nodes[r[i]].pos, columns, rows)
              && r[i] == matrix[nodes[r[i]].pos.y][nodes[r[i]].pos.x]
              && IsStep(p, nodes[r[i]].pos, diagonal) && Chebyshev(p, nodes[r[i]].pos) == 1
    ensures forall q :: InBounds(q, columns, rows) && IsStep(p, q, diagonal) ==> matrix[q.y][q.x] in r
  {
    var ps := Neighbors(p, diagonal, columns, rows);
    assert forall i :: 0 <= i < |ps| ==> ps[i] in ps;
    var r := CellsAt(matrix, nodes, columns, rows, ps);
    assert forall q :: InBounds(q, columns, rows) && IsStep(p, q, diagonal) ==> matrix[q.y][q.x] in r by {
      forall q | InBounds(q, columns, rows) && IsStep(p, q, diagonal)
        ensures matrix[q.y][q.x] in r
      {
        var k :| 0 <= k < |ps| && ps[k] == q;
        assert r[k] == matrix[q.y][q.x];
      }
    }
    r
  }

  /** `get_neighbors` yields each neighbouring node once: distinct cells hold distinct nodes. */
  lemma NeighborCellsDistinct(matrix: seq<seq<NodeId>>, nodes: map<NodeId, Node>, columns: nat, rows: nat,
                              diagonal: bool, p: Pos)
    requires MatrixOk(matrix, nodes, columns, rows)
    ensures Distinct(NeighborCells(matrix, nodes, columns, rows, diagonal, p))
  {
    var ps := Neighbors(p, diagonal, columns, rows);
    NeighborsDistinct(p, diagonal, columns, rows);
    var r := NeighborCells(matrix, nodes, columns, rows, diagonal, p);
    assert r == CellsAt(matrix, nodes, columns, rows, ps);
    forall i, j | 0 <= i < j < |r|
      ensures r[i] != r[j]
    {
      assert ps[i] in ps && ps[j] in ps;
      MatrixInjective(matrix, nodes, columns, rows, ps[i], ps[j]);
    }
  }

  /** The matrix comprehension `[[Node((x, y), DEFAULT) for x in range(columns)] for y in
      range(rows)]`: one fresh DEFAULT node per cell, allocated with ids from `nextId` on. */
  method BuildMatrix(columns: nat, rows: nat, nodes: map<NodeId, Node>, nextId: nat)
    returns (matrix: seq<seq<NodeId>>, nodes': map<NodeId, Node>, nextId': nat)
    requires forall id :: id in nodes ==> id < nextId
    ensures MatrixOk(matrix, nodes', columns, rows)
    ensures forall y, x :: 0 <= y < rows && 0 <= x < columns ==>
              matrix[y][x] !in nodes && nodes'[matrix[y][x]] == FreshNode(Pos(x, y), Default)
    ensures forall id :: id in nodes ==> id in nodes' && nodes'[id] == nodes[id]
    ensures forall id :: id in nodes' ==> id < nextId' && (id in nodes || nodes'[id] == FreshNode(nodes'[id].pos, Default))
  {
    matrix, nodes', nextId' := [], nodes, nextId;
    var y := 0;
    while y < rows
      invariant 0 <= y <= rows && |matrix| == y
      invariant nextId <= nextId'
      invariant forall yy :: 0 <= yy < y ==> |matrix[yy]| == columns
      invariant forall yy, x :: 0 <= yy < y && 0 <= x < columns ==>
                  matrix[yy][x] in nodes' && matrix[yy][x] !in nodes && nodes'[matrix[yy][x]] == FreshNode(Pos(x, yy), Default)
      invariant forall id :: id in nodes ==> id in nodes' && nodes'[id] == nodes[id]
      invariant forall id :: id in nodes' ==> id < nextId' && (id in nodes || nodes'[id] == FreshNode(nodes'[id].pos, Default))
    {
      var row: seq<NodeId> := [];
      var x := 0;
      while x < columns
        invariant 0 <= x <= columns && |row| == x
        invariant nextId <= nextId'
        invariant forall xx :: 0 <= xx < x ==>
                    row[xx] in nodes' && row[xx] !in nodes && nodes'[row[xx]] == FreshNode(Pos(xx, y), Default)
        invariant forall yy, xx :: 0 <= yy < y && 0 <= xx < columns ==>
                    matrix[yy][xx] in nodes' && matrix[yy][xx] !in nodes && nodes'[matrix[yy][xx]] == FreshNode(Pos(xx, yy), Default)
        invariant forall id :: id in nodes ==> id in nodes' && nodes'[id] == nodes[id]
        invariant forall id :: id in nodes' ==> id < nextId' && (id in nodes || nodes'[id] == FreshNode(nodes'[id].pos, Default))
      {
        nodes' := nodes'[nextId' := FreshNode(Pos(x, y), Default)];
        row := row + [nextId'];
        nextId' := nextId' + 1;
        x := x + 1;
      }
      matrix := matrix + [row];
      y := y + 1;
    }
  }

  /** The matrix a fresh grid starts with: DEFAULT everywhere except START and TARGET at
      their configured positions. */
  function ConfiguredKind(p: Pos, startPos: Pos, targetPos: Pos): NodeType {
    if p == targetPos then Target else if p == startPos then Start else Default
  }

  /** A new board, as `__init__` and `clear` build it: the fresh matrix, then START at
      `startPos` and TARGET at `targetPos`. Nodes that already exist are kept as they are. */
  method NewBoard(columns: nat, rows: nat, startPos: Pos, targetPos: Pos, nodes: map<NodeId, Node>, nextId: nat)
    returns (matrix: seq<seq<NodeId>>, nodes': map<NodeId, Node>, nextId': nat, start: NodeId, target: NodeId)
    requires InBounds(startPos, columns, rows) && InBounds(targetPos, columns, rows) && startPos != targetPos
    requires NodesOk(nodes) && forall id :: id in nodes ==> id < nextId
    ensures MatrixOk(matrix, nodes', columns, rows)
    ensures EndpointsOk(matrix, nodes', columns, rows, start, target)
    ensures NodesOk(nodes') && forall id :: id in nodes' ==> id < nextId'
    ensures nodes'[start].pos == startPos && nodes'[target].pos == targetPos
    ensures forall y, x :: 0 <= y < rows && 0 <= x < columns ==>
              matrix[y][x] !in nodes && nodes'[matrix[y][x]] == FreshNode(Pos(x, y), ConfiguredKind(Pos(x, y), startPos, targetPos))
    ensures forall id :: id in nodes ==> id in nodes' && nodes'[id] == nodes[id]
  {
    var built;
    matrix, built, nextId' := BuildMatrix(columns, rows, nodes, nextId);
    start := matrix[startPos.y][startPos.x];
    target := matrix[targetPos.y][targetPos.x];
    nodes' := built[start := built[start].(kind := Start)];
    nodes' := nodes'[target := nodes'[target].(kind := Target)];
  }

  // ---------------------------------------------------------------------
  // Choosing the node to expand
  // ---------------------------------------------------------------------

  /** `a` beats `b` in `set_current_node`: lower f cost, or equal f cost and lower h cost. */
  predicate Before(a: Node, b: Node) {
    CostLess(a.f, b.f) || (a.f == b.f && CostLess(a.h, b.h))
  }

  /** `c` is an open node that no open node beats. */
  ghost predicate IsLowest(c: NodeId, open: set<NodeId>, nodes: map<NodeId, Node>)
    requires open <= nodes.Keys
  {
    c in open && forall id :: id in open ==> !Before(nodes[id], nodes[c])
  }

  /** The scan of `set_current_node`: start from some open node and switch to every node
      that beats the one held. Which of several equal nodes wins depends on set iteration
      order, so the scan visits the open set in an arbitrary order. */
  method SelectLowest(open: set<NodeId>, nodes: map<NodeId, Node>) returns (c: NodeId)
    requires open != {} && open <= nodes.Keys
    ensures c in open
    ensures forall id :: id in open ==> !Before(nodes[id], nodes[c])
  {
    c :| c in open;
    var rest := open;
    while rest != {}
      invariant rest <= open && c in open
      invariant forall id :: id in open - rest ==> !Before(nodes[id], nodes[c])
      decreases rest
    {
      var node :| node in rest;
      if Before(nodes[node], nodes[c]) {
        c := node;
      }
      rest := rest - {node};
    }
  }

  // ---------------------------------------------------------------------
  // Relaxing the neighbours of the expanded node
  // ---------------------------------------------------------------------

  /** The nodes and the open set, the two things the neighbour loop of `find_path` changes. */
  datatype Frontier = Frontier(nodes: map<NodeId, Node>, open: set<NodeId>)

  /** One turn of the neighbour loop for neighbour `id` of the expanded node `cur`: walls and
      closed nodes are skipped; otherwise, if the route through `cur` is cheaper or the node
      is not open yet, it gets g = g(cur) + step, h = distance to the target, f = g + h and
      parent `cur`, and is opened if it was not open. */
  function Relax(fr: Frontier, id: NodeId, cur: NodeId, closed: set<NodeId>, target: Pos, m: Metric): (r: Frontier)
    requires id in fr.nodes && cur in fr.nodes
    ensures r.nodes.Keys == fr.nodes.Keys
    ensures fr.open <= r.open <= fr.open + {id}
  {
    var n := fr.nodes[id];
    var c := fr.nodes[cur];
    if n.kind == Wall || id in closed then fr
    else
      var newCost := c.g + Distance(m, c.pos, n.pos);
      if newCost < n.g || id !in fr.open then
        var h := Distance(m, n.pos, target);
        var relaxed := n.(g := newCost, h := Finite(h), f := Finite(newCost + h), parent := Some(cur));
        if id in fr.open then Frontier(fr.nodes[id := relaxed], fr.open)
        else Frontier(fr.nodes[id := relaxed.(kind := OpenedKind(n.kind))], fr.open + {id})
      else fr
  }

  /** The whole neighbour loop: `Relax` for each neighbour in turn. */
  function RelaxAll(fr: Frontier, ids: seq<NodeId>, cur: NodeId, closed: set<NodeId>, target: Pos, m: Metric): (r: Frontier)
    requires cur in fr.nodes && forall id :: id in ids ==> id in fr.nodes
    ensures r.nodes.Keys == fr.nodes.Keys
  {
    if ids == [] then fr
    else Relax(RelaxAll(fr, ids[..|ids| - 1], cur, closed, target, m), ids[|ids| - 1], cur, closed, target, m)
  }

  /** What relaxing a single neighbour does: a wall or closed node, or an open node the route
      through `cur` does not improve, is left as it is; any other node gets its costs from
      `cur` (f = g + h, g = g(cur) + step, h = distance to the target), gets `cur` as parent
      and is open afterwards, opened with `add_to_open` if it was not open before. */
  lemma RelaxEffect(fr: Frontier, id: NodeId, cur: NodeId, closed: set<NodeId>, target: Pos, m: Metric)
    requires id in fr.nodes && cur in fr.nodes
    ensures var n, c := fr.nodes[id], fr.nodes[cur];
            var r := Relax(fr, id, cur, closed, target, m);
            var newCost := c.g + Distance(m, c.pos, n.pos);
            && r.nodes.Keys == fr.nodes.Keys
            && (forall other :: other in fr.nodes && other != id ==> r.nodes[other] == fr.nodes[other])
            && (forall other :: other != id ==> (other in r.open <==> other in fr.open))
            && if n.kind != Wall && id !in closed && (newCost < n.g || id !in fr.open) then
                 && r.nodes[id].pos == n.pos && r.nodes[id].parent == Some(cur)
                 && r.nodes[id].g == newCost
                 && r.nodes[id].h == Finite(Distance(m, n.pos, target))
                 && r.nodes[id].f == Finite(r.nodes[id].g + Distance(m, n.pos, target))
                 && r.nodes[id].kind == (if id in fr.open then n.kind else OpenedKind(n.kind))
                 && id in r.open
               else r == fr
  {
  }

  /** Relaxing `id` changes nothing but `id`'s node and its open membership. */
  lemma RelaxFrame(fr: Frontier, id: NodeId, cur: NodeId, closed: set<NodeId>, target: Pos, m: Metric)
    requires id in fr.nodes && cur in fr.nodes
    ensures var r := Relax(fr, id, cur, closed, target, m);
            && r.nodes.Keys == fr.nodes.Keys
            && (forall other :: other in fr.nodes && other != id ==> r.nodes[other] == fr.nodes[other])
            && (forall other :: other != id ==> (other in r.open <==> other in fr.open))
  {
  }

  /** Relaxing `id` depends only on `id`'s node, its open membership and `cur`'s node. */
  lemma RelaxLocal(fr1: Frontier, fr2: Frontier, id: NodeId, cur: NodeId, closed: set<NodeId>, target: Pos, m: Metric)
    requires id in fr1.nodes && cur in fr1.nodes && id in fr2.nodes && cur in fr2.nodes
    requires fr1.nodes[id] == fr2.nodes[id] && fr1.nodes[cur] == fr2.nodes[cur]
    requires id in fr1.open <==> id in fr2.open
    ensures Relax(fr1, id, cur, closed, target, m).nodes[id] == Relax(fr2, id, cur, closed, target, m).nodes[id]
    ensures id in Relax(fr1, id, cur, closed, target, m).open <==> id in Relax(fr2, id, cur, closed, target, m).open
  {
  }

  /** The neighbour loop treats each (distinct) neighbour as if it were the only one: the
      result at a neighbour is what relaxing it alone from the starting state gives, and
      nothing outside the neighbours changes. */
  lemma {:induction false} RelaxAllEffect(fr: Frontier, ids: seq<NodeId>, cur: NodeId, closed: set<NodeId>, target: Pos, m: Metric)
    requires cur in fr.nodes && cur in closed && forall id :: id in ids ==> id in fr.nodes
    requires forall i, j :: 0 <= i < j < |ids| ==> ids[i] != ids[j]
    ensures RelaxedAlone(fr, ids, RelaxAll(fr, ids, cur, closed, target, m), cur, closed, target, m)
  {
    if ids != [] {
      var front, last := ids[..|ids| - 1], ids[|ids| - 1];
      assert ids == front + [last];
      assert forall i :: 0 <= i < |front| ==> front[i] == ids[i];
      assert last !in front;
      RelaxAllEffect(fr, front, cur, closed, target, m);
      RelaxAlonePlusOne(fr, front, last, cur, closed, target, m);
    }
  }

  /** `r` is what relaxing each (distinct) neighbour of `ids` alone from `fr` gives: the
      result at a neighbour is what relaxing it alone from `fr` gives, and nothing outside
      the neighbours changes. */
  ghost predicate RelaxedAlone(fr: Frontier, ids: seq<NodeId>, r: Frontier, cur: NodeId, closed: set<NodeId>, target: Pos, m: Metric)
    requires cur in fr.nodes && forall id :: id in ids ==> id in fr.nodes
  {
    && r.nodes.Keys == fr.nodes.Keys
    && (forall id :: id in fr.nodes && id !in ids ==> r.nodes[id] == fr.nodes[id])
    && (forall id :: id !in ids ==> (id in r.open <==> id in fr.open))
    && (forall id :: id in ids ==>
          && r.nodes[id] == Relax(fr, id, cur, closed, target, m).nodes[id]
          && (id in r.open <==> id in Relax(fr, id, cur, closed, target, m).open))
  }

  /** The inductive step of `RelaxAllEffect`: one more neighbour, not among the previous ones. */
  lemma RelaxAlonePlusOne(fr: Frontier, front: seq<NodeId>, last: NodeId, cur: NodeId, closed: set<NodeId>, target: Pos, m: Metric)
    requires cur in fr.nodes && cur in closed && last in fr.nodes && forall id :: id in front ==> id in fr.nodes
    requires last !in front
    requires RelaxedAlone(fr, front, RelaxAll(fr, front, cur, closed, target, m), cur, closed, target, m)
    ensures RelaxedAlone(fr, front + [last], RelaxAll(fr, front + [last], cur, closed, target, m), cur, closed, target, m)
  {
    var ids := front + [last];
    assert ids[..|ids| - 1] == front;
    var mid := RelaxAll(fr, front, cur, closed, target, m);
    assert mid.nodes[cur] == fr.nodes[cur] by {
      if cur in front {
        assert Relax(fr, cur, cur, closed, target, m) == fr;
      }
    }
    var r := Relax(mid, last, cur, closed, target, m);
    assert RelaxAll(fr, ids, cur, closed, target, m) == r;
    RelaxFrame(mid, last, cur, closed, target, m);
    RelaxLocal(mid, fr, last, cur, closed, target, m);
    forall id | id in fr.nodes && id !in ids
      ensures r.nodes[id] == fr.nodes[id]
    {
      assert id != last && id !in front;
    }
    forall id | id !in ids
      ensures id in r.open <==> id in fr.open
    {
      assert id != last && id !in front;
    }
    forall id | id in ids
      ensures r.nodes[id] == Relax(fr, id, cur, closed, target, m).nodes[id]
      ensures id in r.open <==> id in Relax(fr, id, cur, closed, target, m).open
    {
      if id != last {
        assert id in front;
      }
    }
  }

  /** The invariants one relaxation keeps (see `RelaxAllPreserves`). */
  ghost predicate RelaxKeeps(fr: Frontier, r: Frontier, closed: set<NodeId>) {
    && NodesOk(r.nodes)
    && r.nodes.Keys == fr.nodes.Keys
    && fr.open <= r.open <= r.nodes.Keys
    && r.open * closed == fr.open * closed
    && KindsAgree(fr.nodes, r.nodes)
    && forall id :: id in fr.nodes ==> (r.nodes[id].kind == Wall <==> fr.nodes[id].kind == Wall)
  }

  /** The neighbour loop opens no node but the neighbours it is given. */
  lemma {:induction false} RelaxAllOpens(fr: Frontier, ids: seq<NodeId>, cur: NodeId, closed: set<NodeId>, target: Pos, m: Metric)
    requires cur in fr.nodes && forall id :: id in ids ==> id in fr.nodes
    ensures forall id :: id in RelaxAll(fr, ids, cur, closed, target, m).open ==> id in fr.open || id in ids
  {
    if ids != [] {
      var front, last := ids[..|ids| - 1], ids[|ids| - 1];
      assert forall id :: id in front ==> id in ids;
      RelaxAllOpens(fr, front, cur, closed, target, m);
      RelaxFrame(RelaxAll(fr, front, cur, closed, target, m), last, cur, closed, target, m);
    }
  }

  lemma RelaxKeepsTransitive(a: Frontier, b: Frontier, c: Frontier, closed: set<NodeId>)
    requires RelaxKeeps(a, b, closed) && RelaxKeeps(b, c, closed)
    ensures RelaxKeeps(a, c, closed)
  {
  }

  lemma RelaxPreserves(fr: Frontier, id: NodeId, cur: NodeId, closed: set<NodeId>, target: Pos, m: Metric)
    requires id in fr.nodes && cur in fr.nodes
    requires NodesOk(fr.nodes) && fr.open <= fr.nodes.Keys
    ensures RelaxKeeps(fr, Relax(fr, id, cur, closed, target, m), closed)
  {
    var r := Relax(fr, id, cur, closed, target, m);
    if r != fr {
      RelaxFrame(fr, id, cur, closed, target, m);
      var n, c := fr.nodes[id], fr.nodes[cur];
      var newCost := c.g + Distance(m, c.pos, n.pos);
      assert n.kind != Wall && id !in closed;
      assert r.nodes[id].parent == Some(cur) && r.nodes[id].g == newCost;
      assert r.nodes[id].h == Finite(Distance(m, n.pos, target));
      assert WellCosted(r.nodes[id]);
    }
  }

  /** The neighbour loop keeps every node well costed, never makes or unmakes a START, TARGET
      or WALL, moves no node, and opens only nodes that are not closed. */
  lemma {:induction false} RelaxAllPreserves(fr: Frontier, ids: seq<NodeId>, cur: NodeId, closed: set<NodeId>, target: Pos, m: Metric)
    requires cur in fr.nodes && forall id :: id in ids ==> id in fr.nodes
    requires NodesOk(fr.nodes) && fr.open <= fr.nodes.Keys
    ensures RelaxKeeps(fr, RelaxAll(fr, ids, cur, closed, target, m), closed)
  {
    if ids == [] {
    } else {
      var front, last := ids[..|ids| - 1], ids[|ids| - 1];
      assert forall id :: id in front ==> id in ids;
      RelaxAllPreserves(fr, front, cur, closed, target, m);
      var mid := RelaxAll(fr, front, cur, closed, target, m);
      RelaxPreserves(mid, last, cur, closed, target, m);
      RelaxKeepsTransitive(fr, mid, Relax(mid, last, cur, closed, target, m), closed);
    }
  }

  /** One turn of the neighbour loop of `find_path`, on the nodes and the open set. */
  method RelaxOne(nodes: map<NodeId, Node>, open: set<NodeId>, id: NodeId, cur: NodeId, closed: set<NodeId>, target: Pos, m: Metric)
    returns (nodes': map<NodeId, Node>, open': set<NodeId>)
    requires id in nodes && cur in nodes
    ensures Frontier(nodes', open') == Relax(Frontier(nodes, open), id, cur, closed, target, m)
  {
    nodes', open' := nodes, open;
    var n := nodes[id];
    if n.kind != Wall && id !in closed {
      var newCost := nodes[cur].g + Distance(m, nodes[cur].pos, n.pos);
      if newCost < n.g || id !in open {
        var h := Distance(m, n.pos, target);
        nodes' := nodes[id := n.(g := newCost, h := Finite(h), f := Finite(newCost + h), parent := Some(cur))];
        if id !in open {
          nodes' := nodes'[id := nodes'[id].(kind := OpenedKind(nodes'[id].kind))];
          open' := open + {id};
        }
      }
    }
  }

  /** The neighbour loop of `find_path`: each node of `ids` in turn is skipped if it is a
      wall or closed, and otherwise gets `cur` as parent and the new costs when it is not yet
      open or the route through `cur` is cheaper, joining the open set (drawn as
      `add_to_open` draws it) if it was not in it. */
  method RelaxNeighbors(fr: Frontier, ids: seq<NodeId>, cur: NodeId, closed: set<NodeId>, target: Pos, m: Metric)
    returns (r: Frontier)
    requires cur in fr.nodes && forall id :: id in ids ==> id in fr.nodes
    ensures r == RelaxAll(fr, ids, cur, closed, target, m)
  {
    var nodes: map<NodeId, Node>, open: set<NodeId> := fr.nodes, fr.open;
    var i := 0;
    while i < |ids|
      invariant 0 <= i <= |ids|
      invariant Frontier(nodes, open) == RelaxAll(fr, ids[..i], cur, closed, target, m)
    {
      assert ids[..i + 1][..i] == ids[..i];
      nodes, open := RelaxOne(nodes, open, ids[i], cur, closed, target, m);
      i := i + 1;
    }
    assert ids[..i] == ids;
    r := Frontier(nodes, open);
  }

  /** A neighbour that gets relaxed (not a wall, not closed, and either not open or reached
      more cheaply through `cur`) costs strictly more than the node it now points back to. */
  lemma RelaxedCostsMore(fr: Frontier, id: NodeId, cur: NodeId, closed: set<NodeId>, target: Pos, m: Metric)
    requires id in fr.nodes && cur in fr.nodes
    requires Chebyshev(fr.nodes[cur].pos, fr.nodes[id].pos) == 1
    requires fr.nodes[id].kind != Wall && id !in closed
    requires fr.nodes[cur].g + Distance(m, fr.nodes[cur].pos, fr.nodes[id].pos) < fr.nodes[id].g || id !in fr.open
    ensures Relax(fr, id, cur, closed, target, m).nodes[id].parent == Some(cur)
    ensures Relax(fr, id, cur, closed, target, m).nodes[id].g > fr.nodes[cur].g
  {
    StepCostPositive(m, fr.nodes[cur].pos, fr.nodes[id].pos);
  }

  // ---------------------------------------------------------------------
  // Rebuilding the path from parent links
  // ---------------------------------------------------------------------

  /** `add_node_and_parent_to_path(node)`: the nodes met following `parent` links from `id`,
      as long as the node has a parent, `id` first; the parentless node that ends the chain
      is not included. `seen` holds the nodes already appended; meeting one again means the
      links form a cycle and the recursion would never end, which gives `None`. */
  function ParentChain(nodes: map<NodeId, Node>, id: NodeId, seen: set<NodeId>): (r: Option<seq<NodeId>>)
    requires NodesOk(nodes) && id in nodes
    ensures r.Some? ==> |r.value| <= |nodes.Keys - seen|
    decreases nodes.Keys - seen
  {
    match nodes[id].parent
    case None => Some([])
    case Some(p) =>
      if id in seen then None
      else
        match ParentChain(nodes, p, seen + {id})
        case None => None
        case Some(rest) =>
          assert nodes.Keys - seen == (nodes.Keys - (seen + {id})) + {id};
          Some([id] + rest)
  }

  /** `prefix` put in front of a chain, if the chain ends. */
  function Extend(prefix: seq<NodeId>, chain: Option<seq<NodeId>>): Option<seq<NodeId>> {
    match chain
    case None => None
    case Some(rest) => Some(prefix + rest)
  }

  lemma ExtendConcat(a: seq<NodeId>, b: seq<NodeId>, chain: Option<seq<NodeId>>)
    ensures Extend(a, Extend(b, chain)) == Extend(a + b, chain)
    ensures Extend([], chain) == chain
  {
    match chain
    case None =>
    case Some(rest) =>
      assert a + (b + rest) == (a + b) + rest;
      assert [] + rest == rest;
  }

  /** The chain is the parent path: it starts at `id` (empty exactly when `id` has no
      parent), each element's parent is the next one, every element has a parent, the last
      one's parent has none, and no element repeats or was seen before. */
  lemma {:induction false} ParentChainShape(nodes: map<NodeId, Node>, id: NodeId, seen: set<NodeId>)
    requires NodesOk(nodes) && id in nodes
    requires ParentChain(nodes, id, seen).Some?
    ensures var r := ParentChain(nodes, id, seen).value;
            && (r == [] <==> nodes[id].parent.None?)
            && (r != [] ==> r[0] == id)
            && (forall i :: 0 <= i < |r| ==> r[i] in nodes && r[i] !in seen && nodes[r[i]].parent.Some?)
            && (forall i :: 0 <= i < |r| - 1 ==> nodes[r[i]].parent == Some(r[i + 1]))
            && (r != [] ==> nodes[nodes[r[|r| - 1]].parent.value].parent.None?)
            && (forall i, j :: 0 <= i < j < |r| ==> r[i] != r[j])
    decreases nodes.Keys - seen
  {
    match nodes[id].parent
    case None =>
    case Some(p) =>
      ParentChainShape(nodes, p, seen + {id});
  }
  /** Every node on a parent chain is a node of the arena. */
  lemma ParentChainInNodes(nodes: map<NodeId, Node>, id: NodeId)
    requires NodesOk(nodes) && id in nodes
    requires ParentChain(nodes, id, {}).Some?
    ensures forall n :: n in ParentChain(nodes, id, {}).value ==> n in nodes
  {
    ParentChainShape(nodes, id, {});
  }


  /** Two nodes that are each other's parent make the chain from either of them loop. */
  lemma MutualParentsLoop(nodes: map<NodeId, Node>, a: NodeId, b: NodeId)
    requires NodesOk(nodes) && a in nodes && b in nodes && a != b
    requires nodes[a].parent == Some(b) && nodes[b].parent == Some(a)
    ensures ParentChain(nodes, a, {}).None?
  {
    assert ParentChain(nodes, b, {a}).None?;
  }

  /** When every parent costs strictly less than its child (the situation A* sets up within
      one search), parent links cannot form a cycle and the chain always ends. */
  lemma {:induction false} ParentChainEnds(nodes: map<NodeId, Node>, id: NodeId, seen: set<NodeId>)
    requires NodesOk(nodes) && id in nodes
    requires forall c :: c in nodes && nodes[c].parent.Some? ==> nodes[nodes[c].parent.value].g < nodes[c].g
    requires forall s :: s in seen && s in nodes ==> nodes[s].g > nodes[id].g
    ensures ParentChain(nodes, id, seen).Some?
    decreases nodes.Keys - seen
  {
    match nodes[id].parent
    case None =>
    case Some(p) =>
      ParentChainEnds(nodes, p, seen + {id});
  }
}
