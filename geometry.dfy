/**
 * Grid geometry shared by both engines: cell positions, the bounds test,
 * the two distance metrics (truncated Euclidean in the root engine, integer
 * octile in the `code/` engine) and neighbour generation.
 */
module Geometry {

  /** A cell position `(x, y)`; x is the column, y the row. */
  datatype Pos = Pos(x: int, y: int)

  /** The distance metric an engine uses for both edge costs and the heuristic. */
  datatype Metric = Euclidean | Octile

  function Abs(n: int): nat {
    if n < 0 then -n else n
  }

  function Min(a: nat, b: nat): nat { if a <= b then a else b }
  function Max(a: nat, b: nat): nat { if a <= b then b else a }

  /** `is_in_bounds`: 0 <= x < columns and 0 <= y < rows. */
  predicate InBounds(p: Pos, columns: int, rows: int): (r: bool)
    ensures r ==> 0 < columns && 0 < rows
  {
    0 <= p.x < columns && 0 <= p.y < rows
  }

  /** Chebyshev distance: the number of king moves between two cells. */
  function Chebyshev(p: Pos, q: Pos): nat {
    Max(Abs(p.x - q.x), Abs(p.y - q.y))
  }

  /** No element occurs twice. */
  predicate Distinct<T(==)>(s: seq<T>) {
    forall i, j :: 0 <= i < j < |s| ==> s[i] != s[j]
  }

  /** One straight or diagonal step from p to q. */
  predicate IsStep(p: Pos, q: Pos, diagonal: bool) {
    if diagonal then Chebyshev(p, q) == 1 else Abs(p.x - q.x) + Abs(p.y - q.y) == 1
  }

  // ---------------------------------------------------------------------
  // Truncated Euclidean distance (root engine)
  // ---------------------------------------------------------------------

  /** Integer square root, rounded down. */
  function FloorSqrt(n: nat): (r: nat)
    ensures r * r <= n < (r + 1) * (r + 1)
  {
    if n == 0 then 0
    else
      var s := FloorSqrt(n - 1);
      if (s + 1) * (s + 1) <= n then
        assert n <= (s + 1) * (s + 1) < (s + 2) * (s + 2);
        s + 1
      else s
  }

  lemma SquareMonotone(a: nat, b: nat)
    requires a <= b
    ensures a * a <= b * b
  {
    assert a * a <= a * b <= b * b;
  }

  /** The floor square root is the only r with r*r <= n < (r+1)*(r+1). */
  lemma FloorSqrtUnique(n: nat, r: nat)
    requires r * r <= n < (r + 1) * (r + 1)
    ensures FloorSqrt(n) == r
  {
    var s := FloorSqrt(n);
    if s < r {
      SquareMonotone(s + 1, r);
    } else if r < s {
      SquareMonotone(r + 1, s);
    }
  }

  /** `get_distance` of the root engine: int(sqrt(dx*dx + dy*dy)). */
  function EuclideanDistance(p: Pos, q: Pos): (r: nat)
    ensures Chebyshev(p, q) <= r <= Abs(p.x - q.x) + Abs(p.y - q.y)
  {
    var dx, dy := Abs(p.x - q.x), Abs(p.y - q.y);
    var n := dx * dx + dy * dy;
    FloorSqrtBetween(n, dx, dy);
    FloorSqrt(n)
  }

  /** The floor square root of a*a + b*b lies between max(a, b) and a + b. */
  lemma FloorSqrtBetween(n: nat, a: nat, b: nat)
    requires n == a * a + b * b
    ensures Max(a, b) <= FloorSqrt(n) <= a + b
  {
    SquaresBetween(a, b);
    FloorSqrtWithin(n, Max(a, b), a + b);
  }

  /** The floor square root of n lies between any lo and hi with lo*lo <= n <= hi*hi. */
  lemma FloorSqrtWithin(n: nat, lo: nat, hi: nat)
    requires lo * lo <= n <= hi * hi
    ensures lo <= FloorSqrt(n) <= hi
  {
    var r := FloorSqrt(n);
    assert hi * hi < (hi + 1) * (hi + 1) by {
      assert (hi + 1) * (hi + 1) == hi * hi + 2 * hi + 1;
    }
    if r < lo {
      SquareMonotone(r + 1, lo);
    }
    if hi < r {
      SquareMonotone(hi + 1, r);
    }
  }

  /** max(a, b)^2 <= a*a + b*b <= (a + b)^2. */
  lemma SquaresBetween(a: nat, b: nat)
    ensures Max(a, b) * Max(a, b) <= a * a + b * b <= (a + b) * (a + b)
  {
    assert (a + b) * (a + b) == a * a + 2 * (a * b) + b * b;
    assert a * b >= 0;
  }

  /** The truncated Euclidean distance is symmetric, zero exactly on equal positions, and
      the largest r with r*r <= dx*dx + dy*dy. */
  lemma EuclideanDistanceProperties(p: Pos, q: Pos)
    ensures EuclideanDistance(p, q) == EuclideanDistance(q, p)
    ensures EuclideanDistance(p, q) == 0 <==> p == q
    ensures var dx, dy := Abs(p.x - q.x), Abs(p.y - q.y);
            var r := EuclideanDistance(p, q);
            r * r <= dx * dx + dy * dy < (r + 1) * (r + 1)
  {
    var dx, dy := Abs(p.x - q.x), Abs(p.y - q.y);
    assert Abs(q.x - p.x) == dx && Abs(q.y - p.y) == dy;
    if p != q {
      assert dx >= 1 || dy >= 1;
      if dx >= 1 { SquareMonotone(1, dx); } else { SquareMonotone(1, dy); }
      assert dx * dx + dy * dy >= 1;
    }
  }

  /** Every straight or diagonal neighbour is at truncated Euclidean distance 1. */
  lemma EuclideanStep(p: Pos, q: Pos)
    requires Chebyshev(p, q) == 1
    ensures EuclideanDistance(p, q) == 1
  {
    var dx, dy := Abs(p.x - q.x), Abs(p.y - q.y);
    assert dx <= 1 && dy <= 1 && (dx == 1 || dy == 1);
    assert dx * dx == dx && dy * dy == dy;
    FloorSqrtUnique(dx * dx + dy * dy, 1);
  }

  /** Three diagonal steps are estimated at 4: the heuristic can exceed the true cost 3. */
  lemma EuclideanOverestimates()
    ensures EuclideanDistance(Pos(0, 0), Pos(3, 3)) == 4
  {
    FloorSqrtUnique(18, 4);
  }

  // ---------------------------------------------------------------------
  // Octile distance (code/ engine)
  // ---------------------------------------------------------------------

  /** `get_distance` of the `code/` engine: 14 per diagonal step, 10 per straight step. */
  function OctileDistance(p: Pos, q: Pos): (r: nat)
    ensures 10 * Chebyshev(p, q) <= r <= 14 * Chebyshev(p, q)
  {
    var dx, dy := Abs(p.x - q.x), Abs(p.y - q.y);
    if dx > dy then 14 * dy + 10 * (dx - dy)
    else 14 * dx + 10 * (dy - dx)
  }

  /** The octile distance is 14*min + 10*(max - min) (equivalently 10*max + 4*min), is
      symmetric, is zero exactly on equal positions, and costs 10 for a straight step and 14
      for a diagonal one. */
  lemma OctileDistanceProperties(p: Pos, q: Pos)
    ensures var dx, dy := Abs(p.x - q.x), Abs(p.y - q.y);
            OctileDistance(p, q) == 14 * Min(dx, dy) + 10 * (Max(dx, dy) - Min(dx, dy)) == 10 * Max(dx, dy) + 4 * Min(dx, dy)
    ensures OctileDistance(p, q) == OctileDistance(q, p)
    ensures OctileDistance(p, q) == 0 <==> p == q
    ensures Abs(p.x - q.x) + Abs(p.y - q.y) == 1 ==> OctileDistance(p, q) == 10
    ensures Abs(p.x - q.x) == 1 && Abs(p.y - q.y) == 1 ==> OctileDistance(p, q) == 14
  {
    assert Abs(q.x - p.x) == Abs(p.x - q.x) && Abs(q.y - p.y) == Abs(p.y - q.y);
  }

  /** The metric an engine is configured with. */
  function Distance(m: Metric, p: Pos, q: Pos): nat {
    match m
    case Euclidean => EuclideanDistance(p, q)
    case Octile => OctileDistance(p, q)
  }

  /** A step between neighbours always costs at least 1 under either metric, so a relaxed
      neighbour's g cost strictly exceeds its new parent's. */
  lemma StepCostPositive(m: Metric, p: Pos, q: Pos)
    requires Chebyshev(p, q) == 1
    ensures Distance(m, p, q) >= 1
  {
    match m
    case Euclidean => EuclideanStep(p, q);
    case Octile => OctileDistanceProperties(p, q);
  }

  // ---------------------------------------------------------------------
  // Neighbours
  // ---------------------------------------------------------------------

  /** The offsets `get_neighbors` tries, in the source's order. */
  function Offsets(diagonal: bool): (r: seq<Pos>)
    ensures diagonal ==> |r| == 8
    ensures !diagonal ==> |r| == 4
  {
    if diagonal then
      [Pos(-1, -1), Pos(0, -1), Pos(1, -1), Pos(-1, 0), Pos(1, 0), Pos(-1, 1), Pos(0, 1), Pos(1, 1)]
    else
      [Pos(0, -1), Pos(-1, 0), Pos(1, 0), Pos(0, 1)]
  }

  /** The offsets are exactly the unit steps: the eight king moves, or the four rook moves. */
  lemma OffsetsAreSteps(diagonal: bool, o: Pos)
    ensures o in Offsets(diagonal) <==> IsStep(Pos(0, 0), o, diagonal)
  {
    if IsStep(Pos(0, 0), o, diagonal) {
      assert -1 <= o.x <= 1 && -1 <= o.y <= 1;
    }
  }

  /** No offset is tried twice. */
  lemma OffsetsDistinct(diagonal: bool)
    ensures Distinct(Offsets(diagonal))
  {
  }

  function Shift(p: Pos, o: Pos): Pos { Pos(p.x + o.x, p.y + o.y) }
  function Delta(q: Pos, p: Pos): Pos { Pos(q.x - p.x, q.y - p.y) }

  /** The in-bounds cells among p shifted by each offset, in offset order. */
  function ShiftedInBounds(p: Pos, offsets: seq<Pos>, columns: int, rows: int): (r: seq<Pos>)
    ensures |r| <= |offsets|
    ensures forall q :: q in r <==> InBounds(q, columns, rows) && Delta(q, p) in offsets
  {
    if offsets == [] then []
    else
      var q := Shift(p, offsets[0]);
      assert Delta(q, p) == offsets[0];
      var rest := ShiftedInBounds(p, offsets[1..], columns, rows);
      assert forall o :: o in offsets <==> o == offsets[0] || o in offsets[1..];
      if InBounds(q, columns, rows) then
        [q] + rest
      else rest
  }

  /** Distinct offsets give distinct cells. */
  lemma {:induction false} ShiftedInBoundsDistinct(p: Pos, offsets: seq<Pos>, columns: int, rows: int)
    requires Distinct(offsets)
    ensures Distinct(ShiftedInBounds(p, offsets, columns, rows))
  {
    if offsets != [] {
      var rest := offsets[1..];
      assert Distinct(rest) by {
        forall i, j | 0 <= i < j < |rest| ensures rest[i] != rest[j] {
          assert rest[i] == offsets[i + 1] && rest[j] == offsets[j + 1];
        }
      }
      ShiftedInBoundsDistinct(p, rest, columns, rows);
      var q := Shift(p, offsets[0]);
      assert Delta(q, p) == offsets[0];
      assert offsets[0] !in rest by {
        forall k | 0 <= k < |rest| ensures rest[k] != offsets[0] {
          assert rest[k] == offsets[k + 1];
        }
      }
      var restR := ShiftedInBounds(p, rest, columns, rows);
      assert q !in restR;
      var r := ShiftedInBounds(p, offsets, columns, rows);
      if InBounds(q, columns, rows) {
        assert r == [q] + restR;
        forall i, j | 0 <= i < j < |r| ensures r[i] != r[j] {
          assert r[j] == restR[j - 1] && r[j] in restR;
          if i > 0 {
            assert r[i] == restR[i - 1];
            assert 0 <= i - 1 < j - 1 < |restR|;
          }
        }
      } else {
        assert r == restR;
      }
    }
  }

  /** `get_neighbors`: the in-bounds straight (and, with diagonals, diagonal) neighbours. */
  function Neighbors(p: Pos, diagonal: bool, columns: int, rows: int): (r: seq<Pos>)
    ensures diagonal ==> |r| <= 8
    ensures !diagonal ==> |r| <= 4
    ensures forall q :: q in r <==> InBounds(q, columns, rows) && IsStep(p, q, diagonal)
    ensures forall q :: q in r ==> Chebyshev(p, q) == 1 && q != p
  {
    var r := ShiftedInBounds(p, Offsets(diagonal), columns, rows);
    assert forall q :: q in r <==> InBounds(q, columns, rows) && IsStep(p, q, diagonal) by {
      forall q ensures Delta(q, p) in Offsets(diagonal) <==> IsStep(p, q, diagonal) {
        OffsetsAreSteps(diagonal, Delta(q, p));
      }
    }
    r
  }

  /** `get_neighbors` never yields a cell twice. */
  lemma NeighborsDistinct(p: Pos, diagonal: bool, columns: int, rows: int)
    ensures Distinct(Neighbors(p, diagonal, columns, rows))
  {
    OffsetsDistinct(diagonal);
    ShiftedInBoundsDistinct(p, Offsets(diagonal), columns, rows);
    assert Neighbors(p, diagonal, columns, rows) == ShiftedInBounds(p, Offsets(diagonal), columns, rows);
  }
}
