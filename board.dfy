/** The geometry of the diamond board: which cells exist, which quadrant a cell
    lies in, the four canonical edge lists and the (squared) distance metric.
    Everything here is a total function of small integers. */
module Board {
  import opened Constants

  /** The diamond's in-bounds test, computed row by row as the simulator does:
      a row of the lower half with index y holds 2 * (y + 1) cells centred on the
      middle column, and the upper half mirrors it. */
  predicate InBounds(x: int, y: int)
    ensures InBounds(x, y) <==>
      (0 <= y <= 13 && 13 - y <= x <= 14 + y) || (14 <= y <= 27 && y - 14 <= x <= 41 - y)
  {
    var rowSize := y + 1;
    var startX := HalfArena - rowSize;
    var endX := startX + 2 * rowSize - 1;
    var topHalfCheck := y < HalfArena && x >= startX && x <= endX;
    var rowSize' := (ArenaSize - 1 - y) + 1;
    var startX' := HalfArena - rowSize';
    var endX' := startX' + 2 * rowSize' - 1;
    var bottomHalfCheck := y >= HalfArena && x >= startX' && x <= endX';
    bottomHalfCheck || topHalfCheck
  }

  predicate InBoundsAt(c: Coord) {
    InBounds(c.0, c.1)
  }

  /** A cell of the 28 x 28 square (an index pair of the map arrays). */
  predicate InGrid(c: Coord) {
    0 <= c.0 < ArenaSize && 0 <= c.1 < ArenaSize
  }

  /** Every in-bounds cell is a cell of the square. */
  lemma InBoundsInGrid(x: int, y: int)
    requires InBounds(x, y)
    ensures 0 <= x <= 27 && 0 <= y <= 27
  {
  }

  /** The diamond is symmetric under the half-turn about the board's centre
      and under the left-right mirror. */
  lemma InBoundsSymmetric(x: int, y: int)
    ensures InBounds(x, y) <==> InBounds(27 - x, 27 - y)
    ensures InBounds(x, y) <==> InBounds(27 - x, y)
  {
  }

  /** `get_quadrant`: split at 14 on each axis. */
  function Quadrant(x: int, y: int): (q: MapEdges)
    ensures q == BottomLeft <==> x < HalfArena && y < HalfArena
    ensures q == BottomRight <==> x >= HalfArena && y < HalfArena
    ensures q == TopRight <==> x >= HalfArena && y >= HalfArena
    ensures q == TopLeft <==> x < HalfArena && y >= HalfArena
  {
    if x < ArenaSize / 2 && y < ArenaSize / 2 then BottomLeft
    else if x >= ArenaSize / 2 && y < ArenaSize / 2 then BottomRight
    else if x >= ArenaSize / 2 && y >= ArenaSize / 2 then TopRight
    else TopLeft
  }

  /** The n-th cell (0 <= n < 14) of edge q, in the order the simulator lists it:
      each edge starts next to the middle column and runs outwards. */
  function EdgeCell(q: MapEdges, n: int): Coord {
    match q
    case TopRight => (HalfArena + n, ArenaSize - 1 - n)
    case TopLeft => (HalfArena - 1 - n, ArenaSize - 1 - n)
    case BottomLeft => (HalfArena - 1 - n, n)
    case BottomRight => (HalfArena + n, n)
  }

  /** The edge list of quadrant q. */
  function EdgeList(q: MapEdges): (e: seq<Coord>)
    ensures |e| == HalfArena
    ensures forall n :: 0 <= n < HalfArena ==> e[n] == EdgeCell(q, n)
  {
    seq(HalfArena, n => EdgeCell(q, n))
  }

  /** A cell lies on the outer boundary of the diamond inside quadrant q. */
  predicate OnOuterBoundary(q: MapEdges, c: Coord) {
    match q
    case BottomLeft => 0 <= c.1 <= 13 && c.0 == 13 - c.1
    case BottomRight => 0 <= c.1 <= 13 && c.0 == 14 + c.1
    case TopLeft => 14 <= c.1 <= 27 && c.0 == c.1 - 14
    case TopRight => 14 <= c.1 <= 27 && c.0 == 41 - c.1
  }

  /** Each edge list holds 14 distinct in-bounds cells of its own quadrant, and
      they are exactly the diamond's outer-boundary cells of that quadrant. */
  lemma {:induction false} EdgeListFacts(q: MapEdges)
    ensures |EdgeList(q)| == 14
    ensures forall i, j :: 0 <= i < j < 14 ==> EdgeList(q)[i] != EdgeList(q)[j]
    ensures forall c :: c in EdgeList(q) ==> InBoundsAt(c) && Quadrant(c.0, c.1) == q
    ensures forall c :: c in EdgeList(q) <==> OnOuterBoundary(q, c)
  {
    var e := EdgeList(q);
    forall c | c in e ensures InBoundsAt(c) && Quadrant(c.0, c.1) == q && OnOuterBoundary(q, c) {
      var n :| 0 <= n < 14 && e[n] == c;
      assert c == EdgeCell(q, n);
    }
    forall c | OnOuterBoundary(q, c) ensures c in e {
      var n := match q
        case TopRight => c.0 - 14
        case TopLeft => 13 - c.0
        case BottomLeft => c.1
        case BottomRight => c.0 - 14;
      assert e[n] == c;
    }
  }

  /** A cell that is on the edge list of its own quadrant. This is the test the
      movement phase means by "the stack has reached an edge". */
  predicate AtEdge(c: Coord) {
    c in EdgeList(Quadrant(c.0, c.1))
  }

  /** An in-bounds cell is at an edge of its quadrant exactly when it lies on
      the diamond's outer boundary. */
  lemma {:induction false} AtEdgeIffOuterBoundary(c: Coord)
    requires InBoundsAt(c)
    ensures AtEdge(c) <==> OnOuterBoundary(Quadrant(c.0, c.1), c)
  {
    EdgeListFacts(Quadrant(c.0, c.1));
  }

  /** Squared Euclidean distance; comparing it orders locations exactly as the
      square-rooted distance does. */
  function DistSq(a: Coord, b: Coord): (d: int)
    ensures d >= 0
    ensures d == 0 <==> a == b
  {
    Square(a.0 - b.0) + Square(a.1 - b.1)
  }

  function Square(d: int): (s: int)
    ensures s >= 0
    ensures s == 0 <==> d == 0
  {
    if d == 0 then 0 else SquareAtLeastOne(d); d * d
  }

  /** The four orthogonal neighbours, in the order the pathfinder lists them:
      up, down, right, left. */
  function Neighbors(c: Coord): (ns: seq<Coord>)
    ensures |ns| == 4
    ensures forall n :: n in ns <==> Adjacent(c, n)
  {
    var (x, y) := c;
    [(x, y + 1), (x, y - 1), (x + 1, y), (x - 1, y)]
  }

  /** One orthogonal step apart. */
  predicate Adjacent(a: Coord, b: Coord) {
    (a.0 == b.0 && (b.1 == a.1 + 1 || b.1 == a.1 - 1)) ||
    (a.1 == b.1 && (b.0 == a.0 + 1 || b.0 == a.0 - 1))
  }

  /** The neighbours of a cell are exactly the cells at distance one. */
  lemma {:induction false} AdjacentIffUnitDistance(a: Coord, b: Coord)
    ensures Adjacent(a, b) <==> DistSq(a, b) == 1
  {
    if DistSq(a, b) == 1 {
      UnitDistance(a, b);
    }
  }

  lemma UnitDistance(a: Coord, b: Coord)
    requires DistSq(a, b) == 1
    ensures (a.0 == b.0 && (b.1 == a.1 + 1 || b.1 == a.1 - 1)) ||
            (a.1 == b.1 && (b.0 == a.0 + 1 || b.0 == a.0 - 1))
  {
    var dx, dy := a.0 - b.0, a.1 - b.1;
    if dx == 0 {
      SquareIsOne(dy);
    } else if dy == 0 {
      SquareIsOne(dx);
    } else {
      SquareAtLeastOne(dx);
      SquareAtLeastOne(dy);
    }
  }

  lemma SquareIsOne(d: int)
    requires d * d == 1
    ensures d == 1 || d == -1
  {
    if d >= 2 || d <= -2 {
      SquareAtLeastOne(d - 1);
      SquareAtLeastOne(d + 1);
      assert false;
    }
  }

  lemma SquareAtLeastOne(d: int)
    requires d != 0
    ensures d * d >= 1
  {
    if d > 0 {
      assert d * d >= d * 1;
    } else {
      assert d * d == (-d) * (-d) >= (-d) * 1;
    }
  }
}
