/** The pathfinder: an idealness search that finds the most desirable cell of
    the pocket a walker stands in, a breadth-first labelling of path lengths
    from that cell (or from the whole target edge), and a walk down the labels
    that prefers to alternate between vertical and horizontal moves. */
module Navigation {
  import opened Constants
  import opened Board
  import opened GameMap
  import opened Labelling

  /** A cell of the pathfinder's scratch grid. */
  datatype Node = Node(visitedIdealness: bool, visitedValidate: bool, blocked: bool, pathlength: int)

  const FreshNode: Node := Node(false, false, false, -1)

  /** A location as the simulator holds it: the start point is a tuple, while
      neighbour lists and edge lists hold two-element lists. A tuple never
      equals a list, so only a `List` can be found among the endpoints. */
  datatype Location = Tuple(xy: Coord) | List(xy: Coord)

  /** `location in end_points`. */
  predicate ListedIn(loc: Location, endPoints: seq<Coord>) {
    loc.List? && loc.xy in endPoints
  }

  /** The cells the breadth-first labelling starts from: the whole edge when
      the ideal tile is found among the endpoints, otherwise the ideal tile. */
  function Seeds(idealTile: Location, endPoints: seq<Coord>): set<Coord> {
    if ListedIn(idealTile, endPoints) then set e | e in endPoints else {idealTile.xy}
  }

  /** The previous-move codes of the path walk; 0 means "no move yet". */
  const Horizontal: int := 1
  const Vertical: int := 2

  /** `_get_direction_from_endpoints`: the signs of the target edge's side,
      read off its first cell. */
  function Direction(endPoints: seq<Coord>): (d: (int, int))
    requires endPoints != []
    ensures d.0 == 1 || d.0 == -1
    ensures d.1 == 1 || d.1 == -1
    ensures d.0 == -1 <==> endPoints[0].0 < HalfArena
    ensures d.1 == -1 <==> endPoints[0].1 < HalfArena
  {
    var (x, y) := endPoints[0];
    ((if x < HalfArena then -1 else 1), (if y < HalfArena then -1 else 1))
  }

  /** How far a cell lies towards the target edge's row side and column side. */
  function Row(c: Coord, dir: (int, int)): int {
    if dir.1 == 1 then c.1 else 27 - c.1
  }

  function Column(c: Coord, dir: (int, int)): int {
    if dir.0 == 1 then c.0 else 27 - c.0
  }

  /** The positional part of `_get_idealness`. */
  function Positional(c: Coord, dir: (int, int)): int {
    28 * Row(c, dir) + Column(c, dir)
  }

  /** `_get_idealness`: an endpoint is perfectly ideal; any other cell scores by
      its position. */
  function Idealness(loc: Location, endPoints: seq<Coord>): (s: int)
    requires endPoints != []
    ensures ListedIn(loc, endPoints) ==> s == MaxSize
    ensures !ListedIn(loc, endPoints) && InGrid(loc.xy) ==> 0 <= s <= 783
  {
    if ListedIn(loc, endPoints) then MaxSize else Positional(loc.xy, Direction(endPoints))
  }

  /** Positional scores order cells by row first, then by column: one row
      nearer the target side outweighs any column. */
  lemma PositionalOrder(a: Coord, b: Coord, dir: (int, int))
    requires InGrid(a) && InGrid(b)
    ensures Positional(a, dir) < Positional(b, dir) <==>
      Row(a, dir) < Row(b, dir) || (Row(a, dir) == Row(b, dir) && Column(a, dir) < Column(b, dir))
    ensures Positional(a, dir) == Positional(b, dir) <==> a == b
  {
  }

  /** A listed endpoint is strictly more ideal than any other cell of the board. */
  lemma EndpointMostIdeal(e: Location, c: Location, endPoints: seq<Coord>)
    requires endPoints != [] && ListedIn(e, endPoints) && !ListedIn(c, endPoints) && InGrid(c.xy)
    ensures Idealness(c, endPoints) < Idealness(e, endPoints)
  {
  }

  /** `_better_direction`: would the walker rather step to newTile than to
      prevBest, standing on prevTile after a move of kind previous? */
  function BetterDirection(prevTile: Coord, newTile: Coord, prevBest: Coord, previous: int, dir: (int, int)): bool {
    if previous == Horizontal && newTile.0 != prevBest.0 then prevTile.1 != newTile.1
    else if previous == Vertical && newTile.1 != prevBest.1 then prevTile.0 != newTile.0
    else if previous == 0 then prevTile.1 != newTile.1
    else if newTile.1 == prevBest.1 then
      (dir.0 == 1 && newTile.0 > prevBest.0) || (dir.0 == -1 && newTile.0 < prevBest.0)
    else if newTile.0 == prevBest.0 then
      (dir.1 == 1 && newTile.1 > prevBest.1) || (dir.1 == -1 && newTile.1 < prevBest.1)
    else true
  }

  /** What `_choose_next_move` sees of one neighbour: where it is, whether it is
      in bounds and unblocked, and its path length. */
  datatype Candidate = Candidate(pos: Coord, open: bool, len: int)

  /** One round of `_choose_next_move`: the champion (location, path length)
      after neighbour n has been considered. */
  function Consider(c: Coord, previous: int, dir: (int, int), best: (Coord, int), n: Candidate): (Coord, int) {
    if !n.open then best
    else if n.len > best.1 then best
    else if n.len < best.1 then (n.pos, n.len)
    else if BetterDirection(c, n.pos, best.0, previous, dir) then (n.pos, n.len)
    else best
  }

  /** The champion after the candidates have been considered in order. */
  function ConsiderAll(c: Coord, previous: int, dir: (int, int), best: (Coord, int), ns: seq<Candidate>): (Coord, int)
    decreases |ns|
  {
    if ns == [] then best else ConsiderAll(c, previous, dir, Consider(c, previous, dir, best, ns[0]), ns[1..])
  }

  /** The kind of a move: vertical when the column is unchanged. */
  function MoveDirection(from: Coord, to: Coord): int {
    if from.0 == to.0 then Vertical else Horizontal
  }

  /** A neighbour one step nearer the seeds. */
  predicate Lower(n: Candidate, len: int) {
    n.open && n.len == len - 1
  }

  /** The step rule as a table. up, down, right and left say which neighbours
      are one step nearer. With no previous move: down, then up, then right,
      then left. After a horizontal move a vertical step is preferred (both
      available: towards the target side); otherwise right before left. After a
      vertical move a horizontal step is preferred (both available: towards the
      target side); otherwise up before down. */
  function TableChoice(c: Coord, previous: int, dir: (int, int), up: bool, down: bool, right: bool, left: bool): Coord {
    var (x, y) := c;
    if previous == Vertical then
      if right && left then (if dir.0 < 0 then (x - 1, y) else (x + 1, y))
      else if right then (x + 1, y)
      else if left then (x - 1, y)
      else if up then (x, y + 1)
      else (x, y - 1)
    else if previous == Horizontal then
      if up && down then (if dir.1 < 0 then (x, y - 1) else (x, y + 1))
      else if up then (x, y + 1)
      else if down then (x, y - 1)
      else if right then (x + 1, y)
      else (x - 1, y)
    else
      if down then (x, y - 1)
      else if up then (x, y + 1)
      else if right then (x + 1, y)
      else (x - 1, y)
  }

  /** Four considerations in a row. */
  lemma ConsiderFour(c: Coord, previous: int, dir: (int, int), best: (Coord, int), ns: seq<Candidate>)
    requires |ns| == 4
    ensures ConsiderAll(c, previous, dir, best, ns) ==
      Consider(c, previous, dir, Consider(c, previous, dir, Consider(c, previous, dir, Consider(c, previous, dir, best, ns[0]), ns[1]), ns[2]), ns[3])
  {
    var b1 := Consider(c, previous, dir, best, ns[0]);
    var b2 := Consider(c, previous, dir, b1, ns[1]);
    var b3 := Consider(c, previous, dir, b2, ns[2]);
    assert ns[1..][1..] == ns[2..] && ns[2..][1..] == ns[3..] && ns[3..][1..] == [];
    calc {
      ConsiderAll(c, previous, dir, best, ns);
      ConsiderAll(c, previous, dir, b1, ns[1..]);
      ConsiderAll(c, previous, dir, b2, ns[2..]);
      ConsiderAll(c, previous, dir, b3, ns[3..]);
      ConsiderAll(c, previous, dir, Consider(c, previous, dir, b3, ns[3]), []);
    }
  }

  /** When the path lengths around c are those of a breadth-first labelling
      (every open neighbour within one of c's length, at least one exactly one
      less), `_choose_next_move` picks a neighbour one step nearer, and which
      one is given by the table. */
  lemma {:induction false} ChoiceFollowsTable(c: Coord, len: int, previous: int, dir: (int, int), ns: seq<Candidate>)
    requires |ns| == 4 && forall k :: 0 <= k < 4 ==> ns[k].pos == Neighbors(c)[k]
    requires forall k :: 0 <= k < 4 && ns[k].open ==> len - 1 <= ns[k].len <= len + 1
    requires Lower(ns[0], len) || Lower(ns[1], len) || Lower(ns[2], len) || Lower(ns[3], len)
    requires previous == 0 || previous == Horizontal || previous == Vertical
    requires (dir.0 == 1 || dir.0 == -1) && (dir.1 == 1 || dir.1 == -1)
    ensures ConsiderAll(c, previous, dir, (c, len), ns) ==
      (TableChoice(c, previous, dir, Lower(ns[0], len), Lower(ns[1], len), Lower(ns[2], len), Lower(ns[3], len)), len - 1)
  {
    ConsiderFour(c, previous, dir, (c, len), ns);
    var (x, y) := c;
    assert ns[0].pos == (x, y + 1) && ns[1].pos == (x, y - 1);
    assert ns[2].pos == (x + 1, y) && ns[3].pos == (x - 1, y);
    if previous == 0 {
    } else if previous == Horizontal {
    } else {
    }
  }

  /** The table picks one of the neighbours it was told is nearer. */
  lemma TableChoiceLower(c: Coord, previous: int, dir: (int, int), up: bool, down: bool, right: bool, left: bool)
    requires up || down || right || left
    ensures var r := TableChoice(c, previous, dir, up, down, right, left);
      (up && r == (c.0, c.1 + 1)) || (down && r == (c.0, c.1 - 1)) || (right && r == (c.0 + 1, c.1)) || (left && r == (c.0 - 1, c.1))
  {
  }

  /** The scratch grid: one node per cell of the 28 x 28 square. */
  class Map {
    const nodes: array2<Node>

    constructor ()
      ensures fresh(nodes) && nodes.Length0 == ArenaSize && nodes.Length1 == ArenaSize
      ensures forall x, y :: 0 <= x < ArenaSize && 0 <= y < ArenaSize ==> nodes[x, y] == FreshNode
    {
      nodes := new Node[ArenaSize, ArenaSize]((_, _) => FreshNode);
    }
  }

  class SimShortestPathFinder {
    const simMapRef: SimGameMap
    const gameMap: Map

    /** A pathfinder owns a fresh scratch grid. */
    constructor (simMapRef: SimGameMap)
      requires simMapRef.Shaped()
      ensures this.simMapRef == simMapRef && fresh(gameMap) && fresh(gameMap.nodes)
      ensures Shaped() && Pristine()
    {
      this.simMapRef := simMapRef;
      gameMap := new Map();
    }

    predicate Shaped() {
      simMapRef.Shaped() && gameMap.nodes.Length0 == ArenaSize && gameMap.nodes.Length1 == ArenaSize
    }

    /** No search has touched the scratch grid yet. */
    predicate Pristine()
      requires Shaped()
      reads gameMap.nodes
    {
      forall x, y :: 0 <= x < ArenaSize && 0 <= y < ArenaSize ==> gameMap.nodes[x, y] == FreshNode
    }

    /** The scratch grid as a map from cells to nodes. */
    ghost function Snapshot(): (m: map<Coord, Node>)
      requires Shaped()
      reads gameMap.nodes
      ensures forall x, y :: 0 <= x < ArenaSize && 0 <= y < ArenaSize ==> (x, y) in m && m[(x, y)] == gameMap.nodes[x, y]
    {
      map x, y | 0 <= x < ArenaSize && 0 <= y < ArenaSize :: (x, y) := gameMap.nodes[x, y]
    }

    /** The scratch grid is base with the breadth-first flags and lengths of dist. */
    ghost predicate Relabelled(base: map<Coord, Node>, dist: map<Coord, int>)
      requires Shaped()
      reads gameMap.nodes
    {
      forall x, y {:trigger gameMap.nodes[x, y]} :: 0 <= x < ArenaSize && 0 <= y < ArenaSize ==>
        (x, y) in base &&
        gameMap.nodes[x, y] == base[(x, y)].(visitedValidate := (x, y) in dist, pathlength := Dist(dist, (x, y)))
    }

    /** free holds exactly the in-bounds cells that base does not mark blocked. */
    ghost predicate FreeIn(base: map<Coord, Node>, free: set<Coord>) {
      forall c {:trigger InBoundsAt(c)} :: c in free <==> InBoundsAt(c) && c in base && !base[c].blocked
    }

    /** The path length recorded for a cell (-1 when it was never reached). */
    function Label(c: Coord): int
      requires Shaped() && InGrid(c)
      reads gameMap.nodes
    {
      gameMap.nodes[c.0, c.1].pathlength
    }

    /** A cell a walker may stand on: in bounds and free of structures. */
    predicate Open(c: Coord)
      requires Shaped()
      reads simMapRef.cells
    {
      InBoundsAt(c) && !simMapRef.ContainsStationaryUnit(c)
    }

    /** The scratch grid's blocked flags mirror the structures on the map. */
    ghost predicate Synced()
      requires Shaped()
      reads gameMap.nodes, simMapRef.cells
    {
      forall x, y {:trigger gameMap.nodes[x, y]} :: 0 <= x < ArenaSize && 0 <= y < ArenaSize ==>
        gameMap.nodes[x, y].blocked == simMapRef.ContainsStationaryUnit((x, y))
    }

    /** A sequence of cells, each after the first open and next to the one before. */
    ghost predicate OpenWalk(w: seq<Coord>)
      requires Shaped()
      reads simMapRef.cells
    {
      |w| >= 1 && forall i :: 0 < i < |w| ==> Adjacent(w[i - 1], w[i]) && Open(w[i])
    }

    /** pocket is the set of cells reachable from start through open cells:
        it holds start, every member is open and reached by a walk, and it is
        closed under stepping to an open neighbour. */
    ghost predicate Pocket(start: Coord, pocket: set<Coord>)
      requires Shaped()
      reads simMapRef.cells
    {
      start in pocket &&
      (forall c :: c in pocket ==> Open(c)) &&
      (forall c :: c in pocket ==> exists w :: OpenWalk(w) && w[0] == start && w[|w| - 1] == c) &&
      (forall c, n :: c in pocket && n in Neighbors(c) && Open(n) ==> n in pocket)
    }

    /** The path lengths form a breadth-first labelling: open neighbours of a
        labelled open cell are labelled and at most one further away, and every
        cell at length k >= 1 is open and has an open neighbour at length k - 1. */
    ghost predicate Consistent()
      requires Shaped()
      reads gameMap.nodes, simMapRef.cells
    {
      (forall a, n {:trigger Adjacent(a, n)} :: Open(a) && Label(a) >= 0 && Adjacent(a, n) && Open(n) ==> 0 <= Label(n) <= Label(a) + 1) &&
      (forall c {:trigger HasLower(c, Label(c))} :: InGrid(c) && Label(c) >= 1 ==> Open(c) && HasLower(c, Label(c)))
    }

    /** One of the four neighbours of c is open and labelled len - 1. */
    predicate HasLower(c: Coord, len: int)
      requires Shaped()
      reads gameMap.nodes, simMapRef.cells
    {
      var (x, y) := c;
      LowerAt((x, y + 1), len) || LowerAt((x, y - 1), len) || LowerAt((x + 1, y), len) || LowerAt((x - 1, y), len)
    }

    /** How `_choose_next_move` sees the neighbour n. */
    function CandidateAt(n: Coord): Candidate
      requires Shaped()
      reads gameMap.nodes, simMapRef.cells
    {
      Candidate(n, Open(n), if Open(n) then Label(n) else -1)
    }

    /** The four neighbours of c in the order they are considered. */
    function Candidates(c: Coord): (ns: seq<Candidate>)
      requires Shaped()
      reads gameMap.nodes, simMapRef.cells
      ensures |ns| == 4 && forall k :: 0 <= k < 4 ==> ns[k] == CandidateAt(Neighbors(c)[k])
    {
      var n := Neighbors(c);
      [CandidateAt(n[0]), CandidateAt(n[1]), CandidateAt(n[2]), CandidateAt(n[3])]
    }

    /** n is open and labelled len - 1. */
    predicate LowerAt(n: Coord, len: int)
      requires Shaped()
      reads gameMap.nodes, simMapRef.cells
    {
      Open(n) && Label(n) == len - 1
    }

    /** The step the table prescribes at c. */
    function PreferredStep(c: Coord, previous: int, dir: (int, int)): Coord
      requires Shaped() && InGrid(c)
      reads gameMap.nodes, simMapRef.cells
    {
      var (x, y) := c;
      var len := Label(c);
      TableChoice(c, previous, dir, LowerAt((x, y + 1), len), LowerAt((x, y - 1), len), LowerAt((x + 1, y), len), LowerAt((x - 1, y), len))
    }

    /** walks holds, for every cell of the pocket, an open walk to it from start. */
    ghost predicate WalksTo(start: Coord, pocket: set<Coord>, walks: map<Coord, seq<Coord>>)
      requires Shaped()
      reads simMapRef.cells
    {
      forall c :: c in pocket ==>
        c in walks && OpenWalk(walks[c]) && walks[c][0] == start && walks[c][|walks[c]| - 1] == c
    }

    /** Stepping from a pocket cell to open neighbours extends its walk. */
    lemma {:induction false} WalksGrowAll(start: Coord, pocket: set<Coord>, walks: map<Coord, seq<Coord>>, from: Coord,
                                          added: seq<Coord>)
      returns (walks': map<Coord, seq<Coord>>)
      requires Shaped() && WalksTo(start, pocket, walks) && from in pocket
      requires forall n :: n in added ==> n in Neighbors(from) && Open(n)
      ensures WalksTo(start, pocket + (set n | n in added), walks')
      decreases |added|
    {
      if added == [] {
        walks' := walks;
        assert pocket + (set n | n in added) == pocket;
      } else {
        var n := added[0];
        var w := walks[from];
        WalkAppend(w, n);
        var grown := walks[n := w + [n]];
        assert WalksTo(start, pocket + {n}, grown);
        walks' := WalksGrowAll(start, pocket + {n}, grown, from, added[1..]);
        assert pocket + {n} + (set m | m in added[1..]) == pocket + (set m | m in added);
      }
    }

    lemma WalkAppend(w: seq<Coord>, n: Coord)
      requires Shaped() && OpenWalk(w) && n in Neighbors(w[|w| - 1]) && Open(n)
      ensures OpenWalk(w + [n]) && (w + [n])[0] == w[0] && (w + [n])[|w|] == n
    {
      var v := w + [n];
      forall i | 0 < i < |v| ensures Adjacent(v[i - 1], v[i]) && Open(v[i]) {
        if i < |w| {
          assert v[i - 1] == w[i - 1] && v[i] == w[i];
        }
      }
    }

    lemma WalkPrefix(w: seq<Coord>)
      requires Shaped() && OpenWalk(w) && |w| > 1
      ensures OpenWalk(w[..|w| - 1])
    {
      var v := w[..|w| - 1];
      forall i | 0 < i < |v| ensures Adjacent(v[i - 1], v[i]) && Open(v[i]) {
        assert v[i - 1] == w[i - 1] && v[i] == w[i];
      }
    }

    lemma WalkSuffix(w: seq<Coord>)
      requires Shaped() && OpenWalk(w) && |w| > 1
      ensures OpenWalk(w[1..]) && Open(w[1]) && Adjacent(w[0], w[1])
    {
      var v := w[1..];
      forall i | 0 < i < |v| ensures Adjacent(v[i - 1], v[i]) && Open(v[i]) {
        assert v[i - 1] == w[i] && v[i] == w[i + 1];
      }
    }

    /** Labels of adjacent open cells differ by at most one. */
    lemma Graded(a: Coord, b: Coord)
      requires Shaped() && Consistent() && Open(a) && Open(b) && Adjacent(a, b) && Label(a) >= 0
      ensures 0 <= Label(b) && Label(a) <= Label(b) + 1 && Label(b) <= Label(a) + 1
    {
      assert Adjacent(b, a);
    }

    /** Every walk from start ends inside the pocket. */
    lemma {:induction false} WalkStaysInPocket(start: Coord, pocket: set<Coord>, w: seq<Coord>)
      requires Shaped() && Pocket(start, pocket) && OpenWalk(w) && w[0] == start
      ensures w[|w| - 1] in pocket
      decreases |w|
    {
      if |w| > 1 {
        var v := w[..|w| - 1];
        WalkPrefix(w);
        WalkStaysInPocket(start, pocket, v);
        assert w[|w| - 1] in Neighbors(v[|v| - 1]);
      }
    }

    /** Along an open walk leaving a labelled open cell, labels stay defined
        and fall by at most one per step. */
    lemma {:induction false} WalkLabelBound(w: seq<Coord>)
      requires Shaped() && Consistent() && OpenWalk(w) && Open(w[0]) && Label(w[0]) >= 0
      ensures Label(w[|w| - 1]) >= 0 && Label(w[0]) <= |w| - 1 + Label(w[|w| - 1])
      decreases |w|
    {
      if |w| > 1 {
        var v := w[..|w| - 1];
        WalkPrefix(w);
        WalkLabelBound(v);
        Graded(v[|v| - 1], w[|w| - 1]);
      }
    }

    /** A labelled open cell labels every cell of an open walk that leads to it. */
    lemma {:induction false} WalkLabelledBack(w: seq<Coord>)
      requires Shaped() && Consistent() && OpenWalk(w) && Open(w[0])
      requires Label(w[|w| - 1]) >= 0
      ensures Label(w[0]) >= 0
      decreases |w|
    {
      if |w| > 1 {
        var v := w[1..];
        WalkSuffix(w);
        WalkLabelledBack(v);
        Graded(v[0], w[0]);
      }
    }

    /** `_idealness_search`: a breadth-first flood of the open cells reachable
        from start, remembering the most ideal one seen. The start keeps its
        place unless a listed cell scores strictly higher. */
    method IdealnessSearch(start: Coord, endPoints: seq<Coord>) returns (mostIdeal: Location, ghost pocket: set<Coord>)
      requires Shaped() && Synced() && Open(start) && endPoints != []
      requires forall x, y :: 0 <= x < ArenaSize && 0 <= y < ArenaSize ==> !gameMap.nodes[x, y].visitedIdealness
      modifies gameMap.nodes
      ensures forall x, y :: 0 <= x < ArenaSize && 0 <= y < ArenaSize ==>
        gameMap.nodes[x, y] == old(gameMap.nodes[x, y]).(visitedIdealness := (x, y) in pocket)
      ensures Pocket(start, pocket)
      ensures mostIdeal.xy in pocket && (mostIdeal.Tuple? ==> mostIdeal.xy == start)
      ensures Idealness(Tuple(start), endPoints) <= Idealness(mostIdeal, endPoints)
      ensures forall c :: c in pocket && c != start ==> Idealness(List(c), endPoints) <= Idealness(mostIdeal, endPoints)
    {
      var current := [start];
      var bestIdealness := Idealness(Tuple(start), endPoints);
      gameMap.nodes[start.0, start.1] := gameMap.nodes[start.0, start.1].(visitedIdealness := true);
      mostIdeal := Tuple(start);
      pocket := {start};
      ghost var done: set<Coord> := {};
      ghost var walks: map<Coord, seq<Coord>> := map[start := [start]];
      SearchStart(start);
      while current != []
        invariant forall x, y :: 0 <= x < ArenaSize && 0 <= y < ArenaSize ==>
          gameMap.nodes[x, y] == old(gameMap.nodes[x, y]).(visitedIdealness := (x, y) in pocket)
        invariant Searching(start, pocket, done, current, walks)
        invariant BestSoFar(start, pocket, mostIdeal, bestIdealness, endPoints)
        decreases GridCells() - pocket, |current|
      {
        var searchLocation := current[0];
        var added, newMostIdeal, newBest := ScanIdealness(searchLocation, endPoints, pocket, mostIdeal, bestIdealness);
        BestStep(start, pocket, mostIdeal, bestIdealness, searchLocation, added, newMostIdeal, newBest, endPoints);
        walks := SearchStep(start, pocket, done, current, walks, added);
        mostIdeal, bestIdealness := newMostIdeal, newBest;
        current := current[1..] + added;
        pocket := pocket + (set n | n in added);
        done := done + {searchLocation};
      }
      SearchEnd(start, pocket, done, walks);
    }

    /** The state of the idealness flood: the pocket so far holds start, lies in
        the square, is open and walkable from start; queued cells are in it; every
        pocket cell is queued or done; done cells have their open neighbours in it. */
    ghost predicate Searching(start: Coord, pocket: set<Coord>, done: set<Coord>, current: seq<Coord>,
                              walks: map<Coord, seq<Coord>>)
      requires Shaped()
      reads simMapRef.cells
    {
      start in pocket && pocket <= GridCells() && (forall c :: c in pocket ==> Open(c)) &&
      WalksTo(start, pocket, walks) &&
      (forall c :: c in current ==> c in pocket) &&
      (forall c :: c in pocket ==> c in done || c in current) &&
      (forall c, n :: c in done && n in Neighbors(c) && Open(n) ==> n in pocket)
    }

    /** The best score so far is that of mostIdeal, a pocket cell, and no
        pocket cell scores higher. */
    ghost predicate BestSoFar(start: Coord, pocket: set<Coord>, mostIdeal: Location, best: int, endPoints: seq<Coord>)
      requires endPoints != []
    {
      best == Idealness(mostIdeal, endPoints) &&
      mostIdeal.xy in pocket && (mostIdeal.Tuple? ==> mostIdeal.xy == start) &&
      Idealness(Tuple(start), endPoints) <= best &&
      forall c :: c in pocket && c != start ==> Idealness(List(c), endPoints) <= best
    }

    lemma SearchStart(start: Coord)
      requires Shaped() && Open(start)
      ensures Searching(start, {start}, {}, [start], map[start := [start]])
    {
      InGridCells(start);
    }

    /** Expanding the head of the queue keeps the flood's state. */
    lemma SearchStep(start: Coord, pocket: set<Coord>, done: set<Coord>, current: seq<Coord>,
                     walks: map<Coord, seq<Coord>>, added: seq<Coord>)
      returns (walks': map<Coord, seq<Coord>>)
      requires Shaped() && Searching(start, pocket, done, current, walks) && current != []
      requires forall n :: n in added ==> n in Neighbors(current[0]) && Open(n) && n !in pocket
      requires forall n :: n in Neighbors(current[0]) && Open(n) ==> n in pocket || n in added
      ensures Searching(start, pocket + (set n | n in added), done + {current[0]}, current[1..] + added, walks')
      ensures added != [] ==> added[0] in (GridCells() - pocket) - (GridCells() - (pocket + (set n | n in added)))
    {
      walks' := WalksGrowAll(start, pocket, walks, current[0], added);
      forall n | n in added ensures n in GridCells() {
        InGridCells(n);
      }
    }

    /** Scanning the neighbours of a pocket cell keeps the best-so-far facts. */
    lemma BestStep(start: Coord, pocket: set<Coord>, mostIdeal: Location, best: int, searchLocation: Coord,
                   added: seq<Coord>, newMostIdeal: Location, newBest: int, endPoints: seq<Coord>)
      requires Shaped() && endPoints != [] && BestSoFar(start, pocket, mostIdeal, best, endPoints)
      requires forall n :: n in added ==> n in Neighbors(searchLocation) && Open(n) && n !in pocket
      requires forall n :: n in Neighbors(searchLocation) && Open(n) ==> n in pocket || n in added
      requires newBest == Idealness(newMostIdeal, endPoints) && best <= newBest
      requires newMostIdeal == mostIdeal || (newMostIdeal.List? && newMostIdeal.xy in Neighbors(searchLocation) && Open(newMostIdeal.xy))
      requires forall n :: n in Neighbors(searchLocation) && Open(n) ==> Idealness(List(n), endPoints) <= newBest
      ensures BestSoFar(start, pocket + (set n | n in added), newMostIdeal, newBest, endPoints)
    {
    }

    /** When the queue is empty the flood has found the whole pocket. */
    lemma SearchEnd(start: Coord, pocket: set<Coord>, done: set<Coord>, walks: map<Coord, seq<Coord>>)
      requires Shaped() && Searching(start, pocket, done, [], walks)
      ensures Pocket(start, pocket)
    {
      forall c | c in pocket ensures exists w :: OpenWalk(w) && w[0] == start && w[|w| - 1] == c {
        assert OpenWalk(walks[c]);
      }
    }

    /** The body of `_idealness_search`'s loop: the open neighbours of
        searchLocation are scored against the best so far, and the unmarked
        ones are marked and returned in order for queueing. */
    method ScanIdealness(searchLocation: Coord, endPoints: seq<Coord>, ghost pocket: set<Coord>,
                         mostIdeal: Location, bestIdealness: int)
      returns (added: seq<Coord>, newMostIdeal: Location, newBest: int)
      requires Shaped() && Synced() && endPoints != [] && bestIdealness == Idealness(mostIdeal, endPoints)
      requires forall x, y :: 0 <= x < ArenaSize && 0 <= y < ArenaSize ==>
        gameMap.nodes[x, y].visitedIdealness == ((x, y) in pocket)
      modifies gameMap.nodes
      ensures forall x, y :: 0 <= x < ArenaSize && 0 <= y < ArenaSize ==>
        gameMap.nodes[x, y] == old(gameMap.nodes[x, y]).(visitedIdealness := (x, y) in pocket || (x, y) in added)
      ensures forall n :: n in added ==> n in Neighbors(searchLocation) && Open(n) && n !in pocket
      ensures forall n :: n in Neighbors(searchLocation) && Open(n) ==> n in pocket || n in added
      ensures newBest == Idealness(newMostIdeal, endPoints) && bestIdealness <= newBest
      ensures newMostIdeal == mostIdeal || (newMostIdeal.List? && newMostIdeal.xy in Neighbors(searchLocation) && Open(newMostIdeal.xy))
      ensures forall n :: n in Neighbors(searchLocation) && Open(n) ==> Idealness(List(n), endPoints) <= newBest
    {
      added, newMostIdeal, newBest := [], mostIdeal, bestIdealness;
      var neighbors := Neighbors(searchLocation);
      ghost var free := OpenCells();
      for i := 0 to 4
        invariant forall x, y :: 0 <= x < ArenaSize && 0 <= y < ArenaSize ==>
          gameMap.nodes[x, y] == old(gameMap.nodes[x, y]).(visitedIdealness := (x, y) in pocket || (x, y) in added)
        invariant forall n :: n in added ==> n in neighbors[..i] && n in free && n !in pocket
        invariant forall k :: 0 <= k < i && neighbors[k] in free ==> neighbors[k] in pocket || neighbors[k] in added
        invariant newBest == Idealness(newMostIdeal, endPoints) && bestIdealness <= newBest
        invariant newMostIdeal == mostIdeal || (newMostIdeal.List? && newMostIdeal.xy in neighbors && newMostIdeal.xy in free)
        invariant forall k :: 0 <= k < i && neighbors[k] in free ==> Idealness(List(neighbors[k]), endPoints) <= newBest
      {
        var neighbor := neighbors[i];
        if InBounds(neighbor.0, neighbor.1) && !gameMap.nodes[neighbor.0, neighbor.1].blocked {
          var currentIdealness := Idealness(List(neighbor), endPoints);
          if currentIdealness > newBest {
            newBest := currentIdealness;
            newMostIdeal := List(neighbor);
          }
          if !gameMap.nodes[neighbor.0, neighbor.1].visitedIdealness {
            gameMap.nodes[neighbor.0, neighbor.1] := gameMap.nodes[neighbor.0, neighbor.1].(visitedIdealness := true);
            added := added + [neighbor];
          }
        }
      }
    }

    /** The open cells, as a set. */
    ghost function OpenCells(): (free: set<Coord>)
      requires Shaped()
      reads simMapRef.cells
      ensures forall c :: c in free <==> Open(c)
    {
      var free := set x, y | 0 <= x < ArenaSize && 0 <= y < ArenaSize && Open((x, y)) :: (x, y);
      assert forall c :: Open(c) ==> c == (c.0, c.1) && InGrid(c);
      free
    }

    /** `_validate`: breadth-first labelling of path lengths. The seeds (all
        endpoints when the ideal tile is one of them, else the ideal tile alone)
        get length 0; an unblocked labelled cell gives its unvisited open
        neighbours its length plus one. */
    method Validate(idealTile: Location, endPoints: seq<Coord>)
      requires Shaped() && Synced() && endPoints != []
      requires InBoundsAt(idealTile.xy) && forall e :: e in endPoints ==> InBoundsAt(e)
      requires forall x, y :: 0 <= x < ArenaSize && 0 <= y < ArenaSize ==>
        !gameMap.nodes[x, y].visitedValidate && gameMap.nodes[x, y].pathlength == -1
      modifies gameMap.nodes
      ensures forall x, y :: 0 <= x < ArenaSize && 0 <= y < ArenaSize ==>
        gameMap.nodes[x, y].blocked == old(gameMap.nodes[x, y].blocked) &&
        gameMap.nodes[x, y].visitedIdealness == old(gameMap.nodes[x, y].visitedIdealness)
      ensures Synced() && Consistent()
      ensures forall c :: c in Seeds(idealTile, endPoints) ==> InGrid(c) && Label(c) == 0
      ensures forall c :: InGrid(c) && Label(c) == 0 ==> c in Seeds(idealTile, endPoints)
      ensures forall c :: InGrid(c) ==> Label(c) >= -1
    {
      ghost var base := Snapshot();
      ghost var seeds := Seeds(idealTile, endPoints);
      ghost var free := OpenCells();
      OpenCellsFree(base);
      var current;
      ghost var dist;
      current, dist := SeedValidate(idealTile, endPoints, base);
      BfsStart(free, seeds, current, dist);
      ghost var parent, done, lo, cut;
      dist, parent, done, lo, cut := Propagate(base, free, seeds, current, dist);
      BfsEnd(free, seeds, dist, done, parent, lo, cut);
      LabelsFromDist(seeds, dist, parent);
    }

    /** The loop of `_validate`: the queue is expanded in order until it is
        empty; the grid then carries a breadth-first labelling from the seeds
        over the open cells. */
    method Propagate(ghost base: map<Coord, Node>, ghost free: set<Coord>, ghost seeds: set<Coord>, current: seq<Coord>,
                     ghost dist: map<Coord, int>)
      returns (ghost dist': map<Coord, int>, ghost parent: map<Coord, Coord>, ghost done: set<Coord>, ghost lo: int, ghost cut: int)
      requires Shaped() && FreeIn(base, free) && forall c {:trigger InBoundsAt(c)} :: c in seeds ==> InBoundsAt(c)
      requires Relabelled(base, dist) && Bfs(free, seeds, dist, {}, current, map[], 0, |current|)
      modifies gameMap.nodes
      ensures Relabelled(base, dist')
      ensures Bfs(free, seeds, dist', done, [], parent, lo, cut)
    {
      var current := current;
      dist', parent, done, lo, cut := dist, map[], {}, 0, |current|;
      while current != []
        invariant Relabelled(base, dist')
        invariant Bfs(free, seeds, dist', done, current, parent, lo, cut)
        decreases Unvisited(dist'), |current|
      {
        current, dist', parent, done, lo, cut := Expand(base, free, seeds, current, dist', parent, done, lo, cut);
      }
    }

    /** One round of the `_validate` loop: the head of the queue is taken off
        and its unlabelled open neighbours are labelled and queued behind. */
    method Expand(ghost base: map<Coord, Node>, ghost free: set<Coord>, ghost seeds: set<Coord>, current: seq<Coord>,
                  ghost dist: map<Coord, int>, ghost parent: map<Coord, Coord>, ghost done: set<Coord>, ghost lo: int, ghost cut: int)
      returns (current': seq<Coord>, ghost dist': map<Coord, int>, ghost parent': map<Coord, Coord>, ghost done': set<Coord>,
               ghost lo': int, ghost cut': int)
      requires Shaped() && FreeIn(base, free) && forall c {:trigger InBoundsAt(c)} :: c in seeds ==> InBoundsAt(c)
      requires current != [] && Relabelled(base, dist) && Bfs(free, seeds, dist, done, current, parent, lo, cut)
      modifies gameMap.nodes
      ensures Relabelled(base, dist')
      ensures Bfs(free, seeds, dist', done', current', parent', lo', cut')
      ensures Unvisited(dist') < Unvisited(dist) || (Unvisited(dist') == Unvisited(dist) && |current'| < |current|)
    {
      var head := current[0];
      assert head in dist;
      assert InBoundsAt(head) by {
        if head !in seeds {
          assert head in free;
        }
      }
      var currentNode := gameMap.nodes[head.0, head.1];
      var added := ScanValidate(head, currentNode, base, dist, free);
      lo', cut' := BfsStep(free, seeds, dist, done, current, parent, lo, cut, head, added);
      UnvisitedShrinks(dist, current, added, dist[head] + 1);
      dist' := Extend(dist, added, dist[head] + 1);
      parent' := Extend(parent, added, head);
      done' := done + {head};
      current' := current[1..] + added;
    }

    /** The first part of `_validate`: the seeds are labelled 0 and queued, in
        the order of endPoints when the ideal tile is one of them. */
    method SeedValidate(idealTile: Location, endPoints: seq<Coord>, ghost base: map<Coord, Node>)
      returns (current: seq<Coord>, ghost dist: map<Coord, int>)
      requires Shaped() && endPoints != []
      requires InBoundsAt(idealTile.xy) && forall e :: e in endPoints ==> InBoundsAt(e)
      requires forall x, y :: 0 <= x < ArenaSize && 0 <= y < ArenaSize ==>
        (x, y) in base && gameMap.nodes[x, y] == base[(x, y)] &&
        !base[(x, y)].visitedValidate && base[(x, y)].pathlength == -1
      modifies gameMap.nodes
      ensures Relabelled(base, dist)
      ensures Seeds(idealTile, endPoints) == set c | c in current
      ensures dist == map c | c in Seeds(idealTile, endPoints) :: 0
      ensures forall c :: c in Seeds(idealTile, endPoints) ==> InGrid(c) && InBoundsAt(c)
    {
      dist := map[];
      if ListedIn(idealTile, endPoints) {
        current := [];
        for k := 0 to |endPoints|
          invariant current == endPoints[..k] && dist == map e | e in endPoints[..k] :: 0
          invariant Relabelled(base, dist)
        {
          var location := endPoints[k];
          assert location in endPoints;
          gameMap.nodes[location.0, location.1] := gameMap.nodes[location.0, location.1].(pathlength := 0, visitedValidate := true);
          current := current + [location];
          dist := dist[location := 0];
          assert endPoints[..k + 1] == endPoints[..k] + [location];
        }
        assert endPoints[..|endPoints|] == endPoints;
      } else {
        var location := idealTile.xy;
        gameMap.nodes[location.0, location.1] := gameMap.nodes[location.0, location.1].(pathlength := 0, visitedValidate := true);
        current := [location];
        dist := map[location := 0];
      }
    }

    /** The body of `_validate`'s loop: when the cell is not blocked, its
        unvisited open neighbours are labelled one further and returned in
        order for queueing. */
    method ScanValidate(currentLocation: Coord, currentNode: Node, ghost base: map<Coord, Node>, ghost dist: map<Coord, int>,
                        ghost free: set<Coord>)
      returns (added: seq<Coord>)
      requires Shaped() && InBoundsAt(currentLocation) && FreeIn(base, free)
      requires gameMap.nodes[currentLocation.0, currentLocation.1] == currentNode
      requires Relabelled(base, dist) && currentLocation in dist
      modifies gameMap.nodes
      ensures Relabelled(base, Extend(dist, added, dist[currentLocation] + 1))
      ensures forall n :: n in added ==> Adjacent(currentLocation, n) && n in free && InGrid(n) && n !in dist && currentLocation in free
      ensures forall n :: Adjacent(currentLocation, n) && n in free && currentLocation in free ==> n in dist || n in added
    {
      added := [];
      var neighbors := Neighbors(currentLocation);
      for i := 0 to 4
        invariant forall x, y :: 0 <= x < ArenaSize && 0 <= y < ArenaSize ==>
          gameMap.nodes[x, y] == if (x, y) in added then old(gameMap.nodes[x, y]).(pathlength := currentNode.pathlength + 1, visitedValidate := true)
                                 else old(gameMap.nodes[x, y])
        invariant forall n :: n in added ==> n in neighbors[..i] && n in free && InGrid(n) && n !in dist && currentLocation in free
        invariant forall k :: 0 <= k < i && neighbors[k] in free && currentLocation in free ==> neighbors[k] in dist || neighbors[k] in added
      {
        var neighbor := neighbors[i];
        if InBoundsAt(neighbor) && !gameMap.nodes[neighbor.0, neighbor.1].blocked {
          InBoundsInGrid(neighbor.0, neighbor.1);
          var neighborNode := gameMap.nodes[neighbor.0, neighbor.1];
          if !neighborNode.visitedValidate && !currentNode.blocked {
            gameMap.nodes[neighbor.0, neighbor.1] := neighborNode.(pathlength := currentNode.pathlength + 1, visitedValidate := true);
            added := added + [neighbor];
          }
        }
      }
    }

    /** Under Synced, the open cells are the in-bounds cells the grid does not
        mark blocked. */
    lemma OpenCellsFree(base: map<Coord, Node>)
      requires Shaped() && Synced()
      requires forall x, y :: 0 <= x < ArenaSize && 0 <= y < ArenaSize ==> (x, y) in base && base[(x, y)] == gameMap.nodes[x, y]
      ensures FreeIn(base, OpenCells())
    {
      forall c ensures c in OpenCells() <==> InBoundsAt(c) && c in base && !base[c].blocked {
        if InBoundsAt(c) {
          InBoundsInGrid(c.0, c.1);
          assert c == (c.0, c.1);
        }
      }
    }

    /** The scratch grid carries the labels of a finished labelling. */
    lemma LabelsFromDist(seeds: set<Coord>, dist: map<Coord, int>, parent: map<Coord, Coord>)
      requires Shaped()
      requires forall x, y :: 0 <= x < ArenaSize && 0 <= y < ArenaSize ==> gameMap.nodes[x, y].pathlength == Dist(dist, (x, y))
      requires forall a, n :: a in dist && a in OpenCells() && Adjacent(a, n) && n in OpenCells() ==> n in dist && dist[n] <= dist[a] + 1
      requires forall c :: c in dist && c !in seeds ==>
        dist[c] >= 1 && c in OpenCells() && c in parent && Adjacent(c, parent[c]) && parent[c] in OpenCells() &&
        parent[c] in dist && dist[parent[c]] == dist[c] - 1
      requires forall c :: c in dist ==> InGrid(c) && dist[c] >= 0 && (dist[c] == 0 <==> c in seeds)
      requires seeds <= dist.Keys
      ensures Consistent()
      ensures forall c :: c in seeds ==> InGrid(c) && Label(c) == 0
      ensures forall c :: InGrid(c) && Label(c) == 0 ==> c in seeds
      ensures forall c :: InGrid(c) ==> Label(c) >= -1
    {
      forall c | InGrid(c) ensures Label(c) == Dist(dist, c) {
        assert c == (c.0, c.1);
      }
      LabelsGraded(dist);
      LabelsDescend(seeds, dist, parent);
    }

    lemma LabelsGraded(dist: map<Coord, int>)
      requires Shaped()
      requires forall c :: InGrid(c) ==> Label(c) == Dist(dist, c)
      requires forall a, n :: a in dist && a in OpenCells() && Adjacent(a, n) && n in OpenCells() ==> n in dist && dist[n] <= dist[a] + 1
      requires forall c :: c in dist ==> dist[c] >= 0
      ensures forall a, n {:trigger Adjacent(a, n)} :: Open(a) && Label(a) >= 0 && Adjacent(a, n) && Open(n) ==> 0 <= Label(n) <= Label(a) + 1
    {
      ghost var free := OpenCells();
      forall a, n | Open(a) && Label(a) >= 0 && Adjacent(a, n) && Open(n) ensures 0 <= Label(n) <= Label(a) + 1 {
        assert a in free && n in free;
        assert InGrid(a) && InGrid(n);
      }
    }

    lemma LabelsDescend(seeds: set<Coord>, dist: map<Coord, int>, parent: map<Coord, Coord>)
      requires Shaped()
      requires forall c :: InGrid(c) ==> Label(c) == Dist(dist, c)
      requires forall c :: c in dist && c !in seeds ==>
        dist[c] >= 1 && c in OpenCells() && c in parent && Adjacent(c, parent[c]) && parent[c] in OpenCells() &&
        parent[c] in dist && dist[parent[c]] == dist[c] - 1
      requires forall c :: c in dist ==> InGrid(c) && dist[c] >= 0 && (dist[c] == 0 <==> c in seeds)
      ensures forall c {:trigger HasLower(c, Label(c))} :: InGrid(c) && Label(c) >= 1 ==> Open(c) && HasLower(c, Label(c))
    {
      forall c | InGrid(c) && Label(c) >= 1
        ensures Open(c) && HasLower(c, Label(c))
      {
        var p := parent[c];
        assert InGrid(p) && Label(p) == Dist(dist, p);
        assert LowerAt(p, Label(c));
      }
    }

    /** `_choose_next_move`: the four neighbours are considered in order; an
        open neighbour with a shorter path length wins outright, one with the
        same length wins when `_better_direction` prefers it. */
    method ChooseNextMove(currentPoint: Coord, previousMoveDirection: int, endPoints: seq<Coord>) returns (idealNeighbor: Coord)
      requires Shaped() && Synced() && InGrid(currentPoint) && endPoints != []
      ensures idealNeighbor ==
        ConsiderAll(currentPoint, previousMoveDirection, Direction(endPoints), (currentPoint, Label(currentPoint)), Candidates(currentPoint)).0
    {
      var neighbors := Neighbors(currentPoint);
      var dir := Direction(endPoints);
      ghost var ns := Candidates(currentPoint);
      idealNeighbor := currentPoint;
      var bestPathlength := gameMap.nodes[currentPoint.0, currentPoint.1].pathlength;
      for i := 0 to 4
        invariant ConsiderAll(currentPoint, previousMoveDirection, dir, (idealNeighbor, bestPathlength), ns[i..]) ==
          ConsiderAll(currentPoint, previousMoveDirection, dir, (currentPoint, Label(currentPoint)), ns)
      {
        var neighbor := neighbors[i];
        assert ns[i..][0] == ns[i] && ns[i..][1..] == ns[i + 1..];
        if InBounds(neighbor.0, neighbor.1) && !gameMap.nodes[neighbor.0, neighbor.1].blocked {
          InBoundsInGrid(neighbor.0, neighbor.1);
          assert ns[i] == Candidate(neighbor, true, gameMap.nodes[neighbor.0, neighbor.1].pathlength);
          var currentPathlength := gameMap.nodes[neighbor.0, neighbor.1].pathlength;
          if currentPathlength < bestPathlength ||
             (currentPathlength == bestPathlength && BetterDirection(currentPoint, neighbor, idealNeighbor, previousMoveDirection, dir)) {
            idealNeighbor, bestPathlength := neighbor, currentPathlength;
          }
        } else {
          assert !ns[i].open by {
            if InBounds(neighbor.0, neighbor.1) {
              InBoundsInGrid(neighbor.0, neighbor.1);
            }
          }
        }
      }
    }

    /** An open neighbour n of a cell labelled len is labelled within one of len. */
    predicate GradedAt(n: Coord, len: int)
      requires Shaped()
      reads gameMap.nodes, simMapRef.cells
    {
      Open(n) ==> InGrid(n) && len - 1 <= Label(n) <= len + 1
    }

    /** What a breadth-first labelling guarantees around a cell c of length
        k >= 1: its open neighbours are within one of k and one of them is at k - 1. */
    ghost predicate Descendable(c: Coord)
      requires Shaped() && InGrid(c)
      reads gameMap.nodes, simMapRef.cells
    {
      var (x, y) := c;
      var len := Label(c);
      len >= 1 && HasLower(c, len) &&
      GradedAt((x, y + 1), len) && GradedAt((x, y - 1), len) && GradedAt((x + 1, y), len) && GradedAt((x - 1, y), len)
    }

    /** Every labelled cell of length k >= 1 of a breadth-first labelling is descendable. */
    lemma LabelledDescendable(c: Coord)
      requires Shaped() && Consistent() && InGrid(c) && Label(c) >= 1
      ensures Descendable(c)
    {
      var (x, y) := c;
      GradedNeighbour(c, (x, y + 1));
      GradedNeighbour(c, (x, y - 1));
      GradedNeighbour(c, (x + 1, y));
      GradedNeighbour(c, (x - 1, y));
    }

    lemma GradedNeighbour(c: Coord, n: Coord)
      requires Shaped() && Consistent() && InGrid(c) && Label(c) >= 1 && Adjacent(c, n)
      ensures GradedAt(n, Label(c))
    {
      assert Open(c) && HasLower(c, Label(c));
      if Open(n) {
        Graded(c, n);
      }
    }

    /** Around a descendable cell, the choice of `_choose_next_move` is the
        table's step. */
    lemma ChoiceDescends(c: Coord, previous: int, dir: (int, int))
      requires Shaped() && InGrid(c) && Descendable(c)
      requires previous == 0 || previous == Horizontal || previous == Vertical
      requires (dir.0 == 1 || dir.0 == -1) && (dir.1 == 1 || dir.1 == -1)
      ensures ConsiderAll(c, previous, dir, (c, Label(c)), Candidates(c)) == (PreferredStep(c, previous, dir), Label(c) - 1)
    {
      CandidatesGraded(c);
      ChoiceFollowsTable(c, Label(c), previous, dir, Candidates(c));
    }

    /** What `_choose_next_move` sees around a descendable cell: open
        neighbours within one of its length, one of them exactly one less, and
        the nearer ones are those the table is told about. */
    lemma CandidatesGraded(c: Coord)
      requires Shaped() && InGrid(c) && Descendable(c)
      ensures var ns := Candidates(c); var len := Label(c); var (x, y) := c;
        (forall k :: 0 <= k < 4 && ns[k].open ==> len - 1 <= ns[k].len <= len + 1) &&
        (Lower(ns[0], len) || Lower(ns[1], len) || Lower(ns[2], len) || Lower(ns[3], len)) &&
        Lower(ns[0], len) == LowerAt((x, y + 1), len) && Lower(ns[1], len) == LowerAt((x, y - 1), len) &&
        Lower(ns[2], len) == LowerAt((x + 1, y), len) && Lower(ns[3], len) == LowerAt((x - 1, y), len)
    {
      var len := Label(c);
      var (x, y) := c;
      var ns := [CandidateAt((x, y + 1)), CandidateAt((x, y - 1)), CandidateAt((x + 1, y)), CandidateAt((x - 1, y))];
      assert Candidates(c) == ns;
      CandidateGraded((x, y + 1), len);
      CandidateGraded((x, y - 1), len);
      CandidateGraded((x + 1, y), len);
      CandidateGraded((x - 1, y), len);
    }

    /** Around a descendable cell, the table's step is an open neighbour one
        step nearer the seeds. */
    lemma StepDescends(c: Coord, previous: int, dir: (int, int))
      requires Shaped() && InGrid(c) && Descendable(c)
      ensures InGrid(PreferredStep(c, previous, dir)) && Open(PreferredStep(c, previous, dir))
      ensures Adjacent(c, PreferredStep(c, previous, dir)) && Label(PreferredStep(c, previous, dir)) == Label(c) - 1
    {
      var len := Label(c);
      var (x, y) := c;
      var up, down, right, left := LowerAt((x, y + 1), len), LowerAt((x, y - 1), len), LowerAt((x + 1, y), len), LowerAt((x - 1, y), len);
      TableChoiceLower(c, previous, dir, up, down, right, left);
    }

    /** How `_choose_next_move` sees a graded neighbour. */
    lemma CandidateGraded(n: Coord, len: int)
      requires Shaped() && GradedAt(n, len)
      ensures Lower(CandidateAt(n), len) == LowerAt(n, len)
      ensures CandidateAt(n).open ==> len - 1 <= CandidateAt(n).len <= len + 1
    {
    }

    /** path leaves start and each step goes to an open neighbour one step
        nearer the seeds. */
    ghost predicate Descending(start: Coord, path: seq<Coord>)
      requires Shaped() && InGrid(start)
      reads gameMap.nodes, simMapRef.cells
    {
      OpenWalk([start] + path) &&
      forall i :: 0 <= i < |path| ==> InGrid(path[i]) && Label(path[i]) == Label(start) - 1 - i
    }

    /** On a breadth-first labelling, the choice of `_choose_next_move` at a
        cell of length k >= 1 is an open neighbour of length k - 1. */
    lemma ChoiceStep(c: Coord, previous: int, dir: (int, int))
      requires Shaped() && Consistent() && InGrid(c) && Label(c) >= 1
      requires previous == 0 || previous == Horizontal || previous == Vertical
      requires (dir.0 == 1 || dir.0 == -1) && (dir.1 == 1 || dir.1 == -1)
      ensures var m := ConsiderAll(c, previous, dir, (c, Label(c)), Candidates(c)).0;
        InGrid(m) && Open(m) && Adjacent(c, m) && Label(m) == Label(c) - 1
    {
      LabelledDescendable(c);
      ChoiceDescends(c, previous, dir);
      StepDescends(c, previous, dir);
    }

    /** A descent grows by an open neighbour of its last cell that is one step nearer. */
    lemma DescendingExtend(start: Coord, path: seq<Coord>, n: Coord)
      requires Shaped() && InGrid(start) && Descending(start, path)
      requires InGrid(n) && Open(n) && Adjacent(([start] + path)[|path|], n) && Label(n) == Label(start) - 1 - |path|
      ensures Descending(start, path + [n])
    {
      var w := [start] + path;
      WalkAppend(w, n);
      assert [start] + (path + [n]) == w + [n];
      var p := path + [n];
      forall i | 0 <= i < |p| ensures InGrid(p[i]) && Label(p[i]) == Label(start) - 1 - i {
        if i < |path| {
          assert p[i] == path[i];
        }
      }
    }

    /** `_get_path`: from start, repeatedly take the chosen next move until a
        cell of length 0 is reached. On a breadth-first labelling the path has
        exactly start's length, and every step goes to an open neighbour one
        step nearer, so it ends on a cell of length 0. */
    method GetPath(startPoint: Coord, endPoints: seq<Coord>) returns (path: seq<Coord>)
      requires Shaped() && Synced() && Consistent() && endPoints != [] && InGrid(startPoint) && Label(startPoint) >= 0
      ensures |path| == Label(startPoint) && Descending(startPoint, path)
    {
      path := [];
      var current := startPoint;
      var moveDirection := 0;
      ghost var dir := Direction(endPoints);
      while gameMap.nodes[current.0, current.1].pathlength != 0
        invariant InGrid(current) && current == ([startPoint] + path)[|path|]
        invariant Label(current) == Label(startPoint) - |path| >= 0
        invariant moveDirection == 0 || moveDirection == Horizontal || moveDirection == Vertical
        invariant Descending(startPoint, path)
        decreases Label(current)
      {
        var nextMove := ChooseNextMove(current, moveDirection, endPoints);
        ChoiceStep(current, moveDirection, dir);
        DescendingExtend(startPoint, path, nextMove);
        if current.0 == nextMove.0 {
          moveDirection := Vertical;
        } else {
          moveDirection := Horizontal;
        }
        path := path + [nextMove];
        current := nextMove;
        assert current == ([startPoint] + path)[|path|];
      }
    }

    /** The wall-filling loops of `navigate_multiple_endpoints`: every cell
        holding a structure or support is marked blocked. */
    method FillWalls()
      requires Shaped() && Pristine()
      modifies gameMap.nodes
      ensures forall x, y :: 0 <= x < ArenaSize && 0 <= y < ArenaSize ==>
        gameMap.nodes[x, y] == FreshNode.(blocked := simMapRef.ContainsStationaryUnit((x, y)))
    {
      for i := 0 to ArenaSize
        invariant forall x, y :: 0 <= x < ArenaSize && 0 <= y < ArenaSize ==>
          gameMap.nodes[x, y] == FreshNode.(blocked := x < i && simMapRef.ContainsStationaryUnit((x, y)))
      {
        for j := 0 to ArenaSize
          invariant forall x, y :: 0 <= x < ArenaSize && 0 <= y < ArenaSize ==>
            gameMap.nodes[x, y] == FreshNode.(blocked := (x < i || (x == i && y < j)) && simMapRef.ContainsStationaryUnit((x, y)))
        {
          if simMapRef.ContainsStationaryUnit((i, j)) {
            gameMap.nodes[i, j] := gameMap.nodes[i, j].(blocked := true);
          }
        }
      }
    }

    /** The start of a pocket whose ideal tile is labelled is labelled too. */
    lemma StartLabelled(start: Coord, pocket: set<Coord>, tile: Coord)
      requires Shaped() && Consistent() && Pocket(start, pocket) && tile in pocket && InGrid(tile) && Label(tile) == 0
      ensures InGrid(start) && Label(start) >= 0
    {
      var w :| OpenWalk(w) && w[0] == start && w[|w| - 1] == tile;
      WalkLabelledBack(w);
    }

    /** A path that descends the labels from start ends on a seed, and no open
        walk from start to a seed is shorter. */
    lemma PathIsShortest(start: Coord, path: seq<Coord>, seeds: set<Coord>)
      requires Shaped() && Consistent() && Open(start) && InGrid(start)
      requires |path| == Label(start) && Descending(start, path)
      requires forall c :: c in seeds ==> InGrid(c) && Label(c) == 0
      requires forall c :: InGrid(c) && Label(c) == 0 ==> c in seeds
      ensures ([start] + path)[|path|] in seeds
      ensures forall w :: OpenWalk(w) && w[0] == start && w[|w| - 1] in seeds ==> |path| <= |w| - 1
    {
      if |path| > 0 {
        assert ([start] + path)[|path|] == path[|path| - 1];
      }
      forall w | OpenWalk(w) && w[0] == start && w[|w| - 1] in seeds ensures |path| <= |w| - 1 {
        WalkLabelBound(w);
      }
    }

    /** Every step of a descending path is open. */
    lemma DescendingOpen(start: Coord, path: seq<Coord>)
      requires Shaped() && InGrid(start) && Descending(start, path)
      ensures forall k :: 0 <= k < |path| ==> Open(path[k])
    {
      forall k | 0 <= k < |path| ensures Open(path[k]) {
        assert ([start] + path)[k + 1] == path[k];
      }
    }

    /** `navigate_multiple_endpoints`: no path from a cell holding a structure;
        otherwise the walls are filled in, the most ideal tile of the start's
        pocket is found, path lengths are labelled from it (or from the whole
        edge when it is on the edge list) and the path is walked down them. The
        path is a shortest open walk from the start to the seeds. */
    method NavigateMultipleEndpoints(startPoint: Coord, endPoints: seq<Coord>)
        returns (path: Option<seq<Coord>>, ghost pocket: set<Coord>, ghost idealTile: Location)
      requires Shaped() && Pristine() && InBoundsAt(startPoint) && endPoints != []
      requires forall e :: e in endPoints ==> InBoundsAt(e)
      modifies gameMap.nodes
      ensures path.None? <==> simMapRef.ContainsStationaryUnit(startPoint)
      ensures path.Some? ==> Pocket(startPoint, pocket) && idealTile.xy in pocket
      ensures path.Some? ==> Idealness(Tuple(startPoint), endPoints) <= Idealness(idealTile, endPoints)
      ensures path.Some? ==> forall c :: c in pocket && c != startPoint ==> Idealness(List(c), endPoints) <= Idealness(idealTile, endPoints)
      ensures path.Some? ==> InGrid(startPoint) && |path.value| == Label(startPoint) && Descending(startPoint, path.value)
      ensures path.Some? ==> forall k :: 0 <= k < |path.value| ==> Open(path.value[k])
      ensures path.Some? ==> ([startPoint] + path.value)[|path.value|] in Seeds(idealTile, endPoints)
      ensures path.Some? ==> forall w :: OpenWalk(w) && w[0] == startPoint && w[|w| - 1] in Seeds(idealTile, endPoints) ==>
        |path.value| <= |w| - 1
    {
      InBoundsInGrid(startPoint.0, startPoint.1);
      if simMapRef.ContainsStationaryUnit(startPoint) {
        return None, {}, Tuple(startPoint);
      }
      FillWalls();
      var ideal;
      ideal, pocket := IdealnessSearch(startPoint, endPoints);
      idealTile := ideal;
      Validate(ideal, endPoints);
      assert ideal.xy in Seeds(ideal, endPoints);
      StartLabelled(startPoint, pocket, ideal.xy);
      var p := GetPath(startPoint, endPoints);
      PathIsShortest(startPoint, p, Seeds(ideal, endPoints));
      DescendingOpen(startPoint, p);
      path := Some(p);
    }
  }
}
