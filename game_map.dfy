/** The occupancy grid: a 28 x 28 array of cell contents, the loops that list
    edges, scan a circular range and measure the distance to the nearest edge,
    and the attacker's target selection. */
module GameMap {
  import opened Constants
  import opened Board
  import opened Units

  /** Where an occupant stands, according to its own fields. */
  function PosOf(o: Occupant): Coord
    requires !o.Empty?
    reads o.Places()`x, o.Places()`y, o.Stacks()`x, o.Stacks()`y
  {
    match o
    case Structure(u) => (u.x, u.y)
    case SupportUnit(s) => (s.base.x, s.base.y)
    case Walker(w) => (w.x, w.y)
  }

  /** The health an attacker sees: a structure's health, or the health of the
      last walker of a stack (0 for a stack whose count is not positive). */
  function TargetHp(o: Occupant): real
    requires !o.Empty?
    requires o.Walker? ==> o.stack.CountMatches()
    reads if o.Walker? then {o.stack} else {}, o.Objects()
  {
    match o
    case Structure(u) => u.health
    case SupportUnit(s) => s.base.health
    case Walker(w) => if w.unitCount <= 0 then 0.0 else w.health[|w.health| - 1]
  }

  /** `target.health == hp`: a stack's health is a list, which never equals a number. */
  predicate HealthEquals(o: Occupant, hp: real)
    requires !o.Empty?
    reads o.Objects()
  {
    match o
    case Structure(u) => u.health == hp
    case SupportUnit(s) => s.base.health == hp
    case Walker(_) => false
  }

  /** A distance from a centre is below `radius + getHitRadius`. Both sides are
      non-negative, so comparing squares is the same as comparing the distances. */
  predicate InRange(c: Coord, p: Coord, radius: real)
    requires radius >= 0.0
  {
    (DistSq(c, p) as real) < (radius + HitRadius) * (radius + HitRadius)
  }

  /** Lexicographic order on locations: by x, then by y. */
  predicate Before(a: Coord, b: Coord) {
    a.0 < b.0 || (a.0 == b.0 && a.1 < b.1)
  }

  function Ceil(r: real): (n: int)
    ensures n as real >= r && (n - 1) as real < r
  {
    -((-r).Floor)
  }

  /** The smallest squared distance from c to a cell of es. */
  function MinDistSq(c: Coord, es: seq<Coord>): (d: int)
    requires es != []
    ensures exists e :: e in es && d == DistSq(c, e)
    ensures forall e :: e in es ==> d <= DistSq(c, e)
  {
    if |es| == 1 then DistSq(c, es[0])
    else
      var rest := MinDistSq(c, es[1..]);
      assert forall e :: e in es ==> e == es[0] || e in es[1..];
      if DistSq(c, es[0]) <= rest then DistSq(c, es[0]) else rest
  }

  /** Squared distance from c to the nearest cell of its own quadrant's edge. */
  function EdgeDistSq(c: Coord): int {
    MinDistSq(c, EdgeList(Quadrant(c.0, c.1)))
  }

  /** What an attacker brings to target selection. */
  datatype Attacker = Attacker(pos: Coord, attackRange: real, player: int, isTurret: bool)

  /** The three eligibility filters of target selection: a candidate is an
      occupied cell of the other player, and a turret never aims at a structure. */
  predicate Eligible(att: Attacker, o: Occupant) {
    !o.Empty? && o.Player() != att.player && !(att.isTurret && o.Type().IsStructure())
  }

  class SimGameMap {
    const cells: array2<Occupant>
    /** Every object a cell refers to. */
    ghost var Repr: set<object>

    /** The map arrays are 28 x 28. */
    predicate Shaped() {
      cells.Length0 == ArenaSize && cells.Length1 == ArenaSize
    }

    ghost predicate Valid()
      reads this, cells, Repr
    {
      Shaped() &&
      (forall x, y :: 0 <= x < ArenaSize && 0 <= y < ArenaSize ==> cells[x, y].Objects() <= Repr) &&
      (forall x, y :: 0 <= x < ArenaSize && 0 <= y < ArenaSize ==> OccupantOk(cells[x, y]))
    }

    /** An occupant stands on an in-bounds cell, and a stack's count matches its health list. */
    ghost predicate OccupantOk(o: Occupant)
      reads o.Places()`x, o.Places()`y, o.Stacks()
    {
      !o.Empty? ==> InBoundsAt(PosOf(o)) && (o.Walker? ==> o.stack.CountMatches())
    }

    constructor ()
      ensures Valid() && fresh(cells) && Repr == {}
      ensures forall x, y :: 0 <= x < ArenaSize && 0 <= y < ArenaSize ==> cells[x, y] == Empty
    {
      cells := new Occupant[ArenaSize, ArenaSize]((_, _) => Empty);
      Repr := {};
    }

    /** The cell contents as a map over the 28 x 28 square. */
    ghost function Contents(): (m: map<Coord, Occupant>)
      requires Shaped()
      reads cells
      ensures forall x, y :: 0 <= x < ArenaSize && 0 <= y < ArenaSize ==> (x, y) in m && m[(x, y)] == cells[x, y]
    {
      map x, y | 0 <= x < ArenaSize && 0 <= y < ArenaSize :: (x, y) := cells[x, y]
    }

    /** The contents are m0 with cell c set to o when the cells say so. */
    lemma ContentsUpdate(m0: map<Coord, Occupant>, c: Coord, o: Occupant)
      requires Shaped() && InGrid(c) && cells[c.0, c.1] == o
      requires forall x, y :: 0 <= x < ArenaSize && 0 <= y < ArenaSize ==> (x, y) in m0
      requires m0.Keys <= set x, y | 0 <= x < ArenaSize && 0 <= y < ArenaSize :: (x, y)
      requires forall x, y :: 0 <= x < ArenaSize && 0 <= y < ArenaSize && (x, y) != c ==> cells[x, y] == m0[(x, y)]
      ensures Contents() == m0[c := o]
    {
    }

    /** `self[x, y]`: an empty cell reads as Python's None (`Empty`); an
        occupied one is a unit of the map standing on an in-bounds cell, and
        on that very cell when every occupant stands where the map holds it. */
    function At(c: Coord): (o: Occupant)
      requires Valid() && InGrid(c)
      reads this, cells, Repr
      ensures !o.Empty? ==> o.Objects() <= Repr && InBoundsAt(PosOf(o))
      ensures !o.Empty? && Positioned() ==> PosOf(o) == c
    {
      cells[c.0, c.1]
    }

    /** `contains_stationary_unit`: the cell holds a structure or a support. */
    predicate ContainsStationaryUnit(c: Coord)
      requires Shaped() && InGrid(c)
      reads cells
    {
      cells[c.0, c.1].IsStationary()
    }

    /** `add_unit`: the cell is overwritten; nothing else changes. */
    method AddUnit(xy: Coord, unit: Occupant)
      requires Valid() && InGrid(xy) && OccupantOk(unit)
      modifies this, cells
      ensures Valid() && Repr == old(Repr) + unit.Objects()
      ensures cells[xy.0, xy.1] == unit
      ensures forall x, y :: 0 <= x < ArenaSize && 0 <= y < ArenaSize && (x, y) != xy ==>
        cells[x, y] == old(cells[x, y])
    {
      Repr := Repr + unit.Objects();
      cells[xy.0, xy.1] := unit;
    }

    /** `remove_unit`: an out-of-bounds location is ignored; otherwise exactly
        that cell is emptied. */
    method RemoveUnit(x: int, y: int)
      requires Valid() && InGrid((x, y))
      modifies cells
      ensures Valid()
      ensures InBounds(x, y) ==> cells[x, y] == Empty
      ensures forall i, j :: 0 <= i < ArenaSize && 0 <= j < ArenaSize && (i, j) != (x, y) ==>
        cells[i, j] == old(cells[i, j])
      ensures !InBounds(x, y) ==> cells[x, y] == old(cells[x, y])
    {
      if !InBounds(x, y) {
        return;
      }
      cells[x, y] := Empty;
    }

    /** `get_edges`: the four edge lists, indexed by `MapEdges` value. */
    method GetEdges() returns (edges: seq<seq<Coord>>)
      ensures |edges| == 4
      ensures forall q: MapEdges :: edges[q.Value()] == EdgeList(q)
    {
      var topRight := [];
      var n := 0;
      while n < HalfArena
        invariant 0 <= n <= HalfArena
        invariant topRight == EdgeList(TopRight)[..n]
      {
        topRight := topRight + [(HalfArena + n, ArenaSize - 1 - n)];
        n := n + 1;
      }
      var topLeft := [];
      n := 0;
      while n < HalfArena
        invariant 0 <= n <= HalfArena
        invariant topLeft == EdgeList(TopLeft)[..n]
      {
        topLeft := topLeft + [(HalfArena - 1 - n, ArenaSize - 1 - n)];
        n := n + 1;
      }
      var bottomLeft := [];
      n := 0;
      while n < HalfArena
        invariant 0 <= n <= HalfArena
        invariant bottomLeft == EdgeList(BottomLeft)[..n]
      {
        bottomLeft := bottomLeft + [(HalfArena - 1 - n, n)];
        n := n + 1;
      }
      var bottomRight := [];
      n := 0;
      while n < HalfArena
        invariant 0 <= n <= HalfArena
        invariant bottomRight == EdgeList(BottomRight)[..n]
      {
        bottomRight := bottomRight + [(HalfArena + n, n)];
        n := n + 1;
      }
      edges := [topLeft, topRight, bottomLeft, bottomRight];
      assert topLeft == EdgeList(TopLeft) && topRight == EdgeList(TopRight);
      assert bottomLeft == EdgeList(BottomLeft) && bottomRight == EdgeList(BottomRight);
    }

    /** `get_edge_locations`. */
    method GetEdgeLocations(quadrant: MapEdges) returns (locations: seq<Coord>)
      ensures locations == EdgeList(quadrant)
    {
      var edges := GetEdges();
      locations := edges[quadrant.Value()];
    }

    /** `distance_to_closest_edge`, as a squared distance: the smallest distance
        from (x, y) to a cell of its own quadrant's edge list. */
    method DistanceToClosestEdge(x: int, y: int) returns (minDistance: int)
      ensures exists e :: e in EdgeList(Quadrant(x, y)) && minDistance == DistSq((x, y), e)
      ensures forall e :: e in EdgeList(Quadrant(x, y)) ==> minDistance <= DistSq((x, y), e)
      ensures minDistance == EdgeDistSq((x, y))
    {
      var quadrant := Quadrant(x, y);
      var edgeLocations := GetEdgeLocations(quadrant);
      minDistance := DistSq((x, y), edgeLocations[0]);
      var k := 1;
      while k < |edgeLocations|
        invariant 1 <= k <= |edgeLocations|
        invariant exists e :: e in edgeLocations[..k] && minDistance == DistSq((x, y), e)
        invariant forall e :: e in edgeLocations[..k] ==> minDistance <= DistSq((x, y), e)
      {
        var distance := DistSq((x, y), edgeLocations[k]);
        if distance < minDistance {
          minDistance := distance;
        }
        assert edgeLocations[..k + 1] == edgeLocations[..k] + [edgeLocations[k]];
        k := k + 1;
      }
      assert edgeLocations[..k] == edgeLocations;
      var m := EdgeDistSq((x, y));
      assert m <= minDistance && minDistance <= m;
    }

    /** `get_locations_in_range`: scans the square of side 2 * ceil(radius) + 1
        around the centre, column by column, and keeps the in-bounds cells within
        `radius + getHitRadius`. */
    method GetLocationsInRange(location: Coord, radius: real) returns (locations: seq<Coord>)
      requires 0.0 <= radius <= ArenaSize as real
      requires InBoundsAt(location)
      ensures forall p :: p in locations <==> InBoundsAt(p) && InRange(location, p, radius)
      ensures forall k, l :: 0 <= k < l < |locations| ==> Before(locations[k], locations[l])
      ensures location in locations
      ensures forall p :: p in locations ==> InGrid(p)
    {
      var (x, y) := location;
      locations := [];
      var searchRadius := Ceil(radius);
      var i := x - searchRadius;
      while i < x + searchRadius + 1
        invariant x - searchRadius <= i <= x + searchRadius + 1
        invariant forall p :: p in locations <==>
          InBoundsAt(p) && InRange(location, p, radius) && x - searchRadius <= p.0 < i && y - searchRadius <= p.1 <= y + searchRadius
        invariant forall k, l :: 0 <= k < l < |locations| ==> Before(locations[k], locations[l])
        invariant forall k :: 0 <= k < |locations| ==> locations[k].0 < i
      {
        var j := y - searchRadius;
        while j < y + searchRadius + 1
          invariant y - searchRadius <= j <= y + searchRadius + 1
          invariant forall p :: p in locations <==>
            InBoundsAt(p) && InRange(location, p, radius) && y - searchRadius <= p.1 <= y + searchRadius &&
            (x - searchRadius <= p.0 < i || (p.0 == i && p.1 < j))
          invariant forall k, l :: 0 <= k < l < |locations| ==> Before(locations[k], locations[l])
          invariant forall k :: 0 <= k < |locations| ==> Before(locations[k], (i, j))
        {
          var newLocation := (i, j);
          if InBounds(i, j) && InRange(location, newLocation, radius) {
            locations := locations + [newLocation];
          }
          j := j + 1;
        }
        i := i + 1;
      }
      forall p | InBoundsAt(p) && InRange(location, p, radius)
        ensures x - searchRadius <= p.0 <= x + searchRadius && y - searchRadius <= p.1 <= y + searchRadius
      {
        InRangeInSquare(location, p, radius, searchRadius);
      }
      assert InRange(location, location, radius);
    }

    /** Every occupant stands where the map holds it. */
    ghost predicate Positioned()
      reads this, cells, Repr
      requires Valid()
    {
      forall x, y :: 0 <= x < ArenaSize && 0 <= y < ArenaSize && !cells[x, y].Empty? ==>
        PosOf(cells[x, y]) == (x, y)
    }

    /** An occupied cell the attacker may shoot and whose target is alive. */
    ghost predicate Candidate(att: Attacker, c: Coord)
      reads this, cells, Repr
      requires Valid() && InGrid(c)
    {
      Eligible(att, cells[c.0, c.1]) && TargetHp(cells[c.0, c.1]) > 0.0
    }

    /** One comparison of `get_best_target`: candidate cell xy against the
        current champion location b. `None` stands for the two ways the
        simulator raises here: a distance tie with an empty champion cell
        (reading the type of nothing), and the "closest to an edge" tie-break,
        which calls `distance_to_closest_edge` with one argument. */
    function Challenge(att: Attacker, b: Coord, xy: Coord): (r: Option<Coord>)
      requires Valid() && InGrid(b) && InGrid(xy)
      reads this, cells, Repr
      ensures r.Some? ==> InGrid(r.value)
      ensures r.Some? && r.value != b ==> Eligible(att, cells[xy.0, xy.1])
      ensures r.Some? && r.value != b ==> r.value == xy || r.value == PosOf(cells[xy.0, xy.1])
      ensures r.None? ==> Eligible(att, cells[xy.0, xy.1]) && DistSq(att.pos, xy) == DistSq(att.pos, b)
    {
      var target := cells[xy.0, xy.1];
      var champion := cells[b.0, b.1];
      if !Eligible(att, target) then Some(b)
      else
        assert OccupantOk(target);
        var hp := TargetHp(target);
        var tpos := PosOf(target);
        if champion.Empty? && hp > 0.0 then Some(xy)
        else if DistSq(att.pos, xy) < DistSq(att.pos, b) then Some(tpos)
        else if DistSq(att.pos, xy) != DistSq(att.pos, b) then Some(b)
        else if champion.Empty? then None
        else
          assert OccupantOk(champion);
          var bestHp := TargetHp(champion);
          if hp < bestHp && hp > 0.0 then Some(tpos)
          else if !HealthEquals(target, bestHp) then Some(b)
          else if (att.player == 0 && tpos.1 < b.1) || (att.player == 1 && tpos.1 > b.1) then Some(tpos)
          else if tpos.1 == b.1 then None
          else Some(b)
    }

    /** The champion after every location of `visible` has challenged it in turn. */
    function Champion(att: Attacker, b: Coord, visible: seq<Coord>): (r: Option<Coord>)
      requires Valid() && InGrid(b) && forall p :: p in visible ==> InGrid(p)
      reads this, cells, Repr
      ensures r.Some? ==> InGrid(r.value)
      decreases |visible|
    {
      if visible == [] then Some(b)
      else
        match Challenge(att, b, visible[0])
        case None => None
        case Some(b') => Champion(att, b', visible[1..])
    }

    /** By the distance and health rungs, the occupant of r is at least as
        good a target as the occupant of c: nearer, or as near with no more
        health. */
    ghost predicate NoWorse(att: Attacker, r: Coord, c: Coord)
      requires Valid() && InGrid(r) && InGrid(c) && !cells[r.0, r.1].Empty? && !cells[c.0, c.1].Empty?
      reads this, cells, Repr
    {
      DistSq(att.pos, r) < DistSq(att.pos, c) ||
      (DistSq(att.pos, r) == DistSq(att.pos, c) && TargetHp(cells[r.0, r.1]) <= TargetHp(cells[c.0, c.1]))
    }

    /** A challenge never loses an occupied champion and never makes it a
        worse target, and the champion it leaves is no worse than a living
        candidate. */
    lemma ChallengeFacts(att: Attacker, b: Coord, c: Coord)
      requires Valid() && Positioned() && InGrid(b) && InGrid(c)
      ensures var r := Challenge(att, b, c);
        r.Some? ==>
          (r.value == b || (r.value == c && Eligible(att, cells[c.0, c.1]))) &&
          (Candidate(att, c) ==> !cells[r.value.0, r.value.1].Empty? && NoWorse(att, r.value, c)) &&
          (!cells[b.0, b.1].Empty? ==> !cells[r.value.0, r.value.1].Empty? && NoWorse(att, r.value, b))
    {
    }

    /** The tie-break rungs of one comparison, for a candidate the attacker may
        shoot at the same distance as an occupied champion: a living candidate
        with less health wins; otherwise, at equal health (a stack's health
        list never equals a number), player 0 prefers the lower row and player
        1 the higher one, and the same row raises; anything else keeps the
        champion. */
    lemma ChallengeRungs(att: Attacker, b: Coord, c: Coord)
      requires Valid() && Positioned() && InGrid(b) && InGrid(c)
      requires Eligible(att, cells[c.0, c.1]) && !cells[b.0, b.1].Empty?
      requires DistSq(att.pos, c) == DistSq(att.pos, b)
      ensures 0.0 < TargetHp(cells[c.0, c.1]) < TargetHp(cells[b.0, b.1]) ==> Challenge(att, b, c) == Some(c)
      ensures !(0.0 < TargetHp(cells[c.0, c.1]) < TargetHp(cells[b.0, b.1])) &&
              !cells[c.0, c.1].Walker? && TargetHp(cells[c.0, c.1]) == TargetHp(cells[b.0, b.1]) &&
              ((att.player == 0 && c.1 < b.1) || (att.player == 1 && c.1 > b.1)) ==>
                Challenge(att, b, c) == Some(c)
      ensures !(0.0 < TargetHp(cells[c.0, c.1]) < TargetHp(cells[b.0, b.1])) &&
              !cells[c.0, c.1].Walker? && TargetHp(cells[c.0, c.1]) == TargetHp(cells[b.0, b.1]) &&
              c.1 == b.1 ==>
                Challenge(att, b, c) == None
      ensures !(0.0 < TargetHp(cells[c.0, c.1]) < TargetHp(cells[b.0, b.1])) &&
              (cells[c.0, c.1].Walker? || TargetHp(cells[c.0, c.1]) != TargetHp(cells[b.0, b.1]) ||
               (!(att.player == 0 && c.1 < b.1) && !(att.player == 1 && c.1 > b.1) && c.1 != b.1)) ==>
                Challenge(att, b, c) == Some(b)
    {
    }

    /** Target selection as a whole, provided every occupant stands where the
        map holds it: unless the simulator raises, the champion is the first
        visible location or a cell the attacker may shoot, it is occupied, and
        no living candidate it met is nearer, or as near with less health. */
    lemma {:induction false} ChampionFacts(att: Attacker, b: Coord, visible: seq<Coord>)
      requires Valid() && Positioned() && InGrid(b) && forall p :: p in visible ==> InGrid(p)
      ensures var r := Champion(att, b, visible);
        r.Some? ==>
          (r.value == b || (r.value in visible && Eligible(att, cells[r.value.0, r.value.1]))) &&
          (forall c :: c in visible && Candidate(att, c) ==>
             !cells[r.value.0, r.value.1].Empty? && NoWorse(att, r.value, c)) &&
          (!cells[b.0, b.1].Empty? ==> !cells[r.value.0, r.value.1].Empty? && NoWorse(att, r.value, b))
      decreases |visible|
    {
      if visible != [] {
        ChallengeFacts(att, b, visible[0]);
        match Challenge(att, b, visible[0])
        case None =>
        case Some(b') =>
          assert forall p :: p in visible[1..] ==> p in visible;
          ChampionFacts(att, b', visible[1..]);
          assert forall c :: c in visible ==> c == visible[0] || c in visible[1..];
      }
    }

    /** One comparison with the "closest to an edge" rung as evidently
        intended, `distance_to_closest_edge` taking the champion's own x and
        y: where `Challenge` reaches that rung and raises, the candidate wins
        exactly when it is nearer to its edge than the champion is to its own.
        An empty champion cell still raises. */
    function ChallengeCorrected(att: Attacker, b: Coord, xy: Coord): (r: Option<Coord>)
      requires Valid() && InGrid(b) && InGrid(xy)
      reads this, cells, Repr
      ensures r.Some? ==> InGrid(r.value)
    {
      var r0 := Challenge(att, b, xy);
      if r0.Some? || cells[b.0, b.1].Empty? then r0
      else
        var tpos := PosOf(cells[xy.0, xy.1]);
        assert OccupantOk(cells[xy.0, xy.1]);
        if EdgeDistSq(tpos) < EdgeDistSq(b) then Some(tpos) else Some(b)
    }

    /** The corrected comparison agrees with the one as written wherever that
        one does not raise, never raises against an occupied champion, and
        settles a same-row tie by the distance to the edge. */
    lemma ChallengeCorrectedFacts(att: Attacker, b: Coord, c: Coord)
      requires Valid() && Positioned() && InGrid(b) && InGrid(c)
      ensures Challenge(att, b, c).Some? ==> ChallengeCorrected(att, b, c) == Challenge(att, b, c)
      ensures !cells[b.0, b.1].Empty? ==> ChallengeCorrected(att, b, c).Some?
      ensures !cells[b.0, b.1].Empty? && Challenge(att, b, c).None? ==>
        (EdgeDistSq(c) < EdgeDistSq(b) ==> ChallengeCorrected(att, b, c) == Some(c)) &&
        (EdgeDistSq(c) >= EdgeDistSq(b) ==> ChallengeCorrected(att, b, c) == Some(b))
    {
      var r0 := Challenge(att, b, c);
      if r0.None? && !cells[b.0, b.1].Empty? {
        assert PosOf(cells[c.0, c.1]) == c;
        var nearer := EdgeDistSq(c) < EdgeDistSq(b);
        assert ChallengeCorrected(att, b, c) == if nearer then Some(c) else Some(b);
      }
    }

    /** With the corrected rung, an occupied first location that challenges
        itself stays the champion. */
    lemma ChallengeCorrectedKeepsSelf(att: Attacker, b: Coord)
      requires Valid() && Positioned() && InGrid(b) && !cells[b.0, b.1].Empty?
      ensures ChallengeCorrected(att, b, b) == Some(b)
    {
      ChallengeCorrectedFacts(att, b, b);
    }

    /** As written, the "closest to an edge" rung raises: a candidate the
        attacker may shoot that is a structure or a support, in the champion's
        row, at the champion's distance, with the champion's health, ends the
        selection with a raise. In particular the first visible location
        challenges itself, so selection raises whenever that location holds
        such a target. */
    lemma EdgeTieAsWritten(att: Attacker, visible: seq<Coord>)
      requires Valid() && Positioned() && visible != [] && forall p :: p in visible ==> InGrid(p)
      requires InGrid(visible[0])
      requires Eligible(att, cells[visible[0].0, visible[0].1]) && !cells[visible[0].0, visible[0].1].Walker?
      ensures Challenge(att, visible[0], visible[0]) == None
      ensures Champion(att, visible[0], visible) == None
    {
      var b := visible[0];
      ChallengeRungs(att, b, b);
    }

    /** `get_best_target`: the first visible location is the initial champion;
        each visible location then challenges it, and the occupant of the final
        champion location is returned (Empty for Python's None). `visible` is
        the scan of the attacker's range that the selection walks through. */
    method GetBestTarget(attacker: Occupant) returns (result: BestTarget, ghost visible: seq<Coord>)
      requires Valid() && !attacker.Empty? && OccupantOk(attacker)
      requires 0.0 <= AttackRangeOf(attacker) <= ArenaSize as real
      ensures RangeScan(PosOf(attacker), AttackRangeOf(attacker), visible) && visible != []
      ensures Valid() && forall p :: p in visible ==> InGrid(p)
      ensures match Champion(AttackerOf(attacker), visible[0], visible)
        case None => result == Crash
        case Some(b) => result == Found(cells[b.0, b.1])
      ensures Positioned() && result.Found? ==>
        (result.target == cells[visible[0].0, visible[0].1] || Eligible(AttackerOf(attacker), result.target)) &&
        (forall c :: c in visible && Candidate(AttackerOf(attacker), c) ==>
           !result.target.Empty? && DistSq(PosOf(attacker), PosOf(result.target)) <= DistSq(PosOf(attacker), c) &&
           (DistSq(PosOf(attacker), PosOf(result.target)) == DistSq(PosOf(attacker), c) ==>
              TargetHp(result.target) <= TargetHp(cells[c.0, c.1])))
    {
      var att := AttackerOf(attacker);
      var visibleLocations := GetLocationsInRange(att.pos, att.attackRange);
      visible := visibleLocations;
      var best := visibleLocations[0];
      var k := 0;
      while k < |visibleLocations|
        invariant 0 <= k <= |visibleLocations|
        invariant InGrid(best)
        invariant Champion(att, visibleLocations[0], visibleLocations) ==
                  Champion(att, best, visibleLocations[k..])
      {
        var xy := visibleLocations[k];
        assert xy in visibleLocations;
        ChampionUnfold(att, best, visibleLocations[k..]);
        assert visibleLocations[k..][0] == xy && visibleLocations[k..][1..] == visibleLocations[k + 1..];
        ghost var next := Challenge(att, best, xy);
        var target := cells[xy.0, xy.1];
        if !Eligible(att, target) {
          // not a unit, one's own unit, or a structure seen by a turret
        } else {
          var targetHp := TargetHp(target);
          var tpos := PosOf(target);
          var champion := cells[best.0, best.1];
          var dTarget := DistSq(att.pos, xy);
          var dBest := DistSq(att.pos, best);
          if champion.Empty? && targetHp > 0.0 {
            best := xy;
          } else if dTarget < dBest {
            best := tpos;
          } else if dTarget == dBest {
            if champion.Empty? {
              return Crash, visible;
            }
            var bestHp := TargetHp(champion);
            if targetHp < bestHp && targetHp > 0.0 {
              best := tpos;
            } else if HealthEquals(target, bestHp) {
              if (att.player == 0 && tpos.1 < best.1) || (att.player == 1 && tpos.1 > best.1) {
                best := tpos;
              } else if tpos.1 == best.1 {
                return Crash, visible;
              }
            }
          }
        }
        assert next == Some(best);
        k := k + 1;
      }
      result := Found(cells[best.0, best.1]);
      if Positioned() {
        ChampionFacts(att, visibleLocations[0], visibleLocations);
      }
    }

    /** One unfolding of `Champion`. */
    lemma ChampionUnfold(att: Attacker, b: Coord, visible: seq<Coord>)
      requires Valid() && InGrid(b) && forall p :: p in visible ==> InGrid(p)
      requires visible != []
      ensures Champion(att, b, visible) ==
        match Challenge(att, b, visible[0])
        case None => None
        case Some(b') => Champion(att, b', visible[1..])
    {
    }
  }

  /** What target selection ends in: an occupant (possibly Empty), or a raise. */
  datatype BestTarget = Found(target: Occupant) | Crash

  function AttackRangeOf(o: Occupant): real
    requires !o.Empty?
    reads o.Objects()
  {
    match o
    case Structure(u) => u.attackRange
    case SupportUnit(s) => s.base.attackRange
    case Walker(w) => w.attackRange
  }

  function AttackerOf(o: Occupant): Attacker
    requires !o.Empty?
    reads o.Objects()
  {
    Attacker(PosOf(o), AttackRangeOf(o), o.Player(), o.Type() == Turret)
  }

  /** Strictly increasing in scan order (so also free of repeats). */
  predicate StrictlySorted(s: seq<Coord>) {
    forall k, l :: 0 <= k < l < |s| ==> Before(s[k], s[l])
  }

  /** What `get_locations_in_range` returns: exactly the in-bounds cells in
      range, in scan order. */
  ghost predicate RangeScan(c: Coord, radius: real, s: seq<Coord>)
    requires radius >= 0.0
  {
    (forall p :: p in s <==> InBoundsAt(p) && InRange(c, p, radius)) && StrictlySorted(s)
  }

  /** The scan is determined by its centre and radius: two sequences that are
      strictly sorted and hold the same cells are equal. */
  lemma {:induction false} SortedUnique(a: seq<Coord>, b: seq<Coord>)
    requires StrictlySorted(a) && StrictlySorted(b)
    requires forall p :: p in a <==> p in b
    ensures a == b
    decreases |a|
  {
    if a != [] || b != [] {
      assert a != [] ==> a[0] in b;
      assert b != [] ==> b[0] in a;
      var j :| 0 <= j < |b| && b[j] == a[0];
      var i :| 0 <= i < |a| && a[i] == b[0];
      if j > 0 && i > 0 {
        assert false;
      }
      assert a[0] == b[0];
      forall p ensures p in a[1..] <==> p in b[1..] {
        if p in a[1..] {
          var k :| 1 <= k < |a| && a[k] == p;
          assert Before(a[0], p);
          assert p in b && p != b[0];
          var l :| 0 <= l < |b| && b[l] == p;
          assert b[1..][l - 1] == p;
        }
        if p in b[1..] {
          var k :| 1 <= k < |b| && b[k] == p;
          assert Before(b[0], p);
          assert p in a && p != a[0];
          var l :| 0 <= l < |a| && a[l] == p;
          assert a[1..][l - 1] == p;
        }
      }
      SortedUnique(a[1..], b[1..]);
    }
  }

  lemma RangeScanUnique(c: Coord, radius: real, a: seq<Coord>, b: seq<Coord>)
    requires radius >= 0.0
    requires RangeScan(c, radius, a) && RangeScan(c, radius, b)
    ensures a == b
  {
    SortedUnique(a, b);
  }

  /** A cell in range lies inside the scanned square. */
  lemma InRangeInSquare(c: Coord, p: Coord, radius: real, searchRadius: int)
    requires 0.0 <= radius && searchRadius as real >= radius
    requires InRange(c, p, radius)
    ensures c.0 - searchRadius <= p.0 <= c.0 + searchRadius
    ensures c.1 - searchRadius <= p.1 <= c.1 + searchRadius
  {
    var dx, dy := p.0 - c.0, p.1 - c.1;
    var t := searchRadius + 1;
    if dx >= t || -dx >= t || dy >= t || -dy >= t {
      FarFromSquare(c, p, t);
      FarOutOfRange(c, p, radius, t);
      assert false;
    }
  }

  /** A cell t or more columns or rows away is at squared distance t * t or more. */
  lemma FarFromSquare(c: Coord, p: Coord, t: int)
    requires t >= 0
    requires p.0 - c.0 >= t || c.0 - p.0 >= t || p.1 - c.1 >= t || c.1 - p.1 >= t
    ensures DistSq(c, p) >= t * t
  {
    var dx, dy := p.0 - c.0, p.1 - c.1;
    var m := if dx >= t || -dx >= t then dx else dy;
    SquareAtLeast(m, t);
    assert DistSq(c, p) == Square(dx) + Square(dy);
  }

  /** A cell at squared distance t * t or more, with t at least radius + 1, is out of range. */
  lemma FarOutOfRange(c: Coord, p: Coord, radius: real, t: int)
    requires 0.0 <= radius && t as real >= radius + 1.0
    requires DistSq(c, p) >= t * t
    ensures !InRange(c, p, radius)
  {
    SquareBeyondRange(radius, t);
    assert DistSq(c, p) as real >= (t * t) as real;
  }

  lemma SquareAtLeast(m: int, t: int)
    requires t >= 0 && (m >= t || -m >= t)
    ensures Square(m) >= t * t
  {
    var a := if m < 0 then -m else m;
    assert Square(m) == a * a;
    ScaleUp(t, a, a);
    ScaleUp(t, a, t);
  }

  /** Scaling both sides of x <= y by the same non-negative factor. */
  lemma ScaleUp(x: int, y: int, k: int)
    requires x <= y && k >= 0
    ensures x * k <= y * k && k * x <= k * y
  {
  }

  lemma SquareBeyondRange(radius: real, t: int)
    requires 0.0 <= radius && t as real >= radius + 1.0
    ensures ((t * t) as real) > (radius + HitRadius) * (radius + HitRadius)
  {
    var b := radius + HitRadius;
    var s := t as real;
    assert (t * t) as real == s * s;
    assert s * s > s * b > b * b;
  }
}
