/** The simulator's units. Structures (walls and turrets) are `SimUnit`s with a
    scalar health; a support is a structure with shield statistics; a walker
    stack is a group of same-type walkers on one cell with one health entry per
    walker. The classes are updated in place, as the simulator's objects are.

    Python's subclassing is modelled by composition: a `SimSupport` owns the
    `SimUnit` it extends (`base`), and `SimWalkerStack`, whose health is a list
    instead of a number, carries its own copy of the inherited fields. */
module Units {
  import opened Constants
  import opened Board

  /** The inherited statistics an upgrade may change. */
  datatype UnitStats = UnitStats(upgraded: bool, attackRange: real, damageWalker: real)

  /** `SimUnit.upgrade`: only a turret gains range and walker damage. */
  function UpgradeStats(t: UnitType, s: UnitStats): (r: UnitStats)
    ensures r.upgraded
    ensures t != Turret ==> r == s.(upgraded := true)
    ensures t == Turret ==> r.attackRange == UpgradedTurretRange && r.damageWalker == UpgradedTurretDamageWalker
  {
    if t == Turret then UnitStats(true, UpgradedTurretRange, UpgradedTurretDamageWalker)
    else s.(upgraded := true)
  }

  /** Upgrading twice is the same as upgrading once. */
  lemma UpgradeIdempotent(t: UnitType, s: UnitStats)
    ensures UpgradeStats(t, UpgradeStats(t, s)) == UpgradeStats(t, s)
  {
  }

  /** A structure: wall or turret (and the base part of a support). */
  class SimUnit {
    const unitType: UnitType
    const playerIndex: int
    var x: int
    var y: int
    var health: real
    var upgraded: bool
    var attackRange: real
    var damageStructure: real
    var damageWalker: real

    /** A health of 0 in the placement record stands for "use the type's start health". */
    constructor (unitType: UnitType, xy: Coord, playerIndex: int, health: real)
      requires unitType.HasStats()
      ensures this.unitType == unitType && this.playerIndex == playerIndex
      ensures x == xy.0 && y == xy.1
      ensures this.health == if health != 0.0 then health else StartHealth(unitType)
      ensures Stats() == UnitStats(false, AttackRange(unitType), DamageWalker(unitType))
      ensures damageStructure == DamageStructure(unitType)
    {
      this.unitType := unitType;
      this.playerIndex := playerIndex;
      x, y := xy.0, xy.1;
      this.health := if health != 0.0 then health else StartHealth(unitType);
      upgraded := false;
      attackRange := AttackRange(unitType);
      damageStructure := DamageStructure(unitType);
      damageWalker := DamageWalker(unitType);
    }

    function Stats(): UnitStats
      reads this
    {
      UnitStats(upgraded, attackRange, damageWalker)
    }

    /** `inflict_damage`: the health drops by exactly `damage`; the new health is returned. */
    method InflictDamage(damage: real) returns (remaining: real)
      modifies this`health
      ensures health == old(health) - damage
      ensures remaining == health
    {
      health := health - damage;
      remaining := health;
    }

    method Upgrade()
      modifies this`upgraded, this`attackRange, this`damageWalker
      ensures Stats() == UpgradeStats(unitType, old(Stats()))
    {
      upgraded := true;
      if unitType == Turret {
        attackRange := UpgradedTurretRange;
        damageWalker := UpgradedTurretDamageWalker;
      }
    }
  }

  /** The shield statistics of a support. */
  datatype ShieldStats = ShieldStats(shieldRange: real, shieldPerUnit: real, shieldBonusPerY: real)

  const BaseShield: ShieldStats := ShieldStats(SupportShieldRange, SupportShieldPerUnit, SupportShieldBonusPerY)
  const UpgradedShield: ShieldStats := ShieldStats(UpgradedShieldRange, UpgradedShieldPerUnit, UpgradedShieldBonusPerY)

  /** Upgrading a support widens and strengthens its shield. */
  lemma UpgradedShieldIsStronger()
    ensures UpgradedShield.shieldRange > BaseShield.shieldRange
    ensures UpgradedShield.shieldPerUnit > BaseShield.shieldPerUnit
    ensures UpgradedShield.shieldBonusPerY > BaseShield.shieldBonusPerY
  {
  }

  class SimSupport {
    /** The inherited structure part: type, owner, position, health. */
    const base: SimUnit
    /** The walker stacks this support has shielded this round. */
    var givenShield: set<SimWalkerStack>
    var shieldPerUnit: real
    var shieldBonusPerY: real
    var shieldRange: real

    constructor (xy: Coord, playerIndex: int, health: real)
      ensures base.unitType == Support && base.playerIndex == playerIndex
      ensures base.x == xy.0 && base.y == xy.1
      ensures base.health == if health != 0.0 then health else StartHealth(Support)
      ensures !base.upgraded
      ensures givenShield == {}
      ensures Shield() == BaseShield
      ensures fresh(base)
    {
      base := new SimUnit(Support, xy, playerIndex, health);
      givenShield := {};
      shieldPerUnit := SupportShieldPerUnit;
      shieldBonusPerY := SupportShieldBonusPerY;
      shieldRange := SupportShieldRange;
    }

    function Shield(): ShieldStats
      reads this
    {
      ShieldStats(shieldRange, shieldPerUnit, shieldBonusPerY)
    }

    /** `SimSupport.upgrade` replaces `SimUnit.upgrade`: it sets the upgraded
        shield statistics and leaves the `upgraded` flag alone. Applying it again
        changes nothing more. */
    method Upgrade()
      modifies this`shieldRange, this`shieldPerUnit, this`shieldBonusPerY
      ensures Shield() == UpgradedShield
      ensures base.upgraded == old(base.upgraded)
    {
      shieldRange := UpgradedShieldRange;
      shieldPerUnit := UpgradedShieldPerUnit;
      shieldBonusPerY := UpgradedShieldBonusPerY;
    }
  }

  /** `get_target_edge`: a stack heads for the top edge on the other side of the
      centre column, whichever player owns it. */
  function TargetEdgeFor(x: int): (e: MapEdges)
    ensures e == TopLeft || e == TopRight
    ensures forall c :: c in EdgeList(e) ==> (c.0 < HalfArena <==> x >= HalfArena)
  {
    if x >= 14 then TopLeft else TopRight
  }

  class SimWalkerStack {
    const unitType: UnitType
    const playerIndex: int
    var x: int
    var y: int
    var unitCount: int
    /** One entry per walker; the last entry takes the damage. */
    var health: seq<real>
    var upgraded: bool
    const attackRange: real
    const damageStructure: real
    const damageWalker: real
    const targetEdge: MapEdges
    /** The queued steps, front first. */
    var path: seq<Coord>

    /** The count given to the constructor lands in the base constructor's
        health slot, so `unitCount` is always 1 while the health list holds
        `count` copies of the start health. */
    constructor (unitType: UnitType, xy: Coord, playerIndex: int, count: nat)
      requires unitType.IsWalker()
      ensures this.unitType == unitType && this.playerIndex == playerIndex
      ensures x == xy.0 && y == xy.1
      ensures unitCount == 1
      ensures health == seq(count, _ => StartHealth(unitType))
      ensures !upgraded
      ensures attackRange == AttackRange(unitType)
      ensures damageStructure == DamageStructure(unitType) && damageWalker == DamageWalker(unitType)
      ensures targetEdge == TargetEdgeFor(xy.0)
      ensures path == []
    {
      this.unitType := unitType;
      this.playerIndex := playerIndex;
      x, y := xy.0, xy.1;
      unitCount := 1;
      upgraded := false;
      attackRange := AttackRange(unitType);
      damageStructure := DamageStructure(unitType);
      damageWalker := DamageWalker(unitType);
      targetEdge := TargetEdgeFor(xy.0);
      health := seq(count, _ => StartHealth(unitType));
      path := [];
    }

    /** The stack's walker count agrees with its health list. */
    predicate CountMatches()
      reads this
    {
      unitCount == |health|
    }

    /** `get_target_edge`, evaluated at the stack's current column. */
    function GetTargetEdge(): MapEdges
      reads this
    {
      TargetEdgeFor(x)
    }

    /** `set_path`: the queue is emptied and then holds the new path, in order. */
    method SetPath(steps: seq<Coord>)
      modifies this`path
      ensures path == steps
    {
      path := steps;
    }

    /** `next_step`: the front of the queue is removed and returned. Taking a
        step from an empty queue blocks forever in the simulator, so callers
        must check first. */
    method NextStep() returns (step: Coord)
      requires path != []
      modifies this`path
      ensures step == old(path[0])
      ensures path == old(path[1..])
      ensures [step] + path == old(path)
    {
      step := path[0];
      path := path[1..];
    }

    /** `add_to_stack`: one more walker, with the same health as the front one;
        existing entries are untouched. */
    method AddToStack()
      requires health != []
      modifies this`unitCount, this`health
      ensures unitCount == old(unitCount) + 1
      ensures health == old(health) + [old(health[0])]
      ensures unitCount - |health| == old(unitCount - |health|)
    {
      unitCount := unitCount + 1;
      health := health + [health[0]];
    }

    /** `inflict_damage` on a stack: only the last walker is hurt; a walker whose
        health drops to zero or below leaves the stack, and its (non-positive)
        health is returned; otherwise the new last health is returned. */
    method InflictDamage(damage: real) returns (remaining: real)
      modifies this`unitCount, this`health
      ensures old(health) == [] ==> remaining == 0.0 && health == [] && unitCount == old(unitCount)
      ensures old(health) != [] ==>
        var last := old(health[|health| - 1]) - damage;
        remaining == last &&
        (if last <= 0.0
         then health == old(health[..|health| - 1]) && unitCount == old(unitCount) - 1
         else health == old(health[..|health| - 1]) + [last] && unitCount == old(unitCount))
      ensures unitCount - |health| == old(unitCount - |health|)
    {
      if |health| == 0 {
        return 0.0;
      }
      var last := health[|health| - 1] - damage;
      if last <= 0.0 {
        unitCount := unitCount - 1;
        health := health[..|health| - 1];
        remaining := last;
      } else {
        health := health[..|health| - 1] + [last];
        remaining := last;
      }
    }

    /** `SimUnit.upgrade` as inherited by a stack, whose type is never a turret. */
    method Upgrade()
      modifies this`upgraded
      ensures upgraded
    {
      upgraded := true;
    }
  }

  /** What a map cell holds: nothing, a structure, a support or a walker stack. */
  datatype Occupant = Empty | Structure(unit: SimUnit) | SupportUnit(support: SimSupport) | Walker(stack: SimWalkerStack)
  {
    /** `type(cell) in [SimUnit, SimSupport]`. */
    predicate IsStationary() {
      Structure? || SupportUnit?
    }

    function Player(): int
      requires !Empty?
    {
      match this
      case Structure(u) => u.playerIndex
      case SupportUnit(s) => s.base.playerIndex
      case Walker(w) => w.playerIndex
    }

    function Type(): UnitType
      requires !Empty?
    {
      match this
      case Structure(u) => u.unitType
      case SupportUnit(s) => s.base.unitType
      case Walker(w) => w.unitType
    }

    /** The unit record whose position fields place this occupant, when it
        is a structure or a support. */
    function Places(): (units: set<SimUnit>)
      ensures Structure? ==> units == {unit}
      ensures SupportUnit? ==> units == {support.base}
      ensures Walker? || Empty? ==> units == {}
    {
      match this
      case Structure(u) => {u}
      case SupportUnit(s) => {s.base}
      case _ => {}
    }

    /** The stack this occupant is, when it is one. */
    function Stacks(): (stacks: set<SimWalkerStack>)
      ensures Walker? ==> stacks == {stack}
      ensures !Walker? ==> stacks == {}
    {
      if Walker? then {stack} else {}
    }

    /** The objects whose fields describe this occupant. */
    function Objects(): (objs: set<object>)
      ensures Structure? ==> unit in objs
      ensures SupportUnit? ==> support in objs && support.base in objs
      ensures Walker? ==> stack in objs
    {
      match this
      case Empty => {}
      case Structure(u) => {u}
      case SupportUnit(s) => {s, s.base}
      case Walker(w) => {w}
    }
  }
}
