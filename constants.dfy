/** Enumerations shared by the whole simulator, the board coordinate type and the
    unit statistics the simulator reads from its configuration table. */
module Constants {

  /** A board location (x, y); (0, 0) is the bottom-left corner of the 28 x 28 square. */
  type Coord = (int, int)

  const ArenaSize: int := 28
  const HalfArena: int := 14

  /** The four edges (and quadrants) of the diamond board. */
  datatype MapEdges = TopLeft | TopRight | BottomLeft | BottomRight
  {
    /** The enum's numeric value, also its index in the list of edges. */
    function Value(): (v: nat)
      ensures v < 4
    {
      match this
      case TopLeft => 0
      case TopRight => 1
      case BottomLeft => 2
      case BottomRight => 3
    }
  }

  /** The eight unit slots of a frame, in their wire order. */
  datatype UnitType = Wall | Support | Turret | Scout | Demolisher | Interceptor | Remove | Upgrade
  {
    /** The enum's numeric value; `unit_type_to_index` maps every type to this same number. */
    function Value(): (v: nat)
      ensures v < 8
    {
      match this
      case Wall => 0
      case Support => 1
      case Turret => 2
      case Scout => 3
      case Demolisher => 4
      case Interceptor => 5
      case Remove => 6
      case Upgrade => 7
    }

    /** Walls, turrets and supports never move. */
    predicate IsStructure() {
      this == Wall || this == Turret || this == Support
    }

    /** Scouts, demolishers and interceptors walk in stacks. */
    predicate IsWalker() {
      this == Scout || this == Demolisher || this == Interceptor
    }

    /** The types that have an entry in the statistics table. */
    predicate HasStats() {
      IsStructure() || IsWalker()
    }
  }

  /** `UnitType(v)`: the enum member with value v, if there is one. */
  function UnitTypeOf(v: int): (t: Option<UnitType>)
    ensures t.Some? <==> 0 <= v < 8
    ensures t.Some? ==> t.value.Value() == v
  {
    if v == 0 then Some(Wall)
    else if v == 1 then Some(Support)
    else if v == 2 then Some(Turret)
    else if v == 3 then Some(Scout)
    else if v == 4 then Some(Demolisher)
    else if v == 5 then Some(Interceptor)
    else if v == 6 then Some(Remove)
    else if v == 7 then Some(Upgrade)
    else None
  }

  /** Converting a type to its value and back is the identity. */
  lemma UnitTypeRoundTrip(t: UnitType)
    ensures UnitTypeOf(t.Value()) == Some(t)
  {
  }

  datatype Option<+T> = None | Some(value: T)

  // ---------------------------------------------------------------------
  // Statistics read from the configuration table. Only the entries the
  // simulator actually reads are modelled; an absent entry read with
  // `.get(key, 0)` is 0.

  function StartHealth(t: UnitType): (h: real)
    requires t.HasStats()
    ensures h > 0.0
  {
    match t
    case Wall => 40.0
    case Support => 20.0
    case Turret => 75.0
    case Scout => 12.0
    case Demolisher => 5.0
    case Interceptor => 30.0
  }

  function AttackRange(t: UnitType): (r: real)
    requires t.HasStats()
    ensures r >= 0.0
    ensures r > 0.0 <==> t == Turret || t.IsWalker()
  {
    match t
    case Wall => 0.0
    case Support => 0.0
    case Turret => 2.5
    case Scout => 4.5
    case Demolisher => 4.5
    case Interceptor => 3.5
  }

  /** `attackDamageTower`: damage dealt to structures. */
  function DamageStructure(t: UnitType): (d: real)
    requires t.HasStats()
    ensures d > 0.0 <==> t == Scout || t == Demolisher
  {
    match t
    case Wall => 0.0
    case Support => 0.0
    case Turret => 0.0
    case Scout => 2.0
    case Demolisher => 8.0
    case Interceptor => 0.0
  }

  /** `attackDamageMobile`: damage dealt to walker stacks. */
  function DamageWalker(t: UnitType): (d: real)
    requires t.HasStats()
    ensures d > 0.0 <==> t == Turret || t.IsWalker()
  {
    match t
    case Wall => 0.0
    case Support => 0.0
    case Turret => 6.0
    case Scout => 2.0
    case Demolisher => 8.0
    case Interceptor => 20.0
  }

  const UpgradedTurretRange: real := 4.5
  const UpgradedTurretDamageWalker: real := 14.0

  const SupportShieldPerUnit: real := 3.0
  const SupportShieldRange: real := 2.5
  const SupportShieldBonusPerY: real := 0.0
  const UpgradedShieldRange: real := 6.0
  const UpgradedShieldPerUnit: real := 5.0
  const UpgradedShieldBonusPerY: real := 0.3

  /** `getHitRadius`, added to every range query. */
  const HitRadius: real := 0.01

  /** Python's `sys.maxsize` on a 64-bit build. */
  const MaxSize: int := 0x7FFF_FFFF_FFFF_FFFF
}
