/** One round of the replay: the state loaded from a frame record, the frame
    step (support shields, then walker movement and breaches), the round-over
    test and the results record. */
module GameState {
  import opened Constants
  import opened Board
  import opened Units
  import opened GameMap
  import opened Navigation
  import opened Sums
  import opened FrameStep

  /** One placement record: a location and, for structures, a health (0 stands
      for "the type's start health"). Walker and upgrade records are read for
      their location only. */
  datatype Entry = Entry(x: int, y: int, hp: real)

  function Loc(e: Entry): Coord {
    (e.x, e.y)
  }

  /** The locations of a list of records, in order. */
  function Locs(entries: seq<Entry>): (ls: seq<Coord>)
    ensures |ls| == |entries|
    ensures forall k :: 0 <= k < |entries| ==> ls[k] == Loc(entries[k])
  {
    if entries == [] then [] else Locs(entries[..|entries| - 1]) + [Loc(entries[|entries| - 1])]
  }

  /** The index of the last occurrence of c in locs, or -1 when there is none:
      the record whose placement survives on that cell. */
  function LastAt(locs: seq<Coord>, c: Coord): (k: int)
    ensures -1 <= k < |locs|
    ensures k >= 0 ==> locs[k] == c && forall j :: k < j < |locs| ==> locs[j] != c
    ensures k == -1 <==> c !in locs
  {
    if locs == [] then -1
    else if locs[|locs| - 1] == c then |locs| - 1
    else LastAt(locs[..|locs| - 1], c)
  }

  /** Extending the list by one location moves the last occurrence only of that location. */
  lemma LastAtExtend(locs: seq<Coord>, d: Coord, c: Coord)
    ensures LastAt(locs + [d], c) == if d == c then |locs| else LastAt(locs, c)
  {
    assert (locs + [d])[..|locs|] == locs;
  }

  /** The parts of a frame record the simulator reads. */
  datatype Frame = Frame(p1Stats: seq<real>, p2Stats: seq<real>, p1Units: seq<seq<Entry>>, p2Units: seq<seq<Entry>>)

  /** `parse_frame` for one player: the first three stats, in order. */
  function ParseStats(stats: seq<real>): (p: PlayerStats)
    requires |stats| >= 3
    ensures p.health == stats[0] && p.sp == stats[1] && p.mp == stats[2]
  {
    PlayerStats(stats[0], stats[1], stats[2])
  }

  /** The stats row of the results record: health, SP, MP and a time of 0.
      Parsing it back gives the same stats. */
  function StatsRecord(p: PlayerStats): (r: seq<real>)
    ensures |r| == 4 && r[3] == 0.0
    ensures ParseStats(r) == p
  {
    [p.health, p.sp, p.mp, 0.0]
  }

  /** One row of a results slot: the unit's location, its health and an
      empty note. */
  datatype UnitRow = UnitRow(x: int, y: int, hp: real, note: string)

  /** The results record: both players' stats rows and, per player, eight
      slots of unit rows indexed by unit type. */
  datatype Results = Results(p1Stats: seq<real>, p2Stats: seq<real>, p1Units: seq<seq<UnitRow>>, p2Units: seq<seq<UnitRow>>)

  /** The slots of the player `get_results` files a unit of player p under:
      the first player's for index 0, the second's for any other. */
  function Side(r: Results, p: int): seq<seq<UnitRow>> {
    if p == 0 then r.p1Units else r.p2Units
  }

  /** The number of rows over all slots. */
  function RowCount(slots: seq<seq<UnitRow>>): (n: nat)
    ensures slots == [] ==> n == 0
  {
    if slots == [] then 0 else |slots[0]| + RowCount(slots[1..])
  }

  /** Appending one row to one slot adds one to the row count. */
  lemma {:induction false} RowCountAppend(slots: seq<seq<UnitRow>>, k: int, row: UnitRow)
    requires 0 <= k < |slots|
    ensures RowCount(slots[k := slots[k] + [row]]) == RowCount(slots) + 1
  {
    if k == 0 {
      assert slots[k := slots[k] + [row]][1..] == slots[1..];
    } else {
      RowCountAppend(slots[1..], k - 1, row);
      assert slots[k := slots[k] + [row]][1..] == slots[1..][k - 1 := slots[k] + [row]];
    }
  }

  /** Eight empty slots have no rows. */
  lemma EmptySlots(slots: seq<seq<UnitRow>>)
    requires forall k :: 0 <= k < |slots| ==> slots[k] == []
    ensures RowCount(slots) == 0
  {
    if slots != [] {
      EmptySlots(slots[1..]);
    }
  }

  /** The player whose slots hold a unit's row: 0 for player index 0, 1 for
      any other. */
  function Owner(o: Occupant): int
    requires !o.Empty?
  {
    if o.Player() == 0 then 0 else 1
  }

  /** Every unit of `done` owned by p has its row in the slot of its type. */
  ghost predicate Filed(slots: seq<seq<UnitRow>>, done: set<Occupant>, rows: map<Occupant, UnitRow>, p: int) {
    |slots| == 8 && forall o :: o in done && !o.Empty? && Owner(o) == p ==> o in rows && rows[o] in slots[o.Type().Value()]
  }

  /** row is the row of a unit of `done` owned by p whose type has index k. */
  ghost predicate RowFrom(done: set<Occupant>, rows: map<Occupant, UnitRow>, p: int, k: int, row: UnitRow) {
    exists o :: o in done && !o.Empty? && Owner(o) == p && o.Type().Value() == k && o in rows && rows[o] == row
  }

  /** Every row of the slots is the row of a unit of `done` owned by p, in
      the slot of its type. */
  ghost predicate Sourced(slots: seq<seq<UnitRow>>, done: set<Occupant>, rows: map<Occupant, UnitRow>, p: int) {
    forall k, i :: 0 <= k < |slots| && 0 <= i < |slots[k]| ==> RowFrom(done, rows, p, k, slots[k][i])
  }

  /** Recording the row of a unit not yet filed leaves both predicates
      true. */
  lemma Rekey(slots: seq<seq<UnitRow>>, done: set<Occupant>, rows: map<Occupant, UnitRow>, o: Occupant, row: UnitRow, p: int)
    requires o !in done && Filed(slots, done, rows, p) && Sourced(slots, done, rows, p)
    ensures Filed(slots, done, rows[o := row], p) && Sourced(slots, done, rows[o := row], p)
  {
    forall k, i | 0 <= k < |slots| && 0 <= i < |slots[k]| ensures RowFrom(done, rows[o := row], p, k, slots[k][i]) {
      assert RowFrom(done, rows, p, k, slots[k][i]);
      var u :| u in done && !u.Empty? && Owner(u) == p && u.Type().Value() == k && u in rows && rows[u] == slots[k][i];
      assert rows[o := row][u] == rows[u];
    }
  }

  /** Recording o's row keeps `rows` the rows of the units recorded. */
  lemma RowsExtend(rows: map<Occupant, UnitRow>, done: set<Occupant>, o: Occupant)
    requires !o.Empty? && Empty !in done && forall u :: u in done ==> u in rows && rows[u] == RowOf(u)
    ensures forall u :: u in done + {o} ==> u in rows[o := RowOf(o)] && rows[o := RowOf(o)][u] == RowOf(u)
  {
  }

  /** Filing o's row in its owner's slots keeps both predicates, for both
      players, with o added to `done`. */
  lemma FileRow(slots: seq<seq<UnitRow>>, done: set<Occupant>, rows: map<Occupant, UnitRow>, o: Occupant)
    requires !o.Empty? && o in rows && Filed(slots, done, rows, Owner(o)) && Sourced(slots, done, rows, Owner(o))
    ensures Filed(slots[o.Type().Value() := slots[o.Type().Value()] + [rows[o]]], done + {o}, rows, Owner(o))
    ensures Sourced(slots[o.Type().Value() := slots[o.Type().Value()] + [rows[o]]], done + {o}, rows, Owner(o))
  {
    var k := o.Type().Value();
    var s' := slots[k := slots[k] + [rows[o]]];
    forall u | u in done + {o} && !u.Empty? && Owner(u) == Owner(o) ensures u in rows && rows[u] in s'[u.Type().Value()] {
      if u != o {
        assert rows[u] in slots[u.Type().Value()];
      }
    }
    forall j, i | 0 <= j < |s'| && 0 <= i < |s'[j]| ensures RowFrom(done + {o}, rows, Owner(o), j, s'[j][i]) {
      if j == k && i == |slots[k]| {
        assert o in done + {o} && rows[o] == s'[j][i];
      } else {
        assert s'[j][i] == slots[j][i];
        assert RowFrom(done, rows, Owner(o), j, slots[j][i]);
        var u :| u in done && !u.Empty? && Owner(u) == Owner(o) && u.Type().Value() == j && u in rows && rows[u] == slots[j][i];
        assert u in done + {o};
      }
    }
  }

  /** A unit owned by the other player leaves the predicates of p true with
      it added to `done`. */
  lemma FileElsewhere(slots: seq<seq<UnitRow>>, done: set<Occupant>, rows: map<Occupant, UnitRow>, o: Occupant, p: int)
    requires !o.Empty? && Owner(o) != p && Filed(slots, done, rows, p) && Sourced(slots, done, rows, p)
    ensures Filed(slots, done + {o}, rows, p) && Sourced(slots, done + {o}, rows, p)
  {
    forall k, i | 0 <= k < |slots| && 0 <= i < |slots[k]| ensures RowFrom(done + {o}, rows, p, k, slots[k][i]) {
      assert RowFrom(done, rows, p, k, slots[k][i]);
      var u :| u in done && !u.Empty? && Owner(u) == p && u.Type().Value() == k && u in rows && rows[u] == slots[k][i];
      assert u in done + {o};
    }
  }

  /** The slots of both players after filing the units of `done`: each
      unit's row in its owner's slot of its type, each row from such a unit,
      and one row per unit. */
  ghost predicate Tally(p1: seq<seq<UnitRow>>, p2: seq<seq<UnitRow>>, done: set<Occupant>, rows: map<Occupant, UnitRow>) {
    Filed(p1, done, rows, 0) && Sourced(p1, done, rows, 0) &&
    Filed(p2, done, rows, 1) && Sourced(p2, done, rows, 1) &&
    RowCount(p1) + RowCount(p2) == |done|
  }

  /** Filing one more unit in its owner's slot of its type keeps the tally. */
  lemma TallyStep(p1: seq<seq<UnitRow>>, p2: seq<seq<UnitRow>>, done: set<Occupant>, rows: map<Occupant, UnitRow>, o: Occupant, row: UnitRow)
    requires !o.Empty? && o !in done && Tally(p1, p2, done, rows)
    ensures Owner(o) == 0 ==> Tally(p1[o.Type().Value() := p1[o.Type().Value()] + [row]], p2, done + {o}, rows[o := row])
    ensures Owner(o) == 1 ==> Tally(p1, p2[o.Type().Value() := p2[o.Type().Value()] + [row]], done + {o}, rows[o := row])
  {
    var k := o.Type().Value();
    var rows' := rows[o := row];
    Rekey(p1, done, rows, o, row, 0);
    Rekey(p2, done, rows, o, row, 1);
    assert rows'[o] == row;
    if Owner(o) == 0 {
      RowCountAppend(p1, k, row);
      FileRow(p1, done, rows', o);
      FileElsewhere(p2, done, rows', o, 1);
    } else {
      RowCountAppend(p2, k, row);
      FileRow(p2, done, rows', o);
      FileElsewhere(p1, done, rows', o, 0);
    }
  }

  /** Moving one element from the set still to visit to the visited set. */
  lemma VisitOne<T>(all: set<T>, todo: set<T>, done: set<T>, o: T)
    requires todo <= all && done == all - todo && o in todo
    ensures all - (todo - {o}) == done + {o}
  {
  }

  /** The health `get_results` reports for a unit: the health of a structure
      or a support, the first walker's health for a stack (a stack always
      holds a walker; an empty one would report 0). */
  function ReportedHealth(o: Occupant): real
    requires !o.Empty?
    reads o.Objects()
  {
    match o
    case Structure(u) => u.health
    case SupportUnit(s) => s.base.health
    case Walker(w) => if w.health == [] then 0.0 else w.health[0]
  }

  /** The row of a unit: its location and reported health. */
  function RowOf(o: Occupant): UnitRow
    requires !o.Empty?
    reads o.Objects()
  {
    UnitRow(PosOf(o).0, PosOf(o).1, ReportedHealth(o), "")
  }

  /** How a unit's health is stored: a number for structures and supports, a
      list for walker stacks. */
  datatype StoredHealth = Number(v: real) | Listed(vs: seq<real>)

  /** The type and health `load_units` leaves on a unit: structures and
      supports keep the enum member and a number, walker stacks the integer
      slot and a list. */
  function Stored(o: Occupant): (StoredType, StoredHealth)
    requires !o.Empty?
    reads o.Objects()
  {
    match o
    case Structure(u) => (Member(u.unitType), Number(u.health))
    case SupportUnit(s) => (Member(Support), Number(s.base.health))
    case Walker(w) => (Slot(w.unitType.Value()), Listed(w.health))
  }

  /** The row of `get_results` as written, with its slot index:
      `unit.unit_type.value` needs the enum member (an integer has no
      `.value`), and `unit.health[0]` needs a non-empty list (a number cannot
      be indexed). None is the exception either raises. */
  function RowAsWritten(kind: StoredType, health: StoredHealth, c: Coord): Option<(nat, UnitRow)> {
    if kind.Slot? || health.Number? || health.vs == [] then None
    else Some((kind.t.Value(), UnitRow(c.0, c.1, health.vs[0], "")))
  }

  /** As written, no unit the loader makes yields a row: `get_results` raises
      on the first unit of `all_units`, so it only returns for an empty set. */
  lemma NoRowAsWritten(o: Occupant)
    requires !o.Empty?
    ensures RowAsWritten(Stored(o).0, Stored(o).1, PosOf(o)).None?
  {
  }

  /** What the loading loop's variable `unit` holds: never assigned, an empty
      cell, or the stack found on a cell. */
  datatype Seen = Unbound | Vacant | FoundAt(at: Coord)

  /** A stack on the value-level board of the walker loop: its owner and its
      walker count. */
  datatype Pile = Pile(player: int, count: int)

  /** One walker loop that reads each record's own cell into `unit`: a new
      stack of one on an empty cell, one more walker on an occupied one. The
      second result is what `unit` holds afterwards. */
  function LoadOwn(board: map<Coord, Pile>, player: int, locs: seq<Coord>, seen: Seen): (r: (map<Coord, Pile>, Seen))
    ensures locs != [] ==> r.1 != Unbound
    ensures forall c :: c in locs ==> c in r.0
    ensures forall c :: c in board && c !in locs ==> c in r.0 && r.0[c] == board[c]
    ensures forall c :: c in board ==> c in r.0 && r.0[c].player == board[c].player
    ensures forall c :: c in locs && c !in board ==> r.0[c].player == player
    decreases |locs|
  {
    if locs == [] then (board, seen)
    else
      var c := locs[0];
      if c !in board then LoadOwn(board[c := Pile(player, 1)], player, locs[1..], Vacant)
      else LoadOwn(board[c := board[c].(count := board[c].count + 1)], player, locs[1..], FoundAt(c))
  }

  /** The second player's walker loop as written: it never reads its own
      cell, so the `unit` the first player's loop left decides every record.
      Unbound raises (None); an empty cell makes every record start a stack
      on its own cell, replacing what stands there; a found stack gains one
      walker per record, wherever the record is. */
  function LoadOtherAsWritten(board: map<Coord, Pile>, player: int, locs: seq<Coord>, seen: Seen): Option<map<Coord, Pile>>
    decreases |locs|
  {
    if locs == [] then Some(board)
    else match seen
      case Unbound => None
      case Vacant => LoadOtherAsWritten(board[locs[0] := Pile(player, 1)], player, locs[1..], seen)
      case FoundAt(at) =>
        var grown := if at in board then board[at := board[at].(count := board[at].count + 1)] else board;
        LoadOtherAsWritten(grown, player, locs[1..], seen)
  }

  /** Two first-player scouts on (13, 0) and one second-player scout on
      (14, 27): as written the second player's scout joins the first
      player's stack, which ends with three walkers, and the second player
      has no stack; reading its own cell gives it a stack of one on (14, 27).
      With no first-player record before it, the second player's loop
      raises. */
  lemma StaleUnitCounterexample()
    ensures LoadOwn(map[], 0, [(13, 0), (13, 0)], Unbound) == (map[(13, 0) := Pile(0, 2)], FoundAt((13, 0)))
    ensures LoadOtherAsWritten(map[(13, 0) := Pile(0, 2)], 1, [(14, 27)], FoundAt((13, 0))) == Some(map[(13, 0) := Pile(0, 3)])
    ensures LoadOwn(map[(13, 0) := Pile(0, 2)], 1, [(14, 27)], FoundAt((13, 0))).0 == map[(13, 0) := Pile(0, 2), (14, 27) := Pile(1, 1)]
    ensures LoadOtherAsWritten(map[], 1, [(14, 27)], Unbound) == None
  {
    assert [(13, 0), (13, 0)][1..] == [(13, 0)];
    assert map[(13, 0) := Pile(0, 1)][(13, 0) := Pile(0, 2)] == map[(13, 0) := Pile(0, 2)];
    var b := map[(13, 0) := Pile(0, 2)];
    assert b[(13, 0) := b[(13, 0)].(count := b[(13, 0)].count + 1)] == map[(13, 0) := Pile(0, 3)];
    assert [(14, 27)][1..] == [];
  }

  /** The merge in `__init__`: slot i is slot i of the first record followed by
      slot i of the second; `zip` stops at the shorter of the two. */
  function MergeUnits(a: seq<seq<Entry>>, b: seq<seq<Entry>>): (m: seq<seq<Entry>>)
    ensures |m| == if |a| <= |b| then |a| else |b|
    ensures forall i :: 0 <= i < |m| ==> m[i] == a[i] + b[i]
  {
    if a == [] || b == [] then [] else [a[0] + b[0]] + MergeUnits(a[1..], b[1..])
  }

  /** Merging with a record of empty slots keeps every placement, in order. */
  lemma {:induction false} MergeWithEmpty(a: seq<seq<Entry>>, b: seq<seq<Entry>>)
    requires |a| == |b| && forall i :: 0 <= i < |b| ==> b[i] == []
    ensures MergeUnits(a, b) == a
  {
    var m := MergeUnits(a, b);
    forall i | 0 <= i < |a| ensures m[i] == a[i] {
      assert a[i] + [] == a[i];
    }
  }

  /** A health of 0 in a placement record means the type's start health. */
  function InitialHealth(t: UnitType, hp: real): real
    requires t.HasStats()
  {
    if hp != 0.0 then hp else StartHealth(t)
  }

  /** What the shield phase fixes before its loop: the stacks on the board,
      the board itself, each support's shield per unit, the supports that
      shield each stack, the stacks each support has already shielded, the
      stacks each support covers, and each stack's starting health. */
  datatype ShieldPlan = ShieldPlan(stacks: set<SimWalkerStack>, board: map<Coord, Occupant>, amounts: map<SimSupport, real>,
                                   givers: map<SimWalkerStack, set<SimSupport>>, given: map<SimSupport, set<SimWalkerStack>>,
                                   covered: map<SimSupport, set<SimWalkerStack>>, h0: map<SimWalkerStack, seq<real>>)

  /** What the move phase fixes before its loop: the stacks it visits, each
      stack's position and queued path, the players' stats, the fighters and
      all units, the board, and each stack's breach damage. */
  datatype MovePlan = MovePlan(stacks: set<SimWalkerStack>, pos: map<SimWalkerStack, Coord>, path: map<SimWalkerStack, seq<Coord>>,
                               stats: seq<PlayerStats>, fighters: set<Occupant>, units: set<Occupant>,
                               board: map<Coord, Occupant>, damage: map<SimWalkerStack, real>)

  /** How a call of `run_frame` ends: the round was already over, every stack
      breached or stepped, or some stack had to step with an empty queue,
      where the simulator blocks for good. */
  datatype FrameResult = RoundOver | Advanced | Stalled

  /** The plan knows every one of its stacks and every cell. */
  predicate Planned(plan: MovePlan) {
    |plan.stats| == 2 && plan.stacks <= plan.pos.Keys && plan.stacks <= plan.path.Keys && plan.stacks <= plan.damage.Keys &&
    (forall w :: w in plan.stacks ==> w.playerIndex == 0 || w.playerIndex == 1) &&
    (forall w :: w in plan.stacks ==> InGrid(plan.pos[w]) && (plan.path[w] != [] ==> InGrid(plan.path[w][0]))) &&
    forall x, y :: 0 <= x < ArenaSize && 0 <= y < ArenaSize ==> (x, y) in plan.board
  }

  /** The stacks that start the move phase on an edge of their quadrant: they
      breach. */
  function Breaching(plan: MovePlan): set<SimWalkerStack>
    requires Planned(plan)
  {
    set w | w in plan.stacks && AtEdge(plan.pos[w])
  }

  /** Some stack that has to step has no step queued: the simulator blocks
      on the empty queue. */
  predicate Stuck(plan: MovePlan)
    requires Planned(plan)
  {
    exists w :: w in plan.stacks && !AtEdge(plan.pos[w]) && plan.path[w] == []
  }

  /** Stack w has been handled by stepping to cell c. */
  predicate SteppedTo(plan: MovePlan, done: set<SimWalkerStack>, w: SimWalkerStack, c: Coord)
    requires Planned(plan)
  {
    w in done && w in plan.stacks && !AtEdge(plan.pos[w]) && plan.path[w] != [] && plan.path[w][0] == c
  }

  /** The cells the stacks of `done` have written: a breaching stack empties
      its own cell, a stepping stack writes the cell it steps to. */
  function Touched(plan: MovePlan, done: set<SimWalkerStack>): set<Coord>
    requires Planned(plan) && done <= plan.stacks
  {
    (set w | w in done && AtEdge(plan.pos[w]) :: plan.pos[w]) +
    (set w | w in done && !AtEdge(plan.pos[w]) && plan.path[w] != [] :: plan.path[w][0])
  }

  /** Handling one more stack adds the cell it writes, if any. */
  lemma TouchedNext(plan: MovePlan, done: set<SimWalkerStack>, w: SimWalkerStack)
    requires Planned(plan) && done <= plan.stacks && w in plan.stacks
    ensures AtEdge(plan.pos[w]) ==> Touched(plan, done + {w}) == Touched(plan, done) + {plan.pos[w]}
    ensures !AtEdge(plan.pos[w]) && plan.path[w] != [] ==> Touched(plan, done + {w}) == Touched(plan, done) + {plan.path[w][0]}
  {
  }

  /** Where a stack stands, what it has queued and how many walkers it has. */
  datatype Spot = Spot(pos: Coord, path: seq<Coord>, count: int)

  /** The spots of a set of stacks. */
  ghost function Spots(stacks: set<SimWalkerStack>): map<SimWalkerStack, Spot>
    reads stacks
  {
    map u | u in stacks :: Spot((u.x, u.y), u.path, u.unitCount)
  }

  /** The stack takes the front of its queue as its position; of the stacks
      in `stacks`, only w's spot changes. */
  method StepTo(w: SimWalkerStack, ghost stacks: set<SimWalkerStack>) returns (step: Coord)
    requires w.path != [] && w in stacks
    modifies w`x, w`y, w`path
    ensures step == old(w.path[0]) && (w.x, w.y) == step && w.path == old(w.path[1..])
    ensures Spots(stacks) == old(Spots(stacks))[w := Spot(step, w.path, w.unitCount)]
  {
    step := w.NextStep();
    w.x, w.y := step.0, step.1;
  }

  /** The parts of the state the move loop changes: the walker, fighter and
      unit sets, the players' stats, the stacks' spots and the board. */
  datatype Snap = Snap(stacks: set<SimWalkerStack>, fighters: set<Occupant>, units: set<Occupant>, stats: seq<PlayerStats>,
                       spots: map<SimWalkerStack, Spot>, board: map<Coord, Occupant>)

  /** The snapshot the stacks of `done` make of the plan, the stacks of
      `todo` still to handle: the breaching stacks handled so far have left
      the sets and been charged; a stack still to handle, or one that
      breached, is where the plan has it, and a stack that stepped stands on
      the first cell of its queue, which it has dropped; no count changes;
      the board is one the handled stacks can have made of the plan's. */
  ghost predicate Progress(plan: MovePlan, todo: set<SimWalkerStack>, snap: Snap)
    requires Planned(plan) && todo <= plan.stacks
  {
    SetsAgree(plan, todo, snap) && SpotsAgree(plan, todo, snap.spots) && BoardAgrees(plan, plan.stacks - todo, snap.board)
  }

  /** The breaching stacks handled so far have left the sets and been
      charged. */
  ghost predicate SetsAgree(plan: MovePlan, todo: set<SimWalkerStack>, snap: Snap)
    requires Planned(plan) && todo <= plan.stacks
  {
    var gone := Breaching(plan) - todo;
    snap.stacks == plan.stacks - gone && snap.fighters == plan.fighters - Walkers(gone) &&
    snap.units == plan.units - Walkers(gone) && snap.stats == Settled(plan.stats, plan.damage, gone)
  }

  /** A stack still to handle, or one that breached, is where the plan has
      it; a stack that stepped stands on the first cell of its queue, which it
      has dropped; no count changes. */
  ghost predicate SpotsAgree(plan: MovePlan, todo: set<SimWalkerStack>, spots: map<SimWalkerStack, Spot>)
    requires Planned(plan) && todo <= plan.stacks
  {
    plan.stacks <= spots.Keys &&
    (forall u :: u in plan.stacks ==> plan.damage[u] == BreachDamage(u.unitType, spots[u].count)) &&
    (forall u :: u in plan.stacks ==>
      if u in todo || AtEdge(plan.pos[u]) then spots[u].pos == plan.pos[u] && spots[u].path == plan.path[u]
      else plan.path[u] != [] && spots[u].pos == plan.path[u][0] && spots[u].path == plan.path[u][1..])
  }

  /** Before any stack is handled, the snapshot that agrees with the plan is
      one the plan allows. */
  lemma ProgressStart(plan: MovePlan, snap: Snap)
    requires Planned(plan) && snap.stacks == plan.stacks && snap.fighters == plan.fighters && snap.units == plan.units
    requires snap.stats == plan.stats && snap.board == plan.board
    requires forall u :: u in plan.stacks ==>
      u in snap.spots && snap.spots[u] == Spot(plan.pos[u], plan.path[u], snap.spots[u].count) &&
      plan.damage[u] == BreachDamage(u.unitType, snap.spots[u].count)
    ensures Progress(plan, plan.stacks, snap)
  {
    assert Breaching(plan) - plan.stacks == {};
    assert Walkers({}) == {};
    SettledNone(plan.stats, plan.damage);
    assert Touched(plan, {}) == {};
    assert plan.stacks - plan.stacks == {};
  }

  /** The snapshot after stack w breaches. */
  ghost function Breached(plan: MovePlan, snap: Snap, w: SimWalkerStack): Snap
    requires Planned(plan) && w in plan.stacks && |snap.stats| == 2
  {
    snap.(stacks := snap.stacks - {w}, fighters := snap.fighters - {Walker(w)}, units := snap.units - {Walker(w)},
          stats := Charge(snap.stats, w.playerIndex, plan.damage[w]), board := snap.board[plan.pos[w] := Empty])
  }

  /** The snapshot after stack w steps. */
  ghost function Stepped(plan: MovePlan, snap: Snap, w: SimWalkerStack): Snap
    requires Planned(plan) && w in plan.stacks && plan.path[w] != [] && w in snap.spots
  {
    var t := plan.path[w][0];
    snap.(spots := snap.spots[w := Spot(t, plan.path[w][1..], snap.spots[w].count)], board := snap.board[t := Walker(w)])
  }

  /** A breach of a stack still to handle keeps the snapshot one the plan
      allows. */
  lemma ProgressBreach(plan: MovePlan, todo: set<SimWalkerStack>, w: SimWalkerStack, snap: Snap)
    requires Planned(plan) && todo <= plan.stacks && Progress(plan, todo, snap)
    requires w in todo && AtEdge(plan.pos[w])
    ensures Progress(plan, todo - {w}, Breached(plan, snap, w))
  {
    SetsBreach(plan, todo, w, snap);
    AgreesBreach(plan, plan.stacks - todo, w, snap.board);
    assert plan.stacks - (todo - {w}) == (plan.stacks - todo) + {w};
  }

  /** A breach takes the stack out of the sets and charges its damage. */
  lemma SetsBreach(plan: MovePlan, todo: set<SimWalkerStack>, w: SimWalkerStack, snap: Snap)
    requires Planned(plan) && todo <= plan.stacks && SetsAgree(plan, todo, snap)
    requires w in todo && AtEdge(plan.pos[w])
    ensures SetsAgree(plan, todo - {w}, Breached(plan, snap, w))
  {
    var gone := Breaching(plan) - todo;
    SettledStep(plan.stats, plan.damage, gone, w);
    assert Breaching(plan) - (todo - {w}) == gone + {w};
    assert Walkers(gone + {w}) == Walkers(gone) + {Walker(w)};
  }

  /** A step of a stack still to handle keeps the snapshot one the plan
      allows. */
  lemma ProgressStep(plan: MovePlan, todo: set<SimWalkerStack>, w: SimWalkerStack, snap: Snap)
    requires Planned(plan) && todo <= plan.stacks && Progress(plan, todo, snap)
    requires w in todo && !AtEdge(plan.pos[w]) && plan.path[w] != []
    ensures Progress(plan, todo - {w}, Stepped(plan, snap, w))
  {
    assert Breaching(plan) - (todo - {w}) == Breaching(plan) - todo;
    AgreesStep(plan, plan.stacks - todo, w, snap.board);
    assert plan.stacks - (todo - {w}) == (plan.stacks - todo) + {w};
  }

  /** What the stacks of `done` have made of the plan's board: a cell none of
      them has written holds what it held; a written cell is empty or holds a
      stack of `done` that stepped onto it; and a stack that is alone in
      stepping to its cell stands there. */
  ghost predicate BoardAgrees(plan: MovePlan, done: set<SimWalkerStack>, board: map<Coord, Occupant>)
    requires Planned(plan) && done <= plan.stacks
  {
    plan.board.Keys <= board.Keys &&
    (forall c :: c in plan.board ==>
      if c in Touched(plan, done) then board[c] == Empty || (board[c].Walker? && SteppedTo(plan, done, board[c].stack, c))
      else board[c] == plan.board[c]) &&
    (forall w :: w in done && !AtEdge(plan.pos[w]) && plan.path[w] != [] && Alone(plan, w) ==>
      plan.path[w][0] in board && board[plan.path[w][0]] == Walker(w))
  }

  /** A breach empties the stack's own cell and keeps the board one the
      handled stacks can have made. */
  lemma AgreesBreach(plan: MovePlan, done: set<SimWalkerStack>, w: SimWalkerStack, board: map<Coord, Occupant>)
    requires Planned(plan) && done <= plan.stacks && BoardAgrees(plan, done, board)
    requires w in plan.stacks && w !in done && AtEdge(plan.pos[w])
    ensures BoardAgrees(plan, done + {w}, board[plan.pos[w] := Empty])
  {
    TouchedNext(plan, done, w);
  }

  /** A step writes the stack onto its cell and keeps the board one the
      handled stacks can have made. */
  lemma AgreesStep(plan: MovePlan, done: set<SimWalkerStack>, w: SimWalkerStack, board: map<Coord, Occupant>)
    requires Planned(plan) && done <= plan.stacks && BoardAgrees(plan, done, board)
    requires w in plan.stacks && w !in done && !AtEdge(plan.pos[w]) && plan.path[w] != []
    ensures BoardAgrees(plan, done + {w}, board[plan.path[w][0] := Walker(w)])
  {
    TouchedNext(plan, done, w);
  }

  /** No other stack of the plan writes the cell that stack w steps to, so
      the order in which the stacks are handled does not matter for it. */
  predicate Alone(plan: MovePlan, w: SimWalkerStack)
    requires Planned(plan) && w in plan.stacks && plan.path[w] != []
  {
    forall u :: u in plan.stacks && u != w ==>
      (AtEdge(plan.pos[u]) ==> plan.pos[u] != plan.path[w][0]) &&
      (!AtEdge(plan.pos[u]) && plan.path[u] != [] ==> plan.path[u][0] != plan.path[w][0])
  }

  /** An occupant carries a type of its own kind. */
  predicate Typed(o: Occupant) {
    match o
    case Empty => true
    case Structure(u) => u.unitType == Wall || u.unitType == Turret
    case SupportUnit(s) => s.base.unitType == Support
    case Walker(w) => w.unitType.IsWalker()
  }

  /** A walker stack the frame step can move: on the board, with a count that
      matches its health list, owned by player 0 or 1, and with a path of
      in-bounds steps. */
  ghost predicate StackOk(w: SimWalkerStack)
    reads w
  {
    InBoundsAt((w.x, w.y)) && w.CountMatches() && (w.playerIndex == 0 || w.playerIndex == 1) &&
    w.unitType.IsWalker() && forall k :: 0 <= k < |w.path| ==> InBoundsAt(w.path[k])
  }

  /** A stack the frame step can move stands on a cell of the grid and
      steps to one. */
  lemma StackInGrid(w: SimWalkerStack)
    requires StackOk(w)
    ensures InGrid((w.x, w.y)) && (w.path != [] ==> InGrid(w.path[0]))
  {
    InBoundsInGrid(w.x, w.y);
    if w.path != [] {
      InBoundsInGrid(w.path[0].0, w.path[0].1);
    }
  }

  /** A support the shield phase can use: on the board, with a range the range
      query accepts and a non-negative shield. */
  ghost predicate SupportOk(s: SimSupport)
    reads s`shieldRange, s`shieldPerUnit, s.base`x, s.base`y
  {
    InBoundsAt((s.base.x, s.base.y)) && 0.0 <= s.shieldRange <= ArenaSize as real && s.shieldPerUnit >= 0.0
  }

  /** u is the unit a wall or turret record makes: type t, owned by player, on
      the record's cell, with the record's health, not upgraded. */
  ghost predicate FitsUnit(u: SimUnit, t: UnitType, player: int, e: Entry)
    reads u
  {
    (t == Wall || t == Turret) && u.unitType == t && u.playerIndex == player && (u.x, u.y) == Loc(e) &&
    u.health == InitialHealth(t, e.hp) && !u.upgraded
  }

  /** s is the support a support record makes, with the base shield and no
      stack shielded yet. */
  ghost predicate FitsSupport(s: SimSupport, player: int, e: Entry)
    reads s, s.base
  {
    s.base.unitType == Support && s.base.playerIndex == player && (s.base.x, s.base.y) == Loc(e) &&
    s.base.health == InitialHealth(Support, e.hp) && !s.base.upgraded && s.givenShield == {} && s.Shield() == BaseShield
  }

  /** w is the stack a walker record makes on an empty cell: one walker of type
      t at the start health, owned by player, with no path yet. */
  ghost predicate FitsWalker(w: SimWalkerStack, t: UnitType, player: int, e: Entry)
    reads w
  {
    t.IsWalker() && w.unitType == t && w.playerIndex == player && (w.x, w.y) == Loc(e) &&
    w.unitCount == 1 && w.health == [StartHealth(t)] && w.path == [] && !w.upgraded
  }

  /** The state an upgrade record leaves: a structure is flagged and, for a
      turret, has the upgraded range and walker damage; a support has the
      upgraded shield; a stack is flagged. */
  ghost predicate Upgraded(o: Occupant)
    reads o.Objects()
  {
    match o
    case Empty => false
    case Structure(u) => u.upgraded && (u.unitType == Turret ==> u.attackRange == UpgradedTurretRange && u.damageWalker == UpgradedTurretDamageWalker)
    case SupportUnit(s) => s.Shield() == UpgradedShield
    case Walker(w) => w.upgraded
  }

  /** The cells a sequence of placements has written: placed[k] is put on the
      cell of entries[k] for each k in turn, so a later placement on a cell
      replaces an earlier one. */
  function Overlay(entries: seq<Entry>, placed: seq<Occupant>): map<Coord, Occupant>
    requires |entries| == |placed|
  {
    if entries == [] then map[]
    else Overlay(entries[..|entries| - 1], placed[..|placed| - 1])[Loc(entries[|entries| - 1]) := placed[|placed| - 1]]
  }

  /** A cell has been written exactly when some record targets it, and it then
      holds the occupant of the last record there. */
  lemma {:induction false} OverlayLast(entries: seq<Entry>, placed: seq<Occupant>, c: Coord)
    requires |entries| == |placed|
    ensures c in Overlay(entries, placed) <==> LastAt(Locs(entries), c) >= 0
    ensures c in Overlay(entries, placed) ==> Overlay(entries, placed)[c] == placed[LastAt(Locs(entries), c)]
  {
    if entries != [] {
      var n := |entries| - 1;
      OverlayLast(entries[..n], placed[..n], c);
      assert Locs(entries)[..n] == Locs(entries[..n]);
      if Loc(entries[n]) != c {
        assert LastAt(Locs(entries), c) == LastAt(Locs(entries)[..n], c);
      }
    }
  }

  /** Placements of structures and supports write no stack. */
  lemma OverlayStationary(entries: seq<Entry>, placed: seq<Occupant>, c: Coord)
    requires |entries| == |placed| && forall k :: 0 <= k < |placed| ==> placed[k].IsStationary()
    requires c in Overlay(entries, placed)
    ensures Overlay(entries, placed)[c].IsStationary()
  {
    OverlayLast(entries, placed, c);
  }

  /** One more placement is one more map update. */
  lemma OverlayNext(entries: seq<Entry>, placed: seq<Occupant>, i: int, o: Occupant)
    requires 0 <= i < |entries| && |placed| == i
    ensures Overlay(entries[..i + 1], placed + [o]) == Overlay(entries[..i], placed)[Loc(entries[i]) := o]
  {
    assert entries[..i + 1][..i] == entries[..i];
    assert (placed + [o])[..i] == placed;
  }

  function Wrapped(us: seq<SimUnit>): (os: seq<Occupant>)
    ensures |os| == |us| && forall k :: 0 <= k < |us| ==> os[k] == Structure(us[k])
  {
    seq(|us|, k requires 0 <= k < |us| => Structure(us[k]))
  }

  lemma WrappedNext(us: seq<SimUnit>, u: SimUnit)
    ensures Wrapped(us + [u]) == Wrapped(us) + [Structure(u)]
  {
  }

  function Shields(ss: seq<SimSupport>): (os: seq<Occupant>)
    ensures |os| == |ss| && forall k :: 0 <= k < |ss| ==> os[k] == SupportUnit(ss[k])
  {
    seq(|ss|, k requires 0 <= k < |ss| => SupportUnit(ss[k]))
  }

  lemma ShieldsNext(ss: seq<SimSupport>, s: SimSupport)
    ensures Shields(ss + [s]) == Shields(ss) + [SupportUnit(s)]
  {
  }

  function Structures(us: seq<SimUnit>): set<Occupant> {
    if us == [] then {} else Structures(us[..|us| - 1]) + {Structure(us[|us| - 1])}
  }

  function SupportUnits(ss: seq<SimSupport>): set<Occupant> {
    if ss == [] then {} else SupportUnits(ss[..|ss| - 1]) + {SupportUnit(ss[|ss| - 1])}
  }

  function SupportSet(ss: seq<SimSupport>): set<SimSupport> {
    if ss == [] then {} else SupportSet(ss[..|ss| - 1]) + {ss[|ss| - 1]}
  }

  function Walkers(ws: set<SimWalkerStack>): set<Occupant> {
    set w | w in ws :: Walker(w)
  }

  /** Every stack on the board is one of ws and stands on the cell holding it,
      so two cells never hold the same stack. */
  ghost predicate Tracked(cells: array2<Occupant>, ws: set<SimWalkerStack>)
    reads cells, ws
  {
    cells.Length0 == ArenaSize && cells.Length1 == ArenaSize &&
    forall x, y :: 0 <= x < ArenaSize && 0 <= y < ArenaSize && cells[x, y].Walker? ==>
      cells[x, y].stack in ws && (cells[x, y].stack.x, cells[x, y].stack.y) == (x, y)
  }

  /** The cells of the first i records, each counted once per record. */
  function Records(entries: seq<Entry>, i: int): multiset<Coord>
    requires 0 <= i <= |entries|
  {
    if i == 0 then multiset{} else Records(entries, i - 1) + multiset{Loc(entries[i - 1])}
  }

  /** Counted over all the records, the cells are those of `Locs`. */
  lemma {:induction false} RecordsAll(entries: seq<Entry>, i: int)
    requires 0 <= i <= |entries|
    ensures Records(entries, i) == multiset(Locs(entries[..i]))
  {
    if i > 0 {
      RecordsAll(entries, i - 1);
      assert entries[..i][..i - 1] == entries[..i - 1];
    }
  }

  /** What the walker records so far, n of them on this cell, have done to a
      cell that held b and now holds o: no record targets a structure or a
      support; a cell that held something holds it still; an empty cell holds
      a new stack from made exactly when some record targets it. */
  predicate Grown(b: Occupant, made: set<SimWalkerStack>, n: nat, o: Occupant) {
    if b.Empty? then (if n == 0 then o.Empty? else o.Walker? && o.stack in made)
    else o == b && (n > 0 ==> b.Walker?)
  }

  /** Every stack of made has type t and owner player. */
  predicate MadeAs(made: set<SimWalkerStack>, t: UnitType, player: int) {
    forall w :: w in made ==> w.unitType == t && w.playerIndex == player
  }

  /** Every cell of base, overlaid with written, is `Grown` by the records rs. */
  ghost predicate GrownMap(base: map<Coord, Occupant>, written: map<Coord, Occupant>, made: set<SimWalkerStack>, rs: multiset<Coord>) {
    forall c :: c in base ==> Grown(base[c], made, rs[c], if c in written then written[c] else base[c])
  }

  /** Every stack of ws has the walker count and the cell ld records for it. */
  ghost predicate Mirrored(ws: set<SimWalkerStack>, ld: WalkerLoad)
    reads ws
  {
    forall w :: w in ws ==> w in ld.counts && w in ld.at && w.unitCount == ld.counts[w] && (w.x, w.y) == ld.at[w]
  }

  /** The map before holds every cell of the grid, as base overlaid with written. */
  ghost predicate Overlaid(before: map<Coord, Occupant>, base: map<Coord, Occupant>, written: map<Coord, Occupant>) {
    forall x, y :: 0 <= x < ArenaSize && 0 <= y < ArenaSize ==>
      (x, y) in base && (x, y) in before && before[(x, y)] == if (x, y) in written then written[(x, y)] else base[(x, y)]
  }

  /** A new stack of one walker on e joins the mirror. */
  lemma MirroredStart(ws: set<SimWalkerStack>, ld: WalkerLoad, w: SimWalkerStack, e: Coord, ld': WalkerLoad)
    requires Mirrored(ws, ld) && w !in ws && w.unitCount == 1 && (w.x, w.y) == e
    requires ld' == ld.(made := ld'.made, written := ld'.written, counts := ld.counts[w := 1], at := ld.at[w := e])
    ensures Mirrored(ws + {w}, ld')
  {
  }

  /** The state a walker loop starts from: the cells, each stack's walker
      count, and the three sets. */
  datatype LoadStart = LoadStart(cells: map<Coord, Occupant>, counts: map<SimWalkerStack, int>,
                                 stacks: set<SimWalkerStack>, fighters: set<Occupant>, units: set<Occupant>)

  /** The bookkeeping of a walker loop: the stacks made so far, the cells
      written, and each stack's walker count and cell. */
  datatype WalkerLoad = WalkerLoad(made: set<SimWalkerStack>, written: map<Coord, Occupant>,
                                   counts: map<SimWalkerStack, int>, at: map<SimWalkerStack, Coord>)

  /** What the walker records rs have done, on values: every cell is `Grown`
      from the start; the new stacks have type t and owner player and join
      the three sets; every stack counts the walkers it had at the start
      (none for a new one) plus one per record on its cell. */
  ghost predicate Loaded(ld: WalkerLoad, st: LoadStart, ws: set<SimWalkerStack>, fs: set<Occupant>, us: set<Occupant>,
                         t: UnitType, player: int, rs: multiset<Coord>) {
    GrownMap(st.cells, ld.written, ld.made, rs) && MadeAs(ld.made, t, player) &&
    ws == st.stacks + ld.made && fs == st.fighters + Walkers(ld.made) && us == st.units + Walkers(ld.made) &&
    forall w :: w in ws ==>
      w in ld.counts && w in ld.at && (w in ld.made || w in st.counts) &&
      ld.counts[w] == (if w in ld.made then 0 else st.counts[w]) + rs[ld.at[w]]
  }

  /** A record on an empty cell e starts a new stack w there: the start had
      nothing on e and no earlier record targets it. */
  lemma LoadedStart(ld: WalkerLoad, st: LoadStart, ws: set<SimWalkerStack>, fs: set<Occupant>, us: set<Occupant>,
                    t: UnitType, player: int, rs: multiset<Coord>, e: Coord, w: SimWalkerStack)
    requires Loaded(ld, st, ws, fs, us, t, player, rs) && e in st.cells
    requires (if e in ld.written then ld.written[e] else st.cells[e]) == Empty
    requires w !in ws && w.unitType == t && w.playerIndex == player
    requires forall v :: v in ws ==> ld.at[v] != e
    ensures st.cells[e] == Empty
    ensures Loaded(WalkerLoad(ld.made + {w}, ld.written[e := Walker(w)], ld.counts[w := 1], ld.at[w := e]), st,
                   ws + {w}, fs + {Walker(w)}, us + {Walker(w)}, t, player, rs + multiset{e})
  {
    assert Grown(st.cells[e], ld.made, rs[e], Empty);
    assert Walkers(ld.made + {w}) == Walkers(ld.made) + {Walker(w)};
  }

  /** A record on a cell e holding the stack w adds one walker to w. */
  lemma LoadedJoin(ld: WalkerLoad, st: LoadStart, ws: set<SimWalkerStack>, fs: set<Occupant>, us: set<Occupant>,
                   t: UnitType, player: int, rs: multiset<Coord>, e: Coord, w: SimWalkerStack)
    requires Loaded(ld, st, ws, fs, us, t, player, rs) && e in st.cells
    requires (if e in ld.written then ld.written[e] else st.cells[e]) == Walker(w)
    requires w in ws && ld.at[w] == e && forall v :: v in ws && ld.at[v] == e ==> v == w
    ensures !st.cells[e].IsStationary()
    ensures Loaded(ld.(counts := ld.counts[w := ld.counts[w] + 1]), st, ws, fs, us, t, player, rs + multiset{e})
  {
    assert Grown(st.cells[e], ld.made, rs[e], Walker(w));
  }

  /** Each stack of ws with its walker count. */
  ghost function Census(ws: set<SimWalkerStack>): map<SimWalkerStack, int>
    reads ws
  {
    map w | w in ws :: w.unitCount
  }

  /** Each stack of ws with its cell. */
  ghost function Places(ws: set<SimWalkerStack>): map<SimWalkerStack, Coord>
    reads ws
  {
    map w | w in ws :: (w.x, w.y)
  }

  /** No record of a completed walker loop targets a structure or a support. */
  lemma RecordsClear(entries: seq<Entry>, base: map<Coord, Occupant>, written: map<Coord, Occupant>, made: set<SimWalkerStack>)
    requires GrownMap(base, written, made, Records(entries, |entries|))
    ensures forall e :: e in entries && Loc(e) in base ==> !base[Loc(e)].IsStationary()
  {
    RecordsAll(entries, |entries|);
    assert entries[..|entries|] == entries;
  }

  class SimGameState {
    var frame: int
    /** Indexed by player. */
    var playerStats: seq<PlayerStats>
    var walkerStacks: set<SimWalkerStack>
    var supports: set<SimSupport>
    /** Turrets and walker stacks. */
    var fighters: set<Occupant>
    var allUnits: set<Occupant>
    const gameMap: SimGameMap

    ghost predicate Valid()
      reads this, gameMap, gameMap.cells, gameMap.Repr
    {
      gameMap.Valid() && this !in gameMap.Repr && |playerStats| == 2 &&
      (forall x, y :: 0 <= x < ArenaSize && 0 <= y < ArenaSize ==> Typed(gameMap.cells[x, y])) &&
      (forall w :: w in walkerStacks ==> w in gameMap.Repr && StackOk(w)) &&
      (forall s :: s in supports ==> s in gameMap.Repr && s.base in gameMap.Repr && SupportOk(s))
    }

    /** Every stack in `walker_stacks` is also in `fighters` and `all_units`. */
    predicate Registered()
      reads this
    {
      forall w :: w in walkerStacks ==> Walker(w) in fighters && Walker(w) in allUnits
    }

    /** Every stack in `walker_stacks` stands on the cell its x, y name. */
    ghost predicate Anchored()
      reads this, walkerStacks, gameMap.cells
    {
      forall w :: w in walkerStacks ==>
        InGrid((w.x, w.y)) && gameMap.Shaped() && gameMap.cells[w.x, w.y] == Walker(w)
    }

    /** `__init__` up to the merge: frame -1, no units, an empty map, and the
        stats parsed from the last action frame (`parse_frame`). */
    constructor (lastActionFrame: Frame)
      requires |lastActionFrame.p1Stats| >= 3 && |lastActionFrame.p2Stats| >= 3
      ensures Valid() && Anchored() && fresh(gameMap) && fresh(gameMap.cells) && gameMap.Repr == {}
      ensures frame == -1 && walkerStacks == {} && supports == {} && fighters == {} && allUnits == {}
      ensures playerStats == [ParseStats(lastActionFrame.p1Stats), ParseStats(lastActionFrame.p2Stats)]
      ensures forall x, y :: 0 <= x < ArenaSize && 0 <= y < ArenaSize ==> gameMap.cells[x, y] == Empty
    {
      frame := -1;
      walkerStacks, supports, fighters, allUnits := {}, {}, {}, {};
      gameMap := new SimGameMap();
      playerStats := [ParseStats(lastActionFrame.p1Stats), ParseStats(lastActionFrame.p2Stats)];
    }

    /** The cells agree with `written` where it has an entry and with `base`
        elsewhere. */
    ghost predicate Holds(base: map<Coord, Occupant>, written: map<Coord, Occupant>)
      reads gameMap.cells
    {
      gameMap.Shaped() &&
      forall x, y {:trigger gameMap.cells[x, y]} :: 0 <= x < ArenaSize && 0 <= y < ArenaSize ==>
        (x, y) in base && gameMap.cells[x, y] == if (x, y) in written then written[(x, y)] else base[(x, y)]
    }

    /** Writing o on cell c, and nothing else, turns `Holds(base, written)`
        into `Holds(base, written[c := o])`; before is the grid before the write. */
    lemma HoldsStep(base: map<Coord, Occupant>, written: map<Coord, Occupant>, before: map<Coord, Occupant>, c: Coord, o: Occupant)
      requires gameMap.Shaped() && InGrid(c) && gameMap.cells[c.0, c.1] == o && c in base
      requires Overlaid(before, base, written)
      requires forall x, y {:trigger gameMap.cells[x, y]} :: 0 <= x < ArenaSize && 0 <= y < ArenaSize && (x, y) != c ==>
        (x, y) in before && gameMap.cells[x, y] == before[(x, y)]
      ensures Holds(base, written[c := o])
    {
    }

    /** One wall or turret record of `load_units`: `SimUnit(t, (x, y), player, hp)`
        overwrites its cell and joins `all_units`, and a turret `fighters`. */
    method PlaceUnit(e: Entry, t: UnitType, player: int, ghost base: map<Coord, Occupant>, ghost written: map<Coord, Occupant>)
      returns (u: SimUnit)
      requires Valid() && (t == Wall || t == Turret) && InBoundsAt(Loc(e)) && Holds(base, written)
      modifies this, gameMap, gameMap.cells
      ensures Valid() && FitsUnit(u, t, player, e) && fresh(u) && fresh(gameMap.Repr - old(gameMap.Repr))
      ensures Holds(base, written[Loc(e) := Structure(u)])
      ensures allUnits == old(allUnits) + {Structure(u)} && supports == old(supports)
      ensures fighters == old(fighters) + (if t == Turret then {Structure(u)} else {})
      ensures walkerStacks == old(walkerStacks) && frame == old(frame) && playerStats == old(playerStats)
    {
      u := new SimUnit(t, Loc(e), player, e.hp);
      fighters, allUnits := fighters + (if t == Turret then {Structure(u)} else {}), allUnits + {Structure(u)};
      gameMap.AddUnit(Loc(e), Structure(u));
    }

    /** The state after the first i wall or turret records: placed[k] is the
        unit record k made, the cells hold the last unit placed on them (the
        rest as in base), and every unit made is in `all_units` (turrets also
        in `fighters`). */
    ghost predicate UnitsLoaded(entries: seq<Entry>, t: UnitType, player: int, i: int, placed: seq<SimUnit>,
                                base: map<Coord, Occupant>, all0: set<Occupant>, fighters0: set<Occupant>)
      reads this, gameMap.cells, set k | 0 <= k < |placed| :: placed[k]
    {
      |placed| == i <= |entries| &&
      (forall k :: 0 <= k < i ==> FitsUnit(placed[k], t, player, entries[k])) &&
      Holds(base, Overlay(entries[..i], Wrapped(placed))) &&
      allUnits == all0 + Structures(placed) &&
      fighters == fighters0 + (if t == Turret then Structures(placed) else {})
    }

    /** Record i of a wall or turret loop. */
    method PlaceNextUnit(entries: seq<Entry>, t: UnitType, player: int, i: int, ghost placed: seq<SimUnit>,
                         ghost base: map<Coord, Occupant>, ghost all0: set<Occupant>, ghost fighters0: set<Occupant>)
      returns (u: SimUnit)
      requires Valid() && (t == Wall || t == Turret) && 0 <= i < |entries| && InBoundsAt(Loc(entries[i]))
      requires UnitsLoaded(entries, t, player, i, placed, base, all0, fighters0)
      modifies this, gameMap, gameMap.cells
      ensures Valid() && UnitsLoaded(entries, t, player, i + 1, placed + [u], base, all0, fighters0)
      ensures fresh(gameMap.Repr - old(gameMap.Repr))
      ensures supports == old(supports) && walkerStacks == old(walkerStacks)
      ensures frame == old(frame) && playerStats == old(playerStats)
    {
      u := PlaceUnit(entries[i], t, player, base, Overlay(entries[..i], Wrapped(placed)));
      OverlayNext(entries, Wrapped(placed), i, Structure(u));
      WrappedNext(placed, u);
    }

    /** A wall or turret loop of `load_units`: the records are placed in
        order, so the last record for a cell leaves its unit standing there
        (`OverlayLast`), while every unit made is kept in `all_units` (and
        turrets in `fighters`). */
    method PlaceUnits(entries: seq<Entry>, t: UnitType, player: int) returns (ghost placed: seq<SimUnit>)
      requires Valid() && (t == Wall || t == Turret)
      requires forall e :: e in entries ==> InBoundsAt(Loc(e))
      modifies this, gameMap, gameMap.cells
      ensures Valid() && fresh(gameMap.Repr - old(gameMap.Repr))
      ensures |placed| == |entries|
      ensures forall k :: 0 <= k < |entries| ==> FitsUnit(placed[k], t, player, entries[k])
      ensures forall x, y {:trigger gameMap.cells[x, y]} :: 0 <= x < ArenaSize && 0 <= y < ArenaSize ==>
        var w := Overlay(entries, Wrapped(placed));
        gameMap.cells[x, y] == if (x, y) in w then w[(x, y)] else old(gameMap.cells[x, y])
      ensures allUnits == old(allUnits) + Structures(placed) && supports == old(supports)
      ensures fighters == old(fighters) + (if t == Turret then Structures(placed) else {})
      ensures walkerStacks == old(walkerStacks) && frame == old(frame) && playerStats == old(playerStats)
    {
      placed := [];
      ghost var base := gameMap.Contents();
      for i := 0 to |entries|
        invariant Valid() && UnitsLoaded(entries, t, player, i, placed, base, old(allUnits), old(fighters))
        invariant fresh(gameMap.Repr - old(gameMap.Repr))
        invariant supports == old(supports) && walkerStacks == old(walkerStacks)
        invariant frame == old(frame) && playerStats == old(playerStats)
      {
        var u := PlaceNextUnit(entries, t, player, i, placed, base, old(allUnits), old(fighters));
        placed := placed + [u];
      }
      assert entries[..|entries|] == entries;
    }

    /** One support record of `load_units`: `SimSupport((x, y), player, hp)`
        overwrites its cell and joins `supports` and `all_units`. */
    method PlaceSupport(e: Entry, player: int) returns (s: SimSupport)
      requires Valid() && InBoundsAt(Loc(e))
      modifies this, gameMap, gameMap.cells
      ensures Valid() && FitsSupport(s, player, e) && fresh(s) && fresh(s.base) && fresh(gameMap.Repr - old(gameMap.Repr))
      ensures gameMap.cells[e.x, e.y] == SupportUnit(s)
      ensures forall x, y {:trigger gameMap.cells[x, y]} :: 0 <= x < ArenaSize && 0 <= y < ArenaSize && (x, y) != Loc(e) ==>
        gameMap.cells[x, y] == old(gameMap.cells[x, y])
      ensures allUnits == old(allUnits) + {SupportUnit(s)} && supports == old(supports) + {s} && fighters == old(fighters)
      ensures walkerStacks == old(walkerStacks) && frame == old(frame) && playerStats == old(playerStats)
    {
      s := new SimSupport(Loc(e), player, e.hp);
      supports, allUnits := supports + {s}, allUnits + {SupportUnit(s)};
      gameMap.AddUnit(Loc(e), SupportUnit(s));
    }

    /** The state after the first i support records, as for `UnitsLoaded`. */
    ghost predicate SupportsLoaded(entries: seq<Entry>, player: int, i: int, placed: seq<SimSupport>,
                                   base: map<Coord, Occupant>, all0: set<Occupant>, supports0: set<SimSupport>)
      reads this, gameMap.cells, set k | 0 <= k < |placed| :: placed[k], set k | 0 <= k < |placed| :: placed[k].base
    {
      |placed| == i <= |entries| &&
      (forall k :: 0 <= k < i ==> FitsSupport(placed[k], player, entries[k])) &&
      Holds(base, Overlay(entries[..i], Shields(placed))) &&
      allUnits == all0 + SupportUnits(placed) &&
      supports == supports0 + SupportSet(placed)
    }

    /** Record i of a support loop. */
    method PlaceNextSupport(entries: seq<Entry>, player: int, i: int, ghost placed: seq<SimSupport>,
                            ghost base: map<Coord, Occupant>, ghost all0: set<Occupant>, ghost supports0: set<SimSupport>)
      returns (s: SimSupport)
      requires Valid() && 0 <= i < |entries| && InBoundsAt(Loc(entries[i]))
      requires SupportsLoaded(entries, player, i, placed, base, all0, supports0)
      modifies this, gameMap, gameMap.cells
      ensures Valid() && SupportsLoaded(entries, player, i + 1, placed + [s], base, all0, supports0)
      ensures fresh(gameMap.Repr - old(gameMap.Repr))
      ensures fighters == old(fighters) && walkerStacks == old(walkerStacks)
      ensures frame == old(frame) && playerStats == old(playerStats)
    {
      ghost var before := gameMap.Contents();
      s := PlaceSupport(entries[i], player);
      HoldsStep(base, Overlay(entries[..i], Shields(placed)), before, Loc(entries[i]), SupportUnit(s));
      OverlayNext(entries, Shields(placed), i, SupportUnit(s));
      ShieldsNext(placed, s);
    }

    /** A support loop of `load_units`: as for walls, the last record for a
        cell leaves its support standing there, and every support made is kept
        in `supports` and `all_units`. */
    method PlaceSupports(entries: seq<Entry>, player: int) returns (ghost placed: seq<SimSupport>)
      requires Valid()
      requires forall e :: e in entries ==> InBoundsAt(Loc(e))
      modifies this, gameMap, gameMap.cells
      ensures Valid() && fresh(gameMap.Repr - old(gameMap.Repr))
      ensures |placed| == |entries|
      ensures forall k :: 0 <= k < |entries| ==> FitsSupport(placed[k], player, entries[k])
      ensures forall x, y {:trigger gameMap.cells[x, y]} :: 0 <= x < ArenaSize && 0 <= y < ArenaSize ==>
        var w := Overlay(entries, Shields(placed));
        gameMap.cells[x, y] == if (x, y) in w then w[(x, y)] else old(gameMap.cells[x, y])
      ensures allUnits == old(allUnits) + SupportUnits(placed) && supports == old(supports) + SupportSet(placed)
      ensures fighters == old(fighters)
      ensures walkerStacks == old(walkerStacks) && frame == old(frame) && playerStats == old(playerStats)
    {
      placed := [];
      ghost var base := gameMap.Contents();
      for i := 0 to |entries|
        invariant Valid() && SupportsLoaded(entries, player, i, placed, base, old(allUnits), old(supports))
        invariant fresh(gameMap.Repr - old(gameMap.Repr))
        invariant fighters == old(fighters) && walkerStacks == old(walkerStacks)
        invariant frame == old(frame) && playerStats == old(playerStats)
      {
        var s := PlaceNextSupport(entries, player, i, placed, base, old(allUnits), old(supports));
        placed := placed + [s];
      }
      assert entries[..|entries|] == entries;
    }

    /** Every stack on the board holds at least one walker. */
    ghost predicate Staffed()
      requires gameMap.Valid()
      reads gameMap, gameMap.cells, gameMap.Repr
    {
      forall x, y :: 0 <= x < ArenaSize && 0 <= y < ArenaSize && gameMap.cells[x, y].Walker? ==>
        gameMap.cells[x, y].stack.health != []
    }

    /** The state the walker records are loaded in: valid, every stack on
        the cell it names and holding a walker, and every stack on the board
        one of `walker_stacks`. */
    ghost predicate Loading()
      reads this, gameMap, gameMap.cells, gameMap.Repr, walkerStacks
    {
      Valid() && Anchored() && Staffed() && Tracked(gameMap.cells, walkerStacks)
    }

    /** The empty-cell branch of a walker record: `SimWalkerStack(t, (x, y), player, 1)`. */
    method StartStack(e: Entry, t: UnitType, player: int) returns (w: SimWalkerStack)
      requires Valid() && Anchored() && Staffed() && Tracked(gameMap.cells, walkerStacks)
      requires t.IsWalker() && (player == 0 || player == 1) && InBoundsAt(Loc(e))
      requires gameMap.cells[e.x, e.y].Empty?
      modifies this`walkerStacks, this`fighters, this`allUnits, gameMap, gameMap.cells
      ensures Valid() && Anchored() && Staffed() && Tracked(gameMap.cells, walkerStacks)
      ensures fresh(w) && FitsWalker(w, t, player, e) && gameMap.cells[e.x, e.y] == Walker(w) && gameMap.Repr == old(gameMap.Repr) + {w}
      ensures walkerStacks == old(walkerStacks) + {w} && fighters == old(fighters) + {Walker(w)} && allUnits == old(allUnits) + {Walker(w)}
      ensures forall x, y {:trigger gameMap.cells[x, y]} :: 0 <= x < ArenaSize && 0 <= y < ArenaSize && (x, y) != Loc(e) ==>
        gameMap.cells[x, y] == old(gameMap.cells[x, y])
      ensures forall v :: v in old(walkerStacks) ==> v.unitCount == old(v.unitCount) && v.x == old(v.x) && v.y == old(v.y)
    {
      w := new SimWalkerStack(t, Loc(e), player, 1);
      assert w.health == [StartHealth(t)];
      Seat(e, w);
      Enlist(w);
    }

    /** The new stack w goes on the empty cell of e, outside `walker_stacks`. */
    method Seat(e: Entry, w: SimWalkerStack)
      requires Valid() && Anchored() && Staffed() && Tracked(gameMap.cells, walkerStacks)
      requires InBoundsAt(Loc(e)) && gameMap.cells[e.x, e.y].Empty?
      requires w !in gameMap.Repr && w !in walkerStacks && StackOk(w) && (w.x, w.y) == Loc(e) && w.health != []
      modifies gameMap, gameMap.cells
      ensures Valid() && Anchored() && Staffed() && Tracked(gameMap.cells, walkerStacks + {w})
      ensures gameMap.Repr == old(gameMap.Repr) + {w} && gameMap.cells[e.x, e.y] == Walker(w)
      ensures forall x, y {:trigger gameMap.cells[x, y]} :: 0 <= x < ArenaSize && 0 <= y < ArenaSize && (x, y) != Loc(e) ==>
        gameMap.cells[x, y] == old(gameMap.cells[x, y])
    {
      gameMap.AddUnit(Loc(e), Walker(w));
    }

    /** The stack w standing on its cell joins `walker_stacks`, `fighters` and
        `all_units`. */
    method Enlist(w: SimWalkerStack)
      requires Valid() && Anchored() && Staffed() && Tracked(gameMap.cells, walkerStacks + {w})
      requires w in gameMap.Repr && StackOk(w) && gameMap.cells[w.x, w.y] == Walker(w)
      modifies this`walkerStacks, this`fighters, this`allUnits
      ensures Valid() && Anchored() && Staffed() && Tracked(gameMap.cells, walkerStacks)
      ensures walkerStacks == old(walkerStacks) + {w} && fighters == old(fighters) + {Walker(w)} && allUnits == old(allUnits) + {Walker(w)}
    {
      walkerStacks, fighters, allUnits := walkerStacks + {w}, fighters + {Walker(w)}, allUnits + {Walker(w)};
    }

    /** The occupied-cell branch of a walker record on a stack: `add_to_stack`. */
    method JoinStack(w: SimWalkerStack, ghost ld: WalkerLoad)
      requires Valid() && Anchored() && Staffed() && Tracked(gameMap.cells, walkerStacks)
      requires w in walkerStacks && w.health != [] && Mirrored(walkerStacks, ld)
      modifies w`unitCount, w`health
      ensures Valid() && Anchored() && Staffed() && Tracked(gameMap.cells, walkerStacks)
      ensures w.unitCount == old(w.unitCount) + 1 && w.health == old(w.health) + [old(w.health[0])]
      ensures Mirrored(walkerStacks, ld.(counts := ld.counts[w := ld.counts[w] + 1]))
    {
      w.AddToStack();
    }

    /** One upgrade record of `load_units`: `self.game_map[x, y].upgrade()`.
        An empty cell has no `upgrade`, and the simulator raises (`ok` is
        false). A structure takes `SimUnit.upgrade`, a support
        `SimSupport.upgrade`, and a stack the inherited `SimUnit.upgrade`,
        which only flags it since a stack is never a turret. No cell changes
        occupant, and an upgraded occupant stays upgraded. */
    method UpgradeAt(e: Entry) returns (ok: bool)
      requires Valid() && Anchored() && Staffed() && Tracked(gameMap.cells, walkerStacks) && InBoundsAt(Loc(e))
      modifies gameMap.cells[e.x, e.y].Objects()
      ensures Valid() && Anchored() && Staffed() && Tracked(gameMap.cells, walkerStacks)
      ensures ok <==> !gameMap.cells[e.x, e.y].Empty?
      ensures ok ==> Upgraded(gameMap.cells[e.x, e.y])
      ensures gameMap.cells[e.x, e.y].Structure? ==>
        var u := gameMap.cells[e.x, e.y].unit;
        u.Stats() == UpgradeStats(u.unitType, old(u.Stats()))
      ensures gameMap.cells[e.x, e.y].SupportUnit? ==>
        var s := gameMap.cells[e.x, e.y].support;
        s.Shield() == UpgradedShield && s.base.upgraded == old(s.base.upgraded)
      ensures forall x, y :: 0 <= x < ArenaSize && 0 <= y < ArenaSize && old(Upgraded(gameMap.cells[x, y])) ==>
        Upgraded(gameMap.cells[x, y])
    {
      var unit := gameMap.cells[e.x, e.y];
      match unit
      case Empty =>
        ok := false;
      case Structure(u) =>
        UpgradeStructure(u);
        ok := true;
      case SupportUnit(s) =>
        UpgradeSupport(s);
        ok := true;
      case Walker(w) =>
        UpgradeStack(w);
        ok := true;
    }

    /** `SimUnit.upgrade` on a structure of the board. */
    method UpgradeStructure(u: SimUnit)
      requires Valid() && Anchored() && Staffed() && Tracked(gameMap.cells, walkerStacks) && u in gameMap.Repr
      modifies u
      ensures Valid() && Anchored() && Staffed() && Tracked(gameMap.cells, walkerStacks)
      ensures u.Stats() == UpgradeStats(u.unitType, old(u.Stats()))
      ensures forall x, y :: 0 <= x < ArenaSize && 0 <= y < ArenaSize && old(Upgraded(gameMap.cells[x, y])) ==>
        Upgraded(gameMap.cells[x, y])
    {
      u.Upgrade();
    }

    /** `SimSupport.upgrade` on a support of the board. */
    method UpgradeSupport(s: SimSupport)
      requires Valid() && Anchored() && Staffed() && Tracked(gameMap.cells, walkerStacks) && s in gameMap.Repr
      modifies s
      ensures Valid() && Anchored() && Staffed() && Tracked(gameMap.cells, walkerStacks)
      ensures s.Shield() == UpgradedShield && s.base.upgraded == old(s.base.upgraded)
      ensures forall x, y :: 0 <= x < ArenaSize && 0 <= y < ArenaSize && old(Upgraded(gameMap.cells[x, y])) ==>
        Upgraded(gameMap.cells[x, y])
    {
      s.Upgrade();
    }

    /** The inherited `SimUnit.upgrade` on a stack of the board. */
    method UpgradeStack(w: SimWalkerStack)
      requires Valid() && Anchored() && Staffed() && Tracked(gameMap.cells, walkerStacks) && w in gameMap.Repr
      modifies w
      ensures Valid() && Anchored() && Staffed() && Tracked(gameMap.cells, walkerStacks)
      ensures w.upgraded
      ensures forall x, y :: 0 <= x < ArenaSize && 0 <= y < ArenaSize && old(Upgraded(gameMap.cells[x, y])) ==>
        Upgraded(gameMap.cells[x, y])
    {
      w.Upgrade();
    }

    /** The first i upgrade records have been applied: the cells are those of
        before, and every record's occupant so far is upgraded. */
    ghost predicate UpgradesDone(entries: seq<Entry>, i: int, before: map<Coord, Occupant>)
      reads this, gameMap, gameMap.cells, gameMap.Repr
    {
      0 <= i <= |entries| && Holds(before, map[]) && gameMap.Valid() &&
      forall k :: 0 <= k < i ==> InGrid(Loc(entries[k])) && Upgraded(gameMap.cells[entries[k].x, entries[k].y])
    }

    /** Upgrade record i. */
    method UpgradeNext(entries: seq<Entry>, i: int, ghost before: map<Coord, Occupant>) returns (ok: bool)
      requires Valid() && Anchored() && Staffed() && Tracked(gameMap.cells, walkerStacks)
      requires 0 <= i < |entries| && InBoundsAt(Loc(entries[i])) && UpgradesDone(entries, i, before)
      modifies gameMap.cells[entries[i].x, entries[i].y].Objects()
      ensures Valid() && Anchored() && Staffed() && Tracked(gameMap.cells, walkerStacks)
      ensures ok ==> UpgradesDone(entries, i + 1, before)
      ensures gameMap.Repr == old(gameMap.Repr)
      ensures !ok ==>
        UpgradesDone(entries, i, before) && InGrid(Loc(entries[i])) &&
        Loc(entries[i]) in before && before[Loc(entries[i])].Empty?
    {
      InBoundsInGrid(entries[i].x, entries[i].y);
      var o := gameMap.cells[entries[i].x, entries[i].y];
      ok := UpgradeAt(entries[i]);
    }

    /** An upgrade loop of `load_units`: the records are applied in order and
        the first one on an empty cell raises (`ok` is false). No cell changes
        occupant; when no record raises, the occupant of every record's cell is
        upgraded, however many records name it (`UpgradeIdempotent`). */
    method UpgradeAll(entries: seq<Entry>) returns (ok: bool)
      requires Valid() && Anchored() && Staffed() && Tracked(gameMap.cells, walkerStacks)
      requires forall e :: e in entries ==> InBoundsAt(Loc(e))
      modifies gameMap.Repr
      ensures Valid() && Anchored() && Staffed() && Tracked(gameMap.cells, walkerStacks)
      ensures gameMap.Repr == old(gameMap.Repr)
      ensures forall x, y :: 0 <= x < ArenaSize && 0 <= y < ArenaSize ==> gameMap.cells[x, y] == old(gameMap.cells[x, y])
      ensures ok <==> forall e :: e in entries && InGrid(Loc(e)) ==> !gameMap.cells[e.x, e.y].Empty?
      ensures ok ==> forall e :: e in entries && InGrid(Loc(e)) ==> Upgraded(gameMap.cells[e.x, e.y])
    {
      ghost var before := gameMap.Contents();
      ok := true;
      var i := 0;
      while i < |entries| && ok
        invariant Valid() && Anchored() && Staffed() && Tracked(gameMap.cells, walkerStacks)
        invariant UpgradesDone(entries, i, before) && gameMap.Repr == old(gameMap.Repr)
        invariant !ok ==>
          i < |entries| && InGrid(Loc(entries[i])) && Loc(entries[i]) in before &&
          before[Loc(entries[i])].Empty?
        decreases |entries| - i, ok
      {
        assert entries[i] in entries;
        ok := UpgradeNext(entries, i, before);
        if ok {
          i := i + 1;
        }
      }
      if ok {
        forall e | e in entries && InGrid(Loc(e))
          ensures Upgraded(gameMap.cells[e.x, e.y])
        {
          var k :| 0 <= k < |entries| && entries[k] == e;
        }
      } else {
        assert entries[i] in entries;
      }
    }

    /** The state after the first i walker records of one loop: the cells
        are the start's overlaid with ld.written, every stack's walker count
        and cell are those ld records, and `Loaded` holds of these values. */
    ghost predicate WalkersLoaded(entries: seq<Entry>, t: UnitType, player: int, i: int, ld: WalkerLoad, st: LoadStart)
      reads this, gameMap.cells, walkerStacks
    {
      0 <= i <= |entries| && Holds(st.cells, ld.written) && Mirrored(walkerStacks, ld) &&
      Loaded(ld, st, walkerStacks, fighters, allUnits, t, player, Records(entries, i))
    }

    /** Record i of a walker loop, on a cell free of structures and supports:
        a new stack on an empty cell, one more walker on a stack. */
    method PlaceNextWalker(entries: seq<Entry>, t: UnitType, player: int, i: int, ghost ld: WalkerLoad, ghost st: LoadStart)
      returns (ghost ld': WalkerLoad, ghost started: Option<SimWalkerStack>)
      requires Loading()
      requires t.IsWalker() && (player == 0 || player == 1) && 0 <= i < |entries| && InBoundsAt(Loc(entries[i]))
      requires WalkersLoaded(entries, t, player, i, ld, st)
      requires !gameMap.cells[entries[i].x, entries[i].y].IsStationary()
      modifies this`walkerStacks, this`fighters, this`allUnits, gameMap, gameMap.cells, walkerStacks
      ensures Loading()
      ensures WalkersLoaded(entries, t, player, i + 1, ld', st)
      ensures started.Some? ==>
        fresh(started.value) && ld'.made == ld.made + {started.value} &&
        gameMap.Repr == old(gameMap.Repr) + {started.value}
      ensures started.None? ==> ld'.made == ld.made && gameMap.Repr == old(gameMap.Repr)
      ensures forall w :: w in ld'.made ==> w in ld.made || fresh(w)
    {
      var e := entries[i];
      if gameMap.cells[e.x, e.y].Empty? {
        var w;
        w, ld' := NextStart(entries, t, player, i, ld, st);
        started := Some(w);
      } else {
        ld' := NextJoin(entries, t, player, i, ld, st);
        started := None;
      }
    }

    /** Whether record i lands on a structure or a support; walker records
        never put one there, so the cell held it before the loop. */
    method Blocked(entries: seq<Entry>, t: UnitType, player: int, i: int, ghost ld: WalkerLoad, ghost st: LoadStart)
      returns (blocked: bool)
      requires gameMap.Shaped() && 0 <= i < |entries| && InGrid(Loc(entries[i]))
      requires WalkersLoaded(entries, t, player, i, ld, st)
      ensures blocked <==> gameMap.cells[entries[i].x, entries[i].y].IsStationary()
      ensures blocked ==> Loc(entries[i]) in st.cells && st.cells[Loc(entries[i])].IsStationary()
    {
      var e := entries[i];
      var unit := gameMap.cells[e.x, e.y];
      assert Grown(st.cells[Loc(e)], ld.made, Records(entries, i)[Loc(e)],
                   if Loc(e) in ld.written then ld.written[Loc(e)] else st.cells[Loc(e)]);
      blocked := unit.IsStationary();
    }

    /** Record i on an empty cell: a new stack. */
    method NextStart(entries: seq<Entry>, t: UnitType, player: int, i: int, ghost ld: WalkerLoad, ghost st: LoadStart)
      returns (w: SimWalkerStack, ghost ld': WalkerLoad)
      requires Loading()
      requires t.IsWalker() && (player == 0 || player == 1) && 0 <= i < |entries| && InBoundsAt(Loc(entries[i]))
      requires WalkersLoaded(entries, t, player, i, ld, st)
      requires gameMap.cells[entries[i].x, entries[i].y].Empty?
      modifies this`walkerStacks, this`fighters, this`allUnits, gameMap, gameMap.cells
      ensures Loading()
      ensures WalkersLoaded(entries, t, player, i + 1, ld', st)
      ensures fresh(w) && ld'.made == ld.made + {w} && gameMap.Repr == old(gameMap.Repr) + {w}
    {
      var e := entries[i];
      ghost var before := gameMap.Contents();
      assert Overlaid(before, st.cells, ld.written);
      assert forall v :: v in walkerStacks ==> ld.at[v] != Loc(e);
      ghost var ws0, fs0, us0 := walkerStacks, fighters, allUnits;
      w := StartStack(e, t, player);
      ld' := WalkerLoad(ld.made + {w}, ld.written[Loc(e) := Walker(w)], ld.counts[w := 1], ld.at[w := Loc(e)]);
      StartLoaded(entries, t, player, i, ld, st, before, ws0, fs0, us0, w);
    }

    /** After a new stack w on the cell of record i, the loop state of i + 1
        records holds; ws0, fs0 and us0 are the sets before, and before the
        cells before. */
    lemma StartLoaded(entries: seq<Entry>, t: UnitType, player: int, i: int, ld: WalkerLoad, st: LoadStart,
                      before: map<Coord, Occupant>, ws0: set<SimWalkerStack>, fs0: set<Occupant>, us0: set<Occupant>,
                      w: SimWalkerStack)
      requires 0 <= i < |entries| && InBoundsAt(Loc(entries[i]))
      requires Loaded(ld, st, ws0, fs0, us0, t, player, Records(entries, i)) && Mirrored(ws0, ld)
      requires Overlaid(before, st.cells, ld.written) && before[Loc(entries[i])] == Empty
      requires forall v :: v in ws0 ==> ld.at[v] != Loc(entries[i])
      requires gameMap.Shaped() && gameMap.cells[entries[i].x, entries[i].y] == Walker(w)
      requires forall x, y {:trigger gameMap.cells[x, y]} :: 0 <= x < ArenaSize && 0 <= y < ArenaSize && (x, y) != Loc(entries[i]) ==>
        gameMap.cells[x, y] == before[(x, y)]
      requires w !in ws0 && FitsWalker(w, t, player, entries[i])
      requires walkerStacks == ws0 + {w} && fighters == fs0 + {Walker(w)} && allUnits == us0 + {Walker(w)}
      ensures WalkersLoaded(entries, t, player, i + 1,
        WalkerLoad(ld.made + {w}, ld.written[Loc(entries[i]) := Walker(w)], ld.counts[w := 1], ld.at[w := Loc(entries[i])]), st)
    {
      var e := Loc(entries[i]);
      var ld' := WalkerLoad(ld.made + {w}, ld.written[e := Walker(w)], ld.counts[w := 1], ld.at[w := e]);
      HoldsStep(st.cells, ld.written, before, e, Walker(w));
      MirroredStart(ws0, ld, w, e, ld');
      LoadedStart(ld, st, ws0, fs0, us0, t, player, Records(entries, i), e, w);
    }

    /** Record i on a cell holding a stack: one more walker on it. */
    method NextJoin(entries: seq<Entry>, t: UnitType, player: int, i: int, ghost ld: WalkerLoad, ghost st: LoadStart)
      returns (ghost ld': WalkerLoad)
      requires Loading()
      requires 0 <= i < |entries| && InBoundsAt(Loc(entries[i]))
      requires WalkersLoaded(entries, t, player, i, ld, st)
      requires gameMap.cells[entries[i].x, entries[i].y].Walker?
      modifies walkerStacks
      ensures Loading()
      ensures WalkersLoaded(entries, t, player, i + 1, ld', st) && ld'.made == ld.made
    {
      var e := entries[i];
      var w := gameMap.cells[e.x, e.y].stack;
      assert forall v :: v in walkerStacks && ld.at[v] == Loc(e) ==> v == w;
      LoadedJoin(ld, st, walkerStacks, fighters, allUnits, t, player, Records(entries, i), Loc(e), w);
      ld' := ld.(counts := ld.counts[w := ld.counts[w] + 1]);
      JoinStack(w, ld);
    }
    /** One walker loop of `load_units`, for type t and owner player. A record
        on an empty cell starts a stack of one walker there; a record on a
        cell holding a stack adds a walker to it, whatever its type or owner;
        a record on a structure or a support raises (`ok` is false). When no
        record raises, every cell holds what it held, or a new stack of made
        when records target it and it was empty; every stack counts the
        walkers it had (none for a new one) plus one per record on its cell;
        and the new stacks join the three sets. */
    method PlaceWalkers(entries: seq<Entry>, t: UnitType, player: int) returns (ok: bool, ghost made: set<SimWalkerStack>)
      requires Valid() && Anchored() && Staffed() && Tracked(gameMap.cells, walkerStacks)
      requires t.IsWalker() && (player == 0 || player == 1)
      requires forall e :: e in entries ==> InBoundsAt(Loc(e))
      modifies this`walkerStacks, this`fighters, this`allUnits, gameMap, gameMap.cells, walkerStacks
      ensures Valid() && Anchored() && Staffed() && Tracked(gameMap.cells, walkerStacks)
      ensures ok <==> forall e :: e in entries && InGrid(Loc(e)) ==> !old(gameMap.cells[e.x, e.y]).IsStationary()
      ensures ok ==> MadeAs(made, t, player) && forall w :: w in made ==> fresh(w)
      ensures fresh(gameMap.Repr - old(gameMap.Repr))
      ensures ok ==>
        walkerStacks == old(walkerStacks) + made &&
        fighters == old(fighters) + Walkers(made) && allUnits == old(allUnits) + Walkers(made)
      ensures ok ==> forall x, y {:trigger gameMap.cells[x, y]} :: 0 <= x < ArenaSize && 0 <= y < ArenaSize ==>
        Grown(old(gameMap.cells[x, y]), made, multiset(Locs(entries))[(x, y)], gameMap.cells[x, y])
      ensures ok ==> forall w :: w in walkerStacks ==>
        w.unitCount == (if w in made then 0 else old(w.unitCount)) + multiset(Locs(entries))[(w.x, w.y)]
    {
      ghost var st := LoadStart(gameMap.Contents(), Census(walkerStacks), walkerStacks, fighters, allUnits);
      ghost var ld := WalkerLoad({}, map[], st.counts, Places(walkerStacks));
      WalkersBegin(entries, t, player, ld, st);
      ghost var stop;
      ok, ld, stop := WalkerLoop(entries, t, player, ld, st);
      made := ld.made;
      if ok {
        WalkersEnd(entries, t, player, ld, st);
        forall e | e in entries && InGrid(Loc(e))
          ensures !old(gameMap.cells[e.x, e.y]).IsStationary()
        {
          assert st.cells[Loc(e)] == old(gameMap.cells[e.x, e.y]);
        }
      } else {
        assert entries[stop] in entries && st.cells[Loc(entries[stop])] == old(gameMap.cells[entries[stop].x, entries[stop].y]);
      }
    }

    /** The loop state before any walker record. */
    lemma WalkersBegin(entries: seq<Entry>, t: UnitType, player: int, ld: WalkerLoad, st: LoadStart)
      requires gameMap.Shaped()
      requires st == LoadStart(gameMap.Contents(), Census(walkerStacks), walkerStacks, fighters, allUnits)
      requires ld == WalkerLoad({}, map[], Census(walkerStacks), Places(walkerStacks))
      ensures WalkersLoaded(entries, t, player, 0, ld, st)
    {
      assert Walkers({}) == {};
    }

    /** The records of a loop, in order, up to the first that raises. */
    method WalkerLoop(entries: seq<Entry>, t: UnitType, player: int, ghost ld: WalkerLoad, ghost st: LoadStart)
      returns (ok: bool, ghost ld': WalkerLoad, ghost stop: int)
      requires Loading()
      requires t.IsWalker() && (player == 0 || player == 1)
      requires forall e :: e in entries ==> InBoundsAt(Loc(e))
      requires WalkersLoaded(entries, t, player, 0, ld, st) && ld.made == {}
      modifies this`walkerStacks, this`fighters, this`allUnits, gameMap, gameMap.cells, walkerStacks
      ensures Loading()
      ensures ok ==> WalkersLoaded(entries, t, player, |entries|, ld', st)
      ensures !ok ==>
        0 <= stop < |entries| && InGrid(Loc(entries[stop])) && Loc(entries[stop]) in st.cells &&
        st.cells[Loc(entries[stop])].IsStationary()
      ensures forall w :: w in ld'.made ==> fresh(w)
      ensures gameMap.Repr <= old(gameMap.Repr) + ld'.made
    {
      ok, ld', stop := true, ld, 0;
      var i := 0;
      while i < |entries| && ok
        invariant 0 <= i <= |entries|
        invariant Loading()
        invariant ok ==> WalkersLoaded(entries, t, player, i, ld', st)
        invariant forall w :: w in ld'.made ==> fresh(w)
        invariant gameMap.Repr <= old(gameMap.Repr) + ld'.made
        invariant !ok ==>
          stop == i < |entries| && InGrid(Loc(entries[i])) && Loc(entries[i]) in st.cells &&
          st.cells[Loc(entries[i])].IsStationary()
        decreases |entries| - i, ok
      {
        assert entries[i] in entries;
        var placed;
        placed, ld' := WalkerStep(entries, t, player, i, ld', st);
        if placed {
          i := i + 1;
        } else {
          ok, stop := false, i;
        }
      }
    }

    /** One round of the walker loop: record i is placed unless its cell
        already held a structure or a support before the loop. */
    method WalkerStep(entries: seq<Entry>, t: UnitType, player: int, i: int, ghost ld: WalkerLoad, ghost st: LoadStart)
      returns (placed: bool, ghost ld': WalkerLoad)
      requires Loading()
      requires t.IsWalker() && (player == 0 || player == 1) && 0 <= i < |entries| && InBoundsAt(Loc(entries[i]))
      requires WalkersLoaded(entries, t, player, i, ld, st)
      modifies this`walkerStacks, this`fighters, this`allUnits, gameMap, gameMap.cells, walkerStacks
      ensures Loading()
      ensures placed ==> WalkersLoaded(entries, t, player, i + 1, ld', st)
      ensures !placed ==>
        InGrid(Loc(entries[i])) && Loc(entries[i]) in st.cells && st.cells[Loc(entries[i])].IsStationary()
      ensures forall w :: w in ld'.made ==> w in ld.made || fresh(w)
      ensures ld.made <= ld'.made && gameMap.Repr <= old(gameMap.Repr) + ld'.made
    {
      InBoundsInGrid(entries[i].x, entries[i].y);
      var blocked := Blocked(entries, t, player, i, ld, st);
      if blocked {
        placed, ld' := false, ld;
      } else {
        ghost var started;
        ld', started := PlaceNextWalker(entries, t, player, i, ld, st);
        placed := true;
      }
    }

    /** What a completed loop has done, stated over all its records. */
    lemma WalkersEnd(entries: seq<Entry>, t: UnitType, player: int, ld: WalkerLoad, st: LoadStart)
      requires WalkersLoaded(entries, t, player, |entries|, ld, st)
      ensures forall e :: e in entries && Loc(e) in st.cells ==> !st.cells[Loc(e)].IsStationary()
      ensures MadeAs(ld.made, t, player)
      ensures walkerStacks == st.stacks + ld.made && fighters == st.fighters + Walkers(ld.made) &&
        allUnits == st.units + Walkers(ld.made)
      ensures forall x, y {:trigger gameMap.cells[x, y]} :: 0 <= x < ArenaSize && 0 <= y < ArenaSize ==>
        var o := gameMap.cells[x, y];
        (x, y) in st.cells && Grown(st.cells[(x, y)], ld.made, multiset(Locs(entries))[(x, y)], o)
      ensures forall w :: w in walkerStacks ==>
        (w in ld.made || w in st.counts) &&
        w.unitCount == (if w in ld.made then 0 else st.counts[w]) + multiset(Locs(entries))[(w.x, w.y)]
    {
      RecordsClear(entries, st.cells, ld.written, ld.made);
      RecordsAll(entries, |entries|);
      assert entries[..|entries|] == entries;
      assert Holds(st.cells, ld.written);
      forall x, y | 0 <= x < ArenaSize && 0 <= y < ArenaSize
        ensures (x, y) in st.cells &&
          Grown(st.cells[(x, y)], ld.made, multiset(Locs(entries))[(x, y)], gameMap.cells[x, y])
      {
        var o := gameMap.cells[x, y];
        assert (x, y) in st.cells;
        assert o == if (x, y) in ld.written then ld.written[(x, y)] else st.cells[(x, y)];
      }
    }

    /** Each cell after the first is in bounds, free of structures and next to
        the one before. */
    ghost predicate OpenRoute(r: seq<Coord>)
      requires gameMap.Shaped()
      reads gameMap.cells
    {
      |r| >= 1 && forall i :: 0 < i < |r| ==> Adjacent(r[i - 1], r[i]) && InBoundsAt(r[i]) && !gameMap.ContainsStationaryUnit(r[i])
    }

    /** path is a shortest open route from start to aim. */
    ghost predicate Shortest(start: Coord, path: seq<Coord>, aim: set<Coord>)
      requires gameMap.Shaped()
      reads gameMap.cells
    {
      var r := [start] + path;
      OpenRoute(r) && r[|r| - 1] in aim &&
      forall v :: OpenRoute(v) && v[0] == start && v[|v| - 1] in aim ==> |path| <= |v| - 1
    }

    /** The path loop of `load_units`: every stack is given the path found from
        its cell to its target edge, or, when that edge cannot be reached, to
        the most ideal tile of its pocket. Each stack is routed by a
        pathfinder of its own, so the order of the stacks does not matter. */
    method InitPaths() returns (ghost tiles: map<SimWalkerStack, Location>)
      requires Valid() && Anchored() && Staffed() && Tracked(gameMap.cells, walkerStacks)
      modifies walkerStacks`path
      ensures Valid() && Anchored() && Staffed() && Tracked(gameMap.cells, walkerStacks)
      ensures forall w :: w in walkerStacks ==>
        w in tiles && Shortest((w.x, w.y), w.path, Seeds(tiles[w], EdgeList(w.GetTargetEdge())))
    {
      tiles := map[];
      var todo := walkerStacks;
      while todo != {}
        invariant todo <= walkerStacks
        invariant forall w :: w in walkerStacks - todo ==>
          w in tiles && Shortest((w.x, w.y), w.path, Seeds(tiles[w], EdgeList(w.GetTargetEdge())))
        invariant Valid() && Anchored() && Staffed() && Tracked(gameMap.cells, walkerStacks)
        decreases todo
      {
        var w :| w in todo;
        ghost var tile := RouteStack(w);
        tiles := tiles[w := tile];
        todo := todo - {w};
      }
    }

    /** One stack of the path loop: `set_path` with the path found from the
        stack's cell to its target edge. */
    method RouteStack(w: SimWalkerStack) returns (ghost tile: Location)
      requires Valid() && Anchored() && Staffed() && Tracked(gameMap.cells, walkerStacks) && w in walkerStacks
      modifies w`path
      ensures Valid() && Anchored() && Staffed() && Tracked(gameMap.cells, walkerStacks)
      ensures Shortest((w.x, w.y), w.path, Seeds(tile, EdgeList(w.GetTargetEdge())))
    {
      var path;
      path, tile := FindRoute((w.x, w.y), w.GetTargetEdge());
      RouteInBounds((w.x, w.y), path);
      w.SetPath(path);
    }

    /** Every step of a route is in bounds. */
    lemma RouteInBounds(start: Coord, path: seq<Coord>)
      requires gameMap.Shaped() && OpenRoute([start] + path)
      ensures forall k :: 0 <= k < |path| ==> InBoundsAt(path[k])
    {
      var r := [start] + path;
      forall k | 0 <= k < |path| ensures InBoundsAt(path[k]) {
        assert r[k + 1] == path[k];
      }
    }

    /** `navigate_multiple_endpoints` from a cell free of structures, on a
        pathfinder of its own, towards edge. */
    method FindRoute(start: Coord, edge: MapEdges) returns (path: seq<Coord>, ghost tile: Location)
      requires gameMap.Shaped() && InBoundsAt(start) && !gameMap.cells[start.0, start.1].IsStationary()
      ensures Shortest(start, path, Seeds(tile, EdgeList(edge)))
    {
      var edges := gameMap.GetEdgeLocations(edge);
      EdgeListFacts(edge);
      var pf := new SimShortestPathFinder(gameMap);
      var found; ghost var pocket;
      found, pocket, tile := pf.NavigateMultipleEndpoints(start, edges);
      path := found.value;
      WalkIsRoute(pf, start, path, Seeds(tile, edges));
    }

    /** The pathfinder's open walks over this map are the open routes. */
    lemma WalkIsRoute(pf: SimShortestPathFinder, start: Coord, path: seq<Coord>, aim: set<Coord>)
      requires pf.Shaped() && pf.simMapRef == gameMap
      requires pf.OpenWalk([start] + path) && ([start] + path)[|path|] in aim
      requires forall v :: pf.OpenWalk(v) && v[0] == start && v[|v| - 1] in aim ==> |path| <= |v| - 1
      ensures Shortest(start, path, aim)
    {
      forall v | OpenRoute(v) && v[0] == start && v[|v| - 1] in aim
        ensures |path| <= |v| - 1
      {
        assert pf.OpenWalk(v);
      }
    }

    /** No cell holds a walker stack. */
    ghost predicate NoStacks()
      requires gameMap.Shaped()
      reads gameMap.cells
    {
      forall x, y :: 0 <= x < ArenaSize && 0 <= y < ArenaSize ==> !gameMap.cells[x, y].Walker?
    }

    /** A loop of structure or support placements, from a board without stacks,
        leaves a board without stacks. */
    lemma NoStacksAfter(entries: seq<Entry>, placed: seq<Occupant>, before: map<Coord, Occupant>)
      requires |entries| == |placed| && forall k :: 0 <= k < |placed| ==> placed[k].IsStationary()
      requires gameMap.Shaped()
      requires forall x, y :: 0 <= x < ArenaSize && 0 <= y < ArenaSize ==> (x, y) in before && !before[(x, y)].Walker?
      requires forall x, y {:trigger gameMap.cells[x, y]} :: 0 <= x < ArenaSize && 0 <= y < ArenaSize ==>
        var w := Overlay(entries, placed);
        gameMap.cells[x, y] == if (x, y) in w then w[(x, y)] else before[(x, y)]
      ensures NoStacks()
    {
      forall x, y | 0 <= x < ArenaSize && 0 <= y < ArenaSize
        ensures !gameMap.cells[x, y].Walker?
      {
        if (x, y) in Overlay(entries, placed) {
          OverlayStationary(entries, placed, (x, y));
        }
      }
    }

    /** The wall, support and turret loops of `load_units`, player 1 then
        player 2 for each kind. They put no stack on the board. */
    method LoadStructures(p1: seq<seq<Entry>>, p2: seq<seq<Entry>>)
      requires |p1| == 8 && |p2| == 8
      requires forall k, e :: 0 <= k < 3 && (e in p1[k] || e in p2[k]) ==> InBoundsAt(Loc(e))
      requires Valid() && walkerStacks == {} && NoStacks()
      modifies this, gameMap, gameMap.cells
      ensures Valid() && walkerStacks == {} && NoStacks() && fresh(gameMap.Repr - old(gameMap.Repr))
    {
      LoadUnitKind(p1[0], Wall, 0);
      LoadUnitKind(p2[0], Wall, 1);
      LoadSupportKind(p1[1], 0);
      LoadSupportKind(p2[1], 1);
      LoadUnitKind(p1[2], Turret, 0);
      LoadUnitKind(p2[2], Turret, 1);
    }

    /** One wall or turret loop on a board without stacks. */
    method LoadUnitKind(entries: seq<Entry>, t: UnitType, player: int)
      requires Valid() && (t == Wall || t == Turret) && walkerStacks == {} && NoStacks()
      requires forall e :: e in entries ==> InBoundsAt(Loc(e))
      modifies this, gameMap, gameMap.cells
      ensures Valid() && walkerStacks == {} && NoStacks() && fresh(gameMap.Repr - old(gameMap.Repr))
    {
      ghost var before := gameMap.Contents();
      ghost var placed := PlaceUnits(entries, t, player);
      NoStacksAfter(entries, Wrapped(placed), before);
    }

    /** One support loop on a board without stacks. */
    method LoadSupportKind(entries: seq<Entry>, player: int)
      requires Valid() && walkerStacks == {} && NoStacks()
      requires forall e :: e in entries ==> InBoundsAt(Loc(e))
      modifies this, gameMap, gameMap.cells
      ensures Valid() && walkerStacks == {} && NoStacks() && fresh(gameMap.Repr - old(gameMap.Repr))
    {
      ghost var before := gameMap.Contents();
      ghost var placed := PlaceSupports(entries, player);
      NoStacksAfter(entries, Shields(placed), before);
    }

    /** The walker loops of `load_units`: for scouts, demolishers and
        interceptors in turn, player 1's records and then player 2's, up to the
        first record that raises. Every stack is registered in `fighters` and
        `all_units`. */
    method LoadWalkers(p1: seq<seq<Entry>>, p2: seq<seq<Entry>>) returns (ok: bool)
      requires |p1| == 8 && |p2| == 8
      requires forall k, e :: 3 <= k < 6 && (e in p1[k] || e in p2[k]) ==> InBoundsAt(Loc(e))
      requires Valid() && Anchored() && Staffed() && Tracked(gameMap.cells, walkerStacks) && walkerStacks == {}
      modifies this`walkerStacks, this`fighters, this`allUnits, gameMap, gameMap.cells
      ensures Valid() && Anchored() && Staffed() && Tracked(gameMap.cells, walkerStacks)
      ensures fresh(gameMap.Repr - old(gameMap.Repr))
      ensures ok ==> Registered() && fresh(walkerStacks)
    {
      ok := true;
      var k := 3;
      while k < 6 && ok
        invariant 3 <= k <= 6
        invariant Valid() && Anchored() && Staffed() && Tracked(gameMap.cells, walkerStacks)
        invariant fresh(gameMap.Repr - old(gameMap.Repr))
        invariant ok ==> Registered() && fresh(walkerStacks)
        decreases 6 - k, ok
      {
        var t := if k == 3 then Scout else if k == 4 then Demolisher else Interceptor;
        assert forall e :: (e in p1[k] || e in p2[k]) ==> InBoundsAt(Loc(e));
        ok := LoadWalkerKind(p1[k], p2[k], t);
        k := k + 1;
      }
    }

    /** The two walker loops of one type. */
    method LoadWalkerKind(up1: seq<Entry>, up2: seq<Entry>, t: UnitType) returns (ok: bool)
      requires t.IsWalker() && forall e :: (e in up1 || e in up2) ==> InBoundsAt(Loc(e))
      requires Valid() && Anchored() && Staffed() && Tracked(gameMap.cells, walkerStacks) && Registered()
      modifies this`walkerStacks, this`fighters, this`allUnits, gameMap, gameMap.cells, walkerStacks
      ensures Valid() && Anchored() && Staffed() && Tracked(gameMap.cells, walkerStacks)
      ensures fresh(gameMap.Repr - old(gameMap.Repr))
      ensures ok ==> Registered() && fresh(walkerStacks - old(walkerStacks))
    {
      ghost var made;
      ok, made := PlaceWalkers(up1, t, 0);
      if ok {
        ok, made := PlaceWalkers(up2, t, 1);
      }
    }

    /** `load_units`, on the board `__init__` builds: the structure loops,
        the walker loops, the upgrade loops and the path loop, in that order;
        ok is false when a record raises, and loading stops there. When
        loading completes, every stack is registered and routed. */
    method LoadUnits(p1: seq<seq<Entry>>, p2: seq<seq<Entry>>) returns (ok: bool, ghost tiles: map<SimWalkerStack, Location>)
      requires |p1| == 8 && |p2| == 8
      requires forall k, e :: 0 <= k < 8 && (e in p1[k] || e in p2[k]) ==> InBoundsAt(Loc(e))
      requires Valid() && gameMap.Repr == {} && walkerStacks == {}
      requires forall x, y :: 0 <= x < ArenaSize && 0 <= y < ArenaSize ==> gameMap.cells[x, y] == Empty
      modifies this, gameMap, gameMap.cells
      ensures Valid() && Anchored() && Staffed() && Tracked(gameMap.cells, walkerStacks)
      ensures ok ==> Registered()
      ensures ok ==> forall w :: w in walkerStacks ==>
        w in tiles && Shortest((w.x, w.y), w.path, Seeds(tiles[w], EdgeList(w.GetTargetEdge())))
    {
      tiles := map[];
      LoadStructures(p1, p2);
      StackFree();
      ok := LoadWalkers(p1, p2);
      if ok {
        ok, tiles := LoadFinish(p1[7], p2[7]);
      }
    }

    /** A board without stacks, and no stack registered. */
    lemma StackFree()
      requires gameMap.Valid() && walkerStacks == {} && NoStacks()
      ensures Anchored() && Staffed() && Tracked(gameMap.cells, walkerStacks)
    {
    }

    /** The upgrade loops, player 1 then player 2, and the path loop. */
    method LoadFinish(up1: seq<Entry>, up2: seq<Entry>) returns (ok: bool, ghost tiles: map<SimWalkerStack, Location>)
      requires forall e :: (e in up1 || e in up2) ==> InBoundsAt(Loc(e))
      requires Valid() && Anchored() && Staffed() && Tracked(gameMap.cells, walkerStacks) && Registered()
      modifies gameMap.Repr, walkerStacks`path
      ensures Valid() && Anchored() && Staffed() && Tracked(gameMap.cells, walkerStacks) && Registered()
      ensures ok ==> forall w :: w in walkerStacks ==>
        w in tiles && Shortest((w.x, w.y), w.path, Seeds(tiles[w], EdgeList(w.GetTargetEdge())))
    {
      tiles := map[];
      ok := UpgradeAll(up1);
      if ok {
        ok := UpgradeAll(up2);
        if ok {
          tiles := InitPaths();
        }
      }
    }

    /** `is_round_over`: no stack is left in `walker_stacks`. */
    predicate IsRoundOver()
      reads this`walkerStacks
    {
      walkerStacks == {}
    }

    /** `get_results`: the stats rows of both players and, for each player,
        eight slots holding one row per unit of `all_units` that player owns,
        in the slot of its type. Every unit has its row in its slot, every row
        is the row of such a unit, and there are as many rows as units. */
    method GetResults() returns (r: Results)
      requires |playerStats| == 2 && Empty !in allUnits
      ensures r.p1Stats == StatsRecord(playerStats[0]) && r.p2Stats == StatsRecord(playerStats[1])
      ensures |r.p1Units| == 8 && |r.p2Units| == 8
      ensures forall o :: o in allUnits ==> RowOf(o) in Side(r, o.Player())[o.Type().Value()]
      ensures forall k, row :: 0 <= k < 8 && row in r.p1Units[k] ==>
        exists o :: o in allUnits && o.Player() == 0 && o.Type().Value() == k && RowOf(o) == row
      ensures forall k, row :: 0 <= k < 8 && row in r.p2Units[k] ==>
        exists o :: o in allUnits && o.Player() != 0 && o.Type().Value() == k && RowOf(o) == row
      ensures RowCount(r.p1Units) + RowCount(r.p2Units) == |allUnits|
    {
      ghost var rows: map<Occupant, UnitRow> := map[];
      var p1: seq<seq<UnitRow>> := [[], [], [], [], [], [], [], []];
      var p2: seq<seq<UnitRow>> := [[], [], [], [], [], [], [], []];
      EmptySlots(p1);
      var todo := allUnits;
      ghost var done: set<Occupant> := {};
      while todo != {}
        invariant todo <= allUnits && done == allUnits - todo
        invariant forall u :: u in done ==> u in rows && rows[u] == RowOf(u)
        invariant Tally(p1, p2, done, rows)
        decreases todo
      {
        var o :| o in todo;
        var k := o.Type().Value();
        var row := RowOf(o);
        TallyStep(p1, p2, done, rows, o, row);
        RowsExtend(rows, done, o);
        rows := rows[o := row];
        if o.Player() == 0 {
          p1 := p1[k := p1[k] + [row]];
        } else {
          p2 := p2[k := p2[k] + [row]];
        }
        VisitOne(allUnits, todo, done, o);
        todo := todo - {o};
        done := done + {o};
      }
      r := Results(StatsRecord(playerStats[0]), StatsRecord(playerStats[1]), p1, p2);
      ResultsFiled(r, rows);
    }

    /** The filed slots read back as the rows of the units of `all_units`. */
    lemma ResultsFiled(r: Results, rows: map<Occupant, UnitRow>)
      requires Empty !in allUnits && forall o :: o in allUnits ==> o in rows && rows[o] == RowOf(o)
      requires Filed(r.p1Units, allUnits, rows, 0) && Sourced(r.p1Units, allUnits, rows, 0)
      requires Filed(r.p2Units, allUnits, rows, 1) && Sourced(r.p2Units, allUnits, rows, 1)
      ensures forall o :: o in allUnits ==> RowOf(o) in Side(r, o.Player())[o.Type().Value()]
      ensures forall k, row :: 0 <= k < 8 && row in r.p1Units[k] ==>
        exists o :: o in allUnits && o.Player() == 0 && o.Type().Value() == k && RowOf(o) == row
      ensures forall k, row :: 0 <= k < 8 && row in r.p2Units[k] ==>
        exists o :: o in allUnits && o.Player() != 0 && o.Type().Value() == k && RowOf(o) == row
    {
      forall o | o in allUnits ensures RowOf(o) in Side(r, o.Player())[o.Type().Value()] {
        assert rows[o] in Side(r, o.Player())[o.Type().Value()];
      }
      forall k, row | 0 <= k < 8 && row in r.p1Units[k]
        ensures exists o :: o in allUnits && o.Player() == 0 && o.Type().Value() == k && RowOf(o) == row
      {
        var i :| 0 <= i < |r.p1Units[k]| && r.p1Units[k][i] == row;
        assert RowFrom(allUnits, rows, 0, k, r.p1Units[k][i]);
        var o :| o in allUnits && !o.Empty? && Owner(o) == 0 && o.Type().Value() == k && o in rows && rows[o] == r.p1Units[k][i];
        assert rows[o] == RowOf(o);
      }
      forall k, row | 0 <= k < 8 && row in r.p2Units[k]
        ensures exists o :: o in allUnits && o.Player() != 0 && o.Type().Value() == k && RowOf(o) == row
      {
        var i :| 0 <= i < |r.p2Units[k]| && r.p2Units[k][i] == row;
        assert RowFrom(allUnits, rows, 1, k, r.p2Units[k][i]);
        var o :| o in allUnits && !o.Empty? && Owner(o) == 1 && o.Type().Value() == k && o in rows && rows[o] == r.p2Units[k][i];
        assert rows[o] == RowOf(o);
      }
    }

    /** `contains_stationary_unit` of the game state: the cell holds a unit
        whose type is one of the structure types. On a board of well-typed
        occupants this is the map's own test, which asks for a structure or a
        support occupant. */
    function HoldsStructureType(c: Coord): (r: bool)
      requires gameMap.Shaped() && InGrid(c) && Typed(gameMap.cells[c.0, c.1])
      reads gameMap.cells
      ensures r <==> gameMap.ContainsStationaryUnit(c)
    {
      var o := gameMap.cells[c.0, c.1];
      !o.Empty? && o.Type() in [Wall, Turret, Support]
    }

    /** The stacks some cell of the board holds. */
    ghost function BoardStacks(): set<SimWalkerStack>
      requires gameMap.Shaped()
      reads gameMap.cells
    {
      set x, y | 0 <= x < ArenaSize && 0 <= y < ArenaSize && gameMap.cells[x, y].Walker? :: gameMap.cells[x, y].stack
    }

    /** Every stack on the board is one of `stacks`. */
    ghost predicate Holding(stacks: set<SimWalkerStack>)
      requires gameMap.Shaped()
      reads gameMap.cells
    {
      forall x, y :: 0 <= x < ArenaSize && 0 <= y < ArenaSize && gameMap.cells[x, y].Walker? ==> gameMap.cells[x, y].stack in stacks
    }

    /** Some location of cs holds stack w on the board snapshot. */
    static ghost predicate SeenIn(board: map<Coord, Occupant>, w: SimWalkerStack, cs: seq<Coord>) {
      exists j :: 0 <= j < |cs| && cs[j] in board && board[cs[j]] == Walker(w)
    }

    /** The stacks of `stacks` a scan of cs for `player`, skipping those in
        `given`, finds on the board snapshot. */
    static ghost function Found(board: map<Coord, Occupant>, stacks: set<SimWalkerStack>, given: set<SimWalkerStack>,
                                player: int, cs: seq<Coord>): set<SimWalkerStack> {
      set w | w in stacks && w !in given && w.playerIndex == player && SeenIn(board, w, cs)
    }

    /** On the board snapshot, a support of `player` at `center` with shield
        range `range`, having shielded the stacks of `given`, shields stack w:
        same owner, not shielded yet, and some in-bounds cell within range
        holds w. */
    static ghost predicate CoversOn(board: map<Coord, Occupant>, center: Coord, player: int, range: real,
                                    given: set<SimWalkerStack>, w: SimWalkerStack) {
      player == w.playerIndex && w !in given && 0.0 <= range &&
      exists p :: p in board && board[p] == Walker(w) && InBoundsAt(p) && InRange(center, p, range)
    }

    /** The stacks of `stacks` such a support shields. */
    static ghost function Covered(board: map<Coord, Occupant>, stacks: set<SimWalkerStack>, center: Coord, player: int,
                                  range: real, given: set<SimWalkerStack>): set<SimWalkerStack> {
      set w | w in stacks && CoversOn(board, center, player, range, given, w)
    }

    /** Support s shields stack w in this frame's shield phase. */
    ghost predicate Covers(s: SimSupport, w: SimWalkerStack)
      requires gameMap.Shaped()
      reads s`givenShield, s`shieldRange, s.base`x, s.base`y, gameMap.cells
    {
      CoversOn(gameMap.Contents(), (s.base.x, s.base.y), s.base.playerIndex, s.shieldRange, s.givenShield, w)
    }

    /** The supports that shield w this frame. */
    ghost function Givers(w: SimWalkerStack): set<SimSupport>
      requires gameMap.Shaped()
      reads this`supports, supports`givenShield, supports`shieldRange, set s | s in supports :: s.base, gameMap.cells
    {
      set s | s in supports && Covers(s, w)
    }

    /** Each support's shield per unit. */
    ghost function Amounts(): map<SimSupport, real>
      reads this`supports, supports`shieldPerUnit
    {
      map s | s in supports :: s.shieldPerUnit
    }

    /** The shield phase of `run_frame`: every support, in any order, runs
        its shield loop. Each stack on the board ends up with the shields of
        all the supports that cover it added to every walker's health, and
        each support has recorded the stacks it shielded (see `StartPlan` for
        the plan's parts). */
    method ShieldPhase(ghost plan: ShieldPlan)
      requires Valid() && ShieldState(plan, supports)
      modifies supports`givenShield, plan.stacks`health
      ensures Valid() && ShieldDone(plan)
    {
      ShieldRun(plan);
      forall x, y | 0 <= x < ArenaSize && 0 <= y < ArenaSize
        ensures gameMap.OccupantOk(gameMap.cells[x, y])
      {
        assert old(gameMap.OccupantOk(gameMap.cells[x, y]));
      }
      forall w | w in walkerStacks ensures StackOk(w) {
        assert old(StackOk(w));
      }
      forall t | t in supports ensures SupportOk(t) {
        assert old(SupportOk(t));
      }
      ShieldEnd(plan);
    }

    /** The loop of the shield phase: every support, in any order, runs its
        shield loop. */
    method ShieldRun(ghost plan: ShieldPlan)
      requires ShieldState(plan, supports)
      modifies supports`givenShield, plan.stacks`health
      ensures ShieldState(plan, {})
      ensures forall x, y :: 0 <= x < ArenaSize && 0 <= y < ArenaSize && gameMap.cells[x, y].Walker? ==>
        |gameMap.cells[x, y].stack.health| == old(|gameMap.cells[x, y].stack.health|)
    {
      var todo := supports;
      while todo != {}
        invariant ShieldState(plan, todo)
        decreases todo
      {
        var s :| s in todo;
        ShieldNext(s, plan, todo);
        todo := todo - {s};
      }
    }

    /** After the last support has run, every stack's health is raised by the
        shields of all its givers and every support has recorded the stacks
        it covers. */
    lemma ShieldEnd(plan: ShieldPlan)
      requires ShieldState(plan, {})
      ensures ShieldDone(plan)
    {
      forall w | w in plan.stacks ensures w.health == Raised(plan.h0[w], Sum(plan.amounts, plan.givers[w])) {
        assert plan.givers[w] - {} == plan.givers[w];
        RaisedByIs(w.health, plan.h0[w], Sum(plan.amounts, plan.givers[w]));
      }
    }

    /** After the shield phase of the plan: every stack of the plan has its
        starting health raised by the shields of all its givers, and every
        support has added the stacks it covers to those it had shielded. */
    ghost predicate ShieldDone(plan: ShieldPlan)
      reads this`supports, supports`givenShield, plan.stacks`health
    {
      (forall w :: w in plan.stacks ==>
        w in plan.h0 && w in plan.givers && plan.givers[w] <= plan.amounts.Keys &&
        w.health == Raised(plan.h0[w], Sum(plan.amounts, plan.givers[w]))) &&
      (forall s :: s in supports ==> s in plan.given && s in plan.covered && s.givenShield == plan.given[s] + plan.covered[s])
    }

    /** The plan of the shield phase, taken from the state it starts in. */
    ghost function StartPlan(): (plan: ShieldPlan)
      requires gameMap.Shaped()
      reads this`supports, supports, set s | s in supports :: s.base, gameMap.cells, BoardStacks()
      ensures plan.stacks == BoardStacks() && plan.board == gameMap.Contents() && plan.amounts == Amounts()
      ensures forall w :: w in plan.stacks ==> w in plan.givers && plan.givers[w] == Givers(w) && w in plan.h0 && plan.h0[w] == w.health
      ensures forall s :: s in supports ==>
        s in plan.given && plan.given[s] == s.givenShield && s in plan.covered && plan.covered[s] == set w | w in plan.stacks && Covers(s, w)
    {
      var stacks := BoardStacks();
      ShieldPlan(stacks, gameMap.Contents(), Amounts(), map w | w in stacks :: Givers(w),
        map s | s in supports :: s.givenShield, map s | s in supports :: set w | w in stacks && Covers(s, w),
        map w | w in stacks :: w.health)
    }

    /** Before the first support runs, the plan describes the state. */
    lemma ShieldStart(plan: ShieldPlan)
      requires Valid() && plan == StartPlan()
      ensures ShieldState(plan, supports)
    {
      HoldingBoard();
      forall w | w in plan.stacks ensures RaisedBy(w.health, plan.h0[w], Sum(plan.amounts, plan.givers[w] - supports)) {
        assert plan.givers[w] - supports == {};
      }
      forall s | s in supports
        ensures plan.covered[s] == Covered(plan.board, plan.stacks, (s.base.x, s.base.y), s.base.playerIndex, s.shieldRange, plan.given[s])
      {
      }
    }

    /** The state of the shield loop with the supports of `todo` still to
        run: the board is the snapshot of the plan, each stack's health is
        its starting health raised by the shields of its givers already run,
        and each support that has run has recorded the stacks it covers. */
    ghost predicate ShieldState(plan: ShieldPlan, todo: set<SimSupport>)
      reads this`supports, supports, set s | s in supports :: s.base, plan.stacks`health, gameMap.cells
    {
      ShieldFixed(plan) && todo <= supports &&
      (forall s :: s in supports ==> s.givenShield == plan.given[s] + if s in todo then {} else plan.covered[s]) &&
      (forall w :: w in plan.stacks ==> RaisedBy(w.health, plan.h0[w], Sum(plan.amounts, plan.givers[w] - todo)))
    }

    /** The part of the plan the shield loop does not change: the board is
        the snapshot, the amounts are the supports' shields, the covered
        stacks are those each support covers from its starting shields, and
        each stack's givers are the supports that cover it. */
    ghost predicate ShieldFixed(plan: ShieldPlan)
      reads this`supports, supports`shieldRange, supports`shieldPerUnit, set s | s in supports :: s.base, gameMap.cells
    {
      gameMap.Shaped() && Holding(plan.stacks) &&
      (forall x, y :: 0 <= x < ArenaSize && 0 <= y < ArenaSize ==>
        (x, y) in plan.board && plan.board[(x, y)] == gameMap.cells[x, y] && Typed(plan.board[(x, y)])) &&
      (forall s :: s in supports ==>
        SupportOk(s) && s in plan.given && s in plan.amounts && plan.amounts[s] == s.shieldPerUnit && s in plan.covered &&
        plan.covered[s] == Covered(plan.board, plan.stacks, (s.base.x, s.base.y), s.base.playerIndex, s.shieldRange, plan.given[s])) &&
      (forall w :: w in plan.stacks ==>
        w in plan.h0 && w in plan.givers && plan.givers[w] <= supports &&
        forall s :: s in supports ==> (s in plan.givers[w] <==> w in plan.covered[s]))
    }

    /** One turn of the shield loop: support s shields the stacks it covers,
        which adds its shield to exactly the stacks it is a giver of. */
    method ShieldNext(s: SimSupport, ghost plan: ShieldPlan, ghost todo: set<SimSupport>)
      requires ShieldState(plan, todo) && s in todo
      modifies s`givenShield, plan.stacks`health
      ensures ShieldState(plan, todo - {s})
    {
      ghost var before := map w | w in plan.stacks :: w.health;
      ShieldFrom(s, plan.stacks, plan.board, plan.covered[s]);
      assert ShieldFixed(plan);
      ghost var after := map w | w in plan.stacks :: w.health;
      GainAll(plan.amounts, plan.givers, plan.h0, todo, s, before, after, plan.stacks);
      forall w | w in plan.stacks ensures RaisedBy(w.health, plan.h0[w], Sum(plan.amounts, plan.givers[w] - (todo - {s}))) {
        assert after[w] == w.health;
      }
      forall t | t in supports ensures t.givenShield == plan.given[t] + if t in todo - {s} then {} else plan.covered[t] {
        if t != s {
          assert t.givenShield == old(t.givenShield);
        }
      }
    }

    /** The breach branch of the move loop: the stack leaves the board, the
        walker, fighter and unit sets; the opponent loses the breach damage
        and the owner gains it as SP. Only the stack's own cell changes. */
    method Breach(w: SimWalkerStack)
      requires Valid() && Registered() && w in walkerStacks
      modifies this`walkerStacks, this`fighters, this`allUnits, this`playerStats, gameMap.cells
      ensures Valid() && Registered()
      ensures walkerStacks == old(walkerStacks) - {w}
      ensures fighters == old(fighters) - {Walker(w)} && allUnits == old(allUnits) - {Walker(w)}
      ensures playerStats == Charge(old(playerStats), w.playerIndex, BreachDamage(w.unitType, w.unitCount))
      ensures gameMap.cells[w.x, w.y] == Empty
      ensures forall x, y :: 0 <= x < ArenaSize && 0 <= y < ArenaSize && (x, y) != (w.x, w.y) ==>
        gameMap.cells[x, y] == old(gameMap.cells[x, y])
    {
      gameMap.RemoveUnit(w.x, w.y);
      fighters := fighters - {Walker(w)};
      walkerStacks := walkerStacks - {w};
      allUnits := allUnits - {Walker(w)};
      var damage := BreachDamage(w.unitType, w.unitCount);
      playerStats := Charge(playerStats, w.playerIndex, damage);
    }

    /** The step branch of the move loop, as the simulator does it: the stack
        takes the front of its queue as its new position, the unit on the new
        cell is removed and the stack is put there. The cell it came from is
        not cleared and still names the stack. `stacks` are the stacks whose
        spots the caller follows; only w's spot changes. */
    method Advance(w: SimWalkerStack, ghost stacks: set<SimWalkerStack>)
      requires Valid() && w in walkerStacks && w.path != [] && w in stacks
      modifies w`x, w`y, w`path, gameMap, gameMap.cells
      ensures Valid() && gameMap.Repr == old(gameMap.Repr)
      ensures (w.x, w.y) == old(w.path[0]) && w.path == old(w.path[1..])
      ensures gameMap.cells[w.x, w.y] == Walker(w)
      ensures forall x, y :: 0 <= x < ArenaSize && 0 <= y < ArenaSize && (x, y) != (w.x, w.y) ==>
        gameMap.cells[x, y] == old(gameMap.cells[x, y])
      ensures Spots(stacks) == old(Spots(stacks))[w := Spot((w.x, w.y), w.path, w.unitCount)]
    {
      var step := StepTo(w, stacks);
      ghost var spots := Spots(stacks);
      gameMap.RemoveUnit(w.x, w.y);
      gameMap.AddUnit(step, Walker(w));
      assert Spots(stacks) == spots;
    }

    /** The plan of the move phase, taken from the state it starts in. */
    ghost function StartMove(): (plan: MovePlan)
      requires gameMap.Shaped()
      reads this`walkerStacks, this`playerStats, this`fighters, this`allUnits, gameMap.cells
      reads walkerStacks`x, walkerStacks`y, walkerStacks`path, walkerStacks`unitCount
      ensures plan.stacks == walkerStacks && plan.stats == playerStats
      ensures plan.fighters == fighters && plan.units == allUnits && plan.board == gameMap.Contents()
      ensures forall w :: w in walkerStacks ==>
        w in plan.pos && plan.pos[w] == (w.x, w.y) && w in plan.path && plan.path[w] == w.path &&
        w in plan.damage && plan.damage[w] == BreachDamage(w.unitType, w.unitCount)
    {
      var stacks := walkerStacks;
      MovePlan(stacks, map w | w in stacks :: (w.x, w.y), map w | w in stacks :: w.path, playerStats, fighters, allUnits,
        gameMap.Contents(), map w | w in stacks :: BreachDamage(w.unitType, w.unitCount))
    }

    /** The plan of a state whose stacks the frame step can move knows every
        stack and every cell. */
    lemma StartPlanned()
      requires gameMap.Shaped() && |playerStats| == 2
      requires forall w :: w in walkerStacks ==> StackOk(w)
      ensures Planned(StartMove())
    {
      var plan := StartMove();
      forall w | w in plan.stacks ensures InGrid(plan.pos[w]) && (plan.path[w] != [] ==> InGrid(plan.path[w][0])) {
        StackInGrid(w);
      }
    }

    /** The parts of the state the move loop changes, for the stacks of the
        plan. */
    ghost function Now(plan: MovePlan): Snap
      requires gameMap.Shaped()
      reads this`walkerStacks, this`fighters, this`allUnits, this`playerStats, plan.stacks, gameMap.cells
    {
      Snap(walkerStacks, fighters, allUnits, playerStats, Spots(plan.stacks), gameMap.Contents())
    }

    /** The state of the move loop with the stacks of `todo` still to handle:
        the representation invariant holds, and the sets, stats, stacks and
        board are those the handled stacks have made of the plan. */
    ghost predicate MoveState(plan: MovePlan, todo: set<SimWalkerStack>)
      reads this, gameMap, gameMap.cells, gameMap.Repr, plan.stacks
    {
      Valid() && Registered() && Planned(plan) && todo <= plan.stacks && Progress(plan, todo, Now(plan))
    }

    /** Before the first stack is handled, the plan describes the state. */
    lemma MoveStart(plan: MovePlan)
      requires Valid() && Registered() && plan == StartMove() && Planned(plan)
      ensures MoveState(plan, plan.stacks)
    {
      var snap := Now(plan);
      forall u | u in plan.stacks
        ensures u in snap.spots && snap.spots[u] == Spot(plan.pos[u], plan.path[u], u.unitCount)
      {
      }
      ProgressStart(plan, snap);
    }

    /** Some stack of `walker_stacks` is off the edges of its quadrant with
        no step queued. */
    ghost predicate Jammed()
      reads this`walkerStacks, walkerStacks`x, walkerStacks`y, walkerStacks`path
    {
      exists w :: w in walkerStacks && !AtEdge((w.x, w.y)) && w.path == []
    }

    /** The stacks of `walker_stacks` that are off the edges of their
        quadrants. */
    ghost function Staying(): set<SimWalkerStack>
      reads this`walkerStacks, walkerStacks`x, walkerStacks`y
    {
      set w | w in walkerStacks && !AtEdge((w.x, w.y))
    }

    /** The plan of the move phase read back in the state it was taken in:
        it is stuck exactly when the state is blocked, and the stacks that
        do not breach are the staying ones. */
    lemma StartSummary(plan: MovePlan)
      requires gameMap.Shaped() && plan == StartMove() && Planned(plan)
      ensures Stuck(plan) <==> Jammed()
      ensures plan.stacks - Breaching(plan) == Staying()
    {
      if Jammed() {
        var w :| w in walkerStacks && !AtEdge((w.x, w.y)) && w.path == [];
        assert w in plan.stacks && !AtEdge(plan.pos[w]) && plan.path[w] == [];
      }
    }

    /** `run_frame`: once the round is over nothing happens; otherwise the
        frame counter advances, every support shields the stacks it covers,
        and every stack breaches or steps. A stall is a frame the simulator
        never finishes; a frame that completes leaves exactly the stacks
        that were off the edges. */
    method RunFrame() returns (result: FrameResult)
      requires Valid() && Registered()
      modifies this`frame, this`walkerStacks, this`fighters, this`allUnits, this`playerStats, gameMap, gameMap.cells
      modifies supports`givenShield, BoardStacks()`health, walkerStacks`x, walkerStacks`y, walkerStacks`path
      ensures Valid() && Registered()
      ensures result == RoundOver <==> old(IsRoundOver())
      ensures result == RoundOver ==> unchanged(this, gameMap, gameMap.cells)
      ensures result != RoundOver ==> frame == old(frame) + 1
      ensures result == Stalled <==> !old(IsRoundOver()) && old(Jammed())
      ensures result == Advanced ==> walkerStacks == old(Staying())
    {
      if IsRoundOver() {
        return RoundOver;
      }
      frame := frame + 1;
      var stalled := FramePhases();
      result := if stalled then Stalled else Advanced;
    }

    /** The shield phase followed by the move phase. */
    method FramePhases() returns (stalled: bool)
      requires Valid() && Registered()
      modifies this`walkerStacks, this`fighters, this`allUnits, this`playerStats, gameMap, gameMap.cells
      modifies supports`givenShield, BoardStacks()`health, walkerStacks`x, walkerStacks`y, walkerStacks`path
      ensures Valid() && Registered()
      ensures stalled <==> old(Jammed())
      ensures !stalled ==> walkerStacks == old(Staying())
    {
      ShieldStep();
      stalled := MovePhase();
    }

    /** The shield phase, which leaves positions and queues alone. */
    method ShieldStep()
      requires Valid()
      modifies supports`givenShield, BoardStacks()`health
      ensures Valid() && Jammed() == old(Jammed()) && Staying() == old(Staying())
      ensures ShieldDone(old(StartPlan()))
    {
      ghost var jammed := Jammed();
      ghost var staying := Staying();
      ghost var shields := StartPlan();
      ShieldStart(shields);
      ShieldPhase(shields);
      assert Jammed() == jammed;
      assert Staying() == staying;
    }

    /** The move phase of `run_frame`: every stack of `walker_stacks`, in any
        order, breaches when it stands on an edge of its quadrant and
        otherwise steps to the next cell of its queue. When some stack that
        has to step has an empty queue the simulator blocks; the phase then
        reports a stall. */
    method MovePhase() returns (stalled: bool)
      requires Valid() && Registered()
      modifies this`walkerStacks, this`fighters, this`allUnits, this`playerStats, gameMap, gameMap.cells
      modifies walkerStacks`x, walkerStacks`y, walkerStacks`path
      ensures Valid() && Registered() && Planned(old(StartMove()))
      ensures stalled <==> Stuck(old(StartMove()))
      ensures !stalled ==> MoveState(old(StartMove()), {})
      ensures !stalled ==> walkerStacks == old(walkerStacks) - Breaching(old(StartMove()))
      ensures !stalled ==> playerStats == Settled(old(playerStats), old(StartMove()).damage, Breaching(old(StartMove())))
      ensures stalled <==> old(Jammed())
      ensures !stalled ==> walkerStacks == old(Staying())
    {
      ghost var plan := StartMove();
      StartPlanned();
      StartSummary(plan);
      MoveStart(plan);
      stalled := MoveRun(plan);
      if !stalled {
        MoveEnd(plan);
      }
    }

    /** The loop of the move phase over a snapshot of `walker_stacks`: it
        stops at the first stack that has to step with an empty queue. */
    method MoveRun(ghost plan: MovePlan) returns (stalled: bool)
      requires MoveState(plan, plan.stacks) && walkerStacks == plan.stacks
      modifies this`walkerStacks, this`fighters, this`allUnits, this`playerStats, gameMap, gameMap.cells
      modifies plan.stacks`x, plan.stacks`y, plan.stacks`path
      ensures Valid() && Registered() && Planned(plan)
      ensures stalled <==> Stuck(plan)
      ensures !stalled ==> MoveState(plan, {})
    {
      var todo := walkerStacks;
      while todo != {}
        invariant MoveState(plan, todo)
        invariant forall u :: u in plan.stacks - todo ==> AtEdge(plan.pos[u]) || plan.path[u] != []
        decreases todo
      {
        var w :| w in todo;
        var stuck := MoveNext(w, plan, todo);
        if stuck {
          return true;
        }
        todo := todo - {w};
      }
      return false;
    }

    /** After the last stack, the breaching stacks have left the sets and
        been charged. */
    lemma MoveEnd(plan: MovePlan)
      requires MoveState(plan, {})
      ensures walkerStacks == plan.stacks - Breaching(plan)
      ensures playerStats == Settled(plan.stats, plan.damage, Breaching(plan))
    {
      assert Breaching(plan) - {} == Breaching(plan);
    }

    /** One turn of the move loop: the edge test on the stack's quadrant,
        then a breach, a step, or a stall on an empty queue. */
    method MoveNext(w: SimWalkerStack, ghost plan: MovePlan, ghost todo: set<SimWalkerStack>) returns (stuck: bool)
      requires MoveState(plan, todo) && w in todo
      modifies this`walkerStacks, this`fighters, this`allUnits, this`playerStats, gameMap, gameMap.cells, w`x, w`y, w`path
      ensures stuck <==> !AtEdge(plan.pos[w]) && plan.path[w] == []
      ensures stuck ==> MoveState(plan, todo)
      ensures !stuck ==> MoveState(plan, todo - {w})
    {
      SpotOf(plan, todo, w);
      var edge := EdgeList(Quadrant(w.x, w.y));
      if (w.x, w.y) in edge {
        BreachNext(w, plan, todo);
        stuck := false;
      } else if w.path == [] {
        stuck := true;
      } else {
        AdvanceNext(w, plan, todo);
        stuck := false;
      }
    }

    /** A stack still to handle is where the plan has it. */
    lemma SpotOf(plan: MovePlan, todo: set<SimWalkerStack>, w: SimWalkerStack)
      requires MoveState(plan, todo) && w in todo
      ensures plan.pos[w] == (w.x, w.y) && plan.path[w] == w.path && w in walkerStacks
      ensures plan.damage[w] == BreachDamage(w.unitType, w.unitCount)
    {
      assert Now(plan).spots[w] == Spot((w.x, w.y), w.path, w.unitCount);
    }

    /** A breach keeps the move loop's state. */
    method BreachNext(w: SimWalkerStack, ghost plan: MovePlan, ghost todo: set<SimWalkerStack>)
      requires MoveState(plan, todo) && w in todo && AtEdge(plan.pos[w])
      modifies this`walkerStacks, this`fighters, this`allUnits, this`playerStats, gameMap.cells
      ensures MoveState(plan, todo - {w})
    {
      ghost var snap := Now(plan);
      BreachSnap(w, plan, snap);
      ProgressBreach(plan, todo, w, snap);
    }

    /** A breach, seen on the snapshot. */
    method BreachSnap(w: SimWalkerStack, ghost plan: MovePlan, ghost snap: Snap)
      requires Valid() && Registered() && w in walkerStacks && Planned(plan) && w in plan.stacks
      requires plan.pos[w] == (w.x, w.y) && plan.damage[w] == BreachDamage(w.unitType, w.unitCount) && snap == Now(plan)
      modifies this`walkerStacks, this`fighters, this`allUnits, this`playerStats, gameMap.cells
      ensures Valid() && Registered() && Now(plan) == Breached(plan, snap, w)
    {
      ghost var board := gameMap.Contents();
      Breach(w);
      gameMap.ContentsUpdate(board, (w.x, w.y), Empty);
    }

    /** A step keeps the move loop's state. */
    method AdvanceNext(w: SimWalkerStack, ghost plan: MovePlan, ghost todo: set<SimWalkerStack>)
      requires MoveState(plan, todo) && w in todo && !AtEdge(plan.pos[w]) && w.path != []
      modifies gameMap, gameMap.cells, w`x, w`y, w`path
      ensures MoveState(plan, todo - {w})
    {
      ghost var snap := Now(plan);
      AdvanceSnap(w, plan, snap);
      ProgressStep(plan, todo, w, snap);
    }

    /** A step, seen on the snapshot. */
    method AdvanceSnap(w: SimWalkerStack, ghost plan: MovePlan, ghost snap: Snap)
      requires Valid() && Registered() && w in walkerStacks && w.path != [] && Planned(plan) && w in plan.stacks
      requires plan.path[w] == w.path && snap == Now(plan)
      modifies gameMap, gameMap.cells, w`x, w`y, w`path
      ensures Valid() && Registered() && Now(plan) == Stepped(plan, snap, w)
    {
      ghost var board := gameMap.Contents();
      Advance(w, plan.stacks);
      gameMap.ContentsUpdate(board, (w.x, w.y), Walker(w));
    }

    /** The stacks on the board are held by BoardStacks. */
    lemma HoldingBoard()
      requires gameMap.Shaped()
      ensures Holding(BoardStacks())
    {
      forall x, y | 0 <= x < ArenaSize && 0 <= y < ArenaSize && gameMap.cells[x, y].Walker?
        ensures gameMap.cells[x, y].stack in BoardStacks()
      {
      }
    }

    /** The shield loop for one support: every same-player stack found on a
        cell in its range that it has not shielded yet is added to its
        `given_shield` and has the shield added to each walker's health. A
        stack found on two cells is shielded once. */
    method ShieldFrom(s: SimSupport, ghost stacks: set<SimWalkerStack>, ghost board: map<Coord, Occupant>, ghost covered: set<SimWalkerStack>)
      requires gameMap.Shaped() && SupportOk(s) && Holding(stacks)
      requires forall x, y :: 0 <= x < ArenaSize && 0 <= y < ArenaSize ==>
        (x, y) in board && board[(x, y)] == gameMap.cells[x, y] && Typed(board[(x, y)])
      requires covered == Covered(board, stacks, (s.base.x, s.base.y), s.base.playerIndex, s.shieldRange, s.givenShield)
      modifies s`givenShield, stacks`health
      ensures s.givenShield == old(s.givenShield) + covered
      ensures forall w :: w in stacks ==> w.health == if w in covered then Raised(old(w.health), s.shieldPerUnit) else old(w.health)
    {
      var shieldRange := gameMap.GetLocationsInRange((s.base.x, s.base.y), s.shieldRange);
      CoversScan(board, stacks, s.givenShield, (s.base.x, s.base.y), s.base.playerIndex, s.shieldRange, shieldRange);
      ShieldScan(s, stacks, shieldRange, board);
    }

    /** The scan of one support's range, location by location. */
    method ShieldScan(s: SimSupport, ghost stacks: set<SimWalkerStack>, shieldRange: seq<Coord>, ghost board: map<Coord, Occupant>)
      requires gameMap.Shaped() && Holding(stacks) && forall p :: p in shieldRange ==> InGrid(p)
      requires forall x, y :: 0 <= x < ArenaSize && 0 <= y < ArenaSize ==>
        (x, y) in board && board[(x, y)] == gameMap.cells[x, y] && Typed(gameMap.cells[x, y])
      modifies s`givenShield, stacks`health
      ensures s.givenShield == old(s.givenShield) + Found(board, stacks, old(s.givenShield), s.base.playerIndex, shieldRange)
      ensures forall w :: w in stacks ==>
        w.health == if w in Found(board, stacks, old(s.givenShield), s.base.playerIndex, shieldRange)
          then Raised(old(w.health), s.shieldPerUnit) else old(w.health)
    {
      ghost var given := s.givenShield;
      ghost var h0 := map w | w in stacks :: w.health;
      ghost var found: set<SimWalkerStack> := {};
      for k := 0 to |shieldRange|
        invariant s.givenShield == given + found && found !! given
        invariant found == Found(board, stacks, given, s.base.playerIndex, shieldRange[..k])
        invariant forall w :: w in stacks ==> w.health == if w in found then Raised(h0[w], s.shieldPerUnit) else h0[w]
      {
        var xy := shieldRange[k];
        assert xy in shieldRange;
        FoundStep(board, stacks, given, s.base.playerIndex, shieldRange, k);
        var unit := gameMap.cells[xy.0, xy.1];
        if !unit.Empty? && !HoldsStructureType(xy) {
          var w := unit.stack;
          if w.playerIndex == s.base.playerIndex && w !in s.givenShield {
            ShieldStack(s, w);
            found := found + {w};
          }
        }
      }
      assert shieldRange[..|shieldRange|] == shieldRange;
    }

    /** One shield: s records w in `given_shield` and every walker of w
        gains s's shield per unit. */
    method ShieldStack(s: SimSupport, w: SimWalkerStack)
      modifies s`givenShield, w`health
      ensures s.givenShield == old(s.givenShield) + {w}
      ensures w.health == Raised(old(w.health), s.shieldPerUnit)
    {
      s.givenShield := s.givenShield + {w};
      w.health := Raised(w.health, s.shieldPerUnit);
    }

    /** Scanning one more location finds the stack it holds, if that stack
        belongs to the player and is not skipped. */
    static lemma FoundStep(board: map<Coord, Occupant>, stacks: set<SimWalkerStack>, given: set<SimWalkerStack>,
                           player: int, cs: seq<Coord>, k: int)
      requires 0 <= k < |cs| && cs[k] in board
      requires board[cs[k]].Walker? ==> board[cs[k]].stack in stacks
      ensures var o := board[cs[k]];
        Found(board, stacks, given, player, cs[..k + 1]) ==
        Found(board, stacks, given, player, cs[..k]) + if o.Walker? && o.stack.playerIndex == player && o.stack !in given then {o.stack} else {}
    {
      var o := board[cs[k]];
      forall w | SeenIn(board, w, cs[..k + 1]) ensures SeenIn(board, w, cs[..k]) || o == Walker(w) {
        var j :| 0 <= j < k + 1 && cs[..k + 1][j] in board && board[cs[..k + 1][j]] == Walker(w);
        if j < k {
          assert cs[..k][j] == cs[..k + 1][j];
        }
      }
      forall w | SeenIn(board, w, cs[..k]) ensures SeenIn(board, w, cs[..k + 1]) {
        var j :| 0 <= j < k && cs[..k][j] in board && board[cs[..k][j]] == Walker(w);
        assert cs[..k + 1][j] == cs[..k][j];
      }
      if o.Walker? {
        assert cs[..k + 1][k] == cs[k];
        assert SeenIn(board, o.stack, cs[..k + 1]);
      }
    }

    /** Having scanned the whole range, the stacks found are those s covers. */
    static lemma CoversScan(board: map<Coord, Occupant>, stacks: set<SimWalkerStack>, given: set<SimWalkerStack>,
                            center: Coord, player: int, range: real, cs: seq<Coord>)
      requires range >= 0.0
      requires forall p :: p in cs <==> InBoundsAt(p) && InRange(center, p, range)
      ensures Found(board, stacks, given, player, cs) == Covered(board, stacks, center, player, range, given)
    {
      forall w | w in stacks && w !in given && w.playerIndex == player && SeenIn(board, w, cs)
        ensures CoversOn(board, center, player, range, given, w)
      {
        var j :| 0 <= j < |cs| && cs[j] in board && board[cs[j]] == Walker(w);
        assert cs[j] in cs;
      }
      forall w | w in stacks && CoversOn(board, center, player, range, given, w) ensures SeenIn(board, w, cs) {
        var p :| p in board && board[p] == Walker(w) && InBoundsAt(p) && InRange(center, p, range);
        assert p in cs;
        var j :| 0 <= j < |cs| && cs[j] == p;
      }
    }
  }
}
