/** The value-level parts of the frame step: the shield added to a health
    list, the damage of a breach, and how breaches settle into the players'
    health and SP. */
module FrameStep {
  import opened Constants
  import opened Board
  import opened Units
  import opened Sums
  import opened Navigation

  /** A player's health, structure points and mobile points. */
  datatype PlayerStats = PlayerStats(health: real, sp: real, mp: real)

  /** `list(map(lambda x: x + amount, health))`. */
  function Raised(h: seq<real>, amount: real): (r: seq<real>)
    ensures |r| == |h|
    ensures forall i :: 0 <= i < |h| ==> r[i] == h[i] + amount
  {
    seq(|h|, k requires 0 <= k < |h| => h[k] + amount)
  }

  /** h is h0 with `amount` added to every entry. */
  ghost predicate RaisedBy(h: seq<real>, h0: seq<real>, amount: real) {
    |h| == |h0| && forall i :: 0 <= i < |h| ==> h[i] == h0[i] + amount
  }

  /** Raising is the only way to be raised by an amount. */
  lemma RaisedByIs(h: seq<real>, h0: seq<real>, amount: real)
    requires RaisedBy(h, h0, amount)
    ensures h == Raised(h0, amount)
  {
  }

  /** Taking one more key s out of `todo` adds its amount to a health list
      raised by the keys of `givers` handled so far when s is one of them, and
      changes nothing otherwise: the shields of the supports add up one support
      at a time, in any order. */
  lemma {:induction false} GainStep<T>(amounts: map<T, real>, givers: set<T>, todo: set<T>, s: T, h: seq<real>, h0: seq<real>)
    requires givers <= amounts.Keys && s in todo
    requires RaisedBy(h, h0, Sum(amounts, givers - todo))
    ensures s in givers ==> RaisedBy(Raised(h, amounts[s]), h0, Sum(amounts, givers - (todo - {s})))
    ensures s !in givers ==> RaisedBy(h, h0, Sum(amounts, givers - (todo - {s})))
  {
    var before, after := givers - todo, givers - (todo - {s});
    if s in givers {
      assert after == before + {s};
      SumAdd(amounts, before, s);
    } else {
      assert after == before;
    }
  }

  /** GainStep for every stack of ws at once: after support s has run, each
      stack it gives to has gained its amount and the others are unchanged. */
  lemma GainAll<S, W>(amounts: map<S, real>, givers: map<W, set<S>>, h0: map<W, seq<real>>, todo: set<S>, s: S,
                      before: map<W, seq<real>>, after: map<W, seq<real>>, ws: set<W>)
    requires s in todo && s in amounts
    requires forall w :: w in ws ==> w in givers && givers[w] <= amounts.Keys && w in h0 && w in before && w in after
    requires forall w :: w in ws ==> RaisedBy(before[w], h0[w], Sum(amounts, givers[w] - todo))
    requires forall w :: w in ws ==> after[w] == if s in givers[w] then Raised(before[w], amounts[s]) else before[w]
    ensures forall w :: w in ws ==> RaisedBy(after[w], h0[w], Sum(amounts, givers[w] - (todo - {s})))
  {
    forall w | w in ws ensures RaisedBy(after[w], h0[w], Sum(amounts, givers[w] - (todo - {s}))) {
      GainStep(amounts, givers[w], todo, s, before[w], h0[w]);
    }
  }

  /** The damage a stack deals when it breaches: one per walker, two per
      demolisher. */
  function BreachDamage(t: UnitType, count: int): (d: real)
    ensures count >= 0 ==> d >= 0.0
    ensures t == Demolisher ==> d == 2.0 * count as real
    ensures t != Demolisher ==> d == count as real
  {
    count as real * (if t == Demolisher then 2.0 else 1.0)
  }

  /** The opponent of player 0 is player 1; of anyone else, player 0. */
  function Enemy(player: int): int {
    if player == 0 then 1 else 0
  }

  /** One breach by a stack of `player`: the opponent loses `damage` health
      and the owner gains `damage` SP. */
  function Charge(stats: seq<PlayerStats>, player: int, damage: real): (r: seq<PlayerStats>)
    requires |stats| == 2 && (player == 0 || player == 1)
    ensures |r| == 2
    ensures r[Enemy(player)] == stats[Enemy(player)].(health := stats[Enemy(player)].health - damage)
    ensures r[player] == stats[player].(sp := stats[player].sp + damage)
  {
    var enemy := Enemy(player);
    var hit := stats[enemy := stats[enemy].(health := stats[enemy].health - damage)];
    hit[player := hit[player].(sp := hit[player].sp + damage)]
  }

  /** The stacks of ws owned by player. */
  function OwnedBy(ws: set<SimWalkerStack>, player: int): set<SimWalkerStack> {
    set w | w in ws && w.playerIndex == player
  }

  /** The players' stats after every stack of `breached` has breached once:
      each player loses the damage of the opponent's breaches and gains the
      damage of its own as SP. MP is untouched. */
  ghost function Settled(stats: seq<PlayerStats>, damage: map<SimWalkerStack, real>, breached: set<SimWalkerStack>): seq<PlayerStats>
    requires |stats| == 2 && breached <= damage.Keys
  {
    [PlayerStats(stats[0].health - Sum(damage, OwnedBy(breached, 1)), stats[0].sp + Sum(damage, OwnedBy(breached, 0)), stats[0].mp),
     PlayerStats(stats[1].health - Sum(damage, OwnedBy(breached, 0)), stats[1].sp + Sum(damage, OwnedBy(breached, 1)), stats[1].mp)]
  }

  /** No breach, no change. */
  lemma SettledNone(stats: seq<PlayerStats>, damage: map<SimWalkerStack, real>)
    requires |stats| == 2
    ensures Settled(stats, damage, {}) == stats
  {
    assert OwnedBy({}, 0) == {} && OwnedBy({}, 1) == {};
  }

  /** Charging one more breach to the settled stats settles the larger set:
      the breaches of a frame may be charged in any order. */
  lemma SettledStep(stats: seq<PlayerStats>, damage: map<SimWalkerStack, real>, breached: set<SimWalkerStack>, w: SimWalkerStack)
    requires |stats| == 2 && breached <= damage.Keys && w in damage && w !in breached
    requires w.playerIndex == 0 || w.playerIndex == 1
    ensures Settled(stats, damage, breached + {w}) == Charge(Settled(stats, damage, breached), w.playerIndex, damage[w])
  {
    var p := w.playerIndex;
    assert OwnedBy(breached + {w}, p) == OwnedBy(breached, p) + {w};
    assert OwnedBy(breached + {w}, 1 - p) == OwnedBy(breached, 1 - p);
    SumAdd(damage, OwnedBy(breached, p), w);
  }

  /** Every breach moves health from one player to SP of the other: the sum of
      both players' health and SP does not change. */
  lemma SettledConserves(stats: seq<PlayerStats>, damage: map<SimWalkerStack, real>, breached: set<SimWalkerStack>)
    requires |stats| == 2 && breached <= damage.Keys
    ensures var r := Settled(stats, damage, breached);
      r[0].health + r[0].sp + r[1].health + r[1].sp == stats[0].health + stats[0].sp + stats[1].health + stats[1].sp
  {
  }

  /** With non-negative damages, a player's health never rises and its SP
      never falls. */
  lemma SettledMonotone(stats: seq<PlayerStats>, damage: map<SimWalkerStack, real>, breached: set<SimWalkerStack>)
    requires |stats| == 2 && breached <= damage.Keys
    requires forall w :: w in breached ==> damage[w] >= 0.0
    ensures var r := Settled(stats, damage, breached);
      r[0].health <= stats[0].health && r[1].health <= stats[1].health &&
      r[0].sp >= stats[0].sp && r[1].sp >= stats[1].sp
  {
    SumNonNegative(damage, OwnedBy(breached, 0));
    SumNonNegative(damage, OwnedBy(breached, 1));
  }

  /** The edge test of the movement loop as written: the probe is the tuple
      `(x, y)`, while the edge lists hold `[x, y]` lists, and Python never finds
      a tuple equal to a list. */
  predicate ReachedEdgeAsWritten(c: Coord) {
    ListedIn(Tuple(c), EdgeList(Quadrant(c.0, c.1)))
  }

  /** As written, no stack ever counts as having reached an edge, even on an
      edge cell such as (13, 0): it never breaches. */
  lemma EdgeNeverReachedAsWritten(c: Coord)
    ensures !ReachedEdgeAsWritten(c)
    ensures AtEdge((13, 0)) && !ReachedEdgeAsWritten((13, 0))
  {
    EdgeListFacts(BottomLeft);
    assert OnOuterBoundary(BottomLeft, (13, 0));
  }

  /** The unit type of a walker stack as `load_units` stores it: the integer
      slot, not the enum member. */
  datatype StoredType = Slot(index: int) | Member(t: UnitType)

  /** The breach damage as written: `unit_type == UnitType.DEMOLISHER`
      compares the stored value with the enum member. */
  function BreachDamageAsWritten(stored: StoredType, count: int): real {
    count as real * (if stored == Member(Demolisher) then 2.0 else 1.0)
  }

  /** With the slot stored as an integer, a demolisher stack of three deals 3
      instead of 6. */
  lemma DemolisherNotDoubledAsWritten()
    ensures BreachDamageAsWritten(Slot(Demolisher.Value()), 3) == 3.0
    ensures BreachDamage(Demolisher, 3) == 6.0
  {
  }

  /** The attributes `SimSupport.__init__` defines for its shield, and their
      values; any other name is not a shield attribute of the support. */
  function ShieldAttribute(s: ShieldStats, name: string): Option<real> {
    if name == "shieldRange" then Some(s.shieldRange)
    else if name == "shieldPerUnit" then Some(s.shieldPerUnit)
    else if name == "shieldBonusPerY" then Some(s.shieldBonusPerY)
    else None
  }

  /** The shield loop reads `shield_range` and `shield_per_unit`, which no
      support has: as written, the lookup fails for every support, while the
      names the support does define give its range and shield. */
  lemma ShieldNamesAsWritten(s: ShieldStats)
    ensures ShieldAttribute(s, "shield_range").None? && ShieldAttribute(s, "shield_per_unit").None?
    ensures ShieldAttribute(s, "shieldRange") == Some(s.shieldRange)
    ensures ShieldAttribute(s, "shieldPerUnit") == Some(s.shieldPerUnit)
  {
  }

  /** How the movement loop of `run_frame` ends when it iterates over
      `walker_stacks` itself: every stack handled, or a RuntimeError after
      `handled` stacks. */
  datatype LoopEnd = Finished | SetChanged(handled: nat)

  /** The movement loop as written, over the stacks in iteration order, each
      flagged by whether it stands on its edge. A breach removes its stack
      from the set being iterated, and CPython's set iterator compares the
      set's size before it yields the next element or reports the end, so the
      loop raises right after the first breach; a step leaves the set alone. */
  function MoveLoopAsWritten(atEdge: seq<bool>): LoopEnd {
    if atEdge == [] then Finished
    else if atEdge[0] then SetChanged(1)
    else match MoveLoopAsWritten(atEdge[1..])
      case Finished => Finished
      case SetChanged(n) => SetChanged(n + 1)
  }

  /** As written, the loop finishes exactly when no stack breaches; otherwise
      it raises right after the first breaching stack, and the stacks after it
      are never handled: of three stacks where only the second breaches, the
      third neither breaches nor steps. */
  lemma {:induction false} BreachAbortsAsWritten(atEdge: seq<bool>)
    ensures MoveLoopAsWritten(atEdge).Finished? <==> forall i :: 0 <= i < |atEdge| ==> !atEdge[i]
    ensures MoveLoopAsWritten(atEdge).SetChanged? ==>
      var n := MoveLoopAsWritten(atEdge).handled;
      1 <= n <= |atEdge| && atEdge[n - 1] && forall i :: 0 <= i < n - 1 ==> !atEdge[i]
    ensures MoveLoopAsWritten([false, true, false]) == SetChanged(2)
    decreases |atEdge|
  {
    if atEdge != [] && !atEdge[0] {
      BreachAbortsAsWritten(atEdge[1..]);
      assert forall i :: 1 <= i < |atEdge| ==> atEdge[i] == atEdge[1..][i - 1];
    }
    assert [false, true, false][1..] == [true, false];
  }
}
