/**
 * NPCs, their fights and the observers they notify, and the battle visitor
 * that puts an attacker and a target together.
 *
 * The class hierarchy Bear/Duck/Desman becomes one class NPC with a
 * constant kind tag; the per-type constructors, the type-dispatched fight
 * and the three identical visit overloads take their behaviour from that
 * tag. The random draws of moveRandomly and rollDice are parameters.
 */
module NpcSystem {
  import opened Kinds
  import opened Geometry
  import Serialization

  /** A value rollDice can return. */
  type Roll = r: int | 1 <= r <= 6 witness 1

  /** A registered fight observer (the console sink, the file sink, ...). */
  type ObserverId = nat

  /** One call o->on_fight(self, defender, win) made by fight_notify. */
  datatype FightEvent = FightEvent(observer: ObserverId, attacker: NPC, defender: NPC, win: bool)

  /** The calls one fight_notify round makes, for the observers in the order given. */
  function Round(observers: seq<ObserverId>, attacker: NPC, defender: NPC, win: bool): seq<FightEvent>
  {
    if observers == [] then []
    else [FightEvent(observers[0], attacker, defender, win)] + Round(observers[1..], attacker, defender, win)
  }

  /** A round reaches every observer exactly once, in registration order. */
  lemma {:induction false} RoundShape(observers: seq<ObserverId>, attacker: NPC, defender: NPC, win: bool)
    ensures |Round(observers, attacker, defender, win)| == |observers|
    ensures forall i :: 0 <= i < |observers| ==>
              Round(observers, attacker, defender, win)[i] == FightEvent(observers[i], attacker, defender, win)
  {
    if observers != [] {
      RoundShape(observers[1..], attacker, defender, win);
    }
  }

  /** An observer subscribed last is called last, after all the earlier ones. */
  lemma {:induction false} RoundAppend(observers: seq<ObserverId>, o: ObserverId, attacker: NPC, defender: NPC, win: bool)
    ensures Round(observers + [o], attacker, defender, win) ==
              Round(observers, attacker, defender, win) + [FightEvent(o, attacker, defender, win)]
  {
    if observers == [] {
      assert observers + [o] == [o];
    } else {
      assert (observers + [o])[1..] == observers[1..] + [o];
      RoundAppend(observers[1..], o, attacker, defender, win);
    }
  }

  /** What NPC::load hands back. */
  datatype LoadOutcome =
    | NoNpc                              // nullptr
    | LoadError(message: string)         // the std::runtime_error thrown
    | Made(npc: NPC, rest: string)

  class NPC {
    const species: Species
    const name: string
    var x: int
    var y: int
    var alive: bool
    const moveDistance: nat
    const killDistance: nat
    var observers: seq<ObserverId>

    /** The radii are the ones the per-type constructor passes to the base constructor. */
    ghost predicate RadiiOfKind()
    {
      moveDistance == MoveDistanceOf(species) && killDistance == KillDistanceOf(species)
    }

    constructor Bear(n: string, x0: int, y0: int)
      ensures species == Species.Bear && name == n && x == x0 && y == y0
      ensures alive && observers == []
      ensures moveDistance == 5 && killDistance == 10 && RadiiOfKind()
    {
      species, name, x, y := Species.Bear, n, x0, y0;
      alive, observers := true, [];
      moveDistance, killDistance := 5, 10;
    }

    constructor Duck(n: string, x0: int, y0: int)
      ensures species == Species.Duck && name == n && x == x0 && y == y0
      ensures alive && observers == []
      ensures moveDistance == 50 && killDistance == 10 && RadiiOfKind()
    {
      species, name, x, y := Species.Duck, n, x0, y0;
      alive, observers := true, [];
      moveDistance, killDistance := 50, 10;
    }

    constructor Desman(n: string, x0: int, y0: int)
      ensures species == Species.Desman && name == n && x == x0 && y == y0
      ensures alive && observers == []
      ensures moveDistance == 5 && killDistance == 20 && RadiiOfKind()
    {
      species, name, x, y := Species.Desman, n, x0, y0;
      alive, observers := true, [];
      moveDistance, killDistance := 5, 20;
    }

    /** getType: the class name, which is also the token load dispatches on. */
    function GetType(): (t: string)
      ensures Serialization.ParseSpecies(t) == Serialization.Some(species)
    {
      Serialization.ParseSpeciesOfTypeName(species);
      TypeName(species)
    }

    /** kill(): liveness only ever goes from true to false; calling it again changes nothing. */
    method Kill()
      modifies this`alive
      ensures !alive
    {
      alive := false;
    }

    /**
     * moveRandomly with the two drawn offsets as parameters: a dead NPC stays
     * where it is; a live one adds the offsets and is clamped into the map.
     */
    method MoveRandomly(mapSizeX: int, mapSizeY: int, dx: int, dy: int)
      requires Abs(dx) <= moveDistance && Abs(dy) <= moveDistance
      modifies this`x, this`y
      ensures !alive ==> x == old(x) && y == old(y)
      ensures alive ==> x == Clamp(old(x) + dx, mapSizeX) && y == Clamp(old(y) + dy, mapSizeY)
      ensures alive && mapSizeX >= 1 && mapSizeY >= 1 ==> 0 <= x < mapSizeX && 0 <= y < mapSizeY
      ensures alive && 0 <= old(x) < mapSizeX && 0 <= old(y) < mapSizeY ==>
                Abs(x - old(x)) <= moveDistance && Abs(y - old(y)) <= moveDistance
    {
      if !alive {
        return;
      }
      var newX := x + dx;
      var newY := y + dy;
      if 0 <= x < mapSizeX && 0 <= y < mapSizeY {
        ClampNeverLengthens(x, dx, mapSizeX);
        ClampNeverLengthens(y, dy, mapSizeY);
      }
      x := Clamp(newX, mapSizeX);
      y := Clamp(newY, mapSizeY);
    }

    /** is_close: Euclidean distance to `other` at most `distance`, whoever is alive. */
    predicate IsClose(other: NPC, distance: nat)
      reads this, other
    {
      Within(x - other.x, y - other.y, distance)
    }

    /**
     * isInRangeForKill: both alive and `other` within this NPC's own kill
     * radius; the other NPC's radius plays no part.
     */
    predicate IsInRangeForKill(other: NPC)
      reads this, other
    {
      if !alive || !other.alive then false
      else Within(x - other.x, y - other.y, killDistance)
    }

    /** subscribe: appends one observer; the earlier ones keep their places. */
    method Subscribe(o: ObserverId)
      modifies this`observers
      ensures observers == old(observers) + [o]
    {
      observers := observers + [o];
    }

    /** fight_notify: one call per observer, in registration order. */
    method FightNotify(defender: NPC, win: bool) returns (round: seq<FightEvent>)
      ensures |round| == |observers|
      ensures forall i :: 0 <= i < |observers| ==> round[i] == FightEvent(observers[i], this, defender, win)
      ensures round == Round(observers, this, defender, win)
    {
      round := [];
      var i := 0;
      while i < |observers|
        invariant 0 <= i <= |observers|
        invariant round == Round(observers[..i], this, defender, win)
      {
        RoundAppend(observers[..i], observers[i], this, defender, win);
        assert observers[..i + 1] == observers[..i] + [observers[i]];
        round := round + [FightEvent(observers[i], this, defender, win)];
        i := i + 1;
      }
      assert observers[..i] == observers;
      RoundShape(observers, this, defender, win);
    }

    /**
     * Bear::fight, Duck::fight and Desman::fight. Against a null or dead
     * target, or a kind this NPC does not attack, it returns false and
     * changes nothing. Otherwise it returns true, the target dies iff the
     * attack roll beats the defence roll, and one notification round
     * reports whether it died.
     */
    method Fight(other: NPC?, attackRoll: Roll, defenceRoll: Roll) returns (fought: bool, round: seq<FightEvent>)
      modifies (if other == null then {} else {other})`alive
      ensures fought <==> other != null && old(other.alive) && Attacks(species, other.species)
      ensures other != null ==> other.alive == (old(other.alive) && !(fought && attackRoll > defenceRoll))
      ensures alive == old(alive)
      ensures round == if fought then Round(observers, this, other, attackRoll > defenceRoll) else []
    {
      if other == null || !other.alive {
        return false, [];
      }
      if Attacks(species, other.species) {
        AttacksIrreflexive(species);
        var attackPower := attackRoll;
        var defensePower := defenceRoll;
        if attackPower > defensePower {
          other.Kill();
          round := FightNotify(other, true);
          return true, round;
        }
        round := FightNotify(other, false);
        return true, round;
      }
      return false, [];
    }

    /** The fields that save writes. */
    function Record(): Serialization.NpcRecord
      reads this
    {
      Serialization.NpcRecord(species, name, x, y)
    }

    /** Bear::save, Duck::save and Desman::save. */
    function Save(): string
      reads this
    {
      Serialization.Save(Record())
    }

    /**
     * NPC::load: parses one line and constructs the NPC of the kind its type
     * token names; Null for a failed read, an error for an unknown token.
     */
    static method Load(s: string) returns (r: LoadOutcome)
      ensures Serialization.Load(s).Null? ==> r == NoNpc
      ensures Serialization.Load(s).UnknownType? ==>
                r == LoadError("Unknown NPC type: " + Serialization.Load(s).token)
      ensures Serialization.Load(s).Loaded? ==>
                r.Made? && fresh(r.npc) && r.npc.Record() == Serialization.Load(s).record &&
                r.rest == Serialization.Load(s).rest && r.npc.alive && r.npc.observers == [] &&
                r.npc.RadiiOfKind()
    {
      var parsed := Serialization.Load(s);
      if parsed.Null? {
        r := NoNpc;
      } else if parsed.UnknownType? {
        r := LoadError("Unknown NPC type: " + parsed.token);
      } else {
        var rec := parsed.record;
        var npc: NPC;
        if rec.species == Species.Bear {
          npc := new NPC.Bear(rec.name, rec.x, rec.y);
        } else if rec.species == Species.Duck {
          npc := new NPC.Duck(rec.name, rec.x, rec.y);
        } else {
          npc := new NPC.Desman(rec.name, rec.x, rec.y);
        }
        r := Made(npc, parsed.rest);
      }
    }
  }

  // -----------------------------------------------------------------------
  // The range checks

  /** A dead NPC is never in range, as attacker or as target. */
  lemma DeadIsNeverInRange(a: NPC, b: NPC)
    requires !a.alive || !b.alive
    ensures !a.IsInRangeForKill(b) && !b.IsInRangeForKill(a)
  {
  }

  /** isInRangeForKill is is_close at the attacker's own kill radius, between live NPCs. */
  lemma InRangeIsCloseAtOwnRadius(a: NPC, b: NPC)
    ensures a.IsInRangeForKill(b) <==> a.alive && b.alive && a.IsClose(b, a.killDistance)
  {
  }

  /** is_close does not depend on which NPC asks. */
  lemma IsCloseSymmetric(a: NPC, b: NPC, distance: nat)
    ensures a.IsClose(b, distance) <==> b.IsClose(a, distance)
  {
    WithinSymmetric(a.x - b.x, a.y - b.y, distance);
    assert -(a.x - b.x) == b.x - a.x && -(a.y - b.y) == b.y - a.y;
  }

  /** The NPC with the longer reach is in range of anyone who is in range of it. */
  lemma LongerReachSeesBack(a: NPC, b: NPC)
    requires a.killDistance <= b.killDistance
    requires a.IsInRangeForKill(b)
    ensures b.IsInRangeForKill(a)
  {
    IsCloseSymmetric(a, b, a.killDistance);
    WithinMonotone(b.x - a.x, b.y - a.y, a.killDistance, b.killDistance);
  }

  /**
   * The check is asymmetric: a live Desman 15 units from a live Bear has
   * the Bear in range, while the Bear does not have the Desman in range.
   */
  lemma InRangeIsAsymmetric(desman: NPC, bear: NPC)
    requires desman.alive && bear.alive && desman.RadiiOfKind() && bear.RadiiOfKind()
    requires desman.species == Desman && bear.species == Bear
    requires desman.x == bear.x + 15 && desman.y == bear.y
    ensures desman.IsInRangeForKill(bear) && !bear.IsInRangeForKill(desman)
  {
  }

  // -----------------------------------------------------------------------
  // The battle visitor

  /**
   * Whether BattleVisitor::visit gets as far as a fight that returns true:
   * attacker and target non-null and alive, the target in the attacker's
   * kill range, and the target of a kind the attacker attacks.
   */
  predicate Engages(attacker: NPC?, target: NPC?)
    reads attacker, target
  {
    attacker != null && target != null && attacker.alive && target.alive &&
    attacker.IsInRangeForKill(target) && Attacks(attacker.species, target.species)
  }

  /** Ducks never engage, and no NPC engages itself. */
  lemma DuckNeverEngages(attacker: NPC, target: NPC)
    requires attacker.species == Duck || attacker == target
    ensures !Engages(attacker, target)
  {
    AttacksIrreflexive(attacker.species);
  }

  class BattleVisitor {
    const attacker: NPC?
    var killer: string
    var victim: string
    var killOccurred: bool

    /** BattleVisitor(attacker): nothing recorded yet. */
    constructor (a: NPC?)
      ensures attacker == a && !killOccurred && killer == "" && victim == ""
    {
      attacker := a;
      killer, victim, killOccurred := "", "", false;
    }

    /**
     * BattleVisitor::visit (the same for all three kinds): when the pair
     * engages, the attacker fights the target and the visitor records the
     * attacker as killer and the target as victim, even when the target won
     * its defence roll and is still alive; otherwise nothing changes.
     */
    method Visit(target: NPC?, attackRoll: Roll, defenceRoll: Roll) returns (round: seq<FightEvent>)
      modifies this`killer, this`victim, this`killOccurred
      modifies (if target == null then {} else {target})`alive
      ensures old(Engages(attacker, target)) ==>
                killOccurred && killer == attacker.name && victim == target.name
      ensures !old(Engages(attacker, target)) ==>
                killOccurred == old(killOccurred) && killer == old(killer) && victim == old(victim)
      ensures target != null ==>
                target.alive == (old(target.alive) && !(old(Engages(attacker, target)) && attackRoll > defenceRoll))
      ensures attacker != null ==> attacker.alive == old(attacker.alive)
      ensures round == if old(Engages(attacker, target))
                       then Round(attacker.observers, attacker, target, attackRoll > defenceRoll)
                       else []
    {
      round := [];
      if attacker == null || !attacker.alive || target == null || !target.alive {
        return;
      }
      if attacker.IsInRangeForKill(target) {
        var fought;
        fought, round := attacker.Fight(target, attackRoll, defenceRoll);
        if fought {
          killer := attacker.name;
          victim := target.name;
          killOccurred := true;
        }
      }
    }
  }

  /**
   * The visitor reports a kill whose victim is still alive: a Bear that
   * loses its roll against a Duck next to it has still "killed" the Duck.
   */
  method SurvivorReportedAsVictim() returns (visitor: BattleVisitor, duck: NPC)
    ensures visitor.killOccurred && visitor.victim == duck.name && duck.alive
    ensures visitor.attacker != null && visitor.killer == visitor.attacker.name && visitor.attacker.alive
  {
    var bear := new NPC.Bear("Bear", 0, 0);
    duck := new NPC.Duck("Duck", 0, 0);
    visitor := new BattleVisitor(bear);
    var round := visitor.Visit(duck, 1, 6);
  }
}
