/**
 * The sequential skeleton of the simulation in main.cpp: the global NPC
 * vector and battle queue become fields of one Simulation object, and the
 * bodies of the movement thread (move pass, pair scan), the battle thread
 * (take one task, fight it), printMap's cell choice and the final survivor
 * filter become its methods. Threads, locks and sleeps are not modelled:
 * each method is one uninterrupted run of the corresponding loop body, and
 * the offsets and dice rolls the random engines would draw are parameters.
 */
module Engine {
  import opened Kinds
  import opened Geometry
  import opened NpcSystem

  /** MAP_SIZE_X and MAP_SIZE_Y. */
  const MapSizeX: int := 100
  const MapSizeY: int := 100
  /** printMap steps through the map in strides of 10 and buckets by `/ 10`. */
  const CellSize: int := 10

  /** One queued fight: the attacker found the target in its kill range. */
  datatype BattleTask = BattleTask(attacker: NPC, target: NPC)

  /** The "[BATTLE] killer killed victim" line the battle thread prints. */
  datatype KillReport = KillReport(killer: string, victim: string)

  /** The offsets moveRandomly draws for one NPC. */
  datatype Offset = Offset(dx: int, dy: int)

  /** The attack and defence rolls the two rollDice calls of one fight return. */
  datatype Dice = Dice(attack: Roll, defence: Roll)

  /** Indices into the roster of a pair the scan enqueues. */
  datatype Pair = Pair(attacker: nat, target: nat)

  predicate Distinct(r: seq<NPC>)
  {
    forall i, j :: 0 <= i < j < |r| ==> r[i] != r[j]
  }

  // -----------------------------------------------------------------------
  // The pair scan as a specification

  /** The checks of the inner scan loop: both alive and the second in the first's kill range. */
  predicate Candidate(a: NPC, b: NPC)
    reads a, b
  {
    a.alive && b.alive && a.IsInRangeForKill(b)
  }

  /** Strict lexicographic order on pairs. */
  predicate Before(p: Pair, q: Pair)
  {
    p.attacker < q.attacker || (p.attacker == q.attacker && p.target < q.target)
  }

  predicate PairsIn(n: nat, ps: seq<Pair>)
  {
    forall k :: 0 <= k < |ps| ==> ps[k].attacker < n && ps[k].target < n
  }

  /** Whether pair p is at or after the scan cursor (i, j). */
  predicate AtOrAfter(p: Pair, i: nat, j: nat)
  {
    i < p.attacker || (i == p.attacker && j <= p.target)
  }

  /**
   * The pairs the scan still finds from cursor (i, j) on: the candidates
   * (i, j') with j <= j', then those of every later row, in scan order.
   */
  function ScanFrom(r: seq<NPC>, i: nat, j: nat): (ps: seq<Pair>)
    requires i < j
    reads r
    ensures PairsIn(|r|, ps)
    ensures forall k :: 0 <= k < |ps| ==> ps[k].attacker < ps[k].target && AtOrAfter(ps[k], i, j)
    decreases |r| - i, |r| - j
  {
    if i >= |r| then []
    else if j >= |r| then ScanFrom(r, i + 1, i + 2)
    else
      var head: seq<Pair> := if Candidate(r[i], r[j]) then [Pair(i, j)] else [];
      var rest := ScanFrom(r, i, j + 1);
      assert forall k :: |head| <= k < |head + rest| ==> (head + rest)[k] == rest[k - |head|];
      head + rest
  }

  /** The pairs one full scan of the roster enqueues, in order. */
  function Scan(r: seq<NPC>): seq<Pair>
    reads r
  {
    ScanFrom(r, 0, 1)
  }

  /** The battle tasks for a list of index pairs. */
  function TasksOf(r: seq<NPC>, ps: seq<Pair>): (ts: seq<BattleTask>)
    requires PairsIn(|r|, ps)
    ensures |ts| == |ps|
    ensures forall k :: 0 <= k < |ps| ==> ts[k] == BattleTask(r[ps[k].attacker], r[ps[k].target])
  {
    if ps == [] then []
    else
      var rest := TasksOf(r, ps[1..]);
      assert forall k :: 1 <= k < |ps| ==> ps[k] == ps[1..][k - 1];
      [BattleTask(r[ps[0].attacker], r[ps[0].target])] + rest
  }

  /** A dead NPC's row contributes nothing, which is why the scan may skip it. */
  lemma {:induction false} DeadRowIsSkipped(r: seq<NPC>, i: nat, j: nat)
    requires i < j
    requires i < |r| && !r[i].alive
    ensures ScanFrom(r, i, j) == ScanFrom(r, i + 1, i + 2)
    decreases |r| - j
  {
    if j < |r| {
      DeadRowIsSkipped(r, i, j + 1);
    }
  }

  /** Every pair the scan finds is a candidate. */
  lemma {:induction false} ScanFromSound(r: seq<NPC>, i: nat, j: nat)
    requires i < j
    ensures forall k :: 0 <= k < |ScanFrom(r, i, j)| ==>
              Candidate(r[ScanFrom(r, i, j)[k].attacker], r[ScanFrom(r, i, j)[k].target])
    decreases |r| - i, |r| - j
  {
    if i < |r| {
      if j >= |r| {
        ScanFromSound(r, i + 1, i + 2);
      } else {
        ScanFromSound(r, i, j + 1);
        var head: seq<Pair> := if Candidate(r[i], r[j]) then [Pair(i, j)] else [];
        var rest := ScanFrom(r, i, j + 1);
        forall k | 0 <= k < |head + rest|
          ensures Candidate(r[(head + rest)[k].attacker], r[(head + rest)[k].target])
        {
          if k >= |head| {
            assert (head + rest)[k] == rest[k - |head|];
          }
        }
      }
    }
  }

  /** The scan finds pairs in strict lexicographic order. */
  lemma {:induction false} ScanFromSorted(r: seq<NPC>, i: nat, j: nat)
    requires i < j
    ensures forall k, l :: 0 <= k < l < |ScanFrom(r, i, j)| ==> Before(ScanFrom(r, i, j)[k], ScanFrom(r, i, j)[l])
    decreases |r| - i, |r| - j
  {
    if i < |r| {
      if j >= |r| {
        ScanFromSorted(r, i + 1, i + 2);
      } else {
        ScanFromSorted(r, i, j + 1);
        var head: seq<Pair> := if Candidate(r[i], r[j]) then [Pair(i, j)] else [];
        var rest := ScanFrom(r, i, j + 1);
        forall k, l | 0 <= k < l < |head + rest|
          ensures Before((head + rest)[k], (head + rest)[l])
        {
          assert (head + rest)[l] == rest[l - |head|];
          if k >= |head| {
            assert (head + rest)[k] == rest[k - |head|];
          }
        }
      }
    }
  }

  /** Every candidate pair at or after the cursor is found. */
  lemma {:induction false} ScanFromComplete(r: seq<NPC>, i: nat, j: nat, p: Pair)
    requires i < j && AtOrAfter(p, i, j) && p.attacker < p.target < |r| && Candidate(r[p.attacker], r[p.target])
    ensures p in ScanFrom(r, i, j)
    decreases |r| - i, |r| - j
  {
    if j >= |r| {
      ScanFromComplete(r, i + 1, i + 2, p);
    } else if p != Pair(i, j) {
      ScanFromComplete(r, i, j + 1, p);
    }
  }

  /** From cursor (i, j), i < j, at most (n - j) + (n-1-i)(n-2-i)/2 pairs remain. */
  lemma {:induction false} ScanFromBound(r: seq<NPC>, i: nat, j: nat)
    requires i < j
    ensures 2 * |ScanFrom(r, i, j)| <= 2 * (if j <= |r| then |r| - j else 0) + (|r| - 1 - i) * (|r| - 2 - i)
    decreases |r| - i, |r| - j
  {
    if i < |r| {
      if j >= |r| {
        ScanFromBound(r, i + 1, i + 2);
        if i + 1 < |r| {
          var m := |r| - 2 - i;
          assert 2 * m + m * (m - 1) == (m + 1) * m;
        }
      } else {
        ScanFromBound(r, i, j + 1);
      }
    }
  }

  /**
   * The scan finds exactly the candidate pairs: (i, j) is enqueued iff
   * i < j, both are alive and roster[j] is in roster[i]'s kill range.
   */
  lemma ScanExactlyCandidates(r: seq<NPC>, i: nat, j: nat)
    ensures Pair(i, j) in Scan(r) <==> i < j < |r| && Candidate(r[i], r[j])
  {
    ScanFromSound(r, 0, 1);
    if i < j < |r| && Candidate(r[i], r[j]) {
      ScanFromComplete(r, 0, 1, Pair(i, j));
    }
  }

  /** Tasks come in strict lexicographic order of their indices, so the reversed pair is never enqueued and no pair twice. */
  lemma ScanOneWay(r: seq<NPC>, i: nat, j: nat)
    ensures forall k, l :: 0 <= k < l < |Scan(r)| ==> Before(Scan(r)[k], Scan(r)[l])
    ensures Pair(i, j) in Scan(r) ==> Pair(j, i) !in Scan(r)
  {
    ScanFromSorted(r, 0, 1);
  }

  /** One scan enqueues at most n(n-1)/2 tasks. */
  lemma ScanBound(r: seq<NPC>)
    ensures 2 * |Scan(r)| <= |r| * (|r| - 1)
  {
    ScanFromBound(r, 0, 1);
    if |r| > 0 {
      assert 2 * (|r| - 1) + (|r| - 1) * (|r| - 2) == |r| * (|r| - 1);
    }
  }

  /** One step of the scan loops: a candidate pair at the cursor adds its task... */
  lemma ScanStepFound(r: seq<NPC>, i: nat, j: nat, found: seq<BattleTask>, total: seq<BattleTask>)
    requires i < j < |r| && Candidate(r[i], r[j])
    requires found + TasksOf(r, ScanFrom(r, i, j)) == total
    ensures (found + [BattleTask(r[i], r[j])]) + TasksOf(r, ScanFrom(r, i, j + 1)) == total
  {
    var rest := ScanFrom(r, i, j + 1);
    var later := TasksOf(r, rest);
    var t := BattleTask(r[i], r[j]);
    assert ScanFrom(r, i, j) == [Pair(i, j)] + rest;
    assert ([Pair(i, j)] + rest)[1..] == rest;
    assert TasksOf(r, ScanFrom(r, i, j)) == [t] + later;
    assert (found + [t]) + later == found + ([t] + later);
  }

  /** ... and any other pair adds nothing. */
  lemma ScanStepSkipped(r: seq<NPC>, i: nat, j: nat)
    requires i < j < |r| && !Candidate(r[i], r[j])
    ensures ScanFrom(r, i, j) == ScanFrom(r, i, j + 1)
  {
    assert [] + ScanFrom(r, i, j + 1) == ScanFrom(r, i, j + 1);
  }

  /** Tasks built from roster indices refer to roster NPCs. */
  lemma TasksOfInRoster(r: seq<NPC>, ps: seq<Pair>)
    requires PairsIn(|r|, ps)
    ensures forall k :: 0 <= k < |TasksOf(r, ps)| ==> TasksOf(r, ps)[k].attacker in r && TasksOf(r, ps)[k].target in r
  {
  }

  // -----------------------------------------------------------------------
  // printMap and the survivor filter as specifications

  /** The condition printMap tests for an NPC and the cell at map position (x, y). */
  predicate Occupies(n: NPC, x: int, y: int)
    reads n
  {
    n.alive && TruncDiv(n.x, CellSize) == TruncDiv(x, CellSize) && TruncDiv(n.y, CellSize) == TruncDiv(y, CellSize)
  }

  /** The character printMap prints for (x, y): the first occupant's letter, or '.'. */
  function CellGlyph(r: seq<NPC>, x: int, y: int): char
    reads r
  {
    if r == [] then '.'
    else if Occupies(r[0], x, y) then Glyph(r[0].species)
    else CellGlyph(r[1..], x, y)
  }

  /** A cell shows the letter of the first live NPC in it, in roster order, and '.' exactly when it is empty. */
  lemma {:induction false} CellGlyphIsFirstOccupant(r: seq<NPC>, x: int, y: int)
    ensures CellGlyph(r, x, y) == '.' <==> forall k :: 0 <= k < |r| ==> !Occupies(r[k], x, y)
    ensures forall k :: 0 <= k < |r| && Occupies(r[k], x, y) && (forall j :: 0 <= j < k ==> !Occupies(r[j], x, y)) ==>
              CellGlyph(r, x, y) == Glyph(r[k].species)
  {
    if r != [] {
      CellGlyphIsFirstOccupant(r[1..], x, y);
      forall k | 0 < k < |r| && Occupies(r[k], x, y) && (forall j :: 0 <= j < k ==> !Occupies(r[j], x, y))
        ensures CellGlyph(r, x, y) == Glyph(r[k].species)
      {
        assert !Occupies(r[0], x, y);
        assert r[1..][k - 1] == r[k];
        forall j | 0 <= j < k - 1 ensures !Occupies(r[1..][j], x, y) {
          assert r[1..][j] == r[j + 1];
        }
      }
      if !Occupies(r[0], x, y) && CellGlyph(r, x, y) == '.' {
        forall k | 0 <= k < |r| ensures !Occupies(r[k], x, y) {
          if k > 0 {
            assert r[k] == r[1..][k - 1];
          }
        }
      }
    }
  }

  /** The NPCs of `r` that are alive, in roster order. */
  function AliveOnly(r: seq<NPC>): seq<NPC>
    reads r
  {
    if r == [] then []
    else AliveOnly(r[..|r| - 1]) + (if r[|r| - 1].alive then [r[|r| - 1]] else [])
  }

  /** The survivors are exactly the live NPCs, none dropped, none added, none repeated. */
  lemma {:induction false} AliveOnlyIsTheLiving(r: seq<NPC>)
    requires Distinct(r)
    ensures forall n :: n in AliveOnly(r) <==> n in r && n.alive
    ensures Distinct(AliveOnly(r))
    ensures |AliveOnly(r)| <= |r|
  {
    if r != [] {
      var front := r[..|r| - 1];
      assert r == front + [r[|r| - 1]];
      AliveOnlyIsTheLiving(front);
    }
  }

  /** The survivor filter keeps roster order: filtering distributes over concatenation. */
  lemma {:induction false} AliveOnlyAppend(r: seq<NPC>, s: seq<NPC>)
    ensures AliveOnly(r + s) == AliveOnly(r) + AliveOnly(s)
    decreases |s|
  {
    if s != [] {
      var front := s[..|s| - 1];
      assert (r + s)[..|r + s| - 1] == r + front;
      AliveOnlyAppend(r, front);
    } else {
      assert r + s == r;
    }
  }

  // -----------------------------------------------------------------------
  // The battle thread's drain as a specification

  /** Appending in two steps is appending once. */
  lemma AppendRegroup<T>(prev: seq<T>, head: seq<T>, rest: seq<T>)
    ensures (prev + head) + rest == prev + (head + rest)
  {
  }

  /** A prefix one longer is the prefix and the next element. */
  lemma TakeOneMore<T>(s: seq<T>, i: nat)
    requires i < |s|
    ensures s[..i + 1] == s[..i] + [s[i]]
  {
  }

  /** Appending keeps what was there. */
  lemma PrefixOfAppend<T>(s: seq<T>, tail: seq<T>)
    ensures (s + tail)[..|s|] == s
  {
  }

  /**
   * A queued task as the battle thread finds it when it starts draining:
   * whether the pair engages, and whom the attacker notifies. Positions
   * and subscriptions do not change while the queue drains, so only
   * deaths during the drain can change what a task does.
   */
  datatype TaskView = TaskView(task: BattleTask, engages: bool, observers: seq<ObserverId>)

  function View(t: BattleTask): (v: TaskView)
    reads t.attacker, t.target
    ensures v.task == t && v.engages == Engages(t.attacker, t.target) && v.observers == t.attacker.observers
  {
    TaskView(t, Engages(t.attacker, t.target), t.attacker.observers)
  }

  /** The queue as views, task by task. */
  function Views(ts: seq<BattleTask>): (vs: seq<TaskView>)
    reads (set t | t in ts :: t.attacker), (set t | t in ts :: t.target)
    ensures |vs| == |ts| && forall k :: 0 <= k < |ts| ==> vs[k] == View(ts[k])
  {
    if ts == [] then [] else [View(ts[0])] + Views(ts[1..])
  }

  /** The part of Engages that does not depend on liveness: the attacker is in range and attacks the target's kind. */
  predicate Reaches(attacker: NPC, target: NPC)
    reads attacker`x, attacker`y, target`x, target`y
  {
    Within(attacker.x - target.x, attacker.y - target.y, attacker.killDistance) && Attacks(attacker.species, target.species)
  }

  /** The view's verdict is what the pair's reach and the NPCs alive when it was taken give. */
  predicate ReachedAsViewed(v: TaskView, living: set<NPC>)
    reads v.task.attacker`x, v.task.attacker`y, v.task.target`x, v.task.target`y
  {
    v.engages == (v.task.attacker in living && v.task.target in living && Reaches(v.task.attacker, v.task.target))
  }

  /** A pair engages iff both are alive and the attacker reaches the target. */
  lemma EngagesIffReaches(attacker: NPC, target: NPC)
    ensures Engages(attacker, target) == (attacker.alive && target.alive && Reaches(attacker, target))
  {
  }

  /** What a run of the battle thread prints and notifies, and whom it kills. */
  datatype DrainLog = DrainLog(reports: seq<KillReport>, deliveries: seq<FightEvent>, deaths: seq<NPC>)

  /**
   * The tasks vs[i..] resolved front first with rolls[i..], where `dead`
   * are the NPCs the drain has already killed: a task whose pair engaged
   * at the start, and neither of whom has died since, prints its kill line
   * and notifies the attacker's observers, and its target dies, and joins
   * `dead`, iff the attack roll beats the defence roll.
   */
  function DrainOutcome(vs: seq<TaskView>, rolls: seq<Dice>, i: nat, dead: seq<NPC>): DrainLog
    requires i <= |vs| <= |rolls|
    decreases |vs| - i
  {
    if i == |vs| then DrainLog([], [], [])
    else
      var v, d := vs[i], rolls[i];
      var attacker, target := v.task.attacker, v.task.target;
      var engaged := attacker !in dead && target !in dead && v.engages;
      var killed := engaged && d.attack > d.defence;
      var fallen := if killed then [target] else [];
      var rest := DrainOutcome(vs, rolls, i + 1, dead + fallen);
      DrainLog((if engaged then [KillReport(attacker.name, target.name)] else []) + rest.reports,
               (if engaged then Round(v.observers, attacker, target, d.attack > d.defence) else []) + rest.deliveries,
               fallen + rest.deaths)
  }

  /** Every task prints at most one kill line, and every death comes with one. */
  lemma {:induction false} DrainOutcomeCounts(vs: seq<TaskView>, rolls: seq<Dice>, i: nat, dead: seq<NPC>)
    requires i <= |vs| <= |rolls|
    ensures |DrainOutcome(vs, rolls, i, dead).deaths| <= |DrainOutcome(vs, rolls, i, dead).reports| <= |vs| - i
    decreases |vs| - i
  {
    if i < |vs| {
      var v, d := vs[i], rolls[i];
      var killed := v.task.attacker !in dead && v.task.target !in dead && v.engages && d.attack > d.defence;
      DrainOutcomeCounts(vs, rolls, i + 1, dead + if killed then [v.task.target] else []);
    }
  }

  /** Only an NPC not already dead dies, and none twice. */
  lemma {:induction false} DrainOutcomeVictims(vs: seq<TaskView>, rolls: seq<Dice>, i: nat, dead: seq<NPC>)
    requires i <= |vs| <= |rolls|
    ensures forall k :: 0 <= k < |DrainOutcome(vs, rolls, i, dead).deaths| ==>
              DrainOutcome(vs, rolls, i, dead).deaths[k] !in dead
    ensures forall k, l :: 0 <= k < l < |DrainOutcome(vs, rolls, i, dead).deaths| ==>
              DrainOutcome(vs, rolls, i, dead).deaths[k] != DrainOutcome(vs, rolls, i, dead).deaths[l]
    decreases |vs| - i
  {
    if i < |vs| {
      var v, d := vs[i], rolls[i];
      var killed := v.task.attacker !in dead && v.task.target !in dead && v.engages && d.attack > d.defence;
      var fallen := if killed then [v.task.target] else [];
      DrainOutcomeVictims(vs, rolls, i + 1, dead + fallen);
      assert DrainOutcome(vs, rolls, i, dead).deaths == fallen + DrainOutcome(vs, rolls, i + 1, dead + fallen).deaths;
    }
  }

  // -----------------------------------------------------------------------
  // The simulation state

  class Simulation {
    /** The global `npcs` vector. */
    var roster: seq<NPC>
    /** The global `battleQueue`, front first. */
    var queue: seq<BattleTask>
    /** The kill lines the battle thread printed, oldest first. */
    var reports: seq<KillReport>
    /** The notifications fight_notify sent to observers, oldest first. */
    var deliveries: seq<FightEvent>
    /** Every task taken off the queue, in the order it was taken. */
    ghost var processed: seq<BattleTask>
    /** Every NPC a fight actually killed, in order. */
    ghost var deaths: seq<NPC>

    /** Each NPC is in the roster once, and queued tasks refer to roster NPCs. */
    ghost predicate Valid()
      reads this
    {
      Distinct(roster) &&
      forall k :: 0 <= k < |queue| ==> queue[k].attacker in roster && queue[k].target in roster
    }

    /** The program's initial state: no NPCs, nothing queued. */
    constructor ()
      ensures Valid()
      ensures roster == [] && queue == [] && reports == [] && deliveries == []
      ensures processed == [] && deaths == []
    {
      roster, queue, reports, deliveries := [], [], [], [];
      processed, deaths := [], [];
    }

    /** npcs.push_back of a newly created NPC. */
    method AddNpc(npc: NPC)
      requires Valid() && npc !in roster
      modifies this`roster
      ensures Valid() && roster == old(roster) + [npc]
    {
      roster := roster + [npc];
    }

    /**
     * The move pass: every live NPC takes its drawn step, clamped to the
     * map; dead NPCs keep their positions; the roster itself is unchanged.
     */
    method MovePass(offsets: seq<Offset>)
      requires Valid() && |offsets| == |roster|
      requires forall k :: 0 <= k < |roster| ==>
                 Abs(offsets[k].dx) <= roster[k].moveDistance && Abs(offsets[k].dy) <= roster[k].moveDistance
      modifies roster`x, roster`y
      ensures forall k :: 0 <= k < |roster| && old(roster[k].alive) ==>
                roster[k].x == Clamp(old(roster[k].x) + offsets[k].dx, MapSizeX) &&
                roster[k].y == Clamp(old(roster[k].y) + offsets[k].dy, MapSizeY)
      ensures forall k :: 0 <= k < |roster| && !old(roster[k].alive) ==>
                roster[k].x == old(roster[k].x) && roster[k].y == old(roster[k].y)
      ensures forall k :: 0 <= k < |roster| && roster[k].alive ==>
                0 <= roster[k].x < MapSizeX && 0 <= roster[k].y < MapSizeY
    {
      for i := 0 to |roster|
        invariant forall k :: 0 <= k < i && old(roster[k].alive) ==>
                    roster[k].x == Clamp(old(roster[k].x) + offsets[k].dx, MapSizeX) &&
                    roster[k].y == Clamp(old(roster[k].y) + offsets[k].dy, MapSizeY)
        invariant forall k :: 0 <= k < |roster| && (i <= k || !old(roster[k].alive)) ==>
                    roster[k].x == old(roster[k].x) && roster[k].y == old(roster[k].y)
      {
        if roster[i].alive {
          roster[i].MoveRandomly(MapSizeX, MapSizeY, offsets[i].dx, offsets[i].dy);
        }
      }
    }

    /**
     * The pair scan of the movement thread: for each live roster[i] and
     * each later live roster[j] in its kill range, the task
     * (roster[i], roster[j]), in scan order.
     */
    method ScanTasks() returns (found: seq<BattleTask>)
      ensures found == TasksOf(roster, Scan(roster))
    {
      ghost var total := TasksOf(roster, Scan(roster));
      found := [];
      for i := 0 to |roster|
        invariant found + TasksOf(roster, ScanFrom(roster, i, i + 1)) == total
      {
        found := ScanRow(i, found, total);
      }
      assert found + TasksOf(roster, []) == found;
    }

    /**
     * One pass of the outer scan loop: nothing for a dead roster[i];
     * otherwise the inner loop appends the tasks of roster[i] with the
     * later NPCs, by increasing j.
     */
    method ScanRow(i: nat, before: seq<BattleTask>, ghost total: seq<BattleTask>) returns (found: seq<BattleTask>)
      requires i < |roster|
      requires before + TasksOf(roster, ScanFrom(roster, i, i + 1)) == total
      ensures found + TasksOf(roster, ScanFrom(roster, i + 1, i + 2)) == total
    {
      found := before;
      if !roster[i].alive {
        DeadRowIsSkipped(roster, i, i + 1);
        return;
      }
      for j := i + 1 to |roster|
        invariant found + TasksOf(roster, ScanFrom(roster, i, j)) == total
      {
        if roster[j].alive && roster[i].IsInRangeForKill(roster[j]) {
          ScanStepFound(roster, i, j, found, total);
          found := found + [BattleTask(roster[i], roster[j])];
        } else {
          ScanStepSkipped(roster, i, j);
        }
      }
      assert ScanFrom(roster, i, |roster|) == ScanFrom(roster, i + 1, i + 2);
    }

    /** The movement thread's scan pushes the tasks it finds onto the back of the queue. */
    method ScanForBattles()
      requires Valid()
      modifies this`queue
      ensures Valid()
      ensures queue == old(queue) + TasksOf(roster, Scan(roster))
    {
      var found := ScanTasks();
      TasksOfInRoster(roster, Scan(roster));
      queue := queue + found;
    }

    /** One iteration of the movement thread: the move pass, then the pair scan. */
    method Tick(offsets: seq<Offset>)
      requires Valid() && |offsets| == |roster|
      requires forall k :: 0 <= k < |roster| ==>
                 Abs(offsets[k].dx) <= roster[k].moveDistance && Abs(offsets[k].dy) <= roster[k].moveDistance
      modifies roster`x, roster`y, this`queue
      ensures Valid()
      ensures forall k :: 0 <= k < |roster| ==>
                if roster[k].alive then
                  roster[k].x == Clamp(old(roster[k].x) + offsets[k].dx, MapSizeX) &&
                  roster[k].y == Clamp(old(roster[k].y) + offsets[k].dy, MapSizeY)
                else
                  roster[k].x == old(roster[k].x) && roster[k].y == old(roster[k].y)
      ensures queue == old(queue) + TasksOf(roster, Scan(roster))
    {
      MovePass(offsets);
      ScanForBattles();
    }

    /**
     * One iteration of the battle thread on a non-empty queue: take the
     * front task; drop it when either NPC is dead; otherwise let a fresh
     * BattleVisitor for the attacker visit the target and print a kill line
     * when the visitor reports one. On an empty queue nothing changes.
     */
    method ProcessNext(dice: Dice)
      requires Valid()
      modifies this`queue, this`reports, this`deliveries, this`processed, this`deaths, roster`alive
      ensures Valid()
      ensures old(queue) == [] ==>
                queue == [] && processed == old(processed) && reports == old(reports) &&
                deliveries == old(deliveries) && deaths == old(deaths) &&
                forall n :: n in roster ==> n.alive == old(n.alive)
      ensures old(queue) != [] ==>
                queue == old(queue)[1..] && processed == old(processed) + [old(queue)[0]]
      ensures old(queue) != [] ==>
                var t := old(queue)[0];
                var engaged := old(Engages(t.attacker, t.target));
                var killed := engaged && dice.attack > dice.defence;
                && reports == old(reports) + (if engaged then [KillReport(t.attacker.name, t.target.name)] else [])
                && deliveries == old(deliveries) +
                     (if engaged then Round(t.attacker.observers, t.attacker, t.target, dice.attack > dice.defence) else [])
                && deaths == old(deaths) + (if killed then [t.target] else [])
                && t.target.alive == (old(t.target.alive) && !killed)
                && forall n :: n in roster && n != t.target ==> n.alive == old(n.alive)
      ensures old(queue) != [] && (!old(queue[0].attacker.alive) || !old(queue[0].target.alive)) ==>
                reports == old(reports) && deliveries == old(deliveries) && deaths == old(deaths) &&
                forall n :: n in roster ==> n.alive == old(n.alive)
    {
      if queue == [] {
        return;
      }
      var task := queue[0];
      queue := queue[1..];
      processed := processed + [task];
      if !task.attacker.alive || !task.target.alive {
        return;
      }
      ghost var engaged := Engages(task.attacker, task.target);
      var visitor := new BattleVisitor(task.attacker);
      var round := visitor.Visit(task.target, dice.attack, dice.defence);
      deliveries := deliveries + round;
      if visitor.killOccurred {
        reports := reports + [KillReport(visitor.killer, visitor.victim)];
      }
      if engaged && dice.attack > dice.defence {
        deaths := deaths + [task.target];
      }
    }

    /**
     * Part way through a drain of the tasks viewed as `vs`, begun with the
     * NPCs in `living` alive: the NPCs killed so far, `slain`, are the only
     * ones that have died; each view still tells whether its pair engages;
     * and what has been printed, notified and logged, followed by the
     * outcome of the tasks from the i-th on, is `goal`.
     */
    ghost predicate Resolving(vs: seq<TaskView>, rolls: seq<Dice>, i: nat, living: set<NPC>, slain: seq<NPC>, goal: DrainLog)
      reads this, roster, (set v | v in vs :: v.task.attacker), (set v | v in vs :: v.task.target)
    {
      i <= |vs| <= |rolls| &&
      (forall k :: 0 <= k < |slain| ==> slain[k] in living) &&
      (forall n :: n in roster ==> (n.alive <==> n in living && n !in slain)) &&
      (forall k :: i <= k < |vs| ==> ReachedAsViewed(vs[k], living)) &&
      (forall k :: i <= k < |vs| ==> vs[k].observers == vs[k].task.attacker.observers) &&
      reports + DrainOutcome(vs, rolls, i, slain).reports == goal.reports &&
      deliveries + DrainOutcome(vs, rolls, i, slain).deliveries == goal.deliveries &&
      deaths + DrainOutcome(vs, rolls, i, slain).deaths == goal.deaths
    }

    /**
     * One iteration of the battle thread read as one step of DrainOutcome:
     * given how the front task looked when the drain began (`vs[i]`) and
     * whom the drain has killed so far (`slain`), what it prints, notifies
     * and kills is the head of the outcome of the rest of the drain.
     */
    method ResolveFront(d: Dice, ghost vs: seq<TaskView>, ghost rolls: seq<Dice>, ghost i: nat,
                        ghost living: set<NPC>, ghost slain: seq<NPC>, ghost goal: DrainLog)
      returns (ghost fallen: seq<NPC>)
      requires Valid() && queue != [] && i < |vs| <= |rolls| && rolls[i] == d
      requires vs[i].task == queue[0]
      requires Resolving(vs, rolls, i, living, slain, goal)
      modifies this`queue, this`reports, this`deliveries, this`processed, this`deaths, roster`alive
      ensures Valid() && queue == old(queue)[1..] && processed == old(processed) + [old(queue)[0]]
      ensures deaths == old(deaths) + fallen
      ensures Resolving(vs, rolls, i + 1, living, slain + fallen, goal)
    {
      ghost var rPrev, ePrev := reports, deliveries;
      ghost var t := queue[0];
      EngagesIffReaches(t.attacker, t.target);
      assert ReachedAsViewed(vs[i], living);
      ghost var engaged := Engages(t.attacker, t.target);
      assert engaged == (t.attacker !in slain && t.target !in slain && vs[i].engages);
      ghost var hr := if engaged then [KillReport(t.attacker.name, t.target.name)] else [];
      ghost var hd := if engaged then Round(vs[i].observers, t.attacker, t.target, d.attack > d.defence) else [];
      fallen := if engaged && d.attack > d.defence then [t.target] else [];
      ghost var next := DrainOutcome(vs, rolls, i + 1, slain + fallen);
      assert DrainOutcome(vs, rolls, i, slain) == DrainLog(hr + next.reports, hd + next.deliveries, fallen + next.deaths);
      ghost var dPrev := deaths;
      ProcessNext(d);
      AppendRegroup(rPrev, hr, next.reports);
      AppendRegroup(ePrev, hd, next.deliveries);
      AppendRegroup(dPrev, fallen, next.deaths);
    }

    /**
     * The battle thread's loop, run until the queue is empty: from a drain
     * that is `Resolving` with nothing resolved yet, it resolves every
     * task, and `slain` are the NPCs it kills.
     */
    method ResolveAll(rolls: seq<Dice>, ghost vs: seq<TaskView>, ghost living: set<NPC>, ghost goal: DrainLog)
      returns (ghost slain: seq<NPC>)
      requires Valid() && |vs| == |queue| && forall k :: 0 <= k < |vs| ==> vs[k].task == queue[k]
      requires Resolving(vs, rolls, 0, living, [], goal)
      modifies this`queue, this`reports, this`deliveries, this`processed, this`deaths, roster`alive
      ensures Valid() && queue == [] && processed == old(processed) + old(queue)
      ensures deaths == old(deaths) + slain && Resolving(vs, rolls, |vs|, living, slain, goal)
    {
      ghost var q0, d0 := queue, deaths;
      slain := [];
      assert d0 + slain == d0;
      var i := 0;
      while queue != []
        invariant 0 <= i <= |q0| && queue == q0[i..]
        invariant Valid()
        invariant processed == old(processed) + q0[..i]
        invariant deaths == d0 + slain
        invariant Resolving(vs, rolls, i, living, slain, goal)
        decreases |queue|
      {
        ghost var fallen := ResolveFront(rolls[i], vs, rolls, i, living, slain, goal);
        AppendRegroup(d0, slain, fallen);
        AppendRegroup(old(processed), q0[..i], [q0[i]]);
        TakeOneMore(q0, i);
        slain := slain + fallen;
        i := i + 1;
      }
    }

    /**
     * What a finished drain of the tasks viewed as `vs` has done, begun with
     * the logs `d0`, `p0`, `e0` and the NPCs in `living` alive: each log
     * has the outcome appended; the NPCs it killed are the newly logged
     * deaths, each of them killed once, and every other NPC of the roster
     * is as alive as it was.
     */
    lemma {:induction false} Drained(vs: seq<TaskView>, rolls: seq<Dice>, living: set<NPC>, slain: seq<NPC>,
                  d0: seq<NPC>, p0: seq<KillReport>, e0: seq<FightEvent>)
      requires |vs| <= |rolls|
      requires Resolving(vs, rolls, |vs|, living, slain,
                         DrainLog(p0 + DrainOutcome(vs, rolls, 0, []).reports,
                                  e0 + DrainOutcome(vs, rolls, 0, []).deliveries,
                                  d0 + DrainOutcome(vs, rolls, 0, []).deaths))
      requires deaths == d0 + slain
      requires forall n :: n in living ==> n in roster
      ensures reports == p0 + DrainOutcome(vs, rolls, 0, []).reports
      ensures deliveries == e0 + DrainOutcome(vs, rolls, 0, []).deliveries
      ensures deaths == d0 + DrainOutcome(vs, rolls, 0, []).deaths && deaths[|d0|..] == slain
      ensures |d0| <= |deaths| <= |d0| + |vs| && deaths[..|d0|] == d0
      ensures |p0| <= |reports| <= |p0| + |vs| && reports[..|p0|] == p0
      ensures |e0| <= |deliveries| && deliveries[..|e0|] == e0
      ensures |deaths| - |d0| <= |reports| - |p0|
      ensures forall n :: n in roster ==> (n.alive <==> n in living && n !in slain)
      ensures forall k :: |d0| <= k < |deaths| ==> deaths[k] in living && !deaths[k].alive
      ensures forall k, l :: |d0| <= k < l < |deaths| ==> deaths[k] != deaths[l]
    {
      var total := DrainOutcome(vs, rolls, 0, []);
      DrainOutcomeCounts(vs, rolls, 0, []);
      DrainOutcomeVictims(vs, rolls, 0, []);
      assert DrainOutcome(vs, rolls, |vs|, slain) == DrainLog([], [], []);
      assert slain == (d0 + slain)[|d0|..] == (d0 + total.deaths)[|d0|..];
      PrefixOfAppend(p0, total.reports);
      PrefixOfAppend(e0, total.deliveries);
      PrefixOfAppend(d0, total.deaths);
      forall k | |d0| <= k < |deaths|
        ensures deaths[k] in living && !deaths[k].alive
      {
        assert deaths[k] == slain[k - |d0|];
      }
    }

    /**
     * The battle thread run until the queue is empty, one set of rolls per
     * task: every task is taken exactly once, in queue order; fights only
     * ever kill; the NPCs that died are exactly the ones newly logged in
     * `deaths`, and none of them twice; earlier output is kept, and every
     * death comes with a kill line. What it prints, notifies and kills is
     * DrainOutcome of the queue as it stood, resolved front first with
     * rolls[k] for the k-th task.
     */
    method Drain(rolls: seq<Dice>)
      requires Valid() && |rolls| >= |queue|
      modifies this`queue, this`reports, this`deliveries, this`processed, this`deaths, roster`alive
      ensures Valid() && queue == []
      ensures processed == old(processed) + old(queue)
      ensures forall n :: n in roster && !old(n.alive) ==> !n.alive
      ensures |old(deaths)| <= |deaths| <= |old(deaths)| + |old(queue)|
      ensures deaths[..|old(deaths)|] == old(deaths)
      ensures forall n :: n in roster ==> (n.alive <==> old(n.alive) && n !in deaths[|old(deaths)|..])
      ensures forall k :: |old(deaths)| <= k < |deaths| ==>
                var d := deaths[k]; d in roster && !d.alive && old(d.alive)
      ensures forall k, l :: |old(deaths)| <= k < l < |deaths| ==> deaths[k] != deaths[l]
      ensures |old(reports)| <= |reports| <= |old(reports)| + |old(queue)|
      ensures reports[..|old(reports)|] == old(reports)
      ensures |old(deliveries)| <= |deliveries| && deliveries[..|old(deliveries)|] == old(deliveries)
      ensures |deaths| - |old(deaths)| <= |reports| - |old(reports)|
      ensures reports == old(reports) + DrainOutcome(old(Views(queue)), rolls, 0, []).reports
      ensures deliveries == old(deliveries) + DrainOutcome(old(Views(queue)), rolls, 0, []).deliveries
      ensures deaths == old(deaths) + DrainOutcome(old(Views(queue)), rolls, 0, []).deaths
    {
      ghost var vs := Views(queue);
      ghost var total := DrainOutcome(vs, rolls, 0, []);
      ghost var living := set n | n in roster && n.alive;
      forall k | 0 <= k < |vs|
        ensures ReachedAsViewed(vs[k], living) && vs[k].observers == vs[k].task.attacker.observers
      {
        EngagesIffReaches(queue[k].attacker, queue[k].target);
      }
      ghost var d0, p0, e0 := deaths, reports, deliveries;
      ghost var slain := ResolveAll(rolls, vs, living, DrainLog(p0 + total.reports, e0 + total.deliveries, d0 + total.deaths));
      Drained(vs, rolls, living, slain, d0, p0, e0);
    }

    /** The character printMap prints for the cell containing map position (x, y). */
    method MapCell(x: int, y: int) returns (c: char)
      ensures c == CellGlyph(roster, x, y)
    {
      c := '.';
      var i := 0;
      while i < |roster|
        invariant 0 <= i <= |roster|
        invariant CellGlyph(roster, x, y) == CellGlyph(roster[i..], x, y)
        invariant c == '.'
      {
        var npc := roster[i];
        if npc.alive && TruncDiv(npc.x, CellSize) == TruncDiv(x, CellSize) &&
           TruncDiv(npc.y, CellSize) == TruncDiv(y, CellSize) {
          var t := npc.GetType();
          if t == "Bear" {
            c := 'B';
          } else if t == "Duck" {
            c := 'D';
          } else if t == "Desman" {
            c := 'S';
          }
          break;
        }
        assert roster[i..][1..] == roster[i + 1..];
        i := i + 1;
      }
    }

    /** printMap's grid: one row per stride of 10 in y, one character per stride of 10 in x. */
    method Grid() returns (rows: seq<string>)
      ensures |rows| == MapSizeY / CellSize
      ensures forall r :: 0 <= r < |rows| ==> |rows[r]| == MapSizeX / CellSize
      ensures forall r, col :: 0 <= r < |rows| && 0 <= col < |rows[r]| ==>
                rows[r][col] == CellGlyph(roster, CellSize * col, CellSize * r)
    {
      rows := [];
      var y := 0;
      while y < MapSizeY
        invariant y == CellSize * |rows| <= MapSizeY
        invariant forall r :: 0 <= r < |rows| ==> |rows[r]| == MapSizeX / CellSize
        invariant forall r, col :: 0 <= r < |rows| && 0 <= col < |rows[r]| ==>
                    rows[r][col] == CellGlyph(roster, CellSize * col, CellSize * r)
      {
        var row := "";
        var x := 0;
        while x < MapSizeX
          invariant x == CellSize * |row| <= MapSizeX
          invariant forall col :: 0 <= col < |row| ==> row[col] == CellGlyph(roster, CellSize * col, y)
        {
          var c := MapCell(x, y);
          row := row + [c];
          x := x + CellSize;
        }
        rows := rows + [row];
        y := y + CellSize;
      }
    }

    /** The survivor filter after the game: the live NPCs in roster order. */
    method Survivors() returns (s: seq<NPC>)
      ensures s == AliveOnly(roster)
    {
      s := [];
      for i := 0 to |roster|
        invariant s == AliveOnly(roster[..i])
      {
        assert roster[..i + 1][..i] == roster[..i];
        if roster[i].alive {
          s := s + [roster[i]];
        }
      }
      assert roster[..|roster|] == roster;
    }
  }
}
