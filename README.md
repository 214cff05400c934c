# NPC battle simulation, modelled in Dafny

This project models the battle simulation of the `oop-lab07` repository. NPCs come in three kinds: Bear, Duck and Desman. They wander a 100×100 map. Each NPC checks which other NPCs are within its kill radius, and the fights it starts are decided by dice. Observers are told of every fight. An NPC can be saved as a one-line text record and loaded back. The main program repeats two steps:

- a movement step: move every live NPC, then scan all pairs and queue the battle tasks it finds;
- a battle step: take tasks off the queue and fight them.

It prints a 10×10 map of which kind is in each cell, and it lists the survivors at the end.

The project has five modules.

- `Kinds`: the three kinds and what is fixed per kind.
  - the movement and kill radii (5/10, 50/10, 5/20);
  - the name `getType` returns;
  - the attack matrix of `fight`: a Bear attacks Ducks and Desmans, a Desman attacks Bears, a Duck attacks nobody;
  - the letter the map shows.
- `Geometry`: integer geometry.
  - clamping into the map;
  - the Euclidean range test, written as `dx*dx + dy*dy <= r*r`; for integer offsets and an integer radius this is the same test as `hypot(dx, dy) <= r`;
  - C++'s truncating integer division.
- `Serialization`: the text line `<Type> <name> <x> <y>\n`.
  - Reading follows the formatted extraction of a C++ input stream: skip white space, read a word or a signed decimal `int`, and check the value fits in a 32-bit `int`.
  - `NPC::load` is modelled with its three outcomes: null, the unknown-type error, or an NPC plus the unread input.
- `NpcSystem`: the `NPC` class and the `BattleVisitor` class.
  - `NPC` has the mutable fields `x`, `y`, `alive` and `observers`, and constant radii.
  - The three subclasses become one class with a constant kind tag and three named constructors.
  - `moveRandomly`, `kill`, `isInRangeForKill`, `is_close`, `subscribe`, `fight_notify`, the three `fight` overrides, `save`/`load`, and `BattleVisitor::visit` are modelled.
  - The random draws (offsets and dice rolls) are parameters. A roll has type `Roll`, the integers 1 to 6.
- `Engine`: the sequential skeleton of `main.cpp`, as a class `Simulation`.
  - It owns the global NPC vector (`roster`) and the battle queue (`queue`).
  - Two logs make output visible to the contracts: the printed kill lines (`reports`) and the observer notifications (`deliveries`).
  - Two ghost logs record every task taken off the queue and every actual death.
  - Its methods are the move pass, the pair scan, one battle-thread step, a full drain of the queue, the map cell and map grid of `printMap`, and the survivor filter.
  - Each method is proved against a specification function. The pair scan is specified by `Scan`, the map by `CellGlyph`, and the survivors by `AliveOnly`. Lemmas state what those functions mean.

The model follows the code, including one quirk. `Bear::fight` and `Desman::fight` return `true` even when the attacker loses the roll. So the visitor records a "kill" and the battle thread prints one, even though the target is still alive. `SurvivorReportedAsVictim` builds such a case.

Where the header and the code disagree, the code is followed:

- The visitor is built with one argument, as `main.cpp` does. The second argument `range` would be unused anyway.
- The observer list that `subscribe` and `fight_notify` use is a field of `NPC`. The header does not declare it.
- The fight outcome is the dice contest of the code. The test file expects a fixed outcome per pair of kinds, and that is not what the code does.

## Model

| member | source | states |
|---|---|---|
| Kinds.MoveDistanceOf | include/npc_system.hpp:46-64 | definition: the move radius the per-type constructors pass (Bear 5, Duck 50, Desman 5); the constructor contracts and `NPC.RadiiOfKind` state it per NPC |
| Kinds.KillDistanceOf | include/npc_system.hpp:46-64 | definition: the kill radius the per-type constructors pass (Bear 10, Duck 10, Desman 20); the constructor contracts and `InRangeIsAsymmetric` use it |
| Kinds.TypeName | include/npc_system.hpp:47-65 | `getType` returns a non-empty class name for every kind |
| Kinds.TypeNameInjective | src/npc_system.cpp:12-14 | two kinds have the same type name iff they are the same kind, so load's type token determines the kind |
| Kinds.Attacks | src/npc_system.cpp:80-138 | definition: the kind tests of the three `fight` overrides (lines 83, 109-111, 124); its properties are `AttacksIrreflexive`, `AttacksBothWays` and the contract of `NPC.Fight` |
| Kinds.AttacksIrreflexive | src/npc_system.cpp:80-138 | no kind attacks its own kind (Bear::fight on a Bear returns false), so a fight never targets the attacker's own kind |
| Kinds.AttacksBothWays | src/npc_system.cpp:80-138 | Bear/Desman is the only pair that attacks each other; a Duck attacks nobody |
| Kinds.Glyph | main.cpp:107-109 | the letter printed for an occupied cell is never the empty-cell marker '.' |
| Kinds.GlyphInjective | main.cpp:107-109 | the map shows the three kinds with three different letters |
| Geometry.Clamp | src/npc_system.cpp:28-29 | `max(0, min(v, size-1))` lies in `[0, size-1]` for `size >= 1`, and leaves an in-map value unchanged |
| Geometry.ClampNeverLengthens | src/npc_system.cpp:22-29 | from an in-map start, a clamped move is displaced by at most the offset drawn |
| Geometry.Within | src/npc_system.cpp:34-35 | definition: `hypot(dx, dy) <= radius` in exact integer arithmetic, as `SquaredLength(dx, dy) <= radius * radius`; its properties are `WithinSymmetric`, `WithinMonotone` and `NpcSystem.InRangeIsCloseAtOwnRadius` |
| Geometry.SquaredLength | src/npc_system.cpp:34 | definition: `dx*dx + dy*dy`, the square of the `hypot` the source computes; used only through `Within` |
| Geometry.WithinSymmetric | src/npc_system.cpp:34-35 | the distance test does not depend on the direction of the offset |
| Geometry.WithinMonotone | src/npc_system.cpp:34-35 | a larger radius accepts every offset that a smaller one accepts |
| Geometry.TruncDiv | main.cpp:106 | C++ `/` by a positive divisor truncates toward zero: the remainder `a - q*b` lies in `[0, b)` for `a >= 0` and in `(-b, 0]` for `a < 0` |
| Serialization.NatToString | src/npc_system.cpp:100 | the decimal digits written for a number read back as that number, with no leading zero |
| Serialization.IntToString | src/npc_system.cpp:100 | the written int starts with a minus sign or a digit |
| Serialization.SkipSpace | src/npc_system.cpp:9 | extraction skips exactly the leading white space: the dropped prefix is all white space, and what is left is empty or starts with a non-space |
| Serialization.ReadWord | src/npc_system.cpp:9 | a string extraction yields the whole next word: non-empty, free of white space, followed by white space or the end of input, and together with the rest it is the input after white space; it fails iff only white space is left |
| Serialization.ReadInt | src/npc_system.cpp:9 | an int extraction only ever yields a value in the 32-bit range; `ReadIntOf` gives the value of an in-range number and `ReadIntOutOfRange` the failure on an out-of-range one |
| Serialization.ParseSpecies | src/npc_system.cpp:12-15 | the token is accepted iff it is some kind's type name, and it is then that kind |
| Serialization.ParseSpeciesOfTypeName | src/npc_system.cpp:12-14 | load accepts exactly the names `getType` returns |
| Serialization.ReadIntOutOfRange | src/npc_system.cpp:9-10 | a written number outside the 32-bit range fails the int extraction (the stream's failbit) instead of being wrapped or clamped |
| Serialization.ReadIntOf | src/npc_system.cpp:9 | reading back a written in-range int gives that int and stops at the next non-digit |
| Serialization.LoadLine | src/npc_system.cpp:6-16 | a complete line loads as the kind its token names, or as the unknown-type error; the newline stays unread |
| Serialization.Save | src/npc_system.cpp:99-142 | definition: the line `<Type> <name> <x> <y>\n` the three `save` overrides write; `SaveLoadRoundTrip` states its meaning |
| Serialization.Load | src/npc_system.cpp:6-16 | definition: the four extractions, then the type dispatch; its properties are `LoadLine`, `SaveLoadRoundTrip`, `LoadRejectsUnknownType`, `LoadUnknownTypeIffNoClassName`, `LoadMissingYIsNull` and `LoadOutOfRangeIsNull` |
| Serialization.SaveLoadRoundTrip | src/npc_system.cpp:6-16 | load(save(n)) gives back kind, name, x and y when the name is one word and the coordinates fit an int |
| Serialization.LoadRejectsUnknownType | src/npc_system.cpp:15 | a complete line with a token that is no class name is the "Unknown NPC type" error naming that token |
| Serialization.ReadsComplete | src/npc_system.cpp:9-10 | definition: the four extractions (type word, name word, x, y) all succeed, each on the input the previous one left; used by `LoadUnknownTypeIffNoClassName` |
| Serialization.LoadUnknownTypeIffNoClassName | src/npc_system.cpp:9-15 | load is null iff one of the four extractions fails; it is the unknown-type error, naming the first word, iff all four succeed and that word is no class name; it is a loaded NPC iff all four succeed and the word is a class name |
| Serialization.LoadOutOfRangeIsNull | src/npc_system.cpp:9-10 | a line whose x or y does not fit an int loads as null, whatever its type token |
| Serialization.LoadMissingYIsNull | src/npc_system.cpp:9-10 | a line that ends after x loads as null, whatever its type token |
| NpcSystem.Round | src/npc_system.cpp:58-60 | definition: the calls one `fight_notify` round makes; `RoundShape` and `RoundAppend` state its properties, and `NPC.FightNotify` is proved equal to it |
| NpcSystem.RoundShape | src/npc_system.cpp:58-60 | a notification round has one event `(observer, self, defender, win)` per observer, in registration order |
| NpcSystem.RoundAppend | src/npc_system.cpp:50-60 | an observer subscribed last is notified last, after all earlier ones |
| NpcSystem.NPC.Bear | include/npc_system.hpp:46 | a new Bear is alive, at the given position, has no observers, and has move radius 5 and kill radius 10 |
| NpcSystem.NPC.Duck | include/npc_system.hpp:55 | a new Duck is alive, at the given position, has no observers, and has move radius 50 and kill radius 10 |
| NpcSystem.NPC.Desman | include/npc_system.hpp:64 | a new Desman is alive, at the given position, has no observers, and has move radius 5 and kill radius 20 |
| NpcSystem.NPC.GetType | include/npc_system.hpp:47-65 | the type name is the token load dispatches back to this NPC's kind |
| NpcSystem.NPC.IsInRangeForKill | src/npc_system.cpp:32-36 | definition: both alive and the other within this NPC's kill radius; its properties are `DeadIsNeverInRange`, `InRangeIsCloseAtOwnRadius`, `LongerReachSeesBack` and `InRangeIsAsymmetric` |
| NpcSystem.NPC.IsClose | src/npc_system.cpp:63-70 | definition: the squared distance is at most the squared `distance`, whoever is alive; `IsCloseSymmetric` and `InRangeIsCloseAtOwnRadius` state its properties |
| NpcSystem.NPC.Save | src/npc_system.cpp:99-142 | definition: the `save` overrides as `Serialization.Save` of this NPC's kind, name and position; `SaveLoadRoundTrip` states its meaning |
| NpcSystem.NPC.Kill | include/npc_system.hpp:33-34 | afterwards the NPC is dead, whatever it was before; nothing else changes |
| NpcSystem.NPC.MoveRandomly | src/npc_system.cpp:18-30 | a dead NPC stays put; a live one takes the clamped step, ends inside a non-empty map, and moves at most moveDistance per axis from an in-map start |
| NpcSystem.NPC.Subscribe | src/npc_system.cpp:50-53 | appends one observer and keeps the earlier ones in place |
| NpcSystem.NPC.FightNotify | src/npc_system.cpp:55-61 | one call per observer, in registration order, each reporting this NPC, the defender and the outcome |
| NpcSystem.NPC.Fight | src/npc_system.cpp:80-138 | returns true iff the target is non-null, alive and of a kind this one attacks; the target then dies iff attack > defence; the attacker never dies; one round with `win` = target killed, none otherwise |
| NpcSystem.NPC.Load | src/npc_system.cpp:6-16 | null on a failed read, the "Unknown NPC type: " error for an unknown token, otherwise a fresh live NPC of that kind and position with its kind's radii |
| NpcSystem.DeadIsNeverInRange | src/npc_system.cpp:32-33 | a dead NPC is never in range, as attacker or as target |
| NpcSystem.InRangeIsCloseAtOwnRadius | src/npc_system.cpp:32-36 | isInRangeForKill holds iff both are alive and the target is within the caller's own kill radius |
| NpcSystem.IsCloseSymmetric | src/npc_system.cpp:63-70 | is_close gives the same answer whichever NPC asks |
| NpcSystem.LongerReachSeesBack | src/npc_system.cpp:32-36 | if A has B in range and B's kill radius is at least A's, then B has A in range |
| NpcSystem.InRangeIsAsymmetric | src/npc_system.cpp:32-36 | a Desman 15 units from a Bear has the Bear in range, but the Bear does not have the Desman |
| NpcSystem.Engages | src/npc_system.cpp:145-147 | definition: the conditions under which `visit` reaches a `fight` that returns true; `BattleVisitor.Visit`, `DuckNeverEngages` and `Simulation.ProcessNext` are stated with it |
| NpcSystem.DuckNeverEngages | src/npc_system.cpp:109-111 | a Duck never gets to a fight, and no NPC fights itself |
| NpcSystem.BattleVisitor.constructor | include/npc_system.hpp:79-86 | a fresh visitor holds its attacker and has recorded no kill and no names |
| NpcSystem.BattleVisitor.Visit | src/npc_system.cpp:144-175 | if both are alive, in range and of attacking kinds, it records killer = attacker's name, victim = target's name and the kill flag, and the target dies iff attack > defence; otherwise nothing changes |
| NpcSystem.SurvivorReportedAsVictim | src/npc_system.cpp:87-93 | a Bear that loses its roll against a Duck still has the Duck recorded as its victim, and the Duck is alive |
| Engine.ScanFrom | main.cpp:48-61 | the scan from loop position (i, j) yields in-roster index pairs with attacker < target, none before (i, j) |
| Engine.TasksOf | main.cpp:53 | one task `(roster[i], roster[j])` per scanned index pair, in the same order |
| Engine.DeadRowIsSkipped | main.cpp:49 | the rest of a dead NPC's row of the scan adds no task |
| Engine.ScanFromSound | main.cpp:48-59 | every scanned pair is two live NPCs with the target in the attacker's kill range |
| Engine.ScanFromSorted | main.cpp:48-59 | the scanned pairs come in strictly increasing lexicographic (i, j) order |
| Engine.ScanFromComplete | main.cpp:48-59 | every qualifying pair at or after the loop position is scanned |
| Engine.ScanFromBound | main.cpp:48-53 | bounds the number of pairs still to be scanned from loop position (i, j) |
| Engine.Candidate | main.cpp:49-52 | definition: the three checks of the inner scan loop (both alive, target in the attacker's kill range); `ScanFromSound`, `ScanFromComplete` and `ScanExactlyCandidates` use it |
| Engine.Scan | main.cpp:48-61 | definition: the whole pair scan, `ScanFrom` from (0, 1); `ScanExactlyCandidates`, `ScanOneWay` and `ScanBound` state its meaning, and `Simulation.ScanTasks` is proved equal to it |
| Engine.ScanExactlyCandidates | main.cpp:48-59 | (i, j) is enqueued iff i < j < n, both are alive and roster[j] is in roster[i]'s kill range |
| Engine.ScanOneWay | main.cpp:48-59 | tasks are in lexicographic (i, j) order, and the reversed pair of an enqueued pair is never enqueued |
| Engine.ScanBound | main.cpp:48-53 | one scan yields at most n(n-1)/2 tasks |
| Engine.Occupies | main.cpp:106 | definition: the test of printMap's inner loop, with C++ truncating division (`TruncDiv`) for `/ 10` |
| Engine.CellGlyph | main.cpp:104-112 | definition: the character for a cell, taken from the first occupying NPC in roster order; `CellGlyphIsFirstOccupant` states its meaning, and `Simulation.MapCell` is proved equal to it |
| Engine.CellGlyphIsFirstOccupant | main.cpp:102-112 | a cell shows '.' iff no live NPC is in its 10×10 bucket, and otherwise the letter of the first live NPC in roster order that is |
| Engine.AliveOnly | main.cpp:174-178 | definition: the live NPCs of the roster, in order; `AliveOnlyIsTheLiving` and `AliveOnlyAppend` state its meaning, and `Simulation.Survivors` is proved equal to it |
| Engine.AliveOnlyIsTheLiving | main.cpp:174-178 | the survivors are exactly the live NPCs, without repeats and no more than the roster |
| Engine.AliveOnlyAppend | main.cpp:174-178 | the survivor filter keeps roster order: filtering a concatenation concatenates the filtered parts |
| Engine.Simulation.constructor | main.cpp:14-23 | the program starts with no NPCs, an empty queue and nothing printed |
| Engine.Simulation.AddNpc | main.cpp:144 | a new NPC is appended to the roster, and the roster stays duplicate-free |
| Engine.Simulation.MovePass | main.cpp:37-41 | every live NPC takes its clamped step and ends inside the map; dead NPCs keep their positions; the roster is unchanged |
| Engine.Simulation.ScanTasks | main.cpp:48-61 | the nested loops build exactly the task list of the pair scan specification |
| Engine.Simulation.ScanRow | main.cpp:49-60 | one outer iteration appends exactly row i's tasks: none for a dead `roster[i]` |
| Engine.Simulation.ScanForBattles | main.cpp:48-61 | the scan's tasks are pushed onto the back of the queue in scan order, and the queue refers only to roster NPCs |
| Engine.Simulation.Tick | main.cpp:35-62 | one movement-thread iteration: the move pass, then the scan of the moved roster |
| Engine.Simulation.ProcessNext | main.cpp:73-88 | pops the front task; a stale task changes no NPC and prints nothing; otherwise the visitor's fight decides the target's fate, notifies the attacker's observers, and prints a kill line iff the pair engaged; no other NPC changes |
| Engine.View | main.cpp:73-78 | definition: a queued task as the battle thread finds it when it starts: the task, whether its pair engages, and the attacker's observers |
| Engine.Views | main.cpp:73-75 | the queue seen task by task: one view per task, the k-th view being that of the k-th task |
| Engine.Reaches | src/npc_system.cpp:32-36 | definition: the part of `isInRangeForKill` and of the kind test that does not depend on liveness; `EngagesIffReaches` ties it to `Engages` |
| Engine.EngagesIffReaches | src/npc_system.cpp:144-147 | a pair engages iff both NPCs are alive and the attacker reaches the target, so during a drain only deaths change whether a queued pair fights |
| Engine.DrainOutcome | main.cpp:66-91 | definition: the battle loop as a function of the queue viewed at the start and one set of rolls per task; a task whose pair engaged at the start, and neither of whose NPCs has died since, prints a kill line and notifies the attacker's observers, and its target dies iff the attack roll beats the defence roll; its properties are `DrainOutcomeCounts`, `DrainOutcomeVictims` and the contract of `Simulation.Drain` |
| Engine.DrainOutcomeCounts | main.cpp:78-88 | each task prints at most one kill line, and every death comes with one |
| Engine.DrainOutcomeVictims | main.cpp:78-83 | a task only kills an NPC that has not died earlier in the drain, so no NPC dies twice |
| Engine.Simulation.ResolveFront | main.cpp:73-88 | one iteration of the battle loop is one step of `DrainOutcome`: what it prints, notifies and kills is the head of the outcome, and the rest of the outcome is what remains to be done |
| Engine.Simulation.ResolveAll | main.cpp:66-91 | the battle loop empties the queue in FIFO order, and what it has printed, notified and killed is the whole outcome of the queue |
| Engine.Simulation.Drained | main.cpp:66-91 | a finished drain has appended exactly the outcome to each log; the NPCs it killed are the newly logged deaths, each was alive before, is dead now and is logged once; every other roster NPC is as alive as before |
| Engine.Simulation.Drain | main.cpp:66-91 | every queued task is taken exactly once, in FIFO order; the kill lines, the notifications and the logged deaths it appends are exactly those of `DrainOutcome` over the queue as it stood, resolved front first with `rolls[k]` for the k-th task; a roster NPC is alive afterwards iff it was alive before and is not among the newly logged deaths; each new death was alive and is dead now, and none is logged twice; earlier kill lines and notifications are kept; at most one kill line per task, and at least as many kill lines as deaths |
| Engine.Simulation.MapCell | main.cpp:104-112 | the character printed for the cell at (x, y) is the cell specification |
| Engine.Simulation.Grid | main.cpp:102-116 | the map is 10 rows of 10 characters, where cell (row, col) shows the cell at (10·col, 10·row) |
| Engine.Simulation.Survivors | main.cpp:171-179 | the survivor list is the filter specification: the live NPCs in roster order |

## Left out

- Threads, `std::shared_mutex`/`std::mutex` locking, the per-NPC `mtx`, the condition variable, `gameRunning` and the shutdown handshake are not modelled. Each Simulation method is one uninterrupted run of a loop body, so interleavings between the movement and battle threads are not covered.
- The sleeps and the 30-second wall-clock loop of `main` are not modelled. The order of steps is left to the caller.
- `std::random_device`/`std::mt19937` are replaced by parameters. `rollDice` is the type `Roll` (1 to 6). The offsets of `moveRandomly` are bounded by the NPC's `moveDistance`.
- Floating-point `std::hypot`/`std::pow` are replaced by exact integer squares. For integer offsets this gives the same comparison. Rounding for offsets too large for a double to hold exactly is not modelled.
- Stream I/O is modelled over strings. Console printing is modelled as the `reports` log, and `NPC::print` and the printed map frame are not modelled.
- `TextObserver`/`FileObserver`, `ConsoleObserver` and file logging do not appear: observers are opaque identifiers. A fight notification round is recorded, not executed.
- `Dungeon` is declared but never defined, so it is not modelled.
- The random population setup in `main` (50 NPCs of random kinds and positions) is not modelled. `AddNpc` appends one given NPC.
- `shared_from_this`, `shared_ptr` lifetimes and the `accept` double dispatch are not modelled. `accept` only selects one of three identical `visit` overloads, so `Visit` is one method.
- `position()`, `getX`/`getY`/`getName`/`isAlive` and `wasKill`/`getKiller`/`getVictim` are plain field reads in the model.
- `BattleVisitor::distance` and the `range` argument are never used by the code, so they are not modelled.
- The null-pointer checks on queued tasks are not modelled: a task always holds two NPCs here. `Fight` and `Visit` do take nullable arguments and model their null checks.
- NpcSystem.NPC.MoveRandomly: does not model 32-bit overflow of `x + dx`, and `NpcSystem.NPC.IsInRangeForKill` does not model overflow of `x - other.x` or of the squares. This relies on NPCs being created inside the map, as `main` creates them (0 to 99, offsets at most 50). The constructors and `NPC.Load` accept any `int` position, and no invariant of the model restricts them; for positions near the `int` limits the source overflows and the model does not.
- Engine.Simulation.ScanForBattles: collects the scan's tasks and appends them to the queue in one step. The source pushes each task as it is found, but with no concurrent consumer the queue is the same.
- Engine.Simulation.Drain: proves that no NPC dies twice, not that no NPC is recorded as a victim twice. The second claim does not hold for this code. A target that wins its roll stays alive and is reported as a victim anyway, so a later task can report it again (see `SurvivorReportedAsVictim`).
