# Tank red-envelope game: a Dafny model

This project models the core of a small C++ game server. In the game a tank
drives over a grid world and collects red envelopes, and a pause-aware clock
limits each round. Around the game the same program offers:

- code statistics over a workspace directory;
- an HTTP API for the game and for those statistics;
- a student attendance endpoint;
- a per-user layout store;
- a console front end;
- the start-up code that picks the port.

The model has one module per source file:

| module | source |
|---|---|
| `Tanks` | `Tank.cpp` |
| `RedEnvelopes` | `RedEnvelope.cpp` |
| `EngineRules` | the pure rules of `GameEngine.cpp` |
| `GameEngines` | the `GameEngine` class |
| `CodeStats` | `CodeStats.cpp` |
| `CodeStatsFacade` | `CodeStatsFacade.cpp` |
| `WebServer` | `WebServer.cpp` |
| `WebServerAttendance` | `WebServerAttendance.cpp` |
| `Attendance` | `Attendance.cpp` |
| `LayoutManagers` | `LayoutManager.cpp` |
| `ConsoleUI` | `ConsoleUI.cpp` |
| `ServerMain` | `main.cpp` |

Two more modules are support code. `Text` holds string search and decimal
text. `Wrappers` holds `Option` and `Result`.

## How the model is built

**Classes and values.** Objects whose fields the source updates in place
are classes:

- `Tank`;
- `GameEngine`;
- `CodeStatsResult`;
- the in-memory attendance repository;
- `LayoutManager`;
- `ConsoleUI`.

Each method states its new state, mostly as a spec function of the old
state; the one exception is listed under "## Left out". A red envelope is copied by value into
the engine's vector, so it is a datatype. Its `setPosition` returns the
moved value.

**Magnitudes are mathematical.** Doubles are modelled as exact reals and
ints as unbounded integers.

**Randomness comes from a generator.** The engine's Mersenne Twister is
replaced by a `Generator`: a function from a seed and a draw index to a raw
integer. The engine keeps that seed and a cursor counting the draws made so
far. Each `std::uniform_int_distribution` call consumes one draw. The model
clamps the raw value into the requested interval (`EngineRules.Uniform`).
That is exact for a supply that yields the distribution's outputs. Every
call site consumes as many draws as the source does:

- the size;
- the discarded first position;
- two per placement attempt;
- the fallback position;
- the value.

Each property of the engine therefore holds for every random supply.

**The clock comes in as parameters.** Time is a `now: real` parameter to
each operation that reads `steady_clock`. An unset `time_point{}` is
`None`. Where the source reads the clock twice in one request, the model
takes two readings: the /move handler's `isTimeUp` and the one inside
`moveTank`, and likewise the console's prompt and its move. Today's date and
the system clock's tick count are parameters too.

**The swept collision test avoids square roots.** The engine collides
along the whole movement segment. The model decides that test without
`sqrt`: it checks whether the quadratic `|start + t*(end-start) - c|^2 - r^2`
has a root in [0, 1]. `IntersectsMovementPathMeaning` proves this equal to
two facts together: some point of the segment is inside or on the circle,
and some point is outside or on it.

**Code outside the core is a parameter.** These become parameters of the
model:

- `decodeFormValue`;
- the code-statistics analysis and its JSON rendering;
- the attendance repository behind the web handler, given as whether one
  is configured and which records it accepts.

**The filesystem is an input.** The directory walk of `CodeStats` takes
the sequence of files it yields: each file's path, its name, whether it
lies under an excluded directory, and its lines, or `None` when the file
cannot be opened.

Where the source's own declarations disagree, the model follows the `.cpp`
file that defines the behaviour:

- The `CodeStats.hpp` header shown does not declare the members that
  `CodeStats.cpp` and `CodeStatsFacade.cpp` use. The model takes its
  fields from the `.cpp` files.
- `CodeStats.cpp` records C and C++ files under the key `"C/C++"`.
  `analyzeCppOnly` sums the keys `"C"` and `"C++"`, so over the analyzer's
  own output its aggregate is always empty. `CppAggregateOfWalk` proves
  this.
- The attendance handler reads the student id through `parseDirectory`,
  that is, through the `directory=` key. A form that sends `studentId=`
  is therefore refused with "Missing studentId".
  `StudentIdKeyIsDirectory` shows a concrete form body.

## Model

| member | source | states |
|---|---|---|
| `Tanks.Round` | src/backend/Tank.cpp:100-101 | std::round: the result is within 0.5 of x, and halfway cases go away from zero |
| `Tanks.RoundOfInteger` | src/backend/Tank.cpp:100-101 | rounding an integer-valued coordinate gives that integer back |
| `Tanks.RoundInRange` | src/backend/Tank.cpp:100-101 | a coordinate clamped into [0, hi] rounds to a cell in [0, hi] |
| `Tanks.NextMomentum` | src/backend/Tank.cpp:45-49 | the momentum stays in [0, max]; it never falls in the same direction and never rises on a turn; a turn with no momentum keeps 0 (the exact capped and decayed values are `SameDirectionBuildsMomentum` and `TurnDecaysMomentum`) |
| `Tanks.AxisMax` | src/backend/Tank.cpp:71-74 | the largest coordinate on an axis is width − 1 and never negative |
| `Tanks.ClampAxis` | src/backend/Tank.cpp:76-91 | a coordinate is clamped into [0, hi] and left alone when already inside |
| `Tanks.MoveSpec` | src/backend/Tank.cpp:38-105 | `move`: None stops the tank where it is; otherwise the tank moves by step + momentum along its own axis only, ends inside the world on the rounded cell, loses its momentum on touching a wall, and reports exactly whether the cell changed; step, increment, decay and max are kept |
| `Tanks.MoveKeepsOtherAxis` | src/backend/Tank.cpp:52-69 | a vertical move keeps x and a horizontal move keeps y |
| `Tanks.SameDirectionBuildsMomentum` | src/backend/Tank.cpp:45-46 | repeating a direction without touching a wall never lowers the momentum and adds the increment, capped at max |
| `Tanks.TurnDecaysMomentum` | src/backend/Tank.cpp:47-48 | a turn lowers the momentum by the decay, but not below 0 |
| `Tanks.CollidingWithoutRadius` | src/backend/Tank.cpp:115-124 | with no collection radius, a tank collides only on the envelope's own cell |
| `Tanks.CollidingAlongAxis` | src/backend/Tank.cpp:115-124 | along one axis, the tank collides exactly when it is within the radius of the envelope |
| `Tanks.Tank.constructor` | src/backend/Tank.cpp:11-20 | the tank starts on its cell with no momentum and no direction; the step is at least 1, and increment, decay and max are 0.45, 0.6 and 3.5 steps |
| `Tanks.Tank.Move` | src/backend/Tank.cpp:38-105 | the tank's new state and result are those of `MoveSpec` |
| `Tanks.Tank.Place` | src/backend/Tank.cpp:97-104 | the exact coordinates and the direction are stored, the cell is the rounded one, and the result says whether the cell changed |
| `Tanks.Tank.UpdateMomentum` | src/backend/Tank.cpp:45-49 | the momentum becomes `NextMomentum` |
| `Tanks.Tank.Candidate` | src/backend/Tank.cpp:50-69 | the unclamped target of a move |
| `Tanks.Tank.ClampCoordinate` | src/backend/Tank.cpp:71-91 | the clamped coordinate and whether clamping happened |
| `Tanks.Tank.SetPosition` | src/backend/Tank.cpp:107-113 | the tank is placed on the cell with integer exact coordinates, no momentum and no direction |
| `RedEnvelopes.RedEnvelope.SetPosition` | src/backend/RedEnvelope.cpp:39-41 | only the position changes; id, size, value and radius are kept |
| `RedEnvelopes.ConstructorGetters` | src/backend/RedEnvelope.cpp:8-37 | each getter returns what the constructor was given |
| `EngineRules.CheckConfig` | src/backend/GameEngine.cpp:64-72 | a configuration is accepted exactly when it is valid; otherwise the first failing check's message, in source order |
| `EngineRules.Center` | src/backend/GameEngine.cpp:82 | the centre cell lies inside the world |
| `EngineRules.SizeForIndex` | src/backend/GameEngine.cpp:15-26 | index 0 is small, 1 is medium, and anything else is large |
| `EngineRules.RadiusForSize` | src/backend/GameEngine.cpp:28-38 | the collection radius lies between 1 and 3 |
| `EngineRules.ValueBandsOrdered` | src/backend/GameEngine.cpp:40-56 | the value bands are non-empty, and every small envelope is worth less than every medium one, which is worth less than every large one |
| `EngineRules.Uniform` | src/backend/GameEngine.cpp:40-56 | a uniform draw lies in its closed interval |
| `EngineRules.RandomValueForSize` | src/backend/GameEngine.cpp:40-56 | a value always lies in its size's band |
| `EngineRules.DrawValue` | src/backend/GameEngine.cpp:150-165 | the k-th draw in [lo, hi] lies in [lo, hi] |
| `EngineRules.DrawPosition` | src/backend/GameEngine.cpp:201-205 | a drawn position lies inside the world |
| `EngineRules.AttemptPosition` | src/backend/GameEngine.cpp:209-210 | attempt k's position lies inside the world |
| `EngineRules.Search` | src/backend/GameEngine.cpp:209-231 | a found position lies inside the world and is free: not within the radius of the tank and not on an envelope |
| `EngineRules.SearchMeaning` | src/backend/GameEngine.cpp:209-231 | the search fails exactly when none of the 150 attempts is free, and a found position is one of the attempts |
| `EngineRules.PlaceFromLands` | src/backend/GameEngine.cpp:209-235 | the place lies in the world, the draws used are those of the attempts made, and a place that is not free is the fresh fallback draw after the 150 attempts |
| `EngineRules.PlaceFromMatchesSearch` | src/backend/GameEngine.cpp:209-235 | the place chosen is the first free attempt, or a new draw when none is free |
| `EngineRules.SpawnEnvelopeFacts` | src/backend/GameEngine.cpp:200-242 | a created envelope is well formed (size, value band, radius, inside the world) and carries its id; it uses between 6 and 306 draws |
| `EngineRules.SpawnAvoidsTankAndEnvelopes` | src/backend/GameEngine.cpp:209-235 | when any attempt was free, the new envelope is away from the tank and from every envelope; otherwise it is the fallback draw |
| `EngineRules.HasRootInUnitMeaning` | src/backend/GameEngine.cpp:293-304 | the root test holds exactly when the quadratic is ≤ 0 somewhere on [0, 1] and ≥ 0 somewhere on [0, 1] |
| `EngineRules.RootInUnitDetected` | src/backend/GameEngine.cpp:293-304 | a root inside [0, 1] is always found |
| `EngineRules.NegativeAtBothEndsMisses` | src/backend/GameEngine.cpp:293-304 | a quadratic negative at both ends is reported as having no root in [0, 1] |
| `EngineRules.PathQuadratic` | src/backend/GameEngine.cpp:289-295 | the squared distance from the moving point to the cell, less r², is the quadratic the code builds |
| `EngineRules.PathRootTestMeaning` | src/backend/GameEngine.cpp:288-304 | for a real move, the root test holds exactly when the segment has a point within r and a point at r or beyond |
| `EngineRules.IntersectsMovementPathMeaning` | src/backend/GameEngine.cpp:269-305 | no radius means no hit; a zero-length move is the point test; otherwise the segment reaches both inside and outside the circle |
| `EngineRules.SweptCatchesPassThrough` | src/backend/GameEngine.cpp:269-305 | a move that starts outside the radius and passes over the cell collects the envelope |
| `EngineRules.SweptMissesMoveInsideCircle` | src/backend/GameEngine.cpp:293-304 | a move that starts and ends strictly inside the circle is not counted as a hit |
| `EngineRules.HitCount` | src/backend/GameEngine.cpp:254-267 | no more envelopes are collected than there are |
| `EngineRules.HitCountExtremes` | src/backend/GameEngine.cpp:254-267 | none is collected exactly when no envelope is hit, and all exactly when every one is |
| `EngineRules.HitValueBounds` | src/backend/GameEngine.cpp:254-267 | the value gained lies between 5 and 120 per envelope collected |
| `EngineRules.HitCountPrefixIncreasing` | src/backend/GameEngine.cpp:254-267 | a collected envelope raises the count of every longer prefix |
| `EngineRules.CollisionIdsFresh` | src/backend/GameEngine.cpp:244-267 | collected slots get fresh ids, in slot order, and no two of them are equal |
| `EngineRules.RespawnSlot` | src/backend/GameEngine.cpp:244-252 | a respawn keeps the number of envelopes and the stats |
| `EngineRules.PassedOneMore` | src/backend/GameEngine.cpp:256-266 | the loop invariant of the collision pass holds one slot further |
| `EngineRules.CollectFromOutcome` | src/backend/GameEngine.cpp:256-266 | from any point of the loop, the pass ends in the collision outcome |
| `EngineRules.CollectionPass` | src/backend/GameEngine.cpp:254-267 | `handleCollisions`: the number of envelopes is kept; each collected slot holds a well-formed envelope with a fresh id, in slot order; the other slots are untouched; count and value grow by the hits |
| `EngineRules.RespawnKeepsValid` | src/backend/GameEngine.cpp:244-252 | a respawn keeps every envelope well formed, every id below the next id and all ids distinct |
| `EngineRules.CollectFromKeepsValid` | src/backend/GameEngine.cpp:254-267 | the collision pass keeps the envelope invariant |
| `EngineRules.SpawnerOfWellFormed` | src/backend/GameEngine.cpp:200-242 | the engine's envelope factory only makes well-formed envelopes with the id it is given |
| `EngineRules.SpawnAppendCounts` | src/backend/GameEngine.cpp:88-91 | appending n envelopes adds n envelopes and n ids and leaves the stats alone |
| `EngineRules.AppendFresh` | src/backend/GameEngine.cpp:88-91 | one more envelope extends a block of fresh, consecutive ids and keeps the front |
| `EngineRules.SpawnAppendKeepsFront` | src/backend/GameEngine.cpp:158-163 | appending never changes the envelopes already there |
| `EngineRules.SpawnAppendFresh` | src/backend/GameEngine.cpp:158-163 | the appended envelopes are well formed, with consecutive ids from the next id |
| `EngineRules.SpawnAppendKeepsValid` | src/backend/GameEngine.cpp:158-163 | appending keeps the envelope invariant |
| `EngineRules.SpawnAppendShape` | src/backend/GameEngine.cpp:158-162 | appending n envelopes grows the list by n at its end, keeps the front, numbers the new well-formed envelopes on from the next id, and keeps the statistics |
| `EngineRules.AppendValid` | src/backend/GameEngine.cpp:158-163 | an envelope with the next id keeps the invariant |
| `EngineRules.ResetOutcome` | src/backend/GameEngine.cpp:77-99 | a reset makes exactly the configured number of envelopes, with ids 0.., then runs one collision pass, and the result satisfies the invariant |
| `EngineRules.Elapsed` | src/backend/GameEngine.cpp:117-128 | elapsed time is never negative, is 0 before a start, and while running is now − start − paused time |
| `EngineRules.ElapsedFrozenWhilePaused` | src/backend/GameEngine.cpp:117-128 | while paused, elapsed time is frozen at its value when the pause began |
| `EngineRules.ElapsedMonotoneWhileRunning` | src/backend/GameEngine.cpp:117-128 | while running, elapsed time never goes down |
| `EngineRules.PauseClock` | src/backend/GameEngine.cpp:167-173 | pausing a running clock records now; pausing a paused clock changes nothing |
| `EngineRules.ResumeClock` | src/backend/GameEngine.cpp:175-185 | resuming adds the paused interval to the paused total; resuming a running clock changes nothing |
| `EngineRules.ToggleClock` | src/backend/GameEngine.cpp:187-194 | a toggle flips the paused flag |
| `EngineRules.PauseResumeIdempotent` | src/backend/GameEngine.cpp:167-185 | pausing twice is pausing once, and resuming twice is resuming once |
| `EngineRules.PausedIntervalExcluded` | src/backend/GameEngine.cpp:117-185 | a pause from t1 to t2 leaves out exactly t2 − t1 from the elapsed time |
| `EngineRules.TimeUpPersists` | src/backend/GameEngine.cpp:113-128 | once time is up on a running clock it stays up, and pausing does not undo it |
| `EngineRules.MoveOutcomeMeaning` | src/backend/GameEngine.cpp:101-111 | a refused move changes nothing; an accepted one moves the tank as `MoveSpec` says, keeps the number of envelopes, respawns exactly the reached ones with fresh ids and counts them and their values |
| `GameEngines.GameEngine.constructor` | src/backend/GameEngine.cpp:60-75 | a valid engine whose tank, of step 1, stands at rest on the centre cell with no direction and integer exact coordinates; the configured number of envelopes is created and then one collision pass runs; the clock starts running at `now` |
| `GameEngines.GameEngine.Create` | src/backend/GameEngine.cpp:64-72 | construction fails exactly on an invalid configuration, with the message of the first failing check |
| `GameEngines.GameEngine.DrawUniform` | src/backend/GameEngine.cpp:150-165 | one uniform draw: the value of the current draw, and the cursor moves on by one |
| `GameEngines.GameEngine.SetRandomSeed` | src/backend/GameEngine.cpp:146-148 | a reseed sets the seed and restarts the sequence |
| `GameEngines.GameEngine.Pause` | src/backend/GameEngine.cpp:167-173 | the clock becomes `PauseClock` of the old clock |
| `GameEngines.GameEngine.Resume` | src/backend/GameEngine.cpp:175-185 | the clock becomes `ResumeClock` of the old clock |
| `GameEngines.GameEngine.TogglePause` | src/backend/GameEngine.cpp:187-194 | the clock becomes `ToggleClock`, and the result is the new paused flag, the opposite of the old one |
| `GameEngines.GameEngine.CellTaken` | src/backend/GameEngine.cpp:218-225 | the conflict scan reports exactly whether an envelope stands on the cell |
| `GameEngines.GameEngine.DrawCell` | src/backend/GameEngine.cpp:210 | a position takes two draws, x then y |
| `GameEngines.GameEngine.SpotIsFree` | src/backend/GameEngine.cpp:211-227 | the loop body's test agrees with `FreeSpot` |
| `GameEngines.GameEngine.TryAttempt` | src/backend/GameEngine.cpp:209-231 | one attempt draws the k-th position; when it is free the loop ends there, otherwise the search goes on |
| `GameEngines.GameEngine.PlaceEnvelope` | src/backend/GameEngine.cpp:209-235 | the position chosen and the draws used by the attempts and the fallback |
| `GameEngines.GameEngine.DrawFallback` | src/backend/GameEngine.cpp:233-235 | after the 150 attempts a new position is drawn |
| `GameEngines.GameEngine.CreateRandomEnvelope` | src/backend/GameEngine.cpp:200-242 | the envelope made and the draws used are those of `SpawnEnvelope` |
| `GameEngines.GameEngine.RespawnEnvelope` | src/backend/GameEngine.cpp:244-252 | the slot gets a new envelope with the next id, as `RespawnSlot` says |
| `GameEngines.GameEngine.HandleCollisions` | src/backend/GameEngine.cpp:254-267 | the pass over the envelopes is `CollectFrom` from slot 0, and the engine invariant is kept |
| `GameEngines.GameEngine.MoveTank` | src/backend/GameEngine.cpp:101-111 | when time is up or the game is paused nothing changes and the result is false; otherwise the tank moves as `MoveSpec` says and one collision pass runs over the path travelled; the new tank and envelopes are `MoveOutcome`; the clock never changes |
| `GameEngines.GameEngine.SpawnBonusEnvelopes` | src/backend/GameEngine.cpp:150-165 | the count is one draw in [max(1, min), max(that, max)], and that many new envelopes are appended |
| `GameEngines.GameEngine.AppendNewEnvelopes` | src/backend/GameEngine.cpp:158-163 | count new envelopes are appended, as `SpawnAppend` says |
| `GameEngines.GameEngine.AppendNewEnvelope` | src/backend/GameEngine.cpp:158-163 | one more envelope is appended |
| `GameEngines.GameEngine.Reset` | src/backend/GameEngine.cpp:77-99 | the tank is at the centre with no momentum and no direction, a fresh running clock starts at now, the configured number of envelopes is created and then one collision pass runs; the seed is kept |
| `GameEngines.GameEngine.ClearRound` | src/backend/GameEngine.cpp:79-86 | stats, envelopes, next id and pause state are cleared and the tank is placed at the centre with no momentum and no direction |
| `CodeStats.Trim` | src/backend/CodeStats.cpp:21-31 | `trim` gives `Trimmed` of its input |
| `CodeStats.TrimmedShape` | src/backend/CodeStats.cpp:21-31 | the trimmed text is a contiguous slice, with only white space outside it, and it neither starts nor ends with white space |
| `CodeStats.TrimmedIdempotent` | src/backend/CodeStats.cpp:21-31 | trimming twice is trimming once |
| `CodeStats.BlankIffAllSpace` | src/backend/CodeStats.cpp:171-178 | a line is blank exactly when all of it is white space |
| `CodeStats.IndentMeaning` | src/backend/CodeStats.cpp:33-39 | the indentation counts the leading ' ' characters only, and the next character is not ' ' |
| `CodeStats.LeadingSpaces` | src/backend/CodeStats.cpp:33-39 | `leadingSpaces` gives `Indent` of its line |
| `CodeStats.LastDot` | src/backend/CodeStats.cpp:16-19 | the last '.' before n, or None when there is none |
| `CodeStats.ExtensionShape` | src/backend/CodeStats.cpp:16-19 | an extension is empty or a dot-led suffix of the name with no further dot, shorter than the name |
| `CodeStats.LanguageOfMeaning` | src/backend/CodeStats.cpp:135-153 | .java is Java, the C/C++ extensions are "C/C++", .py is Python, and every other file is ignored |
| `CodeStats.LogicalLinesAppend` | src/backend/CodeStats.cpp:171-178 | the line count of two parts adds up |
| `CodeStats.LogicalLinesBounds` | src/backend/CodeStats.cpp:171-178 | a file has at most as many logical lines as lines; 0 exactly when all its lines are blank and all exactly when none is |
| `CodeStats.CountLogicalLines` | src/backend/CodeStats.cpp:165-179 | `countLogicalLines` counts the non-blank lines, and an unopenable file counts 0 |
| `CodeStats.BodyEndMeaning` | src/backend/CodeStats.cpp:199-208 | a def's body runs to the first non-blank, non-comment line that is not indented deeper than the def, or to the end of the file |
| `CodeStats.BodyLengthCountsBody` | src/backend/CodeStats.cpp:198-208 | the body length counts the non-blank lines of the body |
| `CodeStats.CommentsNeverEndBody` | src/backend/CodeStats.cpp:202-204 | a comment line never ends a body, whatever its indentation |
| `CodeStats.BodyLengthBound` | src/backend/CodeStats.cpp:199-208 | a body is no longer than the rest of the file |
| `CodeStats.DefLengthsUpToMeaning` | src/backend/CodeStats.cpp:194-213 | the lengths recorded from the first n lines are one per def line, in order |
| `CodeStats.PythonDefLengthsMeaning` | src/backend/CodeStats.cpp:194-213 | one length per line whose trimmed text starts with "def ", in line order, each between 1 and the lines left in the file |
| `CodeStats.MeasureDef` | src/backend/CodeStats.cpp:196-208 | the loop over a def's body gives `DefLength` |
| `CodeStats.Insert` | src/backend/CodeStats.cpp:113 | inserting adds one element |
| `CodeStats.SortLengths` | src/backend/CodeStats.cpp:113 | sorting keeps the length |
| `CodeStats.InsertPermutes` | src/backend/CodeStats.cpp:113 | inserting adds exactly x to the multiset |
| `CodeStats.InsertSorted` | src/backend/CodeStats.cpp:113 | inserting into a sorted sequence keeps it sorted |
| `CodeStats.SortLengthsCorrect` | src/backend/CodeStats.cpp:113 | std::sort gives a sorted permutation of the lengths |
| `CodeStats.SumBounds` | src/backend/CodeStats.cpp:117-119 | a sum of n values in [lo, hi] lies in [lo·n, hi·n] |
| `CodeStats.MedianBetween` | src/backend/CodeStats.cpp:121-128 | the median of a sorted sequence lies between its ends |
| `CodeStats.QuotientBetween` | src/backend/CodeStats.cpp:117-119 | a total in [lo·n, hi·n] divided by n lies in [lo, hi] |
| `CodeStats.AverageBetween` | src/backend/CodeStats.cpp:117-119 | the average of a sorted sequence lies between its ends |
| `CodeStats.SortedEnds` | src/backend/CodeStats.cpp:113-116 | the ends of a sorted permutation are in the original and bound every element of it |
| `CodeStats.FinalizedMeaning` | src/backend/CodeStats.cpp:110-129 | with at least one length: the count is the number of lengths, which are sorted and a permutation of those recorded; min and max are among them and bound every one; median and average lie between min and max; details are kept |
| `CodeStats.IsSubDirMeaning` | src/backend/CodeStats.cpp:76-82 | a directory lies in the workspace exactly when it is the workspace or starts with the workspace followed by the separator |
| `CodeStats.WalkIgnoresExcluded` | src/backend/CodeStats.cpp:98-101 | files under an excluded directory change nothing |
| `CodeStats.VisitKeepsTotals` | src/backend/CodeStats.cpp:134-163 | a visit only adds keys among the three languages, and adds the file's logical lines to the total exactly when its language is known |
| `CodeStats.CodeStatsResult.constructor` | src/backend/CodeStats.cpp:51-53 | an empty result with both `withinWorkspace` and `directoryExists` set |
| `CodeStats.AnalyzePythonFile` | src/backend/CodeStats.cpp:181-214 | the recorded lengths are extended by one length per def of the file, and an unopenable file adds none |
| `CodeStats.VisitFile` | src/backend/CodeStats.cpp:134-163 | the summaries are updated as `VisitSummaries` says, and a Python file's def lengths are added |
| `CodeStats.ChargeLines` | src/backend/CodeStats.cpp:143-158 | a file of a known language adds one file and its logical lines to its language and to the total |
| `CodeStats.Walk` | src/backend/CodeStats.cpp:89-108 | the summaries and lengths after the walk are those of the visible files, in order |
| `CodeStats.FinalizePython` | src/backend/CodeStats.cpp:110-129 | the Python summary becomes `Finalized` of the old one |
| `CodeStats.Analyze` | src/backend/CodeStats.cpp:51-132 | no workspace: outside, not found, untouched; a requested path that cannot be canonicalised: inside, not found, untouched; outside the workspace: refused, untouched; otherwise the walk's summaries and the finalized Python lengths |
| `CodeStatsFacade.FindSummaryForKey` | src/backend/CodeStatsFacade.cpp:17-24 | the summary under the key, or an empty one |
| `CodeStatsFacade.ToLanguageStatsC` | src/backend/CodeStatsFacade.cpp:26-31 | the C view copies the file and line counts |
| `CodeStatsFacade.Accumulate` | src/backend/CodeStatsFacade.cpp:45-53 | the four counters are added and the function summary is kept |
| `CodeStatsFacade.AnalyzeCppOnly` | src/backend/CodeStatsFacade.cpp:42-57 | the C/C++ aggregate is `CppAggregate` of the summaries |
| `CodeStatsFacade.CppAggregateMeaning` | src/backend/CodeStatsFacade.cpp:42-57 | the aggregate sums the C and C++ entries, has no functions, and is empty when only the analyzer's three keys occur |
| `CodeStatsFacade.CppAggregateOfWalk` | src/backend/CodeStatsFacade.cpp:42-57 | over any walk of the analyzer the C/C++ aggregate is empty |
| `CodeStatsFacade.WalkKeys` | src/backend/CodeStats.cpp:143-153 | the analyzer only writes the keys Java, C/C++ and Python |
| `CodeStatsFacade.AnalyzeJavaOnly` | src/backend/CodeStatsFacade.cpp:59-62 | the Java summary, or an empty one |
| `CodeStatsFacade.AnalyzeJavaFromContext` | src/backend/CodeStatsFacade.cpp:64-68 | the context variant returns an empty summary whatever the root |
| `CodeStatsFacade.SelectMeaning` | src/backend/CodeStatsFacade.cpp:70-99 | there is no choice exactly when there are no details; otherwise the choice is a detail no other beats, and the first such, since later ties lose |
| `CodeStatsFacade.FindExtreme` | src/backend/CodeStatsFacade.cpp:71-79 | the scan over every language's details gives `Select` of them all, in order |
| `CodeStatsFacade.PrintExtremeFunction` | src/backend/CodeStatsFacade.cpp:70-108 | nothing is printed exactly when there are no details; otherwise the description of the first longest, or shortest, function |
| `ConsoleUI.ToUpper` | src/frontend/ConsoleUI.cpp:38 | only 'a'..'z' change, each to its capital |
| `ConsoleUI.ParseCommandMeaning` | src/frontend/ConsoleUI.cpp:108-121 | only W, A, S and D move; each key gives its own direction, in either case |
| `ConsoleUI.CommandOf` | src/frontend/ConsoleUI.cpp:31-48 | an empty line is skipped, Q in either case quits, and a move key gives its direction |
| `ConsoleUI.EnvelopeCellMeaning` | src/frontend/ConsoleUI.cpp:70-88 | a cell shows a size symbol only where an envelope of that size stands, and '.' where none stands |
| `ConsoleUI.Render` | src/frontend/ConsoleUI.cpp:65-93 | a height × width grid whose each cell shows the tank, else the last envelope drawn there, else '.'; envelopes off the map are skipped |
| `ConsoleUI.TimeLeft` | src/frontend/ConsoleUI.cpp:95-96 | the time left is never negative, never above the limit, and positive exactly while time remains |
| `ConsoleUI.ConsolePlayMeaning` | src/frontend/ConsoleUI.cpp:18-53 | a console session keeps the number of envelopes and never lowers the collected count; while paused, or with no move line, nothing changes |
| `ConsoleUI.ConsoleUI.constructor` | src/frontend/ConsoleUI.cpp:16 | the console keeps the engine it is given |
| `ConsoleUI.ConsoleUI.RenderEngine` | src/frontend/ConsoleUI.cpp:65-106 | the engine's map, in which the tank's 'T' is always drawn |
| `ConsoleUI.ConsoleUI.Run` | src/frontend/ConsoleUI.cpp:18-53 | the loop stops at the first prompt where time is up, at the first Q line, or at the end of input; the tank and the envelopes end as `ConsolePlay` of the lines read, with a second clock reading for each `moveTank`; the clock is untouched and the engine stays valid |
| `LayoutManagers.PreferencesIn` | src/frontend/LayoutManager.cpp:23-30 | the stored preferences, or the defaults for an unknown user |
| `LayoutManagers.SplitAtJoin` | src/frontend/LayoutManager.cpp:32-37 | text with no separator, joined to the rest by one, splits back into the two |
| `LayoutManagers.AfterKeyJoin` | src/frontend/LayoutManager.cpp:32-37 | a key-led text gives back what follows the key |
| `LayoutManagers.FlagRoundTrip` | src/frontend/LayoutManager.cpp:35-36 | the compact flag reads back as the one written |
| `LayoutManagers.ThemeRoundTrip` | src/frontend/LayoutManager.cpp:34-36 | a theme with no ';' reads back, followed by its flag |
| `LayoutManagers.ExportRoundTrip` | src/frontend/LayoutManager.cpp:32-37 | the exported text reads back as the preferences exported, when preset and theme hold no ';' |
| `LayoutManagers.ExportOfUnknownUser` | src/frontend/LayoutManager.cpp:23-37 | an unknown user exports the default text |
| `LayoutManagers.LayoutManager.constructor` | src/frontend/LayoutManager.cpp:9 | a new manager stores nothing |
| `LayoutManagers.LayoutManager.Initialize` | src/frontend/LayoutManager.cpp:13-15 | initializing changes nothing |
| `LayoutManagers.LayoutManager.ApplyPreferences` | src/frontend/LayoutManager.cpp:17-21 | the user's entry is replaced or added and every other user's stays |
| `LayoutManagers.LayoutManager.ExportPreferences` | src/frontend/LayoutManager.cpp:32-37 | the exported text reads back as the user's preferences, when they hold no ';' |
| `LayoutManagers.LayoutManager.Persist` | src/frontend/LayoutManager.cpp:39-41 | persisting changes nothing |
| `Attendance.StatusRoundTrip` | src/backend/Attendance.cpp:64-87 | a status survives being written and read back; a word survives being read and written back exactly when it is one of present, absent and leave; every other word reads as present |
| `Attendance.FirstWithIdMeaning` | src/backend/Attendance.cpp:39-48 | no student is found exactly when none has the id; otherwise the first one that has it |
| `Attendance.InMemoryAttendanceRepository.constructor` | src/backend/Attendance.cpp:27-32 | the two sample students and no records |
| `Attendance.InMemoryAttendanceRepository.ListStudents` | src/backend/Attendance.cpp:34-37 | the students, in order |
| `Attendance.InMemoryAttendanceRepository.FindStudentById` | src/backend/Attendance.cpp:39-48 | the first student with the id, or none |
| `Attendance.InMemoryAttendanceRepository.MarkAttendance` | src/backend/Attendance.cpp:50-54 | the record is appended and the call succeeds |
| `Attendance.SampleStudentsFound` | src/backend/Attendance.cpp:27-48 | on the starting list a lookup finds a student exactly for the two sample ids, and it is the student with that id |
| `WebServer.CharAbsent` | src/frontend/WebServer.cpp:452-466 | a text lacking one character of a pattern does not contain the pattern |
| `WebServer.ParseDirectionWord` | src/frontend/WebServer.cpp:452-466 | each direction's word parses back to that direction |
| `WebServer.ParseAction` | src/frontend/WebServer.cpp:468-479 | the action is resume, pause or toggle |
| `WebServer.ParseActionIdempotent` | src/frontend/WebServer.cpp:468-479 | parsing an action's own word gives it back |
| `WebServer.HexDigitValue` | src/frontend/WebServer.cpp:491-499 | a hex digit's value is below 16 |
| `WebServer.HexRun` | src/frontend/WebServer.cpp:491-499 | the run of hex digits from i reaches the first non-hex character |
| `WebServer.CString` | src/frontend/WebServer.cpp:491-499 | the text as C sees it: up to the first NUL |
| `Text.WhitespaceRun` | src/frontend/WebServer.cpp:491-499 | the isspace run that std::strtol and std::stoi skip: all white space, inside the text, and followed by a non-space or the end |
| `WebServer.Strtol16` | src/frontend/WebServer.cpp:491-499 | strtol's end position lies inside the text |
| `WebServer.DecodeStep` | src/frontend/WebServer.cpp:488-506 | each step of the decode loop consumes at least one character and stays inside the text |
| `WebServer.DecodeOne` | src/frontend/WebServer.cpp:490-505 | one loop iteration gives `DecodeStep` |
| `WebServer.DecodeFormText` | src/frontend/WebServer.cpp:488-506 | the decode loop gives `DecodeValue` of the raw text |
| `WebServer.DirectoryValue` | src/frontend/WebServer.cpp:481-487 | a body without `directory=` gives empty text |
| `WebServer.ParseDirectory` | src/frontend/WebServer.cpp:481-507 | `parseDirectory` gives `DirectoryValue` of the body |
| `WebServer.DecodeValueShorter` | src/frontend/WebServer.cpp:488-506 | decoding never lengthens the text |
| `WebServer.DecodeValuePlain` | src/frontend/WebServer.cpp:488-506 | text without '%' or '+' decodes to itself |
| `WebServer.HexDigitChar` | src/frontend/WebServer.cpp:491-499 | the digit written for d reads back as d |
| `WebServer.EscapeDecodes` | src/frontend/WebServer.cpp:491-499 | the %XY escape of a byte decodes back to that byte |
| `WebServer.DecodeValueOfEncoding` | src/frontend/WebServer.cpp:488-506 | percent-encoding then decoding gives the text back |
| `WebServer.DirectoryValueRoundTrip` | src/frontend/WebServer.cpp:481-507 | a percent-encoded directory value reads back as itself |
| `WebServer.ResponseFraming` | src/frontend/WebServer.cpp:217-231 | a response starts with its status line, its head ends with an empty line, the body follows the head unchanged, and Content-Length reads back as the body's length |
| `WebServer.ReasonPhrase` | src/frontend/WebServer.cpp:211-214 | 200 is OK, 400 is Bad Request, and anything else is Error |
| `WebServer.MoveReplyMeaning` | src/frontend/WebServer.cpp:270-273 | two move replies are equal exactly when they report the same time-up flag and the same moved-and-not-timed-out flag |
| `WebServer.HandleMove` | src/frontend/WebServer.cpp:255-274 | time up at the handler's reading, or no direction: nothing moves; otherwise `moveTank` runs at its own second reading and either refuses (time up or paused) or leaves the tank as `MoveSpec` says and the envelopes after one collision pass along the path; the clock is untouched and the reply reports the outcome |
| `WebServer.PauseActionMeaning` | src/frontend/WebServer.cpp:301-320 | pause sets the paused flag, resume clears it, and toggle flips it |
| `WebServer.HandlePause` | src/frontend/WebServer.cpp:301-320 | the clock follows the action and the reply reports the new paused flag |
| `WebServer.HandleRain` | src/frontend/WebServer.cpp:288-299 | `spawned` is one draw in [5, 10] and exactly that many well-formed envelopes with consecutive fresh ids are appended behind the unchanged list; the statistics and the clock are kept, and the reply reports the count |
| `WebServer.HandleReset` | src/frontend/WebServer.cpp:276-286 | the engine is reseeded from the clock ticks truncated to 32 bits and reset: the tank at the centre with no momentum and no direction, a fresh clock, and the envelopes of the new seed after one collision pass |
| `WebServer.CodeStatsRefusal` | src/frontend/WebServer.cpp:343-363 | a request outside the workspace is refused with 403, a missing directory with 404, and otherwise nothing is refused |
| `WebServer.CodeStatsTarget` | src/frontend/WebServer.cpp:343-363 | the directory named in the body, or "." when none is named |
| `WebServer.CodeStatsReply` | src/frontend/WebServer.cpp:343-363 | 200 with the rendered statistics exactly when the analyzer reports `withinWorkspace` and `directoryExists`; otherwise the refusal (403 before 404) |
| `WebServer.HandleCodeStats` | src/frontend/WebServer.cpp:343-363 | the handler gives `CodeStatsReply` |
| `WebServer.ApiRoute` | src/frontend/WebServer.cpp:248-368 | each of the five endpoints is chosen exactly by POST and its path, and everything else is unsupported |
| `WebServer.HandleApiRequest` | src/frontend/WebServer.cpp:248-368 | the game endpoints answer 200, code statistics answers its own status and leaves the engine alone, and anything else is a 404 JSON error that changes nothing |
| `WebServer.JoinItemsAppend` | src/frontend/WebServer.cpp:390-416 | joining two parts is joining each with a comma between |
| `WebServer.JoinItemsLength` | src/frontend/WebServer.cpp:390-416 | a join is as long as its items plus one comma between each two |
| `WebServer.EnvelopesArray` | src/frontend/WebServer.cpp:390-416 | the envelope array is the envelopes' objects, comma-separated, in brackets |
| `WebServer.JoinArray` | src/frontend/WebServer.cpp:390-416 | the loop gives the items comma-separated, in brackets |
| `WebServerAttendance.RawFieldMeaning` | src/frontend/WebServerAttendance.cpp:49-57 | a field is found exactly when its key occurs; its text follows the first occurrence, holds no '&' and ends at '&' or the end of the body |
| `WebServerAttendance.MarkDecisionMeaning` | src/frontend/WebServerAttendance.cpp:38-86 | the refusals, in order: no repository (500), no student id (400), no status (400), an unknown status (400); a submitted record has a non-empty id, the status word that was sent, and today's date when none is given |
| `WebServerAttendance.StudentIdKeyIsDirectory` | src/frontend/WebServerAttendance.cpp:43-47 | a body that sends `studentId=` is refused as missing its student id |
| `WebServerAttendance.HandleAttendanceMark` | src/frontend/WebServerAttendance.cpp:33-93 | a refusal hands nothing to the repository; a submitted record is handed over, and the reply is success when it is accepted and 500 when not |
| `WebServerAttendance.ReadField` | src/frontend/WebServerAttendance.cpp:54-57 | the find/substr pair gives `RawField` |
| `ServerMain.SanitizePort` | src/frontend/main.cpp:17-24 | the port is always in 1024..65535; a port inside is kept and one outside becomes 8080 |
| `ServerMain.SanitizePortIdempotent` | src/frontend/main.cpp:17-24 | sanitizing twice is sanitizing once |
| `ServerMain.DigitRun` | src/frontend/main.cpp:26-47 | the run of decimal digits from i |
| `ServerMain.Stoi` | src/frontend/main.cpp:26-47 | a value std::stoi accepts is an int |
| `ServerMain.StoiFrom` | src/frontend/main.cpp:26-47 | reading after the sign gives an int |
| `ServerMain.ReadDigits` | src/frontend/main.cpp:26-47 | the digits read form an int |
| `ServerMain.InIntRange` | src/frontend/main.cpp:26-47 | a value is kept exactly when it fits an int |
| `ServerMain.StoiRoundTrip` | src/frontend/main.cpp:26-47 | the decimal text of any int reads back as that int, and the empty text and a lone sign are refused |
| `ServerMain.StoiNegative` | src/frontend/main.cpp:26-47 | a negative int's text reads back |
| `ServerMain.StoiNonNegative` | src/frontend/main.cpp:26-47 | a non-negative int's text reads back |
| `ServerMain.DigitsRead` | src/frontend/main.cpp:26-47 | a text ending in a digit run reads that run |
| `ServerMain.EnvironmentPort` | src/frontend/main.cpp:29-36 | TANK_GAME_PORT when it reads as an int, otherwise 8080 |
| `ServerMain.ResolvePort` | src/frontend/main.cpp:26-47 | the port is always in 1024..65535; a first argument that reads as an int wins, then the environment, then 8080 |
| `ServerMain.CommandLineWins` | src/frontend/main.cpp:38-46 | a valid port given on the command line is the port used |
| `ServerMain.MainConfigValid` | src/frontend/main.cpp:55-59 | the configuration of `main` passes the engine's checks |
| `ServerMain.StartEngine` | src/frontend/main.cpp:55-65 | a valid engine with main's configuration, reseeded from the clock ticks and reset: the tank at rest at the centre with no direction, a fresh clock, and the envelopes of the new seed after one collision pass |
| `Text.Find` | src/frontend/WebServer.cpp:483-487 | std::string::find: the first match at or after `from`, or none |
| `Text.FindPrefix` | src/frontend/WebServer.cpp:483-487 | a text starting with the pattern finds it at 0 |
| `Text.ContainsExactly` | src/frontend/WebServer.cpp:452-466 | a text contains a pattern exactly when the pattern matches somewhere |
| `Text.DigitChar` | src/frontend/WebServer.cpp:370-418 | the digit written for d reads back as d |
| `Text.NatToDecimal` | src/frontend/WebServer.cpp:370-418 | decimal text has at least one digit, only digits, and no leading zero |
| `Text.IntToDecimal` | src/frontend/WebServer.cpp:370-418 | the text starts with '-' exactly when the number is negative |
| `Text.NatToDecimalRoundTrip` | src/frontend/WebServer.cpp:370-418 | decimal text reads back as its number |
| `Text.NatToDecimalInjective` | src/frontend/WebServer.cpp:370-418 | different numbers have different decimal texts |

## Left out

- Sockets, the accept loop and `handleClient`'s request reading are not modelled: they are I/O. `HandleApiRequest` starts from the verb, the path and the body.
- WebServer.HandleApiRequest: states the route, the status code and the clock after /pause, but not the engine's new state after /move, /reset and /rain; `HandleMove`, `HandleReset` and `HandleRain` state that.
- Threads and mutexes are not modelled: every operation is taken to run alone.
- The logger is not modelled.
- The MySQL repository and `createAttendanceRepository` are not modelled: they depend on the database.
- Filesystem canonicalisation and the order of `recursive_directory_iterator` are inputs: `Analyze` takes the optional canonical paths and the file sequence the walk yields. `analyze` never asks whether the directory exists. Its `directoryExists` flag is false only when `weakly_canonical` reports an error, and that is the only way to get the 404 "Directory does not exist.". A directory inside the workspace that is missing still canonicalises. The walk then yields no files, so the reply is 200 with zero counts.
- `steady_clock`, the date of `todayIsoDate` and `system_clock` ticks are parameters, so no clock is read.
- IEEE doubles are exact reals and `std::sqrt` is avoided, so rounding error is out of scope. `EngineRules.IntersectsMovementPath` is therefore the exact-arithmetic test.
- EngineRules.Uniform: models `std::uniform_int_distribution` by clamping a raw draw. The 50/35/15 size weights and the uniformity of each distribution are not modelled; only the range and the number of draws are.
- EngineRules.DrawValue: the draw is one raw value clamped into range, as for `Uniform`; the mt19937 output sequence is abstract.
- int overflow of the engine's arithmetic is not modelled: sums of values, envelope ids and squared distances are unbounded integers. The same holds for the median's `a + b` in `CodeStats.cpp`.
- The fixed-precision number output is not modelled.
- `buildStateJson` is modelled for its envelope array only (`EnvelopesArray`); its other fields are plain value prints.
- `buildCodeStatsJson` is the `render` parameter of `CodeStatsReply`.
- `loadStaticFile`, the static routes and `sendNotFound`/`sendBadRequest`/`sendInternalError` are not modelled: they read files or write only to the socket.
- The dead second `/pause` branch of `handleApiRequest` is not modelled on its own, since the first branch always answers first.
- The C-ABI wrappers of `CodeStatsFacade.cpp` are not modelled, and neither is what `printLongestFunction` and `printShortestFunction` write to `std::cout`: `PrintExtremeFunction` returns the text.
- ConsoleUI's printed messages (the banner, "time is up", the final score) are not modelled: only the grid of `render` and the loop's control flow are.
- ConsoleUI.Render: requires width and height that are not negative; the engine's configuration is always positive.
- `analyzeAll` with `CodeStatsOptions` (language filter, blank and comment counting) is not modelled: the walk always counts logical lines, as `visitFile` does.
- `std::sort` is modelled as an insertion sort; since sorting is unique up to equal values, the resulting sequence is the same.
- The RedEnvelope getters are plain field reads; `ConstructorGetters` states what they return.
- `decodeFormValue` is a parameter of the attendance handler; its own decoding is not part of this model.
- Tanks.Tank.Move: the source's `int` casts of rounded coordinates are taken as exact, since the clamp keeps them inside the world.
