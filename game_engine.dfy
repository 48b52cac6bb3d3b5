/** The engine of src/backend/GameEngine.cpp: the tank, the envelope list,
    the collection statistics, the random supply and the pause-aware clock,
    updated in place by the engine's operations.

    The random supply is the abstract `generator` of EngineRules: `seed` is
    what the engine was seeded with and `draws` how many raw integers have
    been taken since. Clock readings are the `now` parameters. */
module GameEngines {
  import opened Wrappers
  import opened RedEnvelopes
  import opened EngineRules
  import Tanks

  class GameEngine {
    const config: GameConfig
    const tank: Tanks.Tank
    var envelopes: seq<RedEnvelope>
    var stats: CollectionStats
    const generator: Generator
    var seed: nat
    var draws: nat
    var startTime: Option<real>
    var nextEnvelopeId: nat
    var paused: bool
    var pausedAccumulated: real
    var pauseStart: Option<real>

    function ClockState(): Clock
      reads this
    {
      Clock(startTime, paused, pausedAccumulated, pauseStart)
    }

    /** The sweep of a move from (previousX, previousY) to where the tank is now. */
    function SweepFrom(previousX: real, previousY: real): Sweep
      reads this, tank
    {
      Sweep(tank.position, previousX, previousY, tank.exactX, tank.exactY)
    }

    ghost predicate Valid()
      reads this, tank
    {
      && ValidConfig(config)
      && tank.Valid()
      && InWorld(tank.position, config)
      && EnvelopesValid(envelopes, config, nextEnvelopeId)
      && (paused <==> pauseStart.Some?)
    }

    /** The constructor: the tank on the centre cell with step 1, the random
        supply seeded with `initialSeed` (std::random_device in the source),
        then `reset` at clock reading `now`. */
    constructor (gameConfig: GameConfig, randomSupply: Generator, initialSeed: nat, now: real)
      requires ValidConfig(gameConfig)
      ensures Valid()
      ensures config == gameConfig && generator == randomSupply && seed == initialSeed
      ensures fresh(tank)
      ensures tank.position == Center(config) && tank.moveStep == 1
      ensures tank.currentMomentum == 0.0 && tank.lastDirection == Tanks.None
      ensures tank.exactX == Center(config).x as real && tank.exactY == Center(config).y as real
      ensures |envelopes| == config.initialEnvelopeCount
      ensures PassStateOf() ==
        CollectFrom(generator, seed, config, SweepFrom(tank.exactX, tank.exactY),
                    SpawnAppend(SpawnerOf(generator, seed, config, Center(config)), PassState([], 0, 0, CollectionStats(0, 0)),
                                config.initialEnvelopeCount), 0)
      ensures ClockState() == Clock(Some(now), false, 0.0, None)
    {
      config := gameConfig;
      tank := new Tanks.Tank(Center(gameConfig), 1);
      generator := randomSupply;
      seed := initialSeed;
      draws := 0;
      envelopes := [];
      stats := CollectionStats(0, 0);
      startTime := None;
      nextEnvelopeId := 0;
      paused := false;
      pausedAccumulated := 0.0;
      pauseStart := None;
      new;
      ghost var _ := Reset(now);
      ResetOutcome(generator, seed, config, 0, SweepFrom(tank.exactX, tank.exactY));
    }

    /** `new GameEngine(config)`: the configuration errors the constructor
        throws, in order, or a freshly reset engine. */
    static method Create(gameConfig: GameConfig, randomSupply: Generator, initialSeed: nat, now: real)
      returns (r: Result<GameEngine, string>)
      ensures r.Failure? <==> !ValidConfig(gameConfig)
      ensures r.Failure? ==> CheckConfig(gameConfig) == Failure(r.error)
      ensures r.Success? ==> fresh(r.value) && r.value.Valid() && r.value.config == gameConfig
    {
      var checked := CheckConfig(gameConfig);
      if checked.Failure? {
        return Failure(checked.error);
      }
      var engine := new GameEngine(gameConfig, randomSupply, initialSeed, now);
      return Success(engine);
    }

    /** One raw integer from the supply, reduced into [lo, hi]. */
    method DrawUniform(lo: int, hi: int) returns (r: int)
      requires lo <= hi
      modifies this`draws
      ensures draws == old(draws) + 1
      ensures r == DrawValue(generator, seed, old(draws), lo, hi)
    {
      r := DrawValue(generator, seed, draws, lo, hi);
      draws := draws + 1;
    }

    /** setRandomSeed: the supply restarts from `newSeed`. */
    method SetRandomSeed(newSeed: nat)
      modifies this`seed, this`draws
      ensures seed == newSeed && draws == 0
    {
      seed := newSeed;
      draws := 0;
    }

    function ElapsedSeconds(now: real): real
      reads this
    {
      Elapsed(ClockState(), now)
    }

    predicate IsTimeUp(now: real)
      reads this
    {
      TimeUp(ClockState(), now, config.timeLimitSeconds)
    }

    method Pause(now: real)
      requires Valid()
      modifies this`paused, this`pauseStart
      ensures Valid()
      ensures ClockState() == PauseClock(old(ClockState()), now)
    {
      if paused {
        return;
      }
      paused := true;
      pauseStart := Some(now);
    }

    method Resume(now: real)
      requires Valid()
      modifies this`paused, this`pauseStart, this`pausedAccumulated
      ensures Valid()
      ensures ClockState() == ResumeClock(old(ClockState()), now)
    {
      if !paused {
        return;
      }
      if pauseStart.Some? {
        pausedAccumulated := pausedAccumulated + (now - pauseStart.value);
      }
      paused := false;
      pauseStart := None;
    }

    method TogglePause(now: real) returns (isPaused: bool)
      requires Valid()
      modifies this`paused, this`pauseStart, this`pausedAccumulated
      ensures Valid()
      ensures ClockState() == ToggleClock(old(ClockState()), now)
      ensures isPaused == paused == !old(paused)
    {
      if paused {
        Resume(now);
      } else {
        Pause(now);
      }
      isPaused := paused;
    }

    /** The conflict scan of createRandomEnvelope: is some envelope on `cell`? */
    method CellTaken(cell: Position) returns (conflict: bool)
      ensures conflict <==> OnSomeEnvelope(cell, envelopes)
    {
      conflict := false;
      var j := 0;
      while j < |envelopes| && !conflict
        invariant 0 <= j <= |envelopes|
        invariant !conflict ==> forall k :: 0 <= k < j ==> envelopes[k].position != cell
        invariant conflict ==> OnSomeEnvelope(cell, envelopes)
      {
        if envelopes[j].position == cell {
          conflict := true;
        }
        j := j + 1;
      }
    }

    /** One position from the two width and height distributions. */
    method DrawCell() returns (p: Position)
      requires ValidConfig(config)
      modifies this`draws
      ensures p == DrawPosition(generator, seed, old(draws), config)
      ensures draws == old(draws) + 2
    {
      var x := DrawUniform(0, config.worldWidth - 1);
      var y := DrawUniform(0, config.worldHeight - 1);
      p := Position(x, y);
    }

    /** The test of one attempt: outside the radius around the tank, then
        the conflict scan. */
    method SpotIsFree(p: Position, tankPos: Position, radius: int) returns (free: bool)
      ensures free <==> FreeSpot(p, tankPos, radius, envelopes)
    {
      var dxTank := p.x - tankPos.x;
      var dyTank := p.y - tankPos.y;
      if dxTank * dxTank + dyTank * dyTank <= radius * radius {
        return false;
      }
      var conflict := CellTaken(p);
      free := !conflict;
    }

    /** Attempt k of a placement whose first draw was `first`: the drawn
        position, and whether it is free, which ends the loop there. */
    method TryAttempt(ghost first: nat, k: nat, tankPos: Position, radius: int)
      returns (position: Position, free: bool)
      requires ValidConfig(config) && k < MaxAttempts && draws == first + 2 * k
      modifies this`draws
      ensures draws == first + 2 * k + 2
      ensures position == AttemptPosition(generator, seed, first, k, config)
      ensures free <==> FreeSpot(position, tankPos, radius, envelopes)
      ensures free ==> PlaceFrom(generator, seed, first, k, config, tankPos, radius, envelopes) == (position, draws)
      ensures !free ==>
        PlaceFrom(generator, seed, first, k, config, tankPos, radius, envelopes) ==
        PlaceFrom(generator, seed, first, k + 1, config, tankPos, radius, envelopes)
    {
      ghost var cursor := draws;
      position := DrawCell();
      AttemptIsDraw(generator, seed, first, k, config, cursor);
      free := SpotIsFree(position, tankPos, radius);
      PlaceFromStep(generator, seed, first, k, config, tankPos, radius, envelopes);
    }

    /** The placement loop of createRandomEnvelope for an envelope of the
        given size: up to 150 attempts, then a brand-new position. */
    method PlaceEnvelope(size: EnvelopeSize) returns (position: Position)
      requires ValidConfig(config)
      modifies this`draws
      ensures (position, draws) ==
        PlaceFrom(generator, seed, old(draws), 0, config, tank.position, RadiusForSize(size), envelopes)
    {
      var tankPos := tank.position;
      var radius := RadiusForSize(size);
      ghost var first := draws;
      ghost var target := PlaceFrom(generator, seed, first, 0, config, tankPos, radius, envelopes);
      position := tankPos;
      var found := false;
      var attempts: nat := 0;
      while attempts < MaxAttempts && !found
        invariant attempts <= MaxAttempts
        invariant !found ==> draws == first + 2 * attempts
        invariant !found ==> target == PlaceFrom(generator, seed, first, attempts, config, tankPos, radius, envelopes)
        invariant found ==> target == (position, draws)
        decreases MaxAttempts - attempts, if found then 0 else 1
      {
        var free;
        position, free := TryAttempt(first, attempts, tankPos, radius);
        if free {
          found := true;
        } else {
          attempts := attempts + 1;
        }
      }
      if !found {
        position := DrawFallback(first, tankPos, radius);
      }
    }

    /** After 150 failed attempts: one brand-new position, used as it is. */
    method DrawFallback(ghost first: nat, tankPos: Position, radius: int) returns (position: Position)
      requires ValidConfig(config) && draws == first + 2 * MaxAttempts
      modifies this`draws
      ensures (position, draws) == PlaceFrom(generator, seed, first, MaxAttempts, config, tankPos, radius, envelopes)
    {
      PlaceFromStep(generator, seed, first, MaxAttempts, config, tankPos, radius, envelopes);
      ghost var cursor := draws;
      position := DrawCell();
      AttemptIsDraw(generator, seed, first, MaxAttempts, config, cursor);
    }

    /** createRandomEnvelope(id): draws a size, a discarded initial position,
        the placement, then a value. Only the draw counter changes; the list
        is read as it stands, placeholder included. */
    method CreateRandomEnvelope(id: nat) returns (e: RedEnvelope)
      requires ValidConfig(config)
      modifies this`draws
      ensures (e, draws) == SpawnEnvelope(generator, seed, old(draws), config, tank.position, envelopes, id)
    {
      var sizeIndex := DrawUniform(0, 2);
      var size := SizeForIndex(sizeIndex);
      var discarded := DrawCell();
      var position := PlaceEnvelope(size);
      var value := DrawUniform(ValueLow(size), ValueHigh(size));
      e := RedEnvelope(id, size, value, position, RadiusForSize(size));
    }

    /** The part of the engine a collision pass or a spawn reads and writes. */
    function PassStateOf(): PassState
      reads this
    {
      PassState(envelopes, draws, nextEnvelopeId, stats)
    }

    /** respawnEnvelope(index): out-of-range indexes are ignored; otherwise
        the slot is parked at (-10, -10) and replaced by a new envelope with
        the next id, created against the parked list. */
    method RespawnEnvelope(index: nat)
      requires ValidConfig(config)
      modifies this`envelopes, this`nextEnvelopeId, this`draws
      ensures PassStateOf() == RespawnSlot(generator, seed, config, tank.position, old(PassStateOf()), index)
    {
      if index >= |envelopes| {
        return;
      }
      ghost var original := envelopes;
      envelopes := envelopes[index := envelopes[index].SetPosition(Position(-10, -10))];
      var id := nextEnvelopeId;
      nextEnvelopeId := nextEnvelopeId + 1;
      var e := CreateRandomEnvelope(id);
      envelopes := envelopes[index := e];
      assert envelopes == original[index := e];
    }

    /** handleCollisions(previousX, previousY): every envelope the tank rests
        on or swept across, checked on the list as it stands, is counted, its
        value added, and its slot respawned. */
    method HandleCollisions(previousX: real, previousY: real)
      requires Valid()
      modifies this`envelopes, this`nextEnvelopeId, this`draws, this`stats
      ensures Valid()
      ensures PassStateOf() == CollectFrom(generator, seed, config, SweepFrom(previousX, previousY), old(PassStateOf()), 0)
    {
      var s := SweepFrom(previousX, previousY);
      ghost var start := PassStateOf();
      ghost var target := CollectFrom(generator, seed, config, s, start, 0);
      var i := 0;
      while i < |envelopes|
        invariant 0 <= i <= |envelopes|
        invariant target == CollectFrom(generator, seed, config, s, PassStateOf(), i)
        decreases |envelopes| - i
      {
        CollectFromStep(generator, seed, config, s, PassStateOf(), i);
        var collidedAtPosition := Tanks.IsColliding(tank.position, envelopes[i]);
        var crossedDuringMove := IntersectsMovementPath(previousX, previousY, tank.exactX, tank.exactY, envelopes[i]);
        if collidedAtPosition || crossedDuringMove {
          stats := AddCollected(stats, envelopes[i].value);
          RespawnEnvelope(i);
        }
        i := i + 1;
      }
      CollectFromKeepsValid(generator, seed, config, s, start, 0);
    }

    /** moveTank: refused once time is up or while paused; otherwise the
        tank moves and the envelopes it reached are collected. */
    method MoveTank(direction: Tanks.MoveDirection, now: real) returns (moved: bool)
      requires Valid()
      modifies this, tank
      ensures Valid()
      ensures ClockState() == old(ClockState()) && seed == old(seed)
      ensures (TimeUp(old(ClockState()), now, config.timeLimitSeconds) || old(paused)) ==>
        !moved && unchanged(this, tank)
      ensures !(TimeUp(old(ClockState()), now, config.timeLimitSeconds) || old(paused)) ==>
        var step := Tanks.MoveSpec(old(tank.State()), direction, config.worldWidth, config.worldHeight);
        && tank.State() == step.0
        && moved == step.1
        && PassStateOf() ==
           CollectFrom(generator, seed, config, SweepFrom(old(tank.exactX), old(tank.exactY)), old(PassStateOf()), 0)
      ensures (tank.State(), PassStateOf()) ==
        MoveOutcome(generator, seed, config, old(ClockState()), old(tank.State()), old(PassStateOf()), direction, now)
    {
      if IsTimeUp(now) || paused {
        return false;
      }
      var previousX := tank.exactX;
      var previousY := tank.exactY;
      moved := tank.Move(direction, config.worldWidth, config.worldHeight);
      HandleCollisions(previousX, previousY);
    }

    /** spawnBonusEnvelopes(minCount, maxCount): the bounds are repaired
        (minCount at least 1, maxCount at least minCount), a count is drawn
        in them and that many new envelopes are appended, each created
        against the list as it stands. Nothing is collected. */
    method SpawnBonusEnvelopes(minCount: int, maxCount: int) returns (spawnCount: int)
      requires Valid()
      modifies this`envelopes, this`nextEnvelopeId, this`draws
      ensures Valid()
      ensures var lo := Tanks.MaxInt(1, minCount);
        spawnCount == DrawValue(generator, seed, old(draws), lo, Tanks.MaxInt(lo, maxCount))
      ensures spawnCount >= 1 &&
        PassStateOf() == SpawnAppend(SpawnerOf(generator, seed, config, tank.position),
                                     old(PassStateOf()).(cursor := old(draws) + 1), spawnCount)
    {
      var lo := minCount;
      if lo <= 0 {
        lo := 1;
      }
      var hi := maxCount;
      if hi < lo {
        hi := lo;
      }
      spawnCount := DrawUniform(lo, hi);
      ghost var start := PassStateOf();
      AppendNewEnvelopes(spawnCount);
      SpawnerOfWellFormed(generator, seed, config, tank.position);
      SpawnAppendKeepsValid(SpawnerOf(generator, seed, config, tank.position), config, start, spawnCount);
    }

    /** `count` rounds of `envelopes.emplace_back(createRandomEnvelope(nextEnvelopeId++))`. */
    method AppendNewEnvelopes(count: nat)
      requires ValidConfig(config)
      modifies this`envelopes, this`nextEnvelopeId, this`draws
      ensures PassStateOf() == SpawnAppend(SpawnerOf(generator, seed, config, tank.position), old(PassStateOf()), count)
    {
      ghost var start := PassStateOf();
      var i := 0;
      while i < count
        invariant 0 <= i <= count
        invariant PassStateOf() == SpawnAppend(SpawnerOf(generator, seed, config, tank.position), start, i)
      {
        AppendNewEnvelope(start, i);
        i := i + 1;
      }
    }

    /** Round `done + 1` of the loop above:
        `envelopes.emplace_back(createRandomEnvelope(nextEnvelopeId++))`. */
    method AppendNewEnvelope(ghost start: PassState, ghost done: nat)
      requires ValidConfig(config)
      requires PassStateOf() == SpawnAppend(SpawnerOf(generator, seed, config, tank.position), start, done)
      modifies this`envelopes, this`nextEnvelopeId, this`draws
      ensures PassStateOf() == SpawnAppend(SpawnerOf(generator, seed, config, tank.position), start, done + 1)
    {
      var id := nextEnvelopeId;
      nextEnvelopeId := nextEnvelopeId + 1;
      var e := CreateRandomEnvelope(id);
      envelopes := envelopes + [e];
    }

    /** reset(now): statistics cleared, the tank back on the centre cell at
        rest, ids restarted, initialEnvelopeCount envelopes created one after
        the other, the clock started at `now` and unpaused, and then the
        envelopes under the tank collected. `created` is the state after the
        envelopes are created, before that collection pass. */
    method Reset(now: real) returns (ghost created: PassState)
      requires ValidConfig(config) && tank.Valid()
      modifies this, tank
      ensures Valid()
      ensures tank.position == Center(config) && tank.currentMomentum == 0.0 && tank.lastDirection == Tanks.None
      ensures tank.exactX == Center(config).x as real && tank.exactY == Center(config).y as real
      ensures ClockState() == Clock(Some(now), false, 0.0, None)
      ensures seed == old(seed)
      ensures created == SpawnAppend(SpawnerOf(generator, seed, config, Center(config)),
                                     PassState([], old(draws), 0, CollectionStats(0, 0)), config.initialEnvelopeCount)
      ensures PassStateOf() == CollectFrom(generator, seed, config, SweepFrom(tank.exactX, tank.exactY), created, 0)
    {
      ClearRound();
      ghost var start := PassStateOf();
      AppendNewEnvelopes(config.initialEnvelopeCount);

      startTime := Some(now);
      ghost var clock := ClockState();
      assert clock == Clock(Some(now), false, 0.0, None);
      created := PassStateOf();
      SpawnerOfWellFormed(generator, seed, config, Center(config));
      SpawnAppendKeepsValid(SpawnerOf(generator, seed, config, Center(config)), config, start, config.initialEnvelopeCount);
      HandleCollisions(tank.exactX, tank.exactY);
      assert ClockState() == clock;
    }

    /** The first part of reset: statistics and list cleared, the tank back
        on the centre cell at rest, ids restarted and the clock unpaused. */
    method ClearRound()
      requires ValidConfig(config) && tank.Valid()
      modifies this`stats, this`envelopes, this`nextEnvelopeId, this`paused, this`pausedAccumulated, this`pauseStart, tank
      ensures tank.Valid() && tank.position == Center(config) && tank.currentMomentum == 0.0
      ensures tank.lastDirection == Tanks.None
      ensures tank.exactX == Center(config).x as real && tank.exactY == Center(config).y as real
      ensures PassStateOf() == PassState([], old(draws), 0, CollectionStats(0, 0))
      ensures !paused && pausedAccumulated == 0.0 && pauseStart.None?
    {
      stats := CollectionStats(0, 0);
      envelopes := [];
      tank.SetPosition(Center(config));
      nextEnvelopeId := 0;
      paused := false;
      pausedAccumulated := 0.0;
      pauseStart := None;
    }
  }
}
