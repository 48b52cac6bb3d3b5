/** The console front end of src/frontend/ConsoleUI.cpp: the command
    reading of `run`, the map `render` draws and `parseCommand`.

    Standard input is the sequence of lines typed and the clock is one
    reading per prompt; what is printed is left out, except the map grid,
    which `Render` returns. */
module ConsoleUI {
  import opened RedEnvelopes
  import opened EngineRules
  import Tanks
  import opened GameEngines

  /** std::toupper in the "C" locale: only 'a'..'z' change. */
  function ToUpper(c: char): (u: char)
    ensures 'a' <= c <= 'z' ==> u as int == c as int - 32
    ensures !('a' <= c <= 'z') ==> u == c
  {
    if 'a' <= c <= 'z' then (c as int - 32) as char else c
  }

  /** `parseCommand`: W, A, S, D, and None for every other key. */
  function ParseCommand(command: char): Tanks.MoveDirection {
    match command
    case 'W' => Tanks.Up
    case 'A' => Tanks.Left
    case 'S' => Tanks.Down
    case 'D' => Tanks.Right
    case _ => Tanks.None
  }

  /** The key that moves the tank in a direction. */
  function KeyOf(d: Tanks.MoveDirection): char {
    match d
    case Up => 'W'
    case Left => 'A'
    case Down => 'S'
    case Right => 'D'
    case None => ' '
  }

  /** Only the four keys move the tank, each in its own direction, and either
      case of a key works after upper-casing. */
  lemma ParseCommandMeaning(command: char, d: Tanks.MoveDirection)
    ensures ParseCommand(command) != Tanks.None <==> command in "WASD"
    ensures d != Tanks.None ==> ParseCommand(KeyOf(d)) == d
    ensures d != Tanks.None ==> ParseCommand(ToUpper((KeyOf(d) as int + 32) as char)) == d
  {
  }

  /** What `run` does with one line of input. */
  datatype ConsoleCommand = Blank | Quit | Unrecognised | Step(direction: Tanks.MoveDirection)

  /** An empty line is skipped; otherwise the upper-cased first character
      decides: Q quits, W/A/S/D move, anything else is unrecognised. */
  function CommandOf(line: string): (c: ConsoleCommand)
    ensures c == Blank <==> line == []
    ensures c == Quit <==> line != [] && ToUpper(line[0]) == 'Q'
    ensures c.Step? ==> c.direction != Tanks.None && c.direction == ParseCommand(ToUpper(line[0]))
  {
    if line == [] then Blank
    else
      var command := ToUpper(line[0]);
      if command == 'Q' then Quit
      else
        var direction := ParseCommand(command);
        if direction == Tanks.None then Unrecognised else Step(direction)
  }

  function SizeSymbol(size: EnvelopeSize): char {
    match size
    case Small => 's'
    case Medium => 'm'
    case Large => 'L'
  }

  predicate OnMap(p: Position, width: int, height: int) {
    0 <= p.x < width && 0 <= p.y < height
  }

  /** The cell (x, y) after drawing `envelopes` in order on a blank map:
      the symbol of the last envelope there, or '.'. */
  function EnvelopeCell(envelopes: seq<RedEnvelope>, x: int, y: int): char {
    if envelopes == [] then '.'
    else
      var last := envelopes[|envelopes| - 1];
      if last.position == Position(x, y) then SizeSymbol(last.size)
      else EnvelopeCell(envelopes[..|envelopes| - 1], x, y)
  }

  /** What `render` shows at (x, y): the tank over everything, then the
      last envelope on the cell, then '.'. */
  function Cell(envelopes: seq<RedEnvelope>, tankPos: Position, x: int, y: int): char {
    if tankPos == Position(x, y) then 'T' else EnvelopeCell(envelopes, x, y)
  }

  /** A cell shows an envelope's symbol only if some envelope stands there,
      and '.' when none does. */
  lemma {:induction false} EnvelopeCellMeaning(envelopes: seq<RedEnvelope>, x: int, y: int)
    ensures EnvelopeCell(envelopes, x, y) != '.' ==>
      exists k :: 0 <= k < |envelopes| && envelopes[k].position == Position(x, y) &&
        SizeSymbol(envelopes[k].size) == EnvelopeCell(envelopes, x, y)
    ensures (forall k :: 0 <= k < |envelopes| ==> envelopes[k].position != Position(x, y)) ==>
      EnvelopeCell(envelopes, x, y) == '.'
  {
    if envelopes != [] {
      var front := envelopes[..|envelopes| - 1];
      EnvelopeCellMeaning(front, x, y);
      if EnvelopeCell(envelopes, x, y) != '.' && envelopes[|envelopes| - 1].position != Position(x, y) {
        var k :| 0 <= k < |front| && front[k].position == Position(x, y) &&
          SizeSymbol(front[k].size) == EnvelopeCell(front, x, y);
        assert envelopes[k] == front[k];
      }
      if forall k :: 0 <= k < |envelopes| ==> envelopes[k].position != Position(x, y) {
        assert forall k :: 0 <= k < |front| ==> front[k] == envelopes[k];
      }
    }
  }

  /** The grid of `render`: `height` rows of `width` cells. Envelopes off the
      map are skipped, so they never show up anywhere. */
  method Render(width: int, height: int, envelopes: seq<RedEnvelope>, tankPos: Position)
    returns (buffer: array2<char>)
    requires 0 <= width && 0 <= height
    ensures fresh(buffer)
    ensures buffer.Length0 == height && buffer.Length1 == width
    ensures forall y, x :: 0 <= y < height && 0 <= x < width ==>
      buffer[y, x] == Cell(envelopes, tankPos, x, y)
  {
    buffer := new char[height, width]((_, _) => '.');
    for i := 0 to |envelopes|
      invariant forall y, x :: 0 <= y < height && 0 <= x < width ==>
        buffer[y, x] == EnvelopeCell(envelopes[..i], x, y)
    {
      assert envelopes[..i + 1][..i] == envelopes[..i];
      var pos := envelopes[i].position;
      if pos.x < 0 || pos.x >= width || pos.y < 0 || pos.y >= height {
        continue;
      }
      buffer[pos.y, pos.x] := SizeSymbol(envelopes[i].size);
    }
    assert envelopes[..|envelopes|] == envelopes;
    if tankPos.x >= 0 && tankPos.x < width && tankPos.y >= 0 && tankPos.y < height {
      buffer[tankPos.y, tankPos.x] := 'T';
    }
  }

  /** The "time left" line: never negative, and never more than the limit
      once time has started to run. */
  function TimeLeft(limitSeconds: int, elapsed: real): (r: real)
    ensures r >= 0.0
    ensures elapsed >= 0.0 ==> r <= Tanks.MaxReal(0.0, limitSeconds as real)
    ensures r > 0.0 <==> elapsed < limitSeconds as real
  {
    Tanks.MaxReal(0.0, limitSeconds as real - elapsed)
  }

  /** The tank and the envelope pass after the console has read `lines`:
      blank, unrecognised and quit lines change neither, and each move line
      is one `moveTank` at its own clock reading `moveNow[i]`. */
  function ConsolePlay(g: Generator, seed: nat, c: GameConfig, clock: Clock, t: Tanks.TankState, p: PassState,
                       lines: seq<string>, moveNow: seq<real>): (r: (Tanks.TankState, PassState))
    requires ValidConfig(c) && Tanks.TankInvariant(t)
    requires |moveNow| == |lines|
    ensures Tanks.TankInvariant(r.0)
    decreases |lines|
  {
    if lines == [] then (t, p)
    else
      var n := |lines| - 1;
      var before := ConsolePlay(g, seed, c, clock, t, p, lines[..n], moveNow[..n]);
      match CommandOf(lines[n])
      case Step(direction) => MoveOutcome(g, seed, c, clock, before.0, before.1, direction, moveNow[n])
      case _ => before
  }

  /** A console session keeps the number of envelopes on the map and never
      lowers the collected count; while the game is paused, or when no line
      is a move, the tank and the envelopes stay as they were. */
  lemma {:induction false} ConsolePlayMeaning(g: Generator, seed: nat, c: GameConfig, clock: Clock, t: Tanks.TankState,
                                              p: PassState, lines: seq<string>, moveNow: seq<real>)
    requires ValidConfig(c) && Tanks.TankInvariant(t)
    requires |moveNow| == |lines|
    ensures var r := ConsolePlay(g, seed, c, clock, t, p, lines, moveNow);
      && |r.1.envelopes| == |p.envelopes|
      && r.1.stats.collectedCount >= p.stats.collectedCount
      && (clock.paused ==> r == (t, p))
      && ((forall k :: 0 <= k < |lines| ==> !CommandOf(lines[k]).Step?) ==> r == (t, p))
    decreases |lines|
  {
    if lines != [] {
      var n := |lines| - 1;
      ConsolePlayMeaning(g, seed, c, clock, t, p, lines[..n], moveNow[..n]);
      var before := ConsolePlay(g, seed, c, clock, t, p, lines[..n], moveNow[..n]);
      if CommandOf(lines[n]).Step? {
        MoveOutcomeMeaning(g, seed, c, clock, before.0, before.1, CommandOf(lines[n]).direction, moveNow[n]);
      }
    }
  }

  /** `ConsoleUI`: a front end over one engine. */
  class ConsoleUI {
    const engine: GameEngine

    constructor (gameEngine: GameEngine)
      ensures engine == gameEngine
    {
      engine := gameEngine;
    }

    /** The map the engine's state renders to; the tank always stands on
        the map, so its 'T' is always drawn. */
    method RenderEngine() returns (buffer: array2<char>)
      requires engine.Valid()
      ensures fresh(buffer)
      ensures buffer.Length0 == engine.config.worldHeight && buffer.Length1 == engine.config.worldWidth
      ensures forall y, x :: 0 <= y < buffer.Length0 && 0 <= x < buffer.Length1 ==>
        buffer[y, x] == Cell(engine.envelopes, engine.tank.position, x, y)
      ensures OnMap(engine.tank.position, buffer.Length1, buffer.Length0) &&
        buffer[engine.tank.position.y, engine.tank.position.x] == 'T'
    {
      buffer := Render(engine.config.worldWidth, engine.config.worldHeight, engine.envelopes, engine.tank.position);
    }

    /** The command loop of `run` over the lines typed. `now[i]` is the clock
        reading at the i-th prompt and `moveNow[i]` the one `moveTank` takes
        for the i-th line. The loop stops at the first prompt where time is
        up, at the first Q line, or when input runs out; `stop` is the number
        of lines it read to the end. Blank and unrecognised lines are skipped,
        every other line is one `moveTank`, so the tank and the envelopes
        end as `ConsolePlay` of the lines read. Moves never touch the clock,
        so time-up is judged against the clock the loop started with. */
    method Run(lines: seq<string>, now: seq<real>, moveNow: seq<real>) returns (stop: nat)
      requires engine.Valid()
      requires |now| == |lines| + 1 && |moveNow| == |lines|
      modifies engine, engine.tank
      ensures engine.Valid()
      ensures engine.ClockState() == old(engine.ClockState()) && engine.seed == old(engine.seed)
      ensures stop <= |lines|
      ensures forall k :: 0 <= k < stop ==>
        !TimeUp(old(engine.ClockState()), now[k], engine.config.timeLimitSeconds) && CommandOf(lines[k]) != Quit
      ensures stop == |lines| ||
        TimeUp(old(engine.ClockState()), now[stop], engine.config.timeLimitSeconds) || CommandOf(lines[stop]) == Quit
      ensures (engine.tank.State(), engine.PassStateOf()) ==
        ConsolePlay(engine.generator, engine.seed, engine.config, old(engine.ClockState()),
                    old(engine.tank.State()), old(engine.PassStateOf()), lines[..stop], moveNow[..stop])
    {
      ghost var clock0 := engine.ClockState();
      ghost var tank0 := engine.tank.State();
      ghost var pass0 := engine.PassStateOf();
      stop := 0;
      while stop < |lines|
        invariant stop <= |lines|
        invariant engine.Valid()
        invariant engine.ClockState() == clock0 && engine.seed == old(engine.seed)
        invariant forall k :: 0 <= k < stop ==>
          !TimeUp(clock0, now[k], engine.config.timeLimitSeconds) && CommandOf(lines[k]) != Quit
        invariant (engine.tank.State(), engine.PassStateOf()) ==
          ConsolePlay(engine.generator, engine.seed, engine.config, clock0, tank0, pass0, lines[..stop], moveNow[..stop])
      {
        if engine.IsTimeUp(now[stop]) {
          return;
        }
        assert lines[..stop + 1][..stop] == lines[..stop] && moveNow[..stop + 1][..stop] == moveNow[..stop];
        var line := lines[stop];
        if line == [] {
          stop := stop + 1;
          continue;
        }
        var command := ToUpper(line[0]);
        if command == 'Q' {
          return;
        }
        var direction := ParseCommand(command);
        if direction == Tanks.None {
          stop := stop + 1;
          continue;
        }
        var _ := engine.MoveTank(direction, moveNow[stop]);
        stop := stop + 1;
      }
    }
  }
}
