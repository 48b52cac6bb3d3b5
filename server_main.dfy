/** Start-up of src/frontend/main.cpp: the game configuration, the engine
    seeding and the choice of the HTTP port from the environment and the
    command line. The logger, the layout manager and the server loop are not
    part of this model. */
module ServerMain {
  import opened Wrappers
  import opened Text
  import opened EngineRules
  import opened GameEngines
  import Tanks

  const DefaultPort: int := 8080

  /** `sanitizePort`: ports outside 1024..65535 fall back to 8080. */
  function SanitizePort(port: int): (r: int)
    ensures 1024 <= r <= 65535
    ensures 1024 <= port <= 65535 ==> r == port
    ensures !(1024 <= port <= 65535) ==> r == DefaultPort
  {
    if port < 1024 || port > 65535 then DefaultPort else port
  }

  /** Sanitizing twice changes nothing. */
  lemma SanitizePortIdempotent(port: int)
    ensures SanitizePort(SanitizePort(port)) == SanitizePort(port)
  {
  }

  const IntMin: int := -0x8000_0000
  const IntMax: int := 0x7FFF_FFFF

  /** The number of decimal digits from index `i` on. */
  function DigitRun(s: string, i: nat): (n: nat)
    requires i <= |s|
    ensures i + n <= |s|
    ensures forall k :: i <= k < i + n ==> IsDigit(s[k])
    ensures i + n < |s| ==> !IsDigit(s[i + n])
    decreases |s| - i
  {
    if i < |s| && IsDigit(s[i]) then 1 + DigitRun(s, i + 1) else 0
  }

  /** std::stoi(s): leading whitespace, an optional sign, then at least one
      digit; what follows the digits is ignored. None when there is no digit
      (std::invalid_argument) or the value is outside int
      (std::out_of_range). */
  function Stoi(s: string): (r: Option<int>)
    ensures r.Some? ==> IntMin <= r.value <= IntMax
  {
    StoiFrom(s, WhitespaceRun(s, 0))
  }

  /** The sign at index `ws`, if any, then the digits. */
  function StoiFrom(s: string, ws: nat): (r: Option<int>)
    requires ws <= |s|
    ensures r.Some? ==> IntMin <= r.value <= IntMax
  {
    if ws < |s| && s[ws] == '-' then ReadDigits(s, ws + 1, true)
    else if ws < |s| && s[ws] == '+' then ReadDigits(s, ws + 1, false)
    else ReadDigits(s, ws, false)
  }

  /** The digits from `start` on, negated when `negative`, if there is at
      least one and the value fits an int. */
  function ReadDigits(s: string, start: nat, negative: bool): (r: Option<int>)
    requires start <= |s|
    ensures r.Some? ==> IntMin <= r.value <= IntMax
  {
    var n := DigitRun(s, start);
    if n == 0 then None
    else
      var magnitude: int := DecimalValue(s[start..start + n]);
      InIntRange(if negative then 0 - magnitude else magnitude)
  }

  function InIntRange(value: int): (r: Option<int>)
    ensures r.Some? <==> IntMin <= value <= IntMax
    ensures r.Some? ==> r.value == value
  {
    if value < IntMin || value > IntMax then None else Some(value)
  }

  /** A whole run of digits is read to its end. */
  lemma {:induction false} DigitRunAll(s: string, i: nat)
    requires i <= |s|
    requires forall k :: i <= k < |s| ==> IsDigit(s[k])
    ensures DigitRun(s, i) == |s| - i
    decreases |s| - i
  {
    if i < |s| {
      DigitRunAll(s, i + 1);
    }
  }

  /** The decimal text of any int reads back as that int, and a text with no
      digit after its sign is refused. */
  lemma StoiRoundTrip(n: int)
    requires IntMin <= n <= IntMax
    ensures Stoi(IntToDecimal(n)) == Some(n)
    ensures Stoi("") == None && Stoi("-") == None
  {
    assert WhitespaceRun("-", 0) == 0 && DigitRun("-", 1) == 0;
    if n < 0 {
      StoiNegative(n);
    } else {
      StoiNonNegative(n);
    }
  }

  lemma StoiNegative(n: int)
    requires IntMin <= n < 0
    ensures Stoi(IntToDecimal(n)) == Some(n)
  {
    var magnitude: nat := -n;
    var digits := NatToDecimal(magnitude);
    var s := "-" + digits;
    assert IntToDecimal(n) == s;
    assert !IsSpace(s[0]) && WhitespaceRun(s, 0) == 0;
    assert Stoi(s) == ReadDigits(s, 1, true);
    assert s[1..] == digits;
    DigitsRead(s, 1, digits, true);
    NatToDecimalRoundTrip(magnitude);
  }

  lemma StoiNonNegative(n: int)
    requires 0 <= n <= IntMax
    ensures Stoi(IntToDecimal(n)) == Some(n)
  {
    var s := NatToDecimal(n);
    assert IntToDecimal(n) == s;
    assert !IsSpace(s[0]) && WhitespaceRun(s, 0) == 0;
    assert Stoi(s) == ReadDigits(s, 0, false);
    DigitsRead(s, 0, s, false);
    NatToDecimalRoundTrip(n);
  }

  /** A text that ends in a run of digits from `start` reads that run. */
  lemma DigitsRead(s: string, start: nat, digits: string, negative: bool)
    requires start <= |s| && s[start..] == digits && |digits| >= 1
    requires forall k :: 0 <= k < |digits| ==> IsDigit(digits[k])
    ensures ReadDigits(s, start, negative) ==
      InIntRange(if negative then 0 - DecimalValue(digits) else DecimalValue(digits))
  {
    assert forall k :: start <= k < |s| ==> s[k] == digits[k - start];
    DigitRunAll(s, start);
    assert s[start..start + |digits|] == digits;
  }

  /** The port named by TANK_GAME_PORT: 8080 when it is unset or does not
      read as an int. */
  function EnvironmentPort(envPort: Option<string>): (port: int)
    ensures envPort.None? ==> port == DefaultPort
    ensures envPort.Some? && Stoi(envPort.value).Some? ==> port == Stoi(envPort.value).value
    ensures envPort.Some? && Stoi(envPort.value).None? ==> port == DefaultPort
  {
    match envPort
    case None => DefaultPort
    case Some(text) => Stoi(text).GetOr(DefaultPort)
  }

  /** `resolvePort`: the environment variable, overridden by the first
      command-line argument when it reads as an int, and then sanitized.
      `argv` includes the program name, as in C. */
  method ResolvePort(envPort: Option<string>, argv: seq<string>) returns (port: int)
    ensures 1024 <= port <= 65535
    ensures |argv| > 1 && Stoi(argv[1]).Some? ==> port == SanitizePort(Stoi(argv[1]).value)
    ensures (|argv| <= 1 || Stoi(argv[1]).None?) ==> port == SanitizePort(EnvironmentPort(envPort))
  {
    port := DefaultPort;
    if envPort.Some? {
      var parsed := Stoi(envPort.value);
      if parsed.Some? {
        port := parsed.value;
      } else {
        port := DefaultPort;
      }
    }
    if |argv| > 1 {
      var parsed := Stoi(argv[1]);
      if parsed.Some? {
        port := parsed.value;
      }
    }
    port := SanitizePort(port);
  }

  /** A valid port on the command line wins over everything else. */
  lemma CommandLineWins(program: string, p: int)
    requires 1024 <= p <= 65535
    ensures var argv := [program, IntToDecimal(p)];
      Stoi(argv[1]) == Some(p) && SanitizePort(Stoi(argv[1]).value) == p
  {
    StoiRoundTrip(p);
  }

  /** The configuration `main` builds. */
  const MainConfig: GameConfig := GameConfig(30, 20, 12, 60)

  lemma MainConfigValid()
    ensures ValidConfig(MainConfig) && CheckConfig(MainConfig) == Success(MainConfig)
  {
  }

  /** The engine set-up of `main`: construct with the configuration (whose
      constructor resets at clock reading `constructedAt`), reseed from the
      system clock's tick count truncated to unsigned int, and reset again at
      `now`. The round that starts is the one of the new seed. */
  method StartEngine(randomSupply: Generator, deviceSeed: nat, clockTicks: nat, constructedAt: real, now: real)
    returns (engine: GameEngine)
    ensures fresh(engine) && engine.Valid()
    ensures engine.config == MainConfig && engine.generator == randomSupply
    ensures engine.seed == clockTicks % 0x1_0000_0000
    ensures engine.tank.position == Center(MainConfig)
    ensures engine.tank.currentMomentum == 0.0 && engine.tank.lastDirection == Tanks.None
    ensures engine.tank.exactX == Center(MainConfig).x as real && engine.tank.exactY == Center(MainConfig).y as real
    ensures engine.ClockState() == Clock(Some(now), false, 0.0, None)
    ensures engine.PassStateOf() ==
      CollectFrom(engine.generator, engine.seed, MainConfig,
                  engine.SweepFrom(engine.tank.exactX, engine.tank.exactY),
                  SpawnAppend(SpawnerOf(engine.generator, engine.seed, MainConfig, Center(MainConfig)),
                              PassState([], 0, 0, CollectionStats(0, 0)), MainConfig.initialEnvelopeCount), 0)
  {
    MainConfigValid();
    engine := new GameEngine(MainConfig, randomSupply, deviceSeed, constructedAt);
    engine.SetRandomSeed(clockTicks % 0x1_0000_0000);
    var _ := engine.Reset(now);
  }
}
