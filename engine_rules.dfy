/** The value-level rules of src/backend/GameEngine.cpp: configuration
    checks, envelope sizes, radii and values, the abstract random supply,
    the free-spot search of `createRandomEnvelope`, the swept collision test
    `intersectsMovementPath`, and the pause-aware clock.

    Randomness: std::mt19937 seeded with `seed`, read through the
    distributions, is an abstract supply `g(seed, k)`, k counting draws
    since seeding. Draw k from uniform_int_distribution(a, b) is g(seed, k)
    when that lies in [a, b] and the nearer bound otherwise, so a supply
    that yields the distributions' outputs is reproduced exactly. Only the
    range is modelled, not the distribution.
    Time: steady_clock readings are reals passed in by the caller; the
    `time_point{}` sentinels are Option.None. */
module EngineRules {
  import opened Wrappers
  import opened RedEnvelopes
  import Tanks

  // ----- Configuration -----------------------------------------------------

  datatype GameConfig = GameConfig(
    worldWidth: int,
    worldHeight: int,
    initialEnvelopeCount: int,
    timeLimitSeconds: int)

  /** The field initialisers of GameConfig. */
  const DefaultConfig := GameConfig(40, 20, 8, 60)

  predicate ValidConfig(c: GameConfig) {
    c.worldWidth > 0 && c.worldHeight > 0 && c.initialEnvelopeCount > 0 && c.timeLimitSeconds > 0
  }

  /** The constructor's checks, in order, with the message each throws. */
  function CheckConfig(c: GameConfig): (r: Result<GameConfig, string>)
    ensures r.Success? <==> ValidConfig(c)
    ensures r.Success? ==> r.value == c
    ensures (c.worldWidth <= 0 || c.worldHeight <= 0) ==>
      r == Failure("World dimensions must be positive.")
    ensures c.worldWidth > 0 && c.worldHeight > 0 && c.initialEnvelopeCount <= 0 ==>
      r == Failure("At least one red envelope is required.")
    ensures c.worldWidth > 0 && c.worldHeight > 0 && c.initialEnvelopeCount > 0 && c.timeLimitSeconds <= 0 ==>
      r == Failure("Time limit must be positive.")
  {
    if c.worldWidth <= 0 || c.worldHeight <= 0 then Failure("World dimensions must be positive.")
    else if c.initialEnvelopeCount <= 0 then Failure("At least one red envelope is required.")
    else if c.timeLimitSeconds <= 0 then Failure("Time limit must be positive.")
    else Success(c)
  }

  datatype CollectionStats = CollectionStats(collectedCount: int, collectedValue: int)

  predicate InWorld(p: Position, c: GameConfig) {
    0 <= p.x < c.worldWidth && 0 <= p.y < c.worldHeight
  }

  /** The cell the tank is put on by `reset`. */
  function Center(c: GameConfig): (p: Position)
    requires ValidConfig(c)
    ensures InWorld(p, c)
  {
    Position(c.worldWidth / 2, c.worldHeight / 2)
  }

  // ----- Sizes, radii, values ----------------------------------------------

  /** pickRandomSize's switch over the drawn index. */
  function SizeForIndex(index: int): (s: EnvelopeSize)
    ensures index == 0 <==> s == Small
    ensures index == 1 <==> s == Medium
  {
    if index == 0 then Small else if index == 1 then Medium else Large
  }

  function RadiusForSize(s: EnvelopeSize): (r: int)
    ensures 1 <= r <= 3
  {
    match s
    case Small => 1
    case Medium => 2
    case Large => 3
  }

  function ValueLow(s: EnvelopeSize): int {
    match s
    case Small => 5
    case Medium => 21
    case Large => 61
  }

  function ValueHigh(s: EnvelopeSize): int {
    match s
    case Small => 20
    case Medium => 60
    case Large => 120
  }

  /** The value bands are disjoint and increase with size. */
  lemma ValueBandsOrdered()
    ensures ValueHigh(Small) < ValueLow(Medium) && ValueHigh(Medium) < ValueLow(Large)
    ensures forall s :: ValueLow(s) <= ValueHigh(s)
  {
  }

  /** A raw value read as a draw from uniform_int_distribution(lo, hi):
      unchanged inside [lo, hi], the nearer bound outside. */
  function Uniform(raw: int, lo: int, hi: int): (r: int)
    requires lo <= hi
    ensures lo <= r <= hi
  {
    if raw < lo then lo else if raw > hi then hi else raw
  }

  /** randomValueForSize, given the raw draw. */
  function RandomValueForSize(s: EnvelopeSize, raw: int): (v: int)
    ensures ValueLow(s) <= v <= ValueHigh(s)
  {
    Uniform(raw, ValueLow(s), ValueHigh(s))
  }

  /** An envelope as createRandomEnvelope makes it. */
  predicate WellFormed(e: RedEnvelope, c: GameConfig) {
    && InWorld(e.position, c)
    && e.collectionRadius == RadiusForSize(e.size)
    && ValueLow(e.size) <= e.value <= ValueHigh(e.size)
  }

  // ----- Free-spot search of createRandomEnvelope ----------------------------

  /** The supply of raw draws: draw `k` after seeding with `seed`. */
  type Generator = (nat, nat) -> int

  /** Draw k after seeding with `seed`, from uniform_int_distribution(lo, hi). */
  function DrawValue(g: Generator, seed: nat, k: nat, lo: int, hi: int): (r: int)
    requires lo <= hi
    ensures lo <= r <= hi
  {
    Uniform(g(seed, k), lo, hi)
  }

  /** The position drawn from draws k (x) and k + 1 (y). */
  function DrawPosition(g: Generator, seed: nat, k: nat, c: GameConfig): (p: Position)
    requires ValidConfig(c)
    ensures InWorld(p, c)
  {
    Position(DrawValue(g, seed, k, 0, c.worldWidth - 1), DrawValue(g, seed, k + 1, 0, c.worldHeight - 1))
  }

  function DistanceSquared(p: Position, q: Position): int {
    (p.x - q.x) * (p.x - q.x) + (p.y - q.y) * (p.y - q.y)
  }

  predicate OnSomeEnvelope(p: Position, envelopes: seq<RedEnvelope>) {
    exists i :: 0 <= i < |envelopes| && envelopes[i].position == p
  }

  /** Outside the radius around the tank's cell and on no envelope's cell. */
  predicate FreeSpot(p: Position, tankPos: Position, radius: int, envelopes: seq<RedEnvelope>) {
    DistanceSquared(p, tankPos) > radius * radius && !OnSomeEnvelope(p, envelopes)
  }

  /** The position tried by attempt k of a search whose first draw is `first`. */
  function AttemptPosition(g: Generator, seed: nat, first: nat, k: nat, c: GameConfig): (p: Position)
    requires ValidConfig(c)
    ensures InWorld(p, c)
  {
    DrawPosition(g, seed, first + 2 * k, c)
  }

  /** Attempt k is the position drawn at cursor first + 2k. */
  lemma AttemptIsDraw(g: Generator, seed: nat, first: nat, k: nat, c: GameConfig, cursor: nat)
    requires ValidConfig(c) && cursor == first + 2 * k
    ensures DrawPosition(g, seed, cursor, c) == AttemptPosition(g, seed, first, k, c)
  {
  }

  /** How many placement attempts createRandomEnvelope makes. */
  const MaxAttempts: nat := 150

  /** The attempts from `attempt` on, attempt k reading draws first + 2k and
      first + 2k + 1: the first free position, or None when all are taken. */
  function Search(g: Generator, seed: nat, first: nat, attempt: nat, c: GameConfig,
                  tankPos: Position, radius: int, envelopes: seq<RedEnvelope>): (r: Option<Position>)
    requires ValidConfig(c)
    ensures r.Some? ==> InWorld(r.value, c) && FreeSpot(r.value, tankPos, radius, envelopes)
    decreases MaxAttempts - attempt
  {
    if attempt >= MaxAttempts then None
    else
      var p := AttemptPosition(g, seed, first, attempt, c);
      if FreeSpot(p, tankPos, radius, envelopes) then Some(p)
      else Search(g, seed, first, attempt + 1, c, tankPos, radius, envelopes)
  }

  /** The search returns one of the attempts, and comes back empty only when
      every remaining attempt is taken. */
  lemma {:induction false} SearchMeaning(g: Generator, seed: nat, first: nat, attempt: nat, c: GameConfig,
                                         tankPos: Position, radius: int, envelopes: seq<RedEnvelope>)
    requires ValidConfig(c)
    ensures var r := Search(g, seed, first, attempt, c, tankPos, radius, envelopes);
      r.Some? ==> exists k :: attempt <= k < MaxAttempts && r.value == AttemptPosition(g, seed, first, k, c)
    ensures Search(g, seed, first, attempt, c, tankPos, radius, envelopes).None? <==>
      forall k :: attempt <= k < MaxAttempts ==>
        !FreeSpot(AttemptPosition(g, seed, first, k, c), tankPos, radius, envelopes)
    decreases MaxAttempts - attempt
  {
    if attempt < MaxAttempts {
      var p := AttemptPosition(g, seed, first, attempt, c);
      if !FreeSpot(p, tankPos, radius, envelopes) {
        SearchMeaning(g, seed, first, attempt + 1, c, tankPos, radius, envelopes);
      }
    }
  }

  /** The placement loop of createRandomEnvelope from attempt `attempt` on,
      attempt k reading draws first + 2k and first + 2k + 1: the position it
      settles on and the cursor after it. When no attempt is free, a
      brand-new position is drawn after the last one. */
  function PlaceFrom(g: Generator, seed: nat, first: nat, attempt: nat, c: GameConfig,
                     tankPos: Position, radius: int, envelopes: seq<RedEnvelope>): (Position, nat)
    requires ValidConfig(c)
    decreases MaxAttempts - attempt
  {
    if attempt >= MaxAttempts then
      (DrawPosition(g, seed, first + 2 * MaxAttempts, c), first + 2 * MaxAttempts + 2)
    else
      var p := AttemptPosition(g, seed, first, attempt, c);
      if FreeSpot(p, tankPos, radius, envelopes) then (p, first + 2 * attempt + 2)
      else PlaceFrom(g, seed, first, attempt + 1, c, tankPos, radius, envelopes)
  }

  /** The loop lands in the world, takes two draws per attempt made plus
      two for the fallback, and lands on a taken spot only in the fallback. */
  lemma {:induction false} PlaceFromLands(g: Generator, seed: nat, first: nat, attempt: nat, c: GameConfig,
                                          tankPos: Position, radius: int, envelopes: seq<RedEnvelope>)
    requires ValidConfig(c)
    ensures var r := PlaceFrom(g, seed, first, attempt, c, tankPos, radius, envelopes);
      && InWorld(r.0, c)
      && (attempt <= MaxAttempts ==> first + 2 * attempt + 2 <= r.1 <= first + 2 * MaxAttempts + 2)
      && (!FreeSpot(r.0, tankPos, radius, envelopes) ==>
            r == (DrawPosition(g, seed, first + 2 * MaxAttempts, c), first + 2 * MaxAttempts + 2))
    decreases MaxAttempts - attempt
  {
    if attempt < MaxAttempts {
      var p := AttemptPosition(g, seed, first, attempt, c);
      if !FreeSpot(p, tankPos, radius, envelopes) {
        PlaceFromLands(g, seed, first, attempt + 1, c, tankPos, radius, envelopes);
      }
    }
  }

  /** One attempt of the loop, and the loop once the attempts are used up. */
  lemma PlaceFromStep(g: Generator, seed: nat, first: nat, k: nat, c: GameConfig,
                      tankPos: Position, radius: int, envelopes: seq<RedEnvelope>)
    requires ValidConfig(c) && k <= MaxAttempts
    ensures var p := AttemptPosition(g, seed, first, k, c);
      PlaceFrom(g, seed, first, k, c, tankPos, radius, envelopes) ==
        if k == MaxAttempts || FreeSpot(p, tankPos, radius, envelopes) then (p, first + 2 * k + 2)
        else PlaceFrom(g, seed, first, k + 1, c, tankPos, radius, envelopes)
  {
  }

  /** The loop settles on the first free attempt when there is one, and on
      the fallback draw otherwise. */
  lemma {:induction false} PlaceFromMatchesSearch(g: Generator, seed: nat, first: nat, attempt: nat, c: GameConfig,
                                                  tankPos: Position, radius: int, envelopes: seq<RedEnvelope>)
    requires ValidConfig(c)
    ensures var found := Search(g, seed, first, attempt, c, tankPos, radius, envelopes);
      PlaceFrom(g, seed, first, attempt, c, tankPos, radius, envelopes).0 ==
        if found.Some? then found.value else DrawPosition(g, seed, first + 2 * MaxAttempts, c)
    decreases MaxAttempts - attempt
  {
    if attempt < MaxAttempts {
      var p := AttemptPosition(g, seed, first, attempt, c);
      if !FreeSpot(p, tankPos, radius, envelopes) {
        PlaceFromMatchesSearch(g, seed, first, attempt + 1, c, tankPos, radius, envelopes);
      }
    }
  }

  /** createRandomEnvelope(id) starting at draw `cursor`, and the cursor
      after it: the size index, a discarded initial position, the placement,
      then the value. */
  function SpawnEnvelope(g: Generator, seed: nat, cursor: nat, c: GameConfig,
                         tankPos: Position, envelopes: seq<RedEnvelope>, id: nat): (RedEnvelope, nat)
    requires ValidConfig(c)
  {
    var size := SizeForIndex(DrawValue(g, seed, cursor, 0, 2));
    var radius := RadiusForSize(size);
    var placed := PlaceFrom(g, seed, cursor + 3, 0, c, tankPos, radius, envelopes);
    (RedEnvelope(id, size, DrawValue(g, seed, placed.1, ValueLow(size), ValueHigh(size)), placed.0, radius), placed.1 + 1)
  }

  /** A created envelope is well formed and carries the id it was given;
      creating it takes six draws when the first attempt is free and 306
      when the search runs out. */
  lemma SpawnEnvelopeFacts(g: Generator, seed: nat, cursor: nat, c: GameConfig,
                           tankPos: Position, envelopes: seq<RedEnvelope>, id: nat)
    requires ValidConfig(c)
    ensures var r := SpawnEnvelope(g, seed, cursor, c, tankPos, envelopes, id);
      WellFormed(r.0, c) && r.0.id == id && cursor + 6 <= r.1 <= cursor + 2 * MaxAttempts + 6
  {
    var size := SizeForIndex(DrawValue(g, seed, cursor, 0, 2));
    PlaceFromLands(g, seed, cursor + 3, 0, c, tankPos, RadiusForSize(size), envelopes);
  }

  /** Attempt k of the spawn whose size is drawn at `cursor`: the size and the
      discarded initial position take draws cursor .. cursor + 2. */
  function SpawnAttempt(g: Generator, seed: nat, cursor: nat, k: nat, c: GameConfig): Position
    requires ValidConfig(c)
  {
    AttemptPosition(g, seed, cursor + 3, k, c)
  }

  /** Whenever one of the 150 attempts is free, the new envelope lies on a
      free spot: farther from the tank than its radius and on no envelope's
      cell. Only when every attempt is taken does it land on the fallback
      draw, which may be anywhere in the world. */
  lemma {:induction false} SpawnAvoidsTankAndEnvelopes(g: Generator, seed: nat, cursor: nat, c: GameConfig,
                                                       tankPos: Position, envelopes: seq<RedEnvelope>, id: nat)
    requires ValidConfig(c)
    ensures var e := SpawnEnvelope(g, seed, cursor, c, tankPos, envelopes, id).0;
      (exists k :: 0 <= k < MaxAttempts &&
         FreeSpot(SpawnAttempt(g, seed, cursor, k, c), tankPos, e.collectionRadius, envelopes))
      ==> FreeSpot(e.position, tankPos, e.collectionRadius, envelopes)
    ensures var e := SpawnEnvelope(g, seed, cursor, c, tankPos, envelopes, id).0;
      !FreeSpot(e.position, tankPos, e.collectionRadius, envelopes) ==>
      e.position == DrawPosition(g, seed, cursor + 3 + 2 * MaxAttempts, c)
  {
    var size := SizeForIndex(DrawValue(g, seed, cursor, 0, 2));
    var radius := RadiusForSize(size);
    var first := cursor + 3;
    SearchMeaning(g, seed, first, 0, c, tankPos, radius, envelopes);
    PlaceFromMatchesSearch(g, seed, first, 0, c, tankPos, radius, envelopes);
    PlaceFromLands(g, seed, first, 0, c, tankPos, radius, envelopes);
    var e := SpawnEnvelope(g, seed, cursor, c, tankPos, envelopes, id).0;
    assert e.collectionRadius == radius;
    assert e.position == PlaceFrom(g, seed, first, 0, c, tankPos, radius, envelopes).0;
  }

  // ----- Swept collision test ------------------------------------------------

  /** f(t) = a t^2 + b t + c. */
  function Quadratic(a: real, b: real, c: real, t: real): real {
    a * t * t + b * t + c
  }

  function Clamp01(t: real): real {
    if t < 0.0 then 0.0 else if t > 1.0 then 1.0 else t
  }

  /** The root test of intersectsMovementPath without the square root: a
      non-negative discriminant, then "a root lies in [0, 1]", which for an
      upward parabola means f at the vertex clamped to [0, 1] is <= 0 and f
      at one end of [0, 1] is >= 0. */
  predicate HasRootInUnit(a: real, b: real, c: real)
    requires a > 0.0
  {
    var discriminant := b * b - 4.0 * a * c;
    discriminant >= 0.0 &&
    Quadratic(a, b, c, Clamp01(-b / (2.0 * a))) <= 0.0 &&
    Tanks.MaxReal(Quadratic(a, b, c, 0.0), Quadratic(a, b, c, 1.0)) >= 0.0
  }

  lemma ProductNonNegative(x: real, y: real)
    requires x >= 0.0 && y >= 0.0
    ensures x * y >= 0.0
  {
  }

  lemma ProductPositive(x: real, y: real, p: real)
    requires x > 0.0 && y > 0.0 && p == x * y
    ensures p > 0.0
  {
  }

  lemma {:induction false} SquareNonNegative(x: real)
    ensures x * x >= 0.0
  {
    if x < 0.0 {
      assert x * x == (-x) * (-x);
      ProductNonNegative(-x, -x);
    } else {
      ProductNonNegative(x, x);
    }
  }

  /** dx^2 + dy^2, the leading coefficient of the path quadratic. */
  function SquaredLength(dx: real, dy: real): real {
    dx * dx + dy * dy
  }

  /** A square is positive when its root is not zero; `s` names the square
      so that the fact is stated about the caller's own term. */
  lemma {:induction false} SquarePositive(x: real, s: real)
    requires x != 0.0 && s == x * x
    ensures s > 0.0
  {
    if x > 0.0 {
      ProductPositive(x, x, s);
    } else {
      assert s == (-x) * (-x);
      ProductPositive(-x, -x, s);
    }
  }

  /** The leading coefficient of a real move is positive. */
  lemma {:induction false} SumOfSquaresPositive(dx: real, dy: real)
    requires dx != 0.0 || dy != 0.0
    ensures SquaredLength(dx, dy) > 0.0
  {
    if dx != 0.0 {
      SquarePositive(dx, dx * dx);
      SquareNonNegative(dy);
    } else {
      SquarePositive(dy, dy * dy);
      SquareNonNegative(dx);
    }
  }

  /** With b >= 0 the parabola rises on [0, 1]. */
  lemma {:induction false} RisingFromZero(a: real, b: real, c: real, t: real)
    requires a > 0.0 && b >= 0.0 && 0.0 <= t
    ensures Quadratic(a, b, c, 0.0) <= Quadratic(a, b, c, t)
  {
    assert Quadratic(a, b, c, t) - Quadratic(a, b, c, 0.0) == t * (a * t + b);
    ProductNonNegative(a, t);
    ProductNonNegative(t, a * t + b);
  }

  /** With 2a + b <= 0 the parabola falls on [0, 1]. */
  lemma {:induction false} FallingToOne(a: real, b: real, c: real, t: real)
    requires a > 0.0 && 2.0 * a + b <= 0.0 && t <= 1.0
    ensures Quadratic(a, b, c, 1.0) <= Quadratic(a, b, c, t)
  {
    assert Quadratic(a, b, c, t) - Quadratic(a, b, c, 1.0) == (1.0 - t) * (-(a * (t + 1.0) + b));
    ProductNonNegative(a, 1.0 - t);
    assert -(a * (t + 1.0) + b) >= a * (1.0 - t);
    ProductNonNegative(1.0 - t, -(a * (t + 1.0) + b));
  }

  /** f(t) - f(v) = a (t - v)^2 at the vertex v, where 2 a v = -b. */
  lemma {:induction false} AboveVertex(a: real, b: real, c: real, v: real, t: real)
    requires a > 0.0 && 2.0 * a * v == -b
    ensures Quadratic(a, b, c, v) <= Quadratic(a, b, c, t)
  {
    assert Quadratic(a, b, c, t) - Quadratic(a, b, c, v) == (t - v) * (a * (t + v) + b);
    assert a * (t + v) + b == a * (t - v);
    assert (t - v) * (a * (t - v)) == a * ((t - v) * (t - v));
    SquareNonNegative(t - v);
    ProductNonNegative(a, (t - v) * (t - v));
  }

  /** Where the vertex -b / 2a falls relative to [0, 1]. */
  lemma {:induction false} VertexPlacement(a: real, b: real)
    requires a > 0.0
    ensures var v := -b / (2.0 * a);
      && 2.0 * a * v == -b
      && (b >= 0.0 ==> Clamp01(v) == 0.0)
      && (2.0 * a + b <= 0.0 ==> Clamp01(v) == 1.0)
      && (b < 0.0 && 2.0 * a + b > 0.0 ==> Clamp01(v) == v)
  {
    var v := -b / (2.0 * a);
    assert 2.0 * a * v == -b;
    if b >= 0.0 && v > 0.0 {
      ProductPositive(2.0 * a, v, 2.0 * a * v);
    }
    if 2.0 * a + b <= 0.0 && v < 1.0 {
      ProductPositive(2.0 * a, 1.0 - v, 2.0 * a * (1.0 - v));
    }
    if b < 0.0 && 2.0 * a + b > 0.0 {
      if v <= 0.0 {
        ProductNonNegative(2.0 * a, -v);
      }
      if v >= 1.0 {
        ProductNonNegative(2.0 * a, v - 1.0);
      }
    }
  }

  /** On [0, 1] an upward parabola is smallest at its clamped vertex. */
  lemma {:induction false} ClampedVertexIsMinimum(a: real, b: real, c: real, t: real)
    requires a > 0.0 && 0.0 <= t <= 1.0
    ensures Quadratic(a, b, c, Clamp01(-b / (2.0 * a))) <= Quadratic(a, b, c, t)
  {
    VertexPlacement(a, b);
    var v := -b / (2.0 * a);
    if b >= 0.0 {
      RisingFromZero(a, b, c, t);
    } else if 2.0 * a + b <= 0.0 {
      FallingToOne(a, b, c, t);
    } else {
      AboveVertex(a, b, c, v, t);
    }
  }

  /** On [0, 1] an upward parabola stays below its chord. */
  lemma {:induction false} BelowChord(a: real, b: real, c: real, t: real)
    requires a > 0.0 && 0.0 <= t <= 1.0
    ensures Quadratic(a, b, c, t) <= Tanks.MaxReal(Quadratic(a, b, c, 0.0), Quadratic(a, b, c, 1.0))
  {
    var f0, f1 := Quadratic(a, b, c, 0.0), Quadratic(a, b, c, 1.0);
    var m := Tanks.MaxReal(f0, f1);
    assert Quadratic(a, b, c, t) == (1.0 - t) * f0 + t * f1 - a * (t * (1.0 - t));
    ProductNonNegative(t, 1.0 - t);
    ProductNonNegative(a, t * (1.0 - t));
    ProductNonNegative(1.0 - t, m - f0);
    ProductNonNegative(t, m - f1);
    assert (1.0 - t) * f0 + t * f1 <= (1.0 - t) * m + t * m;
  }

  /** 4a f(t) = (2at + b)^2 - discriminant, so a point with f <= 0 forces a
      non-negative discriminant. */
  lemma {:induction false} NonPositiveValueGivesRealRoots(a: real, b: real, c: real, t: real)
    requires a > 0.0 && Quadratic(a, b, c, t) <= 0.0
    ensures b * b - 4.0 * a * c >= 0.0
  {
    assert 4.0 * a * Quadratic(a, b, c, t) == (2.0 * a * t + b) * (2.0 * a * t + b) - (b * b - 4.0 * a * c);
    ProductNonNegative(4.0 * a, -Quadratic(a, b, c, t));
    SquareNonNegative(2.0 * a * t + b);
  }

  /** The root test holds exactly when f is <= 0 somewhere on [0, 1] and
      >= 0 somewhere on [0, 1]: by continuity, exactly when f has a root in
      [0, 1], which is what the source's two roots t1, t2 check. */
  lemma {:induction false} HasRootInUnitMeaning(a: real, b: real, c: real)
    requires a > 0.0
    ensures HasRootInUnit(a, b, c) <==>
      (exists t :: 0.0 <= t <= 1.0 && Quadratic(a, b, c, t) <= 0.0) &&
      (exists t :: 0.0 <= t <= 1.0 && Quadratic(a, b, c, t) >= 0.0)
  {
    var v := Clamp01(-b / (2.0 * a));
    if HasRootInUnit(a, b, c) {
      assert 0.0 <= v <= 1.0 && Quadratic(a, b, c, v) <= 0.0;
      if Quadratic(a, b, c, 0.0) >= 0.0 {
        assert Quadratic(a, b, c, 0.0) >= 0.0;
      } else {
        assert Quadratic(a, b, c, 1.0) >= 0.0;
      }
    }
    if (exists t :: 0.0 <= t <= 1.0 && Quadratic(a, b, c, t) <= 0.0) &&
       (exists t :: 0.0 <= t <= 1.0 && Quadratic(a, b, c, t) >= 0.0) {
      var t1 :| 0.0 <= t1 <= 1.0 && Quadratic(a, b, c, t1) <= 0.0;
      var t2 :| 0.0 <= t2 <= 1.0 && Quadratic(a, b, c, t2) >= 0.0;
      ClampedVertexIsMinimum(a, b, c, t1);
      BelowChord(a, b, c, t2);
      NonPositiveValueGivesRealRoots(a, b, c, t1);
    }
  }

  /** A root in [0, 1] is always detected. */
  lemma RootInUnitDetected(a: real, b: real, c: real, t: real)
    requires a > 0.0 && 0.0 <= t <= 1.0 && Quadratic(a, b, c, t) == 0.0
    ensures HasRootInUnit(a, b, c)
  {
    HasRootInUnitMeaning(a, b, c);
  }

  /** An upward parabola negative at both ends of [0, 1] is negative all over
      it: no root, so the test fails. */
  lemma NegativeAtBothEndsMisses(a: real, b: real, c: real)
    requires a > 0.0 && Quadratic(a, b, c, 0.0) < 0.0 && Quadratic(a, b, c, 1.0) < 0.0
    ensures !HasRootInUnit(a, b, c)
  {
  }

  /** Squared distance from the point at parameter t of the segment
      (sx, sy) -> (ex, ey) to the cell centre (cx, cy). */
  function PathDistanceSquared(sx: real, sy: real, ex: real, ey: real, cx: real, cy: real, t: real): real {
    var px := sx + t * (ex - sx) - cx;
    var py := sy + t * (ey - sy) - cy;
    px * px + py * py
  }

  /** b = 2 (f . d) of the source, with f = start - centre and d = end - start. */
  function LinearCoefficient(fx: real, fy: real, dx: real, dy: real): real {
    2.0 * (fx * dx + fy * dy)
  }

  /** c = |f|^2 - r^2 of the source. */
  function ConstantCoefficient(fx: real, fy: real, rr: real): real {
    fx * fx + fy * fy - rr
  }

  /** intersectsMovementPath: does the segment from the start to the end of
      a move touch the envelope's collection circle? */
  predicate IntersectsMovementPath(startX: real, startY: real, endX: real, endY: real, e: RedEnvelope) {
    var radius := Tanks.MaxInt(0, e.collectionRadius);
    if radius == 0 then false
    else
      var dx := endX - startX;
      var dy := endY - startY;
      var fx := startX - e.position.x as real;
      var fy := startY - e.position.y as real;
      var rr := (radius * radius) as real;
      if dx == 0.0 && dy == 0.0 then fx * fx + fy * fy <= rr
      else
        SumOfSquaresPositive(dx, dy);
        HasRootInUnit(SquaredLength(dx, dy), LinearCoefficient(fx, fy, dx, dy), ConstantCoefficient(fx, fy, rr))
  }

  /** The quadratic the source builds is the squared path distance minus r^2. */
  lemma {:induction false} PathQuadratic(sx: real, sy: real, ex: real, ey: real, cx: real, cy: real, rr: real, t: real)
    ensures PathDistanceSquared(sx, sy, ex, ey, cx, cy, t) - rr ==
      Quadratic(SquaredLength(ex - sx, ey - sy), LinearCoefficient(sx - cx, sy - cy, ex - sx, ey - sy),
                ConstantCoefficient(sx - cx, sy - cy, rr), t)
  {
    var dx, dy, fx, fy := ex - sx, ey - sy, sx - cx, sy - cy;
    assert sx + t * dx - cx == fx + t * dx;
    assert sy + t * dy - cy == fy + t * dy;
    assert (fx + t * dx) * (fx + t * dx) == fx * fx + 2.0 * fx * dx * t + dx * dx * t * t;
    assert (fy + t * dy) * (fy + t * dy) == fy * fy + 2.0 * fy * dy * t + dy * dy * t * t;
  }

  /** Squared distance from the point at parameter t of the move to `cell`. */
  function DistanceToCellSquared(sx: real, sy: real, ex: real, ey: real, cell: Position, t: real): real {
    PathDistanceSquared(sx, sy, ex, ey, cell.x as real, cell.y as real, t)
  }

  /** For a real move, the root test on the path quadratic holds exactly when
      the segment has a point within distance^2 rr of the cell and a point
      at or beyond it. */
  lemma {:induction false} PathRootTestMeaning(sx: real, sy: real, ex: real, ey: real, cell: Position, rr: real)
    requires sx != ex || sy != ey
    ensures SquaredLength(ex - sx, ey - sy) > 0.0
    ensures var cx, cy := cell.x as real, cell.y as real;
      HasRootInUnit(SquaredLength(ex - sx, ey - sy), LinearCoefficient(sx - cx, sy - cy, ex - sx, ey - sy),
                    ConstantCoefficient(sx - cx, sy - cy, rr)) <==>
      (exists t :: 0.0 <= t <= 1.0 && DistanceToCellSquared(sx, sy, ex, ey, cell, t) <= rr) &&
      (exists t :: 0.0 <= t <= 1.0 && DistanceToCellSquared(sx, sy, ex, ey, cell, t) >= rr)
  {
    var cx, cy := cell.x as real, cell.y as real;
    SumOfSquaresPositive(ex - sx, ey - sy);
    var a := SquaredLength(ex - sx, ey - sy);
    var b := LinearCoefficient(sx - cx, sy - cy, ex - sx, ey - sy);
    var c := ConstantCoefficient(sx - cx, sy - cy, rr);
    HasRootInUnitMeaning(a, b, c);
    if HasRootInUnit(a, b, c) {
      var t1 :| 0.0 <= t1 <= 1.0 && Quadratic(a, b, c, t1) <= 0.0;
      var t2 :| 0.0 <= t2 <= 1.0 && Quadratic(a, b, c, t2) >= 0.0;
      PathQuadratic(sx, sy, ex, ey, cx, cy, rr, t1);
      PathQuadratic(sx, sy, ex, ey, cx, cy, rr, t2);
      assert DistanceToCellSquared(sx, sy, ex, ey, cell, t1) <= rr;
      assert DistanceToCellSquared(sx, sy, ex, ey, cell, t2) >= rr;
    }
    if (exists t :: 0.0 <= t <= 1.0 && DistanceToCellSquared(sx, sy, ex, ey, cell, t) <= rr) &&
       (exists t :: 0.0 <= t <= 1.0 && DistanceToCellSquared(sx, sy, ex, ey, cell, t) >= rr) {
      var t1 :| 0.0 <= t1 <= 1.0 && DistanceToCellSquared(sx, sy, ex, ey, cell, t1) <= rr;
      var t2 :| 0.0 <= t2 <= 1.0 && DistanceToCellSquared(sx, sy, ex, ey, cell, t2) >= rr;
      PathQuadratic(sx, sy, ex, ey, cx, cy, rr, t1);
      PathQuadratic(sx, sy, ex, ey, cx, cy, rr, t2);
      assert Quadratic(a, b, c, t1) <= 0.0;
      assert Quadratic(a, b, c, t2) >= 0.0;
    }
  }

  /** r^2 for an envelope's collection radius, as the source computes it. */
  function RadiusSquared(e: RedEnvelope): real {
    (e.collectionRadius * e.collectionRadius) as real
  }

  /** No collision without a positive radius; a zero-length move is the point
      test at its start; a real move collides exactly when its segment has a
      point within the radius and a point at or beyond it. */
  lemma {:induction false} IntersectsMovementPathMeaning(sx: real, sy: real, ex: real, ey: real, e: RedEnvelope)
    ensures e.collectionRadius <= 0 ==> !IntersectsMovementPath(sx, sy, ex, ey, e)
    ensures e.collectionRadius > 0 && sx == ex && sy == ey ==>
      (IntersectsMovementPath(sx, sy, ex, ey, e) <==>
       DistanceToCellSquared(sx, sy, ex, ey, e.position, 0.0) <= RadiusSquared(e))
    ensures e.collectionRadius > 0 && (sx != ex || sy != ey) ==>
      (IntersectsMovementPath(sx, sy, ex, ey, e) <==>
       (exists t :: 0.0 <= t <= 1.0 && DistanceToCellSquared(sx, sy, ex, ey, e.position, t) <= RadiusSquared(e)) &&
       (exists t :: 0.0 <= t <= 1.0 && DistanceToCellSquared(sx, sy, ex, ey, e.position, t) >= RadiusSquared(e)))
  {
    if e.collectionRadius > 0 {
      var cx, cy := e.position.x as real, e.position.y as real;
      var rr := RadiusSquared(e);
      if sx != ex || sy != ey {
        assert ex - sx != 0.0 || ey - sy != 0.0;
        SumOfSquaresPositive(ex - sx, ey - sy);
        assert IntersectsMovementPath(sx, sy, ex, ey, e) ==
          HasRootInUnit(SquaredLength(ex - sx, ey - sy), LinearCoefficient(sx - cx, sy - cy, ex - sx, ey - sy),
                        ConstantCoefficient(sx - cx, sy - cy, rr));
        PathRootTestMeaning(sx, sy, ex, ey, e.position, rr);
      } else {
        assert DistanceToCellSquared(sx, sy, ex, ey, e.position, 0.0) == (sx - cx) * (sx - cx) + (sy - cy) * (sy - cy);
      }
    }
  }

  /** The anti-tunnelling case: a move whose segment passes through the
      envelope's cell collides even when both ends are outside the radius. */
  lemma SweptCatchesPassThrough(sx: real, sy: real, ex: real, ey: real, e: RedEnvelope, t: real)
    requires e.collectionRadius > 0 && (sx != ex || sy != ey) && 0.0 <= t <= 1.0
    requires DistanceToCellSquared(sx, sy, ex, ey, e.position, t) == 0.0
    requires DistanceToCellSquared(sx, sy, ex, ey, e.position, 0.0) > RadiusSquared(e)
    ensures IntersectsMovementPath(sx, sy, ex, ey, e)
  {
    IntersectsMovementPathMeaning(sx, sy, ex, ey, e);
  }

  /** As written: a move that stays strictly inside the circle does not
      collide, since both roots lie outside [0, 1]. */
  lemma {:induction false} SweptMissesMoveInsideCircle(sx: real, sy: real, ex: real, ey: real, e: RedEnvelope)
    requires e.collectionRadius > 0 && (sx != ex || sy != ey)
    requires DistanceToCellSquared(sx, sy, ex, ey, e.position, 0.0) < RadiusSquared(e)
    requires DistanceToCellSquared(sx, sy, ex, ey, e.position, 1.0) < RadiusSquared(e)
    ensures !IntersectsMovementPath(sx, sy, ex, ey, e)
  {
    var cx, cy := e.position.x as real, e.position.y as real;
    var rr := RadiusSquared(e);
    assert ex - sx != 0.0 || ey - sy != 0.0;
    SumOfSquaresPositive(ex - sx, ey - sy);
    var a := SquaredLength(ex - sx, ey - sy);
    var b := LinearCoefficient(sx - cx, sy - cy, ex - sx, ey - sy);
    var c := ConstantCoefficient(sx - cx, sy - cy, rr);
    assert IntersectsMovementPath(sx, sy, ex, ey, e) == HasRootInUnit(a, b, c);
    PathQuadratic(sx, sy, ex, ey, cx, cy, rr, 0.0);
    PathQuadratic(sx, sy, ex, ey, cx, cy, rr, 1.0);
    NegativeAtBothEndsMisses(a, b, c);
  }

  // ----- Collision pass -------------------------------------------------------

  /** The tank's cell after a move and the segment its exact position swept. */
  datatype Sweep = Sweep(tankPos: Position, startX: real, startY: real, endX: real, endY: real)

  /** handleCollisions' test for one envelope: at rest on the cell, or crossed. */
  predicate Collected(e: RedEnvelope, s: Sweep) {
    Tanks.IsColliding(s.tankPos, e) || IntersectsMovementPath(s.startX, s.startY, s.endX, s.endY, e)
  }

  /** How many of `envelopes` the sweep collects. */
  function HitCount(envelopes: seq<RedEnvelope>, s: Sweep): (n: nat)
    ensures n <= |envelopes|
    decreases |envelopes|
  {
    if envelopes == [] then 0
    else HitCount(envelopes[..|envelopes| - 1], s) + (if Collected(envelopes[|envelopes| - 1], s) then 1 else 0)
  }

  /** No hit means no slot is collected, and all hits means every slot is. */
  lemma {:induction false} HitCountExtremes(envelopes: seq<RedEnvelope>, s: Sweep)
    ensures HitCount(envelopes, s) == 0 <==>
      forall i :: 0 <= i < |envelopes| ==> !Collected(envelopes[i], s)
    ensures HitCount(envelopes, s) == |envelopes| <==>
      forall i :: 0 <= i < |envelopes| ==> Collected(envelopes[i], s)
    decreases |envelopes|
  {
    if envelopes != [] {
      var init := envelopes[..|envelopes| - 1];
      HitCountExtremes(init, s);
      assert forall i :: 0 <= i < |init| ==> init[i] == envelopes[i];
    }
  }

  /** The total value of the envelopes the sweep collects. */
  function HitValue(envelopes: seq<RedEnvelope>, s: Sweep): int
    decreases |envelopes|
  {
    if envelopes == [] then 0
    else
      var init := envelopes[..|envelopes| - 1];
      HitValue(init, s) + (if Collected(envelopes[|envelopes| - 1], s) then envelopes[|envelopes| - 1].value else 0)
  }

  /** Every collected envelope is worth at least its size's minimum, so the
      total lies between 5 and 120 per collected envelope. */
  lemma {:induction false} HitValueBounds(envelopes: seq<RedEnvelope>, s: Sweep, c: GameConfig)
    requires forall i :: 0 <= i < |envelopes| ==> WellFormed(envelopes[i], c)
    ensures 5 * HitCount(envelopes, s) <= HitValue(envelopes, s) <= 120 * HitCount(envelopes, s)
    decreases |envelopes|
  {
    if envelopes != [] {
      var init := envelopes[..|envelopes| - 1];
      assert forall i :: 0 <= i < |init| ==> init[i] == envelopes[i];
      HitValueBounds(init, s, c);
      assert WellFormed(envelopes[|envelopes| - 1], c);
    }
  }

  /** One more slot of a prefix adds that slot's hit, if any. */
  lemma {:induction false} HitPrefixStep(envelopes: seq<RedEnvelope>, s: Sweep, i: nat)
    requires i < |envelopes|
    ensures HitCount(envelopes[..i + 1], s) ==
      HitCount(envelopes[..i], s) + (if Collected(envelopes[i], s) then 1 else 0)
    ensures HitValue(envelopes[..i + 1], s) ==
      HitValue(envelopes[..i], s) + (if Collected(envelopes[i], s) then envelopes[i].value else 0)
  {
    var pre := envelopes[..i + 1];
    assert pre[..|pre| - 1] == envelopes[..i];
    assert pre[|pre| - 1] == envelopes[i];
  }

  /** A collected slot counts strictly between every earlier and every later
      prefix: the hits before it are fewer than the hits up to any later point. */
  lemma {:induction false} HitCountPrefixIncreasing(envelopes: seq<RedEnvelope>, s: Sweep, i: nat, j: nat)
    requires i < j <= |envelopes| && Collected(envelopes[i], s)
    ensures HitCount(envelopes[..i], s) < HitCount(envelopes[..j], s)
    decreases j
  {
    if j == i + 1 {
      HitPrefixStep(envelopes, s, i);
    } else {
      HitCountPrefixIncreasing(envelopes, s, i, j - 1);
      HitPrefixStep(envelopes, s, j - 1);
    }
  }

  /** The effect of handleCollisions on the envelope list `before`: every
      slot the sweep collects holds a new well-formed envelope whose id is
      the next one handed out, in slot order; every other slot is untouched.
      A respawned slot is not checked again in the same pass. */
  predicate CollisionOutcome(before: seq<RedEnvelope>, after: seq<RedEnvelope>, s: Sweep, c: GameConfig, firstId: nat) {
    |after| == |before| &&
    forall i :: 0 <= i < |before| ==>
      if Collected(before[i], s) then
        WellFormed(after[i], c) && after[i].id == firstId + HitCount(before[..i], s)
      else after[i] == before[i]
  }

  /** The ids a pass hands out are all different and lie in
      [firstId, firstId + number of hits). */
  lemma {:induction false} CollisionIdsFresh(before: seq<RedEnvelope>, after: seq<RedEnvelope>, s: Sweep, c: GameConfig, firstId: nat)
    requires CollisionOutcome(before, after, s, c, firstId)
    ensures forall i :: 0 <= i < |before| && Collected(before[i], s) ==>
      firstId <= after[i].id < firstId + HitCount(before, s)
    ensures forall i, j :: 0 <= i < j < |before| && Collected(before[i], s) && Collected(before[j], s) ==>
      after[i].id != after[j].id
  {
    assert before[..|before|] == before;
    forall i | 0 <= i < |before| && Collected(before[i], s)
      ensures firstId <= after[i].id < firstId + HitCount(before, s)
    {
      HitCountPrefixIncreasing(before, s, i, |before|);
    }
    forall i, j | 0 <= i < j < |before| && Collected(before[i], s) && Collected(before[j], s)
      ensures after[i].id != after[j].id
    {
      HitCountPrefixIncreasing(before, s, i, j);
    }
  }

  /** The invariant the engine keeps over its envelope list: every envelope
      well formed, ids below the next id and pairwise different. */
  predicate EnvelopesValid(envelopes: seq<RedEnvelope>, c: GameConfig, nextId: nat) {
    (forall i :: 0 <= i < |envelopes| ==> WellFormed(envelopes[i], c) && envelopes[i].id < nextId) &&
    (forall i, j :: 0 <= i < j < |envelopes| ==> envelopes[i].id != envelopes[j].id)
  }

  /** What a collision pass reads and writes: the envelope list, the draw
      cursor, the next id and the statistics. */
  datatype PassState = PassState(envelopes: seq<RedEnvelope>, cursor: nat, nextId: nat, stats: CollectionStats)

  /** respawnEnvelope(index) on state `st`, the tank on `tankPos`: an index
      out of range changes nothing; otherwise the slot is parked at
      (-10, -10), a new envelope is created against the parked list with the
      next id, and it takes the slot. */
  function RespawnSlot(g: Generator, seed: nat, c: GameConfig, tankPos: Position, st: PassState, index: nat): (r: PassState)
    requires ValidConfig(c)
    ensures |r.envelopes| == |st.envelopes| && r.stats == st.stats
  {
    if index >= |st.envelopes| then st
    else
      var parked := st.envelopes[index := st.envelopes[index].SetPosition(Position(-10, -10))];
      var spawned := SpawnEnvelope(g, seed, st.cursor, c, tankPos, parked, st.nextId);
      PassState(st.envelopes[index := spawned.0], spawned.1, st.nextId + 1, st.stats)
  }

  /** One collected envelope of value `value` added to the statistics. */
  function AddCollected(stats: CollectionStats, value: int): CollectionStats {
    CollectionStats(stats.collectedCount + 1, stats.collectedValue + value)
  }

  /** The loop of handleCollisions from slot i on: a slot the sweep collects
      (checked on the list as it stands) is counted, its value added, and it
      is respawned. */
  function CollectFrom(g: Generator, seed: nat, c: GameConfig, s: Sweep, st: PassState, i: nat): PassState
    requires ValidConfig(c)
    decreases |st.envelopes| - i
  {
    if i >= |st.envelopes| then st
    else if Collected(st.envelopes[i], s) then
      var counted := st.(stats := AddCollected(st.stats, st.envelopes[i].value));
      CollectFrom(g, seed, c, s, RespawnSlot(g, seed, c, s.tankPos, counted, i), i + 1)
    else CollectFrom(g, seed, c, s, st, i + 1)
  }

  /** The pass at slot i does slot i, then goes on from slot i + 1. */
  lemma CollectFromStep(g: Generator, seed: nat, c: GameConfig, s: Sweep, st: PassState, i: nat)
    requires ValidConfig(c) && i < |st.envelopes|
    ensures CollectFrom(g, seed, c, s, st, i) ==
      if Collected(st.envelopes[i], s) then
        CollectFrom(g, seed, c, s, RespawnSlot(g, seed, c, s.tankPos,
                                               st.(stats := AddCollected(st.stats, st.envelopes[i].value)), i), i + 1)
      else CollectFrom(g, seed, c, s, st, i + 1)
  {
  }

  /** The pass so far, against the list `before` it started from: slots
      before i are done, slots from i on are as they were. */
  predicate PassedUpTo(before: seq<RedEnvelope>, s: Sweep, c: GameConfig, firstId: nat,
                       stats0: CollectionStats, st: PassState, i: nat)
  {
    && i <= |before| == |st.envelopes|
    && (forall k :: i <= k < |before| ==> st.envelopes[k] == before[k])
    && (forall k :: 0 <= k < i ==>
          if Collected(before[k], s) then
            WellFormed(st.envelopes[k], c) && st.envelopes[k].id == firstId + HitCount(before[..k], s)
          else st.envelopes[k] == before[k])
    && st.nextId == firstId + HitCount(before[..i], s)
    && st.stats == CollectionStats(stats0.collectedCount + HitCount(before[..i], s),
                                   stats0.collectedValue + HitValue(before[..i], s))
  }

  /** Slot i done: the invariant of the pass moves from i to i + 1. */
  lemma PassedOneMore(g: Generator, seed: nat, c: GameConfig, s: Sweep, before: seq<RedEnvelope>, firstId: nat,
                      stats0: CollectionStats, st: PassState, i: nat)
    requires ValidConfig(c) && i < |before|
    requires PassedUpTo(before, s, c, firstId, stats0, st, i)
    ensures Collected(before[i], s) ==>
      PassedUpTo(before, s, c, firstId, stats0,
                 RespawnSlot(g, seed, c, s.tankPos, st.(stats := AddCollected(st.stats, st.envelopes[i].value)), i), i + 1)
    ensures !Collected(before[i], s) ==> PassedUpTo(before, s, c, firstId, stats0, st, i + 1)
  {
    HitPrefixStep(before, s, i);
    if Collected(before[i], s) {
      var counted := st.(stats := AddCollected(st.stats, st.envelopes[i].value));
      var parked := counted.envelopes[i := counted.envelopes[i].SetPosition(Position(-10, -10))];
      SpawnEnvelopeFacts(g, seed, counted.cursor, c, s.tankPos, parked, counted.nextId);
      var next := RespawnSlot(g, seed, c, s.tankPos, counted, i);
      assert next.envelopes == st.envelopes[i := next.envelopes[i]];
      assert WellFormed(next.envelopes[i], c) && next.envelopes[i].id == st.nextId;
    }
  }

  /** The whole pass: every collected slot of `before` holds a new
      well-formed envelope with the next id in slot order, every other slot
      is untouched, one id is used and the statistics grow by one count and
      the envelope's value per collected slot. */
  lemma {:induction false} CollectFromOutcome(g: Generator, seed: nat, c: GameConfig, s: Sweep, before: seq<RedEnvelope>,
                                              firstId: nat, stats0: CollectionStats, st: PassState, i: nat)
    requires ValidConfig(c)
    requires PassedUpTo(before, s, c, firstId, stats0, st, i)
    ensures var r := CollectFrom(g, seed, c, s, st, i);
      && CollisionOutcome(before, r.envelopes, s, c, firstId)
      && r.nextId == firstId + HitCount(before, s)
      && r.stats == CollectionStats(stats0.collectedCount + HitCount(before, s),
                                    stats0.collectedValue + HitValue(before, s))
    decreases |before| - i
  {
    if i == |before| {
      assert before[..i] == before;
    } else {
      PassedOneMore(g, seed, c, s, before, firstId, stats0, st, i);
      if Collected(before[i], s) {
        var counted := st.(stats := AddCollected(st.stats, st.envelopes[i].value));
        CollectFromOutcome(g, seed, c, s, before, firstId, stats0, RespawnSlot(g, seed, c, s.tankPos, counted, i), i + 1);
      } else {
        CollectFromOutcome(g, seed, c, s, before, firstId, stats0, st, i + 1);
      }
    }
  }

  /** A pass from the start, in the terms of CollisionOutcome. */
  lemma CollectionPass(g: Generator, seed: nat, c: GameConfig, s: Sweep, st: PassState)
    requires ValidConfig(c)
    ensures var r := CollectFrom(g, seed, c, s, st, 0);
      && CollisionOutcome(st.envelopes, r.envelopes, s, c, st.nextId)
      && r.nextId == st.nextId + HitCount(st.envelopes, s)
      && r.stats == CollectionStats(st.stats.collectedCount + HitCount(st.envelopes, s),
                                    st.stats.collectedValue + HitValue(st.envelopes, s))
  {
    assert st.envelopes[..0] == [];
    CollectFromOutcome(g, seed, c, s, st.envelopes, st.nextId, st.stats, st, 0);
  }

  /** A respawn keeps the list valid: the new envelope is well formed and
      takes the next id, which no other envelope has. */
  lemma RespawnKeepsValid(g: Generator, seed: nat, c: GameConfig, tankPos: Position, st: PassState, index: nat)
    requires ValidConfig(c) && EnvelopesValid(st.envelopes, c, st.nextId)
    ensures var r := RespawnSlot(g, seed, c, tankPos, st, index);
      EnvelopesValid(r.envelopes, c, r.nextId) && r.nextId >= st.nextId
  {
    if index < |st.envelopes| {
      var parked := st.envelopes[index := st.envelopes[index].SetPosition(Position(-10, -10))];
      SpawnEnvelopeFacts(g, seed, st.cursor, c, tankPos, parked, st.nextId);
      var r := RespawnSlot(g, seed, c, tankPos, st, index);
      assert r.envelopes == st.envelopes[index := r.envelopes[index]];
      assert r.envelopes[index].id == st.nextId && WellFormed(r.envelopes[index], c);
    }
  }

  /** A pass keeps the list valid. */
  lemma {:induction false} CollectFromKeepsValid(g: Generator, seed: nat, c: GameConfig, s: Sweep, st: PassState, i: nat)
    requires ValidConfig(c) && EnvelopesValid(st.envelopes, c, st.nextId)
    ensures var r := CollectFrom(g, seed, c, s, st, i);
      EnvelopesValid(r.envelopes, c, r.nextId)
    decreases |st.envelopes| - i
  {
    if i < |st.envelopes| {
      if Collected(st.envelopes[i], s) {
        var counted := st.(stats := AddCollected(st.stats, st.envelopes[i].value));
        RespawnKeepsValid(g, seed, c, s.tankPos, counted, i);
        CollectFromKeepsValid(g, seed, c, s, RespawnSlot(g, seed, c, s.tankPos, counted, i), i + 1);
      } else {
        CollectFromKeepsValid(g, seed, c, s, st, i + 1);
      }
    }
  }

  /** How one envelope is created: from the draw cursor, the list as it
      stands and the id, the new envelope and the cursor after it. */
  type Spawner = (nat, seq<RedEnvelope>, nat) -> (RedEnvelope, nat)

  /** createRandomEnvelope for the tank on `tankPos` and the supply g(seed, .). */
  function SpawnerOf(g: Generator, seed: nat, c: GameConfig, tankPos: Position): Spawner
    requires ValidConfig(c)
  {
    (cursor: nat, envelopes: seq<RedEnvelope>, id: nat) => SpawnEnvelope(g, seed, cursor, c, tankPos, envelopes, id)
  }

  /** Every envelope the spawner creates is well formed and carries the id
      it was given. */
  ghost predicate SpawnsWellFormed(spawn: Spawner, c: GameConfig) {
    forall cursor: nat, envelopes: seq<RedEnvelope>, id: nat ::
      WellFormed(spawn(cursor, envelopes, id).0, c) && spawn(cursor, envelopes, id).0.id == id
  }

  lemma SpawnerOfWellFormed(g: Generator, seed: nat, c: GameConfig, tankPos: Position)
    requires ValidConfig(c)
    ensures SpawnsWellFormed(SpawnerOf(g, seed, c, tankPos), c)
  {
    forall cursor: nat, envelopes: seq<RedEnvelope>, id: nat
      ensures WellFormed(SpawnerOf(g, seed, c, tankPos)(cursor, envelopes, id).0, c)
      ensures SpawnerOf(g, seed, c, tankPos)(cursor, envelopes, id).0.id == id
    {
      SpawnEnvelopeFacts(g, seed, cursor, c, tankPos, envelopes, id);
    }
  }

  /** One round of `envelopes.emplace_back(createRandomEnvelope(nextId++))`:
      a new envelope, created against the list as it stands with the next
      id, is appended. */
  function SpawnOne(spawn: Spawner, sofar: PassState): PassState {
    var spawned := spawn(sofar.cursor, sofar.envelopes, sofar.nextId);
    PassState(sofar.envelopes + [spawned.0], spawned.1, sofar.nextId + 1, sofar.stats)
  }

  /** n such rounds. */
  function SpawnAppend(spawn: Spawner, st: PassState, n: nat): PassState
    decreases n
  {
    if n == 0 then st else SpawnOne(spawn, SpawnAppend(spawn, st, n - 1))
  }

  /** Appending n envelopes adds n slots, uses n ids and leaves the
      statistics alone. */
  lemma {:induction false} SpawnAppendCounts(spawn: Spawner, st: PassState, n: nat)
    ensures var r := SpawnAppend(spawn, st, n);
      |r.envelopes| == |st.envelopes| + n && r.nextId == st.nextId + n && r.stats == st.stats
    decreases n
  {
    if n > 0 {
      SpawnAppendCounts(spawn, st, n - 1);
    }
  }

  /** Slots from `from` on hold well-formed envelopes numbered from
      `firstId` in slot order. */
  predicate FreshBlock(envelopes: seq<RedEnvelope>, from: nat, firstId: nat, c: GameConfig) {
    from <= |envelopes| &&
    forall k :: from <= k < |envelopes| ==>
      WellFormed(envelopes[k], c) && envelopes[k].id == firstId + (k - from)
  }

  /** One more well-formed envelope with the following id extends the block
      and leaves everything in front of it alone. */
  lemma AppendFresh(envelopes: seq<RedEnvelope>, e: RedEnvelope, from: nat, firstId: nat, c: GameConfig)
    requires FreshBlock(envelopes, from, firstId, c)
    requires WellFormed(e, c) && e.id == firstId + (|envelopes| - from)
    ensures FreshBlock(envelopes + [e], from, firstId, c)
    ensures (envelopes + [e])[..from] == envelopes[..from]
  {
    var r := envelopes + [e];
    forall k | from <= k < |r| ensures WellFormed(r[k], c) && r[k].id == firstId + (k - from) {
      if k < |envelopes| {
        assert r[k] == envelopes[k];
      }
    }
  }

  /** The list is kept as it was in front. */
  lemma {:induction false} SpawnAppendKeepsFront(spawn: Spawner, st: PassState, n: nat)
    ensures var r := SpawnAppend(spawn, st, n);
      |st.envelopes| <= |r.envelopes| && r.envelopes[..|st.envelopes|] == st.envelopes
    decreases n
  {
    if n > 0 {
      SpawnAppendKeepsFront(spawn, st, n - 1);
      var sofar := SpawnAppend(spawn, st, n - 1);
      var spawned := spawn(sofar.cursor, sofar.envelopes, sofar.nextId);
      assert (sofar.envelopes + [spawned.0])[..|st.envelopes|] == sofar.envelopes[..|st.envelopes|];
    }
  }

  /** The k-th new envelope is well formed with id st.nextId + k. */
  lemma {:induction false} SpawnAppendFresh(spawn: Spawner, c: GameConfig, st: PassState, n: nat)
    requires SpawnsWellFormed(spawn, c)
    ensures FreshBlock(SpawnAppend(spawn, st, n).envelopes, |st.envelopes|, st.nextId, c)
    decreases n
  {
    if n > 0 {
      SpawnAppendFresh(spawn, c, st, n - 1);
      SpawnAppendCounts(spawn, st, n - 1);
      var sofar := SpawnAppend(spawn, st, n - 1);
      var spawned := spawn(sofar.cursor, sofar.envelopes, sofar.nextId);
      AppendFresh(sofar.envelopes, spawned.0, |st.envelopes|, st.nextId, c);
    }
  }

  /** What appending `n` spawned envelopes does to a pass state: the list
      grows by `n` at its end, the front is unchanged, the new slots hold
      well-formed envelopes numbered on from the next id, and the statistics
      are untouched. */
  lemma SpawnAppendShape(spawn: Spawner, c: GameConfig, st: PassState, n: nat)
    requires SpawnsWellFormed(spawn, c)
    ensures var r := SpawnAppend(spawn, st, n);
      && |r.envelopes| == |st.envelopes| + n
      && r.envelopes[..|st.envelopes|] == st.envelopes
      && FreshBlock(r.envelopes, |st.envelopes|, st.nextId, c)
      && r.nextId == st.nextId + n && r.stats == st.stats
  {
    SpawnAppendCounts(spawn, st, n);
    SpawnAppendKeepsFront(spawn, st, n);
    SpawnAppendFresh(spawn, c, st, n);
  }

  /** Spawning onto a valid list keeps it valid: each new envelope takes an
      id no earlier envelope has. */
  lemma {:induction false} SpawnAppendKeepsValid(spawn: Spawner, c: GameConfig, st: PassState, n: nat)
    requires SpawnsWellFormed(spawn, c) && EnvelopesValid(st.envelopes, c, st.nextId)
    ensures var r := SpawnAppend(spawn, st, n);
      EnvelopesValid(r.envelopes, c, r.nextId)
    decreases n
  {
    if n > 0 {
      SpawnAppendKeepsValid(spawn, c, st, n - 1);
      var sofar := SpawnAppend(spawn, st, n - 1);
      AppendValid(sofar.envelopes, spawn(sofar.cursor, sofar.envelopes, sofar.nextId).0, c, sofar.nextId);
    }
  }

  /** A valid list with one well-formed envelope appended whose id is the
      next one is valid for the id after it. */
  lemma AppendValid(envelopes: seq<RedEnvelope>, e: RedEnvelope, c: GameConfig, nextId: nat)
    requires EnvelopesValid(envelopes, c, nextId) && WellFormed(e, c) && e.id == nextId
    ensures EnvelopesValid(envelopes + [e], c, nextId + 1)
  {
    var r := envelopes + [e];
    forall i, j | 0 <= i < j < |r| ensures r[i].id != r[j].id {
      if j == |envelopes| {
        assert r[i] == envelopes[i];
      } else {
        assert r[i] == envelopes[i] && r[j] == envelopes[j];
      }
    }
  }

  /** What reset leaves: initialEnvelopeCount well-formed envelopes with ids
      0, 1, ... are created, then the collection pass for the tank at rest
      on its cell runs over them; the list stays valid. */
  lemma ResetOutcome(g: Generator, seed: nat, c: GameConfig, cursor: nat, s: Sweep)
    requires ValidConfig(c)
    ensures var created := SpawnAppend(SpawnerOf(g, seed, c, s.tankPos), PassState([], cursor, 0, CollectionStats(0, 0)),
                                       c.initialEnvelopeCount);
      var r := CollectFrom(g, seed, c, s, created, 0);
      && |created.envelopes| == c.initialEnvelopeCount
      && FreshBlock(created.envelopes, 0, 0, c)
      && CollisionOutcome(created.envelopes, r.envelopes, s, c, c.initialEnvelopeCount)
      && r.nextId == c.initialEnvelopeCount + HitCount(created.envelopes, s)
      && r.stats == CollectionStats(HitCount(created.envelopes, s), HitValue(created.envelopes, s))
      && EnvelopesValid(r.envelopes, c, r.nextId)
  {
    var spawn := SpawnerOf(g, seed, c, s.tankPos);
    var empty := PassState([], cursor, 0, CollectionStats(0, 0));
    var n: nat := c.initialEnvelopeCount;
    SpawnerOfWellFormed(g, seed, c, s.tankPos);
    SpawnAppendCounts(spawn, empty, n);
    SpawnAppendFresh(spawn, c, empty, n);
    SpawnAppendKeepsValid(spawn, c, empty, n);
    var created := SpawnAppend(spawn, empty, n);
    CollectionPass(g, seed, c, s, created);
    CollectFromKeepsValid(g, seed, c, s, created, 0);
  }

  // ----- Pause-aware clock ----------------------------------------------------

  datatype Clock = Clock(startTime: Option<real>, paused: bool, pausedAccumulated: real, pauseStart: Option<real>)

  /** elapsedSeconds: time since the start, minus the paused time, with the
      clock read at the pause start while paused, never negative. */
  function Elapsed(c: Clock, now: real): (r: real)
    ensures r >= 0.0
    ensures c.startTime.None? ==> r == 0.0
    ensures c.startTime.Some? && !c.paused ==>
      r == Tanks.MaxReal(0.0, now - c.startTime.value - c.pausedAccumulated)
  {
    match c.startTime
    case None => 0.0
    case Some(start) =>
      var reference := if c.paused && c.pauseStart.Some? then c.pauseStart.value else now;
      Tanks.MaxReal(0.0, reference - start - c.pausedAccumulated)
  }

  /** While paused the elapsed time does not depend on the clock reading. */
  lemma ElapsedFrozenWhilePaused(c: Clock, now1: real, now2: real)
    requires c.paused && c.pauseStart.Some?
    ensures Elapsed(c, now1) == Elapsed(c, now2) == Elapsed(c, c.pauseStart.value)
  {
  }

  /** While running the elapsed time never goes backwards. */
  lemma ElapsedMonotoneWhileRunning(c: Clock, now1: real, now2: real)
    requires !c.paused && now1 <= now2
    ensures Elapsed(c, now1) <= Elapsed(c, now2)
  {
  }

  function PauseClock(c: Clock, now: real): (r: Clock)
    ensures r.paused
    ensures c.paused ==> r == c
    ensures !c.paused ==> r.pauseStart == Some(now)
    ensures r.startTime == c.startTime && r.pausedAccumulated == c.pausedAccumulated
  {
    if c.paused then c else c.(paused := true, pauseStart := Some(now))
  }

  function ResumeClock(c: Clock, now: real): (r: Clock)
    ensures !r.paused
    ensures !c.paused ==> r == c
    ensures c.paused ==> r.pauseStart.None?
    ensures c.paused && c.pauseStart.Some? ==>
      r.pausedAccumulated == c.pausedAccumulated + (now - c.pauseStart.value)
    ensures r.startTime == c.startTime
  {
    if !c.paused then c
    else
      var accumulated := match c.pauseStart
        case Some(ps) => c.pausedAccumulated + (now - ps)
        case None => c.pausedAccumulated;
      c.(pausedAccumulated := accumulated, paused := false, pauseStart := None)
  }

  function ToggleClock(c: Clock, now: real): (r: Clock)
    ensures r.paused == !c.paused
  {
    if c.paused then ResumeClock(c, now) else PauseClock(c, now)
  }

  /** Pausing or resuming twice does what doing it once does. */
  lemma PauseResumeIdempotent(c: Clock, t1: real, t2: real)
    ensures PauseClock(PauseClock(c, t1), t2) == PauseClock(c, t1)
    ensures ResumeClock(ResumeClock(c, t1), t2) == ResumeClock(c, t1)
  {
  }

  /** A pause from t1 to t2 is excluded: the elapsed time at t3 after the
      resume is the elapsed time at the pause plus the time since the resume. */
  lemma {:induction false} PausedIntervalExcluded(c: Clock, t1: real, t2: real, t3: real)
    requires c.startTime.Some? && !c.paused
    requires c.startTime.value + c.pausedAccumulated <= t1 <= t2 <= t3
    ensures Elapsed(ResumeClock(PauseClock(c, t1), t2), t3) == Elapsed(c, t1) + (t3 - t2)
  {
    var p := PauseClock(c, t1);
    var r := ResumeClock(p, t2);
    assert r.pausedAccumulated == c.pausedAccumulated + (t2 - t1);
    assert Elapsed(c, t1) == t1 - c.startTime.value - c.pausedAccumulated;
  }

  /** isTimeUp. */
  predicate TimeUp(c: Clock, now: real, limitSeconds: int) {
    Elapsed(c, now) >= limitSeconds as real
  }

  /** Once the limit is reached the game stays over while running, and a
      pause does not bring it back. */
  lemma TimeUpPersists(c: Clock, now1: real, now2: real, limitSeconds: int)
    requires TimeUp(c, now1, limitSeconds) && !c.paused && now1 <= now2
    ensures TimeUp(c, now2, limitSeconds)
    ensures TimeUp(PauseClock(c, now2), now2, limitSeconds)
  {
  }

  // ----- One moveTank -------------------------------------------------------

  /** moveTank(direction) at clock reading `now`, on the tank state `t` and
      the envelope pass state `p`: refused (nothing changes) once time is up
      or while paused; otherwise the tank moves as `MoveSpec` says and the
      envelopes are collected along the sweep from the old exact position to
      the new one. */
  function MoveOutcome(g: Generator, seed: nat, c: GameConfig, clock: Clock, t: Tanks.TankState, p: PassState,
                       direction: Tanks.MoveDirection, now: real): (Tanks.TankState, PassState)
    requires ValidConfig(c) && Tanks.TankInvariant(t)
  {
    if TimeUp(clock, now, c.timeLimitSeconds) || clock.paused then (t, p)
    else
      var moved := Tanks.MoveSpec(t, direction, c.worldWidth, c.worldHeight).0;
      (moved, CollectFrom(g, seed, c, Sweep(moved.position, t.exactX, t.exactY, moved.exactX, moved.exactY), p, 0))
  }

  /** A refused move changes nothing. An accepted one keeps the number of
      envelopes, respawns exactly the envelopes the sweep reaches with fresh
      ids, counts one collection per such envelope and adds their values, and
      keeps the tank's invariant. */
  lemma MoveOutcomeMeaning(g: Generator, seed: nat, c: GameConfig, clock: Clock, t: Tanks.TankState, p: PassState,
                           direction: Tanks.MoveDirection, now: real)
    requires ValidConfig(c) && Tanks.TankInvariant(t)
    ensures var r := MoveOutcome(g, seed, c, clock, t, p, direction, now);
      && Tanks.TankInvariant(r.0)
      && |r.1.envelopes| == |p.envelopes|
      && ((TimeUp(clock, now, c.timeLimitSeconds) || clock.paused) ==> r == (t, p))
      && (!(TimeUp(clock, now, c.timeLimitSeconds) || clock.paused) ==>
            var s := Sweep(r.0.position, t.exactX, t.exactY, r.0.exactX, r.0.exactY);
            && r.0 == Tanks.MoveSpec(t, direction, c.worldWidth, c.worldHeight).0
            && CollisionOutcome(p.envelopes, r.1.envelopes, s, c, p.nextId)
            && r.1.nextId == p.nextId + HitCount(p.envelopes, s)
            && r.1.stats == CollectionStats(p.stats.collectedCount + HitCount(p.envelopes, s),
                                            p.stats.collectedValue + HitValue(p.envelopes, s)))
  {
    if !(TimeUp(clock, now, c.timeLimitSeconds) || clock.paused) {
      var moved := Tanks.MoveSpec(t, direction, c.worldWidth, c.worldHeight).0;
      var s := Sweep(moved.position, t.exactX, t.exactY, moved.exactX, moved.exactY);
      CollectionPass(g, seed, c, s, p);
    }
  }
}
