/** The tank of src/backend/Tank.cpp: a grid cell, a continuous position,
    a momentum scalar and the last direction, updated in place by `move`
    and `setPosition`; plus the integer at-rest collision test.

    Doubles are exact reals here; `std::round` is written out (`Round`). */
module Tanks {
  import opened RedEnvelopes

  datatype MoveDirection = Up | Down | Left | Right | None

  function MaxInt(a: int, b: int): int { if a >= b then a else b }
  function MinReal(a: real, b: real): real { if a <= b then a else b }
  function MaxReal(a: real, b: real): real { if a >= b then a else b }

  /** std::round: the nearest integer, halfway cases away from zero. */
  function Round(x: real): (r: int)
    ensures x >= 0.0 ==> r as real - 0.5 <= x < r as real + 0.5
    ensures x < 0.0 ==> r as real - 0.5 < x <= r as real + 0.5
  {
    if x >= 0.0 then (x + 0.5).Floor else -((-x + 0.5).Floor)
  }

  lemma RoundOfInteger(n: int)
    ensures Round(n as real) == n
  {
  }

  /** Rounding a value of [0, hi] for a whole number hi stays in [0, hi]. */
  lemma RoundInRange(x: real, hi: int)
    requires 0.0 <= x <= hi as real
    ensures 0 <= Round(x) <= hi
  {
  }

  /** Everything Tank.cpp keeps, as one value. */
  datatype TankState = TankState(
    position: Position,
    moveStep: int,
    exactX: real,
    exactY: real,
    momentum: real,
    increment: real,
    decay: real,
    maxMomentum: real,
    lastDirection: MoveDirection)

  /** What the constructor establishes and every operation keeps: the
      momentum constants are the fixed multiples of the step, the momentum
      stays in [0, maxMomentum], and the grid cell is the rounded exact
      position. */
  ghost predicate TankInvariant(t: TankState) {
    && t.moveStep >= 1
    && t.increment == t.moveStep as real * 0.45
    && t.decay == t.moveStep as real * 0.6
    && t.maxMomentum == t.moveStep as real * 3.5
    && 0.0 <= t.momentum <= t.maxMomentum
    && t.position == Position(Round(t.exactX), Round(t.exactY))
  }

  /** Momentum after choosing `dir`, before any wall clamp. */
  function NextMomentum(t: TankState, dir: MoveDirection): (m: real)
    requires TankInvariant(t)
    ensures 0.0 <= m <= t.maxMomentum
    ensures dir == t.lastDirection ==> t.momentum <= m
    ensures dir == t.lastDirection && t.momentum + t.increment <= t.maxMomentum ==>
      m == t.momentum + t.increment
    ensures dir != t.lastDirection ==> m <= t.momentum
    ensures dir != t.lastDirection && t.momentum > 0.0 && t.momentum >= t.decay ==>
      m == t.momentum - t.decay
  {
    if t.lastDirection == dir then MinReal(t.momentum + t.increment, t.maxMomentum)
    else if t.momentum > 0.0 then MaxReal(0.0, t.momentum - t.decay)
    else t.momentum
  }

  /** The world's largest coordinate on an axis of `size` cells. */
  function AxisMax(size: int): (hi: real)
    ensures hi >= 0.0
  {
    MaxInt(0, size - 1) as real
  }

  predicate OutOfAxis(v: real, hi: real) {
    v < 0.0 || v > hi
  }

  function ClampAxis(v: real, hi: real): (r: real)
    requires hi >= 0.0
    ensures 0.0 <= r <= hi
    ensures !OutOfAxis(v, hi) ==> r == v
  {
    if v < 0.0 then 0.0 else if v > hi then hi else v
  }

  /** The candidate position: `delta` applied along the direction's axis. */
  function CandidateX(x: real, dir: MoveDirection, delta: real): real {
    match dir
    case Left => x - delta
    case Right => x + delta
    case _ => x
  }

  function CandidateY(y: real, dir: MoveDirection, delta: real): real {
    match dir
    case Up => y - delta
    case Down => y + delta
    case _ => y
  }

  predicate Vertical(dir: MoveDirection) { dir == Up || dir == Down }
  predicate Horizontal(dir: MoveDirection) { dir == Left || dir == Right }

  /** The state after `move(dir, w, h)` and the value it returns. */
  function MoveSpec(t: TankState, dir: MoveDirection, w: int, h: int): (r: (TankState, bool))
    requires TankInvariant(t)
    ensures TankInvariant(r.0)
    ensures r.0.moveStep == t.moveStep && r.0.increment == t.increment
    ensures r.0.decay == t.decay && r.0.maxMomentum == t.maxMomentum
    ensures r.0.lastDirection == dir
    // A None direction stops the tank where it is.
    ensures dir == None ==>
      !r.1 && r.0.momentum == 0.0 && r.0.position == t.position &&
      r.0.exactX == t.exactX && r.0.exactY == t.exactY
    // Otherwise the tank ends inside the world, on the rounded cell.
    ensures dir != None ==>
      0.0 <= r.0.exactX <= AxisMax(w) && 0.0 <= r.0.exactY <= AxisMax(h) &&
      0 <= r.0.position.x <= MaxInt(0, w - 1) && 0 <= r.0.position.y <= MaxInt(0, h - 1)
    // It moves by step + momentum along the axis of its direction only.
    ensures dir != None ==>
      var delta := t.moveStep as real + NextMomentum(t, dir);
      r.0.exactX == ClampAxis(CandidateX(t.exactX, dir, delta), AxisMax(w)) &&
      r.0.exactY == ClampAxis(CandidateY(t.exactY, dir, delta), AxisMax(h))
    // Touching a wall kills the momentum; otherwise it is the new momentum.
    ensures dir != None ==>
      var delta := t.moveStep as real + NextMomentum(t, dir);
      var clamped := OutOfAxis(CandidateX(t.exactX, dir, delta), AxisMax(w)) ||
                     OutOfAxis(CandidateY(t.exactY, dir, delta), AxisMax(h));
      r.0.momentum == if clamped then 0.0 else NextMomentum(t, dir)
    // The result reports exactly whether the grid cell changed.
    ensures r.1 <==> r.0.position != t.position
  {
    if dir == None then
      (t.(momentum := 0.0, lastDirection := None), false)
    else
      var m := NextMomentum(t, dir);
      var delta := t.moveStep as real + m;
      var nx := CandidateX(t.exactX, dir, delta);
      var ny := CandidateY(t.exactY, dir, delta);
      var hiX := AxisMax(w);
      var hiY := AxisMax(h);
      var clamped := OutOfAxis(nx, hiX) || OutOfAxis(ny, hiY);
      var cx := ClampAxis(nx, hiX);
      var cy := ClampAxis(ny, hiY);
      RoundInRange(cx, MaxInt(0, w - 1));
      RoundInRange(cy, MaxInt(0, h - 1));
      var p := Position(Round(cx), Round(cy));
      (t.(position := p, exactX := cx, exactY := cy,
          momentum := if clamped then 0.0 else m, lastDirection := dir),
       p != t.position)
  }

  /** MoveSpec for a real direction, spelled out step by step. */
  lemma MoveSpecUnfold(t: TankState, dir: MoveDirection, w: int, h: int)
    requires TankInvariant(t) && dir != None
    ensures var m := NextMomentum(t, dir);
      var delta := t.moveStep as real + m;
      var nx := CandidateX(t.exactX, dir, delta);
      var ny := CandidateY(t.exactY, dir, delta);
      var cx := ClampAxis(nx, AxisMax(w));
      var cy := ClampAxis(ny, AxisMax(h));
      var p := Position(Round(cx), Round(cy));
      MoveSpec(t, dir, w, h) ==
        (t.(position := p, exactX := cx, exactY := cy,
            momentum := if OutOfAxis(nx, AxisMax(w)) || OutOfAxis(ny, AxisMax(h)) then 0.0 else m,
            lastDirection := dir),
         p != t.position)
  {
  }

  /** A move along one axis leaves the other coordinate alone when the tank
      was already inside the world on that axis. */
  lemma MoveKeepsOtherAxis(t: TankState, dir: MoveDirection, w: int, h: int)
    requires TankInvariant(t) && dir != None
    ensures Vertical(dir) && !OutOfAxis(t.exactX, AxisMax(w)) ==>
      MoveSpec(t, dir, w, h).0.exactX == t.exactX
    ensures Horizontal(dir) && !OutOfAxis(t.exactY, AxisMax(h)) ==>
      MoveSpec(t, dir, w, h).0.exactY == t.exactY
  {
  }

  /** Repeating the previous direction away from the walls never loses
      momentum, and gains the full increment until the cap. */
  lemma SameDirectionBuildsMomentum(t: TankState, dir: MoveDirection, w: int, h: int)
    requires TankInvariant(t) && dir != None && dir == t.lastDirection
    requires var delta := t.moveStep as real + NextMomentum(t, dir);
      !OutOfAxis(CandidateX(t.exactX, dir, delta), AxisMax(w)) &&
      !OutOfAxis(CandidateY(t.exactY, dir, delta), AxisMax(h))
    ensures MoveSpec(t, dir, w, h).0.momentum >= t.momentum
    ensures MoveSpec(t, dir, w, h).0.momentum ==
      MinReal(t.momentum + t.increment, t.maxMomentum)
  {
  }

  /** A change of direction decays the momentum instead of zeroing it. */
  lemma TurnDecaysMomentum(t: TankState, dir: MoveDirection)
    requires TankInvariant(t) && dir != t.lastDirection && t.momentum > 0.0
    ensures NextMomentum(t, dir) == MaxReal(0.0, t.momentum - t.decay)
  {
  }

  /** The at-rest test of `isColliding`: squared grid distance against the
      squared radius, a negative radius counting as zero. */
  predicate IsColliding(tankPos: Position, envelope: RedEnvelope) {
    var dx := tankPos.x - envelope.position.x;
    var dy := tankPos.y - envelope.position.y;
    var radius := MaxInt(0, envelope.collectionRadius);
    dx * dx + dy * dy <= radius * radius
  }

  /** With no positive radius only the envelope's own cell collides. */
  lemma {:induction false} CollidingWithoutRadius(tankPos: Position, envelope: RedEnvelope)
    requires envelope.collectionRadius <= 0
    ensures IsColliding(tankPos, envelope) <==> tankPos == envelope.position
  {
    var dx := tankPos.x - envelope.position.x;
    var dy := tankPos.y - envelope.position.y;
    if dx != 0 || dy != 0 {
      assert dx * dx > 0 || dy * dy > 0;
      assert dx * dx >= 0 && dy * dy >= 0;
    }
  }

  lemma SquareBelow(a: int, b: int)
    requires 0 <= a <= b
    ensures a * a <= b * b
  {
    assert a * a <= a * b;
    assert a * b <= b * b;
  }

  lemma SquareStrictlyBelow(a: int, b: int)
    requires 0 <= a < b
    ensures a * a < b * b
  {
    assert a * a <= a * b;
    assert a * b < b * b;
  }

  /** Every cell within the radius along a row or a column collides, and a
      cell farther than the radius along a row or a column does not. */
  lemma CollidingAlongAxis(tankPos: Position, envelope: RedEnvelope, d: int)
    requires envelope.collectionRadius >= 0
    requires tankPos == Position(envelope.position.x + d, envelope.position.y)
    ensures IsColliding(tankPos, envelope) <==> -envelope.collectionRadius <= d <= envelope.collectionRadius
  {
    var r := envelope.collectionRadius;
    assert d * d == (-d) * (-d);
    if d > r {
      SquareStrictlyBelow(r, d);
    } else if d < -r {
      SquareStrictlyBelow(r, -d);
    } else if d >= 0 {
      SquareBelow(d, r);
    } else {
      SquareBelow(-d, r);
    }
  }

  class Tank {
    var position: Position
    const moveStep: int
    var exactX: real
    var exactY: real
    var currentMomentum: real
    const momentumIncrement: real
    const momentumDecay: real
    const momentumMax: real
    var lastDirection: MoveDirection

    function State(): TankState
      reads this
    {
      TankState(position, moveStep, exactX, exactY, currentMomentum,
                momentumIncrement, momentumDecay, momentumMax, lastDirection)
    }

    ghost predicate Valid()
      reads this
    {
      TankInvariant(State())
    }

    /** The step is at least 1 and the momentum constants are 0.45, 0.6 and
        3.5 times it; the tank starts at rest on `startPosition`. */
    constructor (startPosition: Position, moveStepArg: int)
      ensures Valid()
      ensures position == startPosition
      ensures exactX == startPosition.x as real && exactY == startPosition.y as real
      ensures moveStep == MaxInt(1, moveStepArg)
      ensures momentumIncrement == moveStep as real * 0.45
      ensures momentumDecay == moveStep as real * 0.6
      ensures momentumMax == moveStep as real * 3.5
      ensures currentMomentum == 0.0 && lastDirection == None
    {
      position := startPosition;
      moveStep := MaxInt(1, moveStepArg);
      exactX := startPosition.x as real;
      exactY := startPosition.y as real;
      var base := MaxInt(1, moveStepArg) as real;
      momentumIncrement := base * 0.45;
      momentumDecay := base * 0.6;
      momentumMax := base * 3.5;
      currentMomentum := 0.0;
      lastDirection := None;
      RoundOfInteger(startPosition.x);
      RoundOfInteger(startPosition.y);
    }

    method Move(direction: MoveDirection, worldWidth: int, worldHeight: int) returns (moved: bool)
      requires Valid()
      modifies this
      ensures Valid()
      ensures State() == MoveSpec(old(State()), direction, worldWidth, worldHeight).0
      ensures moved == MoveSpec(old(State()), direction, worldWidth, worldHeight).1
    {
      if direction == None {
        currentMomentum := 0.0;
        lastDirection := None;
        return false;
      }
      ghost var t0 := State();
      UpdateMomentum(direction);
      var delta := moveStep as real + currentMomentum;
      var nextX, nextY := Candidate(direction, delta);
      var maxX := MaxInt(0, worldWidth - 1) as real;
      var maxY := MaxInt(0, worldHeight - 1) as real;
      var clampedX, clampedY;
      nextX, clampedX := ClampCoordinate(nextX, maxX);
      nextY, clampedY := ClampCoordinate(nextY, maxY);
      if clampedX || clampedY {
        currentMomentum := 0.0;
      }
      moved := Place(nextX, nextY, direction);
      MoveSpecUnfold(t0, direction, worldWidth, worldHeight);
    }

    /** The end of `move`: the exact and grid positions take the new
        coordinates, the direction is remembered, and the result says
        whether the grid cell changed. */
    method Place(nextX: real, nextY: real, direction: MoveDirection) returns (moved: bool)
      modifies this`exactX, this`exactY, this`position, this`lastDirection
      ensures State() == old(State()).(position := Position(Round(nextX), Round(nextY)),
                                       exactX := nextX, exactY := nextY, lastDirection := direction)
      ensures moved <==> Position(Round(nextX), Round(nextY)) != old(position)
    {
      var previous := position;
      exactX := nextX;
      exactY := nextY;
      position := Position(Round(nextX), Round(nextY));
      lastDirection := direction;
      moved := position.x != previous.x || position.y != previous.y;
    }

    /** The momentum rule of `move`: build up along the same direction,
        decay after a turn. */
    method UpdateMomentum(direction: MoveDirection)
      requires Valid()
      modifies this`currentMomentum
      ensures currentMomentum == NextMomentum(old(State()), direction)
    {
      if lastDirection == direction {
        currentMomentum := MinReal(currentMomentum + momentumIncrement, momentumMax);
      } else if currentMomentum > 0.0 {
        currentMomentum := MaxReal(0.0, currentMomentum - momentumDecay);
      }
    }

    /** The switch of `move`: the exact position moved by `delta` along the
        direction's axis. */
    method Candidate(direction: MoveDirection, delta: real) returns (nextX: real, nextY: real)
      ensures nextX == CandidateX(exactX, direction, delta) && nextY == CandidateY(exactY, direction, delta)
    {
      nextX := exactX;
      nextY := exactY;
      match direction {
        case Up => nextY := nextY - delta;
        case Down => nextY := nextY + delta;
        case Left => nextX := nextX - delta;
        case Right => nextX := nextX + delta;
        case None =>
      }
    }
    /** One wall test of `move`: the coordinate pulled back into [0, maxV],
        and whether it had to be. */
    static method ClampCoordinate(v: real, maxV: real) returns (r: real, clamped: bool)
      requires maxV >= 0.0
      ensures r == ClampAxis(v, maxV) && clamped == OutOfAxis(v, maxV)
    {
      r := v;
      clamped := false;
      if v < 0.0 {
        r := 0.0;
        clamped := true;
      } else if v > maxV {
        r := maxV;
        clamped := true;
      }
    }

    /** A teleport: grid and exact position on the new cell, at rest. */
    method SetPosition(newPosition: Position)
      requires Valid()
      modifies this
      ensures Valid()
      ensures position == newPosition
      ensures exactX == newPosition.x as real && exactY == newPosition.y as real
      ensures currentMomentum == 0.0 && lastDirection == None
    {
      position := newPosition;
      exactX := newPosition.x as real;
      exactY := newPosition.y as real;
      currentMomentum := 0.0;
      lastDirection := None;
      RoundOfInteger(newPosition.x);
      RoundOfInteger(newPosition.y);
    }
  }
}
