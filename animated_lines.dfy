/**
 * The particle-line ("snake") background (components/AnimatedLines.js).
 *
 * A snake is a record built from configuration constants and four random
 * draws. A throttled tick keeps the first ten snakes, computes a new `x`/`y`
 * for each from its `position`, `direction` and `speed`, drops those outside
 * the viewport padded by 50 on every side, and adds one fresh snake when
 * fewer than `MinSnakes` remain.
 *
 * As written, the tick never writes `position` back, so every tick computes
 * the same `x`/`y` for a snake again: snakes never travel. The model keeps
 * that behaviour (`AdvanceIdempotent`, `SteadyPopulation`).
 *
 * The clock, the random numbers and the screen size are parameters;
 * JavaScript's floating-point numbers are modelled as exact reals.
 */
module AnimatedLines {

  // SNAKE_CONFIG
  const SegmentLength: real := 37.5
  const BaseLength: nat := 52
  const Length: nat := 35
  const BaseSpeed: real := 6.0
  const MaxTurns: nat := 3
  const LengthVariation: nat := 20
  const SpeedVariation: real := 3.0
  const MinSnakes: nat := 5

  /** The local `MAX_SNAKES` of the tick: only this many snakes are processed. */
  const TickLimit: nat := 10
  /** Milliseconds that must pass between two ticks that do any work. */
  const ThrottleMs: int := 100
  /** How far outside the screen a snake may be and still be kept. */
  const Padding: real := 50.0

  datatype Vec = Vec(x: real, y: real)

  /** The two animated values of one trail dot, at their initial values. */
  datatype Dot = Dot(x: real, y: real)

  /** The fields a tick adds by spreading the snake: none before the first
      tick the snake takes part in. */
  datatype Motion = Unmoved | Moved(x: real, y: real, speedX: real, speedY: real)

  datatype Snake = Snake(
    id: real,
    dots: seq<Dot>,
    direction: Vec,
    position: Vec,
    path: seq<Vec>,
    turnsRemaining: nat,
    lastTurnX: real,
    speed: real,
    motion: Motion)

  /** The four `Math.random()` results one `createSnake` call consumes. */
  datatype Draws = Draws(id: real, length: real, y: real, speed: real)

  predicate Unit(r: real) { 0.0 <= r < 1.0 }

  predicate ValidDraws(d: Draws) {
    Unit(d.id) && Unit(d.length) && Unit(d.y) && Unit(d.speed)
  }

  /** The trail length: `BASE_LENGTH + Math.floor(random * LENGTH_VARIATION)`. */
  function TrailLength(r: real): (n: nat)
    requires Unit(r)
    ensures BaseLength <= n <= BaseLength + LengthVariation - 1
  {
    var k := (r * LengthVariation as real).Floor;
    assert 0 <= k < LengthVariation;
    BaseLength + k
  }

  /** The entry height: `random * screenHeight * 0.8 + screenHeight * 0.1`,
      within the middle 80% of the screen. */
  function EntryY(r: real, screenHeight: real): (y: real)
    requires Unit(r)
    ensures screenHeight >= 0.0 ==> 0.1 * screenHeight <= y <= 0.9 * screenHeight
    ensures screenHeight > 0.0 ==> y < 0.9 * screenHeight
  {
    var scaled := r * screenHeight;
    assert screenHeight >= 0.0 ==> 0.0 <= scaled <= screenHeight;
    assert screenHeight > 0.0 ==> scaled < 1.0 * screenHeight;
    scaled * 0.8 + screenHeight * 0.1
  }

  /** `createSnake`: a snake entering at the left edge, heading right. */
  function CreateSnake(d: Draws, screenHeight: real): (s: Snake)
    requires ValidDraws(d)
    ensures s.id == d.id
    ensures BaseLength <= |s.dots| <= BaseLength + LengthVariation - 1
    ensures forall i :: 0 <= i < |s.dots| ==> s.dots[i] == Dot(-SegmentLength, 0.0)
    ensures s.direction == Vec(1.0, 0.0)
    ensures s.position.x == -SegmentLength == s.lastTurnX
    ensures screenHeight >= 0.0 ==> 0.1 * screenHeight <= s.position.y <= 0.9 * screenHeight
    ensures screenHeight > 0.0 ==> s.position.y < 0.9 * screenHeight
    ensures s.path == [] && s.turnsRemaining == MaxTurns
    ensures BaseSpeed <= s.speed < BaseSpeed + SpeedVariation
    ensures s.motion == Unmoved
  {
    Snake(
      d.id,
      seq(TrailLength(d.length), _ => Dot(-SegmentLength, 0.0)),
      Vec(1.0, 0.0),
      Vec(-SegmentLength, EntryY(d.y, screenHeight)),
      [],
      MaxTurns,
      -SegmentLength,
      BaseSpeed + d.speed * SpeedVariation,
      Unmoved)
  }

  /** The shape every snake keeps for its whole life: what `createSnake`
      gives it and the tick's `map` copies. */
  predicate WellFormed(s: Snake, screenHeight: real) {
    && BaseLength <= |s.dots| < BaseLength + LengthVariation
    && s.direction == Vec(1.0, 0.0)
    && s.position.x == -SegmentLength
    && (screenHeight >= 0.0 ==> 0.1 * screenHeight <= s.position.y <= 0.9 * screenHeight)
    && BaseSpeed <= s.speed < BaseSpeed + SpeedVariation
  }

  /** The snakes the initial effect creates, one per set of draws. */
  function Population(draws: seq<Draws>, screenHeight: real): (ss: seq<Snake>)
    requires forall i :: 0 <= i < |draws| ==> ValidDraws(draws[i])
    ensures |ss| == |draws|
    ensures forall i :: 0 <= i < |ss| ==> ss[i] == CreateSnake(draws[i], screenHeight)
    ensures forall i :: 0 <= i < |ss| ==>
      ss[i].id == draws[i].id && WellFormed(ss[i], screenHeight) && ss[i].motion == Unmoved
  {
    seq(|draws|, i requires 0 <= i < |draws| => CreateSnake(draws[i], screenHeight))
  }

  /** The body of the tick's `map`: new `x`/`y` and `speedX`/`speedY`, all
      computed from `position`, which stays as it was. */
  function Advance(s: Snake, screenWidth: real, screenHeight: real): (r: Snake)
    ensures r.motion.Moved?
    ensures r.(motion := s.motion) == s
    ensures r.motion.x == s.position.x + s.direction.x * s.speed
    ensures r.motion.y == s.position.y + s.direction.y * s.speed
  {
    var p, d, v := s.position, s.direction, s.speed;
    s.(motion := Moved(
      p.x + d.x * v,
      p.y + d.y * v,
      if p.x <= 0.0 || p.x >= screenWidth + SegmentLength then -d.x * v else d.x * v,
      if p.y <= 0.0 || p.y >= screenHeight + SegmentLength then -d.y * v else d.y * v))
  }

  /** The tick's `map` over the snakes it processes. */
  function AdvanceAll(ss: seq<Snake>, screenWidth: real, screenHeight: real): (r: seq<Snake>)
    ensures |r| == |ss|
    ensures forall i :: 0 <= i < |r| ==> r[i] == Advance(ss[i], screenWidth, screenHeight)
    // nothing but the computed fields changes, so the shape is kept
    ensures forall i :: 0 <= i < |r| ==> r[i].(motion := ss[i].motion) == ss[i]
    ensures forall i :: 0 <= i < |r| ==> (WellFormed(r[i], screenHeight) <==> WellFormed(ss[i], screenHeight))
    // a second pass computes the same snakes
    ensures forall i :: 0 <= i < |r| ==> Advance(r[i], screenWidth, screenHeight) == r[i]
  {
    seq(|ss|, i requires 0 <= i < |ss| => Advance(ss[i], screenWidth, screenHeight))
  }

  /** The body of the tick's `filter`: the computed `x`/`y` lie in the screen
      padded by 50. A snake without them fails every comparison. */
  predicate Visible(s: Snake, screenWidth: real, screenHeight: real) {
    match s.motion
    case Unmoved => false
    case Moved(x, y, _, _) =>
      -Padding <= x <= screenWidth + Padding && -Padding <= y <= screenHeight + Padding
  }

  /** The tick's `filter`: the visible snakes, in their original order. */
  function Survivors(ss: seq<Snake>, screenWidth: real, screenHeight: real): (r: seq<Snake>)
    ensures |r| <= |ss|
    ensures forall s :: s in r <==> s in ss && Visible(s, screenWidth, screenHeight)
    ensures forall i :: 0 <= i < |r| ==> Visible(r[i], screenWidth, screenHeight)
  {
    if ss == [] then []
    else if Visible(ss[0], screenWidth, screenHeight) then [ss[0]] + Survivors(ss[1..], screenWidth, screenHeight)
    else Survivors(ss[1..], screenWidth, screenHeight)
  }

  /** `slice(0, 10)` followed by the `map`: the first ten snakes, advanced. */
  function Processed(ss: seq<Snake>, screenWidth: real, screenHeight: real): (p: seq<Snake>)
    ensures |p| == if |ss| < TickLimit then |ss| else TickLimit
    ensures forall j :: 0 <= j < |p| ==> p[j] == Advance(ss[j], screenWidth, screenHeight)
  {
    AdvanceAll(ss[..if |ss| < TickLimit then |ss| else TickLimit], screenWidth, screenHeight)
  }

  /** One tick that is not throttled: process the first ten snakes, keep the
      visible ones, and refill by one snake below the minimum. */
  function Tick(ss: seq<Snake>, screenWidth: real, screenHeight: real, d: Draws): (r: seq<Snake>)
    requires ValidDraws(d)
    ensures |r| <= TickLimit
    ensures r != []
    // only the first ten snakes take part
    ensures forall s :: s in r ==>
      s == CreateSnake(d, screenHeight) ||
      exists j :: 0 <= j < |ss| && j < TickLimit && s == Advance(ss[j], screenWidth, screenHeight)
    // every processed snake that is still visible is kept
    ensures forall j :: 0 <= j < |ss| && j < TickLimit && Visible(Advance(ss[j], screenWidth, screenHeight), screenWidth, screenHeight) ==>
      Advance(ss[j], screenWidth, screenHeight) in r
    // at most one snake is new, and only the last one
    ensures forall i :: 0 <= i < |r| - 1 ==> Visible(r[i], screenWidth, screenHeight)
    // the population only grows while it is below the minimum
    ensures |r| > |ss| ==> |r| <= MinSnakes
    ensures !Visible(r[|r| - 1], screenWidth, screenHeight) ==> r[|r| - 1] == CreateSnake(d, screenHeight) && |r| <= MinSnakes
    // the survivors come first, in the filter's order; one fresh snake
    // follows exactly when fewer than the minimum survive
    ensures var kept := Survivors(Processed(ss, screenWidth, screenHeight), screenWidth, screenHeight);
      && |kept| <= |r|
      && r[..|kept|] == kept
      && (|kept| < MinSnakes <==> |r| == |kept| + 1 && r[|r| - 1] == CreateSnake(d, screenHeight))
      && (|kept| >= MinSnakes ==> r == kept)
  {
    var processed := Processed(ss, screenWidth, screenHeight);
    var kept := Survivors(processed, screenWidth, screenHeight);
    assert forall j :: 0 <= j < |ss| && j < TickLimit ==> processed[j] == Advance(ss[j], screenWidth, screenHeight);
    if |kept| < MinSnakes then kept + [CreateSnake(d, screenHeight)] else kept
  }

  /** `Math.max(0.4, (LENGTH - index) / LENGTH)`: the opacity of trail dot `i`. */
  function Opacity(i: nat): (o: real)
    ensures 0.4 <= o <= 1.0
    ensures o == 0.4 <==> i >= 21
    ensures i == 0 ==> o == 1.0
  {
    var fade := (Length as real - i as real) / Length as real;
    if 0.4 >= fade then 0.4 else fade
  }

  /** Dots further down the trail are never more opaque. */
  lemma OpacityFades(i: nat, j: nat)
    requires i <= j
    ensures Opacity(j) <= Opacity(i)
  {
  }

  /** The tick's `map` leaves `position` alone, so a second pass computes
      exactly what the first did. */
  lemma AdvanceIdempotent(s: Snake, screenWidth: real, screenHeight: real)
    ensures Advance(Advance(s, screenWidth, screenHeight), screenWidth, screenHeight)
         == Advance(s, screenWidth, screenHeight)
  {
  }

  /** The whole `map` is idempotent: a second tick's `map` over its own
      result changes nothing. */
  lemma AdvanceAllIdempotent(ss: seq<Snake>, screenWidth: real, screenHeight: real)
    ensures var moved := AdvanceAll(ss, screenWidth, screenHeight);
      AdvanceAll(moved, screenWidth, screenHeight) == moved
  {
  }

  /** Filtering distributes over concatenation: survivors keep their order. */
  lemma {:induction false} SurvivorsAppend(a: seq<Snake>, b: seq<Snake>, screenWidth: real, screenHeight: real)
    ensures Survivors(a + b, screenWidth, screenHeight)
         == Survivors(a, screenWidth, screenHeight) + Survivors(b, screenWidth, screenHeight)
    decreases |a|
  {
    if a == [] {
      assert a + b == b;
    } else {
      assert (a + b)[0] == a[0];
      assert (a + b)[1..] == a[1..] + b;
      SurvivorsAppend(a[1..], b, screenWidth, screenHeight);
    }
  }

  /** A list in which every snake is visible passes the filter unchanged. */
  lemma {:induction false} SurvivorsAllVisible(ss: seq<Snake>, screenWidth: real, screenHeight: real)
    requires forall i :: 0 <= i < |ss| ==> Visible(ss[i], screenWidth, screenHeight)
    ensures Survivors(ss, screenWidth, screenHeight) == ss
    decreases |ss|
  {
    if ss != [] {
      SurvivorsAllVisible(ss[1..], screenWidth, screenHeight);
    }
  }

  /** On a screen of non-negative size, a well-formed snake, and so every
      fresh one, is inside the padded viewport once advanced: its `x` lies
      in [-31.5, -28.5). */
  lemma WellFormedVisible(s: Snake, screenWidth: real, screenHeight: real)
    requires WellFormed(s, screenHeight)
    requires screenWidth >= 0.0 && screenHeight >= 0.0
    ensures Visible(Advance(s, screenWidth, screenHeight), screenWidth, screenHeight)
  {
  }

  /** A tick keeps every snake well formed: survivors are copies with new
      `x`/`y`, and a fresh snake is well formed by construction. */
  lemma TickKeepsWellFormed(ss: seq<Snake>, screenWidth: real, screenHeight: real, d: Draws)
    requires ValidDraws(d)
    requires forall i :: 0 <= i < |ss| ==> WellFormed(ss[i], screenHeight)
    ensures var r := Tick(ss, screenWidth, screenHeight, d);
      forall i :: 0 <= i < |r| ==> WellFormed(r[i], screenHeight)
  {
    var r := Tick(ss, screenWidth, screenHeight, d);
    forall i | 0 <= i < |r| ensures WellFormed(r[i], screenHeight) {
      assert r[i] in r;
    }
  }

  /** Snakes beyond the first ten take no part in a tick. */
  lemma TickIgnoresTail(ss: seq<Snake>, screenWidth: real, screenHeight: real, d: Draws)
    requires ValidDraws(d)
    requires |ss| >= TickLimit
    ensures Tick(ss, screenWidth, screenHeight, d) == Tick(ss[..TickLimit], screenWidth, screenHeight, d)
  {
    assert ss[..TickLimit][..TickLimit] == ss[..TickLimit];
  }

  /** A tick over five to ten snakes that all stay visible once advanced
      keeps each of them, advanced, in place, and adds none. */
  lemma TickAllVisible(ss: seq<Snake>, screenWidth: real, screenHeight: real, d: Draws)
    requires ValidDraws(d)
    requires MinSnakes <= |ss| <= TickLimit
    requires forall i :: 0 <= i < |ss| ==> Visible(Advance(ss[i], screenWidth, screenHeight), screenWidth, screenHeight)
    ensures Tick(ss, screenWidth, screenHeight, d) == AdvanceAll(ss, screenWidth, screenHeight)
  {
    assert ss[..|ss|] == ss;
    SurvivorsAllVisible(AdvanceAll(ss, screenWidth, screenHeight), screenWidth, screenHeight);
  }

  /** Between five and ten snakes that all stay visible once advanced: a tick
      advances each of them in place and adds none, and every later tick
      returns the same list, since positions never change. */
  lemma SteadyPopulation(ss: seq<Snake>, screenWidth: real, screenHeight: real, d: Draws, d': Draws)
    requires ValidDraws(d) && ValidDraws(d')
    requires MinSnakes <= |ss| <= TickLimit
    requires forall i :: 0 <= i < |ss| ==> Visible(Advance(ss[i], screenWidth, screenHeight), screenWidth, screenHeight)
    ensures Tick(ss, screenWidth, screenHeight, d) == AdvanceAll(ss, screenWidth, screenHeight)
    ensures Tick(Tick(ss, screenWidth, screenHeight, d), screenWidth, screenHeight, d') == Tick(ss, screenWidth, screenHeight, d)
  {
    var moved := AdvanceAll(ss, screenWidth, screenHeight);
    TickAllVisible(ss, screenWidth, screenHeight, d);
    forall i | 0 <= i < |moved|
      ensures Visible(Advance(moved[i], screenWidth, screenHeight), screenWidth, screenHeight)
    {
      assert Advance(moved[i], screenWidth, screenHeight) == moved[i];
    }
    TickAllVisible(moved, screenWidth, screenHeight, d');
    AdvanceAllIdempotent(ss, screenWidth, screenHeight);
  }

  /** On a screen of non-negative size, a tick over five to ten well-formed
      snakes drops none and adds none: it only recomputes their `x`/`y`. */
  lemma StaysPut(ss: seq<Snake>, screenWidth: real, screenHeight: real, d: Draws)
    requires ValidDraws(d)
    requires MinSnakes <= |ss| <= TickLimit
    requires forall i :: 0 <= i < |ss| ==> WellFormed(ss[i], screenHeight)
    requires screenWidth >= 0.0 && screenHeight >= 0.0
    ensures Tick(ss, screenWidth, screenHeight, d) == AdvanceAll(ss, screenWidth, screenHeight)
  {
    forall i | 0 <= i < |ss| ensures Visible(Advance(ss[i], screenWidth, screenHeight), screenWidth, screenHeight) {
      WellFormedVisible(ss[i], screenWidth, screenHeight);
    }
    TickAllVisible(ss, screenWidth, screenHeight, d);
  }

  /** The initial population never changes: on a screen of non-negative size
      the five snakes created at mount survive every tick, and no snake is
      ever added. */
  lemma InitialPopulationStays(draws: seq<Draws>, screenWidth: real, screenHeight: real, d: Draws)
    requires |draws| == MinSnakes
    requires forall i :: 0 <= i < |draws| ==> ValidDraws(draws[i])
    requires ValidDraws(d)
    requires screenWidth >= 0.0 && screenHeight >= 0.0
    ensures var ss := Population(draws, screenHeight);
      Tick(ss, screenWidth, screenHeight, d) == AdvanceAll(ss, screenWidth, screenHeight)
  {
    StaysPut(Population(draws, screenHeight), screenWidth, screenHeight, d);
  }

  /** The component's refs and state: `snakesRef.current`, the `snakes`
      state handed to rendering, and `lastUpdateTime.current`. */
  class SnakeLayer {
    const screenWidth: real
    const screenHeight: real
    var snakes: seq<Snake>
    var rendered: seq<Snake>
    var lastUpdateTime: int

    /** At most ten snakes, all well formed, and rendering shows exactly
        the current list. */
    ghost predicate Valid()
      reads this
    {
      && |snakes| <= TickLimit
      && rendered == snakes
      && forall i :: 0 <= i < |snakes| ==> WellFormed(snakes[i], screenHeight)
    }

    constructor (width: real, height: real)
      ensures Valid()
      ensures screenWidth == width && screenHeight == height
      ensures snakes == [] && rendered == [] && lastUpdateTime == 0
    {
      screenWidth, screenHeight := width, height;
      snakes, rendered, lastUpdateTime := [], [], 0;
    }

    /** The initial effect: only when there are no snakes yet, create
        `MinSnakes` of them. */
    method Initialize(draws: seq<Draws>)
      requires Valid()
      requires |draws| == MinSnakes
      requires forall i :: 0 <= i < |draws| ==> ValidDraws(draws[i])
      modifies this`snakes, this`rendered
      ensures Valid()
      ensures old(snakes) == [] ==> snakes == rendered == Population(draws, screenHeight)
      ensures old(snakes) != [] ==> snakes == old(snakes) && rendered == old(rendered)
    {
      if |snakes| == 0 {
        var initial := Population(draws, screenHeight);
        snakes := initial;
        rendered := initial;
      }
    }

    /** `moveSnakes` at time `now`: throttled to one tick per 100 ms; a tick
        that runs stamps the time, replaces the snakes and hands a copy to
        rendering. `d` is what `createSnake` would draw if it is called. */
    method MoveSnakes(now: int, d: Draws)
      requires Valid()
      requires ValidDraws(d)
      modifies this`snakes, this`rendered, this`lastUpdateTime
      ensures Valid()
      ensures now - old(lastUpdateTime) < ThrottleMs ==>
        snakes == old(snakes) && rendered == old(rendered) && lastUpdateTime == old(lastUpdateTime)
      ensures now - old(lastUpdateTime) >= ThrottleMs ==>
        && lastUpdateTime == now
        && snakes == Tick(old(snakes), screenWidth, screenHeight, d)
        && rendered == snakes
    // on a screen of non-negative size, a tick over at least the minimum
    // number of snakes only recomputes their `x`/`y`
    ensures (now - old(lastUpdateTime) >= ThrottleMs && screenWidth >= 0.0 && screenHeight >= 0.0
             && |old(snakes)| >= MinSnakes) ==>
      snakes == AdvanceAll(old(snakes), screenWidth, screenHeight)
    {
      if now - lastUpdateTime < ThrottleMs {
        return;
      }
      lastUpdateTime := now;
      var processed := Processed(snakes, screenWidth, screenHeight);
      snakes := Survivors(processed, screenWidth, screenHeight);
      if |snakes| < MinSnakes {
        snakes := snakes + [CreateSnake(d, screenHeight)];
      }
      rendered := snakes;
      assert snakes == Tick(old(snakes), screenWidth, screenHeight, d);
      TickKeepsWellFormed(old(snakes), screenWidth, screenHeight, d);
      if screenWidth >= 0.0 && screenHeight >= 0.0 && |old(snakes)| >= MinSnakes {
        StaysPut(old(snakes), screenWidth, screenHeight, d);
      }
    }
  }
}
