/** What holds of the simulation over every run of joins, departures, inputs and steps. */
module WorldRuns {
  import opened Bytes
  import opened World

  datatype Happening =
    | Joins(peer: PeerId, clientKind: byte, displayName: string, x: real, z: real)
    | Leaves(peer: PeerId)
    | Steers(peer: PeerId, input: Input)
    | Ticks(dt: real)

  /** Newcomers spawn on a circle around the middle of the plane. */
  predicate Plausible(h: Happening) {
    h.Joins? ==> SquaredLength(h.x, h.z) <= SPAWN_RADIUS * SPAWN_RADIUS
  }

  function Happen(w: World, h: Happening, root: real -> real): World {
    match h
    case Joins(peer, clientKind, displayName, x, z) => Join(w, peer, clientKind, displayName, x, z).0
    case Leaves(peer) => Leave(w, peer).0
    case Steers(peer, input) => ApplyInput(w, peer, input, root).0
    case Ticks(dt) => Step(w, dt)
  }

  function Play(w: World, run: seq<Happening>, root: real -> real): World {
    if run == [] then w else Happen(Play(w, run[..|run| - 1], root), run[|run| - 1], root)
  }

  // ---- Safety ------------------------------------------------------------------------

  /** Every player is safe, and no two share an id or have one not yet given out. */
  ghost predicate Inv(w: World) {
    && (forall peer | peer in w.players :: Safe(w.players[peer]) && 0 < w.players[peer].id <= w.nextPlayerId)
    && (forall a, b | a in w.players && b in w.players && a != b :: w.players[a].id != w.players[b].id)
  }

  lemma HappenKeeps(w: World, h: Happening, root: real -> real)
    requires Inv(w) && Plausible(h) && IsRoot(root)
    ensures Inv(Happen(w, h, root))
  {
    hide IsRoot; hide Safe; hide Steered; hide StepPlayer; hide SquaredLength;
    match h
    case Joins(peer, clientKind, displayName, x, z) =>
      NewcomerIsSafe(w.nextPlayerId + 1, clientKind, displayName, x, z);
    case Leaves(peer) =>
    case Steers(peer, input) =>
      if peer in w.players {
        SteeringIsSafe(w.players[peer], input, root);
        SteeringKeepsId(w.players[peer], input, root);
      }
    case Ticks(dt) =>
      forall peer | peer in w.players
        ensures Safe(StepPlayer(w.players[peer], dt)) && StepPlayer(w.players[peer], dt).id == w.players[peer].id
      {
        StepIsSafe(w.players[peer], dt);
        SteppingKeepsId(w.players[peer], dt);
      }
  }

  lemma SteeringKeepsId(p: Player, input: Input, root: real -> real)
    ensures Steered(p, input, root).id == p.id
  {
  }

  lemma SteppingKeepsId(p: Player, dt: real)
    ensures StepPlayer(p, dt).id == p.id
  {
  }

  /** On every run, whatever the step lengths and the inputs: every player is in the
      plane square, its direction is at most one long, it looks where it may look, it
      is never below the plane and never has more energy than a jump gives. */
  lemma {:induction false} RunIsSafe(run: seq<Happening>, root: real -> real)
    requires IsRoot(root) && forall h | h in run :: Plausible(h)
    ensures Inv(Play(EMPTY, run, root))
  {
    hide Happen; hide IsRoot; hide Plausible; hide Safe;
    if run != [] {
      RunIsSafe(run[..|run| - 1], root);
      HappenKeeps(Play(EMPTY, run[..|run| - 1], root), run[|run| - 1], root);
    }
  }

  lemma JumpsAreBounded(run: seq<Happening>, root: real -> real, peer: PeerId)
    requires IsRoot(root) && forall h | h in run :: Plausible(h)
    ensures var w := Play(EMPTY, run, root);
      peer in w.players ==> 0.0 <= w.players[peer].y <= JUMP_SPEED * JUMP_SPEED / (2.0 * GRAVITY)
  {
    RunIsSafe(run, root);
    hide Play; hide IsRoot;
    var w := Play(EMPTY, run, root);
    if peer in w.players { HeightIsBounded(w.players[peer]); }
  }

  // ---- How far a player gets -----------------------------------------------------------

  /** `q` is within distance `d` of `p` on the plane. */
  predicate Near(p: Player, q: Player, d: real) {
    d >= 0.0 && SquaredLength(q.x - p.x, q.z - p.z) <= d * d
  }

  lemma ClampedMove(here: real, delta: real)
    requires -PLANE_HALF_SIZE <= here <= PLANE_HALF_SIZE
    ensures var there := Clamp(here + delta, -PLANE_HALF_SIZE, PLANE_HALF_SIZE);
      (there - here) * (there - here) <= delta * delta
  {
    var moved := Clamp(here + delta, -PLANE_HALF_SIZE, PLANE_HALF_SIZE) - here;
    if delta >= 0.0 {
      SquareMonotone(moved, delta);
    } else {
      SquareMonotone(-moved, -delta);
      assert -moved * -moved == moved * moved && -delta * -delta == delta * delta;
    }
  }

  lemma SquareMonotone(low: real, high: real)
    requires 0.0 <= low <= high
    ensures low * low <= high * high
  {
    if low < high { SquareGrows(low, high); }
  }

  lemma ScaledSquare(a: real, reach: real)
    ensures a * reach * (a * reach) == a * a * (reach * reach)
  {
  }

  lemma AtMostAll(share: real, whole: real)
    requires share <= 1.0 && whole >= 0.0
    ensures share * whole <= whole
  {
  }

  lemma ReachOf(dx: real, dz: real, mx: real, mz: real, reach: real)
    requires dx * dx <= mx * reach * (mx * reach) && dz * dz <= mz * reach * (mz * reach)
    requires SquaredLength(mx, mz) <= 1.0
    ensures SquaredLength(dx, dz) <= reach * reach
  {
    ScaledSquare(mx, reach);
    ScaledSquare(mz, reach);
    Spread(mx * mx, mz * mz, reach * reach);
    assert reach * reach >= 0.0;
    AtMostAll(mx * mx + mz * mz, reach * reach);
  }

  lemma ReachedPoint(p: Player, q: Player, reach: real)
    requires OnPlane(p) && SquaredLength(p.moveX, p.moveZ) <= 1.0
    requires q.x == Clamp(p.x + p.moveX * reach, -PLANE_HALF_SIZE, PLANE_HALF_SIZE)
    requires q.z == Clamp(p.z + p.moveZ * reach, -PLANE_HALF_SIZE, PLANE_HALF_SIZE)
    ensures SquaredLength(q.x - p.x, q.z - p.z) <= reach * reach
  {
    hide SquaredLength; hide Clamp;
    ClampedMove(p.x, p.moveX * reach);
    ClampedMove(p.z, p.moveZ * reach);
    ReachOf(q.x - p.x, q.z - p.z, p.moveX, p.moveZ, reach);
  }

  lemma SpeedTimesTime(m: real, dt: real)
    ensures m * MOVE_SPEED * dt == m * (MOVE_SPEED * dt)
  {
  }

  lemma SteppedPoint(p: Player, dt: real, reach: real)
    requires reach == MOVE_SPEED * dt
    ensures var q := StepPlayer(p, dt);
      && q.x == Clamp(p.x + p.moveX * reach, -PLANE_HALF_SIZE, PLANE_HALF_SIZE)
      && q.z == Clamp(p.z + p.moveZ * reach, -PLANE_HALF_SIZE, PLANE_HALF_SIZE)
  {
    SpeedTimesTime(p.moveX, dt);
    SpeedTimesTime(p.moveZ, dt);
  }

  /** One step takes a player no further than full speed for its duration, even into
      the edge of the plane. */
  lemma StepReach(p: Player, dt: real)
    requires Safe(p) && dt >= 0.0
    ensures Near(p, StepPlayer(p, dt), MOVE_SPEED * dt)
  {
    hide StepPlayer; hide Energy; hide SquaredLength; hide Clamp;
    var reach := MOVE_SPEED * dt;
    SteppedPoint(p, dt, reach);
    ReachedPoint(p, StepPlayer(p, dt), reach);
  }

  /** The inner product of two vectors is at most the product of their lengths. */
  lemma InnerProduct(a: real, b: real, c: real, d: real, m: real, n: real)
    requires m >= 0.0 && n >= 0.0 && a * a + b * b <= m * m && c * c + d * d <= n * n
    ensures a * c + b * d <= m * n
  {
    var inner, cross := a * c + b * d, a * d - b * c;
    var left, right := a * a + b * b, c * c + d * d;
    Lagrange(a, b, c, d);
    assert cross * cross >= 0.0;
    assert left >= 0.0 && right >= 0.0;
    ProductMonotone(left, m * m, right, n * n);
    ScaledSquare(m, n);
    assert inner * inner <= m * n * (m * n);
    ProductMonotone(0.0, m, 0.0, n);
    if inner > m * n { SquareGrows(m * n, inner); }
  }

  lemma Lagrange(a: real, b: real, c: real, d: real)
    ensures (a * c + b * d) * (a * c + b * d) + (a * d - b * c) * (a * d - b * c)
         == (a * a + b * b) * (c * c + d * d)
  {
  }

  lemma ProductMonotone(a: real, a': real, b: real, b': real)
    requires 0.0 <= a <= a' && 0.0 <= b <= b'
    ensures 0.0 <= a * b <= a' * b'
  {
    assert a' * b' - a * b == (a' - a) * b' + a * (b' - b);
    ProductOfNonNegatives(a' - a, b');
    ProductOfNonNegatives(a, b' - b);
    ProductOfNonNegatives(a, b);
  }

  lemma ProductOfNonNegatives(u: real, v: real)
    requires u >= 0.0 && v >= 0.0
    ensures u * v >= 0.0
  {
  }

  lemma NearAdds(p: Player, q: Player, r: Player, m: real, n: real)
    requires Near(p, q, m) && Near(q, r, n)
    ensures Near(p, r, m + n)
  {
    var a, b, c, d := q.x - p.x, q.z - p.z, r.x - q.x, r.z - q.z;
    InnerProduct(a, b, c, d, m, n);
    SumSquared(a, b, c, d);
    assert (m + n) * (m + n) == m * m + 2.0 * (m * n) + n * n;
    assert r.x - p.x == a + c && r.z - p.z == b + d;
  }

  lemma SumSquared(a: real, b: real, c: real, d: real)
    ensures (a + c) * (a + c) + (b + d) * (b + d)
         == (a * a + b * b) + 2.0 * (a * c + b * d) + (c * c + d * d)
  {
  }

  /** How long the steps of a run take together. */
  function Duration(run: seq<Happening>): real {
    if run == [] then 0.0
    else Duration(run[..|run| - 1]) + if run[|run| - 1].Ticks? then run[|run| - 1].dt else 0.0
  }

  predicate Forwards(h: Happening) {
    h.Ticks? ==> h.dt >= 0.0
  }

  lemma StayPut(p: Player, q: Player, r: Player, d: real)
    requires Near(p, q, d) && r.x == q.x && r.z == q.z
    ensures Near(p, r, d)
  {
  }

  lemma HappenReach(w: World, h: Happening, root: real -> real, peer: PeerId, p: Player, d: real)
    requires Inv(w) && Forwards(h) && peer in w.players && h != Leaves(peer) && Near(p, w.players[peer], d)
    ensures var w' := Happen(w, h, root);
      peer in w'.players && Near(p, w'.players[peer], d + if h.Ticks? then MOVE_SPEED * h.dt else 0.0)
  {
    var w' := Happen(w, h, root);
    if h.Ticks? {
      StepReach(w.players[peer], h.dt);
      hide Near; hide StepPlayer;
      NearAdds(p, w.players[peer], w'.players[peer], d, MOVE_SPEED * h.dt);
    } else {
      assert peer in w'.players;
      StayPut(p, w.players[peer], w'.players[peer], d);
    }
  }

  lemma {:induction false} PlayKeeps(w: World, run: seq<Happening>, root: real -> real)
    requires Inv(w) && IsRoot(root) && forall h | h in run :: Plausible(h)
    ensures Inv(Play(w, run, root))
  {
    hide Happen; hide IsRoot; hide Plausible; hide Inv;
    if run != [] {
      PlayKeeps(w, run[..|run| - 1], root);
      HappenKeeps(Play(w, run[..|run| - 1], root), run[|run| - 1], root);
    }
  }

  /** Speed limit: over any stretch of any run a player that does not leave gets no
      further than full speed for the time that passed, whatever inputs arrive. */
  lemma {:induction false} SpeedLimit(w: World, run: seq<Happening>, root: real -> real, peer: PeerId)
    requires Inv(w) && IsRoot(root) && peer in w.players && Leaves(peer) !in run
    requires forall h | h in run :: Plausible(h) && Forwards(h)
    ensures var w' := Play(w, run, root);
      peer in w'.players && Near(w.players[peer], w'.players[peer], MOVE_SPEED * Duration(run))
  {
    hide Happen; hide IsRoot; hide Plausible; hide Inv; hide Near; hide Forwards;
    if run == [] {
      NearItself(w.players[peer]);
    } else {
      var before, last := run[..|run| - 1], run[|run| - 1];
      assert run == before + [last];
      SpeedLimit(w, before, root, peer);
      PlayKeeps(w, before, root);
      HappenReach(Play(w, before, root), last, root, peer, w.players[peer], MOVE_SPEED * Duration(before));
      assert MOVE_SPEED * Duration(run)
          == MOVE_SPEED * Duration(before) + (if last.Ticks? then MOVE_SPEED * last.dt else 0.0);
    }
  }

  lemma NearItself(p: Player)
    ensures Near(p, p, MOVE_SPEED * Duration([]))
  {
  }

  // ---- Jumps ---------------------------------------------------------------------------

  /** How many steps a run takes. */
  function StepCount(run: seq<Happening>): nat {
    if run == [] then 0
    else StepCount(run[..|run| - 1]) + if run[|run| - 1].Ticks? then 1 else 0
  }

  /** A run that starts with a step, whose steps are all of one length, and in which the
      peer stays. Inputs, joins and other departures come at any moment between. */
  ghost predicate SteadyRun(run: seq<Happening>, dt: real, peer: PeerId) {
    && run != [] && run[0] == Ticks(dt) && Leaves(peer) !in run
    && forall i | 0 <= i < |run| && run[i].Ticks? :: run[i].dt == dt
  }

  /** Height and velocity of the discrete fall, `n` steps after a jump from the plane. */
  function FallHeight(dt: real, n: real): real {
    n * (JUMP_SPEED * dt) - (n * n + n) * (GRAVITY * dt * dt / 2.0)
  }

  function FallVelocity(dt: real, n: real): real {
    JUMP_SPEED - n * (GRAVITY * dt)
  }

  /** Whether the fall is still above the plane after `n` steps. */
  predicate Airborne(dt: real, n: nat) {
    (n + 1) as real * (GRAVITY * dt) < 2.0 * JUMP_SPEED
  }

  lemma FallStep(dt: real, n: real)
    ensures FallVelocity(dt, n + 1.0) == FallVelocity(dt, n) - GRAVITY * dt
    ensures FallHeight(dt, n + 1.0) == FallHeight(dt, n) + FallVelocity(dt, n + 1.0) * dt
  {
    var g := GRAVITY * dt * dt / 2.0;
    assert (n + 1.0) * (JUMP_SPEED * dt) == n * (JUMP_SPEED * dt) + JUMP_SPEED * dt;
    Spread(n * n + n, 2.0 * n + 2.0, g);
    assert (n + 1.0) * (n + 1.0) + (n + 1.0) == (n * n + n) + (2.0 * n + 2.0);
    assert (n + 1.0) * (GRAVITY * dt) * dt == (2.0 * n + 2.0) * g;
  }

  lemma FallSign(dt: real, n: nat)
    requires dt > 0.0 && n > 0
    ensures FallHeight(dt, n as real) > 0.0 <==> Airborne(dt, n)
  {
    var m, g := n as real, GRAVITY * dt * dt / 2.0;
    var slack := 2.0 * JUMP_SPEED - (m + 1.0) * (GRAVITY * dt);
    assert (m * m + m) * g == m * ((m + 1.0) * g) by { Spread(m, 1.0, m); Regroup(m, g); }
    assert FallHeight(dt, m) == m * (JUMP_SPEED * dt - (m + 1.0) * g);
    assert JUMP_SPEED * dt - (m + 1.0) * g == slack * (dt / 2.0);
    ScaledSign(slack, dt / 2.0);
    ScaledSign(slack * (dt / 2.0), m);
  }

  lemma Regroup(m: real, g: real)
    ensures (m * m + m) * g == m * ((m + 1.0) * g)
  {
  }

  lemma ScaledSign(a: real, scale: real)
    requires scale > 0.0
    ensures a * scale > 0.0 <==> a > 0.0
    ensures scale * a == a * scale
  {
    if a > 0.0 {
      ProductIsPositive(a, scale);
    } else if a < 0.0 {
      ProductIsPositive(-a, scale);
    }
  }

  /** Where the fall says a jumping player is after `n` steps. */
  predicate OnParabola(q: Player, dt: real, n: nat) {
    if n == 0 then q.y == 0.0 && q.jumpHeld
    else q.y == FallHeight(dt, n as real) > 0.0 && q.velocity == FallVelocity(dt, n as real)
  }

  lemma NextOnParabola(q: Player, dt: real, n: nat)
    requires dt > 0.0 && OnParabola(q, dt, n)
    ensures var q' := StepPlayer(q, dt);
      if Airborne(dt, n + 1) then OnParabola(q', dt, n + 1) else q'.y == 0.0 && q'.velocity == 0.0
  {
    var m := n as real;
    assert (n + 1) as real == m + 1.0;
    FallStep(dt, m);
    FallSign(dt, n + 1);
    FallStart(dt);
    hide FallHeight; hide FallVelocity; hide Airborne; hide Flown;
    FlownFrom(Moved(q, dt), dt, FallHeight(dt, m), FallVelocity(dt, m));
  }

  /** Where the fall says a player is after `n` steps, landed or not. */
  predicate Falls(q: Player, dt: real, n: nat) {
    if Airborne(dt, n)
    then q.y == FallHeight(dt, n as real) > 0.0 && q.velocity == FallVelocity(dt, n as real)
    else q.y == 0.0 && q.velocity == 0.0
  }

  /** Between steps nobody rises or falls. */
  lemma OffStep(w: World, h: Happening, root: real -> real, peer: PeerId)
    requires peer in w.players && h != Leaves(peer) && !h.Ticks?
    ensures var w' := Happen(w, h, root);
      && peer in w'.players
      && w'.players[peer].y == w.players[peer].y && w'.players[peer].velocity == w.players[peer].velocity
  {
    hide BoundedDirection; hide WrapAngle;
  }

  lemma OnStep(w: World, dt: real, root: real -> real, peer: PeerId)
    requires peer in w.players
    ensures var w' := Happen(w, Ticks(dt), root);
      peer in w'.players && w'.players[peer] == StepPlayer(w.players[peer], dt)
  {
    hide StepPlayer;
  }

  lemma SteadyBefore(run: seq<Happening>, dt: real, peer: PeerId)
    requires SteadyRun(run, dt, peer)
    ensures var last := run[|run| - 1]; last != Leaves(peer) && (last.Ticks? ==> last == Ticks(dt))
    ensures |run| > 1 ==> SteadyRun(run[..|run| - 1], dt, peer)
    ensures |run| == 1 ==> run == [Ticks(dt)] && StepCount(run) == 1
    ensures StepCount(run) > 0
    decreases |run|
  {
    if |run| == 1 {
      assert run[..0] == [];
      assert StepCount(run[..0]) == 0;
    } else {
      SteadyBefore(run[..|run| - 1], dt, peer);
    }
  }

  /** Closed form: over any run, whatever inputs arrive in flight, a player that jumps from
      the plane follows the discrete parabola for exactly as long as that stays above the
      plane; the step that would take it lower lands it. */
  lemma {:induction false} JumpIsBallistic(w: World, run: seq<Happening>, root: real -> real, peer: PeerId, dt: real)
    requires dt > 0.0 && SteadyRun(run, dt, peer) && peer in w.players
    requires w.players[peer].y == 0.0 && w.players[peer].jumpHeld
    requires StepCount(run) > 1 ==> Airborne(dt, StepCount(run) - 1)
    ensures var w' := Play(w, run, root); peer in w'.players && Falls(w'.players[peer], dt, StepCount(run))
    decreases |run|
  {
    SteadyBefore(run, dt, peer);
    hide FallHeight; hide FallVelocity; hide Airborne; hide StepPlayer; hide Happen; hide SteadyRun;
    var before, last := run[..|run| - 1], run[|run| - 1];
    if |run| == 1 {
      assert Play(w, before, root) == w;
      OnStep(w, dt, root, peer);
      NextOnParabola(w.players[peer], dt, 0);
    } else {
      SteadyBefore(before, dt, peer);
      var n := StepCount(before);
      if last.Ticks? && n > 1 { AirborneBefore(dt, n); }
      JumpIsBallistic(w, before, root, peer, dt);
      var v := Play(w, before, root);
      if last.Ticks? {
        OnStep(v, dt, root, peer);
        NextOnParabola(v.players[peer], dt, n);
      } else {
        OffStep(v, last, root, peer);
      }
    }
  }

  lemma FallStart(dt: real)
    ensures FallHeight(dt, 0.0) == 0.0 && FallVelocity(dt, 0.0) == JUMP_SPEED
  {
  }

  lemma AirborneBefore(dt: real, n: nat)
    requires dt > 0.0 && n > 0 && Airborne(dt, n)
    ensures Airborne(dt, n - 1)
  {
    var g := GRAVITY * dt;
    assert (n + 1) as real == n as real + 1.0;
    assert (n as real + 1.0) * g == n as real * g + g;
  }

  lemma FlownFrom(p: Player, dt: real, y: real, velocity: real)
    requires p.y == y && ((p.y > 0.0 && p.velocity == velocity) || (y == 0.0 && p.jumpHeld && velocity == JUMP_SPEED))
    ensures var v := velocity - GRAVITY * dt; var q := Flown(p, dt);
      if y + v * dt > 0.0 then q.y == y + v * dt && q.velocity == v else q.y == 0.0 && q.velocity == 0.0
  {
  }

  /** Every jump ends: once a run has taken n steps with `(n + 1) * GRAVITY * dt` at least
      twice the jump speed, the player has been on the plane again at some moment of it,
      whatever inputs arrived. */
  lemma {:induction false} JumpLandsInTime(w: World, run: seq<Happening>, root: real -> real, peer: PeerId, dt: real)
    requires dt > 0.0 && SteadyRun(run, dt, peer) && peer in w.players
    requires w.players[peer].y == 0.0 && w.players[peer].jumpHeld
    requires !Airborne(dt, StepCount(run))
    ensures exists k | 0 < k <= |run| ::
      var w' := Play(w, run[..k], root); peer in w'.players && IsGrounded(w'.players[peer])
    decreases |run|
  {
    SteadyBefore(run, dt, peer);
    hide Airborne; hide Play; hide SteadyRun; hide FallHeight; hide FallVelocity;
    var before, last := run[..|run| - 1], run[|run| - 1];
    if |run| > 1 && !Airborne(dt, StepCount(before)) {
      JumpLandsInTime(w, before, root, peer, dt);
      var k :| 0 < k <= |before|
        && peer in Play(w, before[..k], root).players && IsGrounded(Play(w, before[..k], root).players[peer]);
      assert before[..k] == run[..k];
    } else {
      if |run| > 1 { SteadyBefore(before, dt, peer); }
      JumpIsBallistic(w, run, root, peer, dt);
      assert run[..|run|] == run;
    }
  }

  // ---- Inputs --------------------------------------------------------------------------

  function HeedAll(p: Player, inputs: seq<Input>, root: real -> real): Player {
    if inputs == [] then p else Heed(HeedAll(p, inputs[..|inputs| - 1], root), inputs[|inputs| - 1], root)
  }

  predicate LooksFinite(input: Input) {
    input.lookYaw.Finite? && input.lookPitch.Finite?
  }

  ghost predicate DistinctSequences(inputs: seq<Input>) {
    forall i, j | 0 <= i < j < |inputs| :: inputs[i].sequence != inputs[j].sequence
  }

  /** The input with the highest sequence number. */
  function Highest(inputs: seq<Input>): (h: Input)
    requires inputs != []
    ensures h in inputs && forall i | i in inputs :: i.sequence <= h.sequence
  {
    var last := inputs[|inputs| - 1];
    if |inputs| == 1 then last
    else
      var init := inputs[..|inputs| - 1];
      assert inputs == init + [last];
      var h := Highest(init);
      if last.sequence > h.sequence then last else h
  }

  lemma SteeringOverwrites(p: Player, early: Input, late: Input, root: real -> real)
    requires LooksFinite(late)
    ensures Steered(Steered(p, early, root), late, root) == Steered(p, late, root)
  {
    hide BoundedDirection; hide WrapAngle;
  }

  /** Only the highest-numbered input counts, wherever in the sequence it came. */
  lemma {:induction false} HighestInputWins(p: Player, inputs: seq<Input>, root: real -> real)
    requires inputs != [] && DistinctSequences(inputs) && forall i | i in inputs :: LooksFinite(i)
    ensures HeedAll(p, inputs, root) == Heed(p, Highest(inputs), root)
  {
    var init, last := inputs[..|inputs| - 1], inputs[|inputs| - 1];
    assert inputs == init + [last];
    hide Steered; hide LooksFinite;
    if init == [] {
      assert HeedAll(p, init, root) == p;
    } else {
      HighestInputWins(p, init, root);
      var h := Highest(init);
      assert h.sequence != last.sequence;
      SteeredSequence(p, h, root);
      SteeringOverwrites(p, h, last, root);
    }
  }

  lemma SteeredSequence(p: Player, input: Input, root: real -> real)
    ensures Steered(p, input, root).lastSequence == input.sequence
  {
  }

  /** Order does not matter: the same inputs with distinct numbers, in any two orders,
      leave a player the same. */
  lemma InputOrderIsIrrelevant(p: Player, a: seq<Input>, b: seq<Input>, root: real -> real)
    requires DistinctSequences(a) && DistinctSequences(b) && forall i | i in a :: LooksFinite(i)
    requires forall i :: i in a <==> i in b
    ensures HeedAll(p, a, root) == HeedAll(p, b, root)
  {
    hide Heed; hide LooksFinite;
    SomeInBoth(a, b);
    SomeInBoth(b, a);
    if a != [] {
      HighestInputWins(p, a, root);
      HighestInputWins(p, b, root);
      var ha, hb := Highest(a), Highest(b);
      var i :| 0 <= i < |a| && a[i] == ha;
      var j :| 0 <= j < |a| && a[j] == hb by { assert hb in a; }
    }
  }

  lemma SomeInBoth(a: seq<Input>, b: seq<Input>)
    requires forall i :: i in a ==> i in b
    ensures a != [] ==> b != []
  {
    if a != [] { assert a[0] in b; }
  }

  /** The condition is needed: of two inputs with one number, the later stays. */
  lemma EqualNumbersLastWins(p: Player, i: Input, j: Input, root: real -> real)
    requires i.sequence == j.sequence && p.lastSequence <= j.sequence && LooksFinite(j)
    ensures HeedAll(p, [i, j], root) == Steered(p, j, root)
  {
    hide Steered; hide LooksFinite;
    assert [i, j][..1] == [i] && [i][..0] == [];
    assert HeedAll(p, [], root) == p;
    assert HeedAll(p, [i], root) == Steered(p, i, root);
    SteeredSequence(p, i, root);
    SteeringOverwrites(p, i, j, root);
  }

  /** And so is finiteness: an input that looks nowhere keeps the look it found. */
  lemma LookingNowhereRemembers(p: Player, i: Input, j: Input, root: real -> real)
    requires p.lastSequence <= i.sequence < j.sequence && i.lookPitch.Finite? && j.lookPitch.NotFinite?
    ensures HeedAll(p, [i, j], root).pitch == Clamp(i.lookPitch.value, -MAX_LOOK_PITCH, MAX_LOOK_PITCH)
    ensures HeedAll(p, [j, i], root).pitch == p.pitch
  {
    hide BoundedDirection; hide WrapAngle;
    assert [i, j][..1] == [i] && [i][..0] == [] && [j, i][..1] == [j] && [j][..0] == [];
    assert HeedAll(p, [], root) == p;
    assert HeedAll(p, [i], root) == Heed(p, i, root) && HeedAll(p, [j], root) == Heed(p, j, root);
  }

  function SteerAll(w: World, peer: PeerId, inputs: seq<Input>, root: real -> real): World {
    if inputs == [] then w
    else ApplyInput(SteerAll(w, peer, inputs[..|inputs| - 1], root), peer, inputs[|inputs| - 1], root).0
  }

  /** In the world: the peer's player heeds its inputs and nothing else changes. */
  lemma {:induction false} OthersAreUntouched(w: World, peer: PeerId, inputs: seq<Input>, root: real -> real)
    ensures SteerAll(w, peer, inputs, root)
         == if peer in w.players
            then w.(players := w.players[peer := HeedAll(w.players[peer], inputs, root)]) else w
  {
    hide Steered;
    if inputs != [] { OthersAreUntouched(w, peer, inputs[..|inputs| - 1], root); }
  }

  // ---- Inputs in the course of a run ---------------------------------------------------

  /** What inputs decide about a player. */
  datatype Controls = Controls(moveX: real, moveZ: real, jumpHeld: bool, yaw: real, pitch: real, lastSequence: u32)

  function ControlsOf(p: Player): Controls {
    Controls(p.moveX, p.moveZ, p.jumpHeld, p.yaw, p.pitch, p.lastSequence)
  }

  /** The inputs of one peer, in the order of the run. */
  function InputsOf(run: seq<Happening>, peer: PeerId): seq<Input> {
    if run == [] then []
    else
      var last := run[|run| - 1];
      InputsOf(run[..|run| - 1], peer) + if last.Steers? && last.peer == peer then [last.input] else []
  }

  lemma HeedControls(p: Player, q: Player, input: Input, root: real -> real)
    requires ControlsOf(p) == ControlsOf(q)
    ensures ControlsOf(Heed(p, input, root)) == ControlsOf(Heed(q, input, root))
  {
    hide BoundedDirection; hide WrapAngle;
  }

  /** Nothing but a peer's own inputs touches its player's controls. */
  lemma HappenControls(w: World, h: Happening, root: real -> real, peer: PeerId)
    requires peer in w.players && h != Leaves(peer)
    ensures var w' := Happen(w, h, root);
      && peer in w'.players
      && ControlsOf(w'.players[peer]) == ControlsOf(if h.Steers? && h.peer == peer
                                                    then Heed(w.players[peer], h.input, root) else w.players[peer])
  {
    hide BoundedDirection; hide WrapAngle; hide Clamp;
  }

  /** Over any run in which a peer stays, its player's controls are what its inputs alone,
      in their order, make of them: steps and other peers do not matter. */
  lemma {:induction false} RunControls(w: World, run: seq<Happening>, root: real -> real, peer: PeerId)
    requires peer in w.players && Leaves(peer) !in run
    ensures var w' := Play(w, run, root);
      && peer in w'.players
      && ControlsOf(w'.players[peer]) == ControlsOf(HeedAll(w.players[peer], InputsOf(run, peer), root))
  {
    hide Happen; hide Heed; hide ControlsOf;
    if run != [] {
      var before, last := run[..|run| - 1], run[|run| - 1];
      assert run == before + [last];
      RunControls(w, before, root, peer);
      var p, q := Play(w, before, root).players[peer], HeedAll(w.players[peer], InputsOf(before, peer), root);
      HappenControls(Play(w, before, root), last, root, peer);
      if last.Steers? && last.peer == peer {
        HeedControls(p, q, last.input, root);
        assert (InputsOf(before, peer) + [last.input])[..|InputsOf(before, peer)|] == InputsOf(before, peer);
      } else {
        assert InputsOf(before, peer) + [] == InputsOf(before, peer);
      }
    }
  }

  /** Order does not matter in the course of a run either: two runs that bring a peer the
      same inputs, with distinct numbers and finite looks, in any order and at any
      moments between any other happenings, leave its player the same controls. */
  lemma RunInputOrderIsIrrelevant(w: World, run: seq<Happening>, run': seq<Happening>, root: real -> real, peer: PeerId)
    requires peer in w.players && Leaves(peer) !in run && Leaves(peer) !in run'
    requires DistinctSequences(InputsOf(run, peer)) && DistinctSequences(InputsOf(run', peer))
    requires forall i | i in InputsOf(run, peer) :: LooksFinite(i)
    requires forall i :: i in InputsOf(run, peer) <==> i in InputsOf(run', peer)
    ensures peer in Play(w, run, root).players && peer in Play(w, run', root).players
    ensures ControlsOf(Play(w, run, root).players[peer]) == ControlsOf(Play(w, run', root).players[peer])
  {
    hide Play; hide InputsOf; hide HeedAll; hide DistinctSequences; hide LooksFinite; hide ControlsOf;
    RunControls(w, run, root, peer);
    RunControls(w, run', root, peer);
    InputOrderIsIrrelevant(w.players[peer], InputsOf(run, peer), InputsOf(run', peer), root);
  }

  /** Exactly when two inputs of different numbers can change places: the later one
      brings each look angle itself, or the earlier one leaves that angle as it was. */
  lemma DifferentNumbersCommute(p: Player, i: Input, j: Input, root: real -> real)
    requires p.lastSequence <= i.sequence < j.sequence
    ensures HeedAll(p, [i, j], root) == HeedAll(p, [j, i], root) <==>
      && (j.lookYaw.Finite? || i.lookYaw.NotFinite? || WrapAngle(i.lookYaw.value) == p.yaw)
      && (j.lookPitch.Finite? || i.lookPitch.NotFinite?
          || Clamp(i.lookPitch.value, -MAX_LOOK_PITCH, MAX_LOOK_PITCH) == p.pitch)
  {
    InTurn(p, i, j, root);
    InTurn(p, j, i, root);
    hide BoundedDirection; hide WrapAngle; hide HeedAll; hide Clamp;
  }

  /** And two inputs of one number: they give the same direction and jump, and where both
      bring a look angle, the same one. */
  lemma EqualNumbersCommute(p: Player, i: Input, j: Input, root: real -> real)
    requires p.lastSequence <= i.sequence == j.sequence
    ensures HeedAll(p, [i, j], root) == HeedAll(p, [j, i], root) <==>
      && i.jump == j.jump
      && BoundedDirection(i.moveX, i.moveZ, root) == BoundedDirection(j.moveX, j.moveZ, root)
      && (i.lookYaw.Finite? && j.lookYaw.Finite? ==> WrapAngle(i.lookYaw.value) == WrapAngle(j.lookYaw.value))
      && (i.lookPitch.Finite? && j.lookPitch.Finite? ==>
            Clamp(i.lookPitch.value, -MAX_LOOK_PITCH, MAX_LOOK_PITCH)
              == Clamp(j.lookPitch.value, -MAX_LOOK_PITCH, MAX_LOOK_PITCH))
  {
    InTurn(p, i, j, root);
    InTurn(p, j, i, root);
    hide BoundedDirection; hide WrapAngle; hide HeedAll; hide Clamp;
  }

  lemma InTurn(p: Player, i: Input, j: Input, root: real -> real)
    ensures HeedAll(p, [i, j], root) == Heed(Heed(p, i, root), j, root)
  {
    hide Heed;
    assert [i, j][..1] == [i] && [i][..0] == [];
    assert HeedAll(p, [i], root) == Heed(HeedAll(p, [], root), i, root);
  }
}
