/** The authoritative simulation over real numbers: inputs, movement and jumps. */
module World {
  import opened Bytes

  const PLANE_HALF_SIZE := 10.0
  const MOVE_SPEED := 5.0
  const GRAVITY := 20.0
  const JUMP_SPEED := 7.0
  const MAX_LOOK_PITCH := 1.5
  const SPAWN_RADIUS := 3.0
  const PALETTE: seq<u32> := [0xE6194BFF, 0x3CB44BFF, 0xFFE119FF, 0x4363D8FF, 0xF58231FF, 0x911EB4FF, 0x46F0F0FF,
                              0xF032E6FF]

  /** The single-precision value of pi, and twice it. */
  const PI := 13176795.0 / 4194304.0
  const TAU := 2.0 * PI

  type PeerId = u64

  /** A number from the network may be none. */
  datatype Float = Finite(value: real) | NotFinite

  datatype Input = Input(sequence: u32, moveX: Float, moveZ: Float, jump: bool, lookYaw: Float, lookPitch: Float)

  datatype Player = Player(
    id: nat, clientKind: byte, displayName: string, color: u32, x: real, y: real, z: real, yaw: real, pitch: real,
    moveX: real, moveZ: real, velocity: real, jumpHeld: bool, lastSequence: u32)

  /** A square root, known by its square. */
  ghost predicate IsRoot(root: real -> real) {
    forall v: real {:trigger root(v)} :: v >= 0.0 ==> root(v) >= 0.0 && root(v) * root(v) == v
  }

  function Clamp(v: real, low: real, high: real): real {
    if v < low then low else if v > high then high else v
  }

  function Axis(f: Float): real {
    match f case Finite(v) => Clamp(v, -1.0, 1.0) case NotFinite => 0.0
  }

  function SquaredLength(x: real, z: real): real {
    x * x + z * z
  }

  /** Shortens a direction to length one, if it is longer. */
  function Shortened(x: real, z: real, length: real): (real, real) {
    if length > 1.0 then (x / length, z / length) else (x, z)
  }

  function BoundedDirection(moveX: Float, moveZ: Float, root: real -> real): (real, real) {
    Shortened(Axis(moveX), Axis(moveZ), root(SquaredLength(Axis(moveX), Axis(moveZ))))
  }

  /** The remainder that is never negative. */
  function RemEuclid(a: real, m: real): real
    requires m > 0.0
  {
    a - m * (a / m).Floor as real
  }

  function WrapAngle(angle: real): real {
    RemEuclid(angle + PI, TAU) - PI
  }

  function IsGrounded(p: Player): bool {
    p.y <= 0.0
  }

  /** An input in force; `<` lets an equal sequence number through. */
  function Steered(p: Player, input: Input, root: real -> real): Player {
    var (moveX, moveZ) := BoundedDirection(input.moveX, input.moveZ, root);
    p.(lastSequence := input.sequence, moveX := moveX, moveZ := moveZ, jumpHeld := input.jump,
       yaw := if input.lookYaw.Finite? then WrapAngle(input.lookYaw.value) else p.yaw,
       pitch := if input.lookPitch.Finite? then Clamp(input.lookPitch.value, -MAX_LOOK_PITCH, MAX_LOOK_PITCH)
                else p.pitch)
  }

  function Heed(p: Player, input: Input, root: real -> real): Player {
    if input.sequence < p.lastSequence then p else Steered(p, input, root)
  }

  function Moved(p: Player, dt: real): Player {
    p.(x := Clamp(p.x + p.moveX * MOVE_SPEED * dt, -PLANE_HALF_SIZE, PLANE_HALF_SIZE),
       z := Clamp(p.z + p.moveZ * MOVE_SPEED * dt, -PLANE_HALF_SIZE, PLANE_HALF_SIZE))
  }

  function Flown(p: Player, dt: real): Player {
    var launch := if IsGrounded(p) && p.jumpHeld then JUMP_SPEED else p.velocity;
    var velocity := launch - GRAVITY * dt;
    var y := p.y + velocity * dt;
    if y <= 0.0 then p.(y := 0.0, velocity := 0.0) else p.(y := y, velocity := velocity)
  }

  function StepPlayer(p: Player, dt: real): Player {
    Flown(Moved(p, dt), dt)
  }

  // ---- The world -------------------------------------------------------------------

  datatype World = World(players: map<PeerId, Player>, nextPlayerId: nat, tick: u32)

  const EMPTY := World(map[], 0, 0)

  function Newcomer(id: nat, clientKind: byte, displayName: string, x: real, z: real): Player
    requires id > 0
  {
    Player(id, clientKind, displayName, PALETTE[(id - 1) % 8], x, 0.0, z, 0.0, 0.0, 0.0, 0.0, 0.0, false, 0)
  }

  /** `x` and `z` are where the newcomer would spawn. */
  function Join(w: World, peer: PeerId, clientKind: byte, displayName: string, x: real, z: real): (World, nat) {
    if peer in w.players then (w, w.players[peer].id)
    else
      var id := w.nextPlayerId + 1;
      (w.(players := w.players[peer := Newcomer(id, clientKind, displayName, x, z)], nextPlayerId := id), id)
  }

  function Leave(w: World, peer: PeerId): (World, Option<Player>) {
    (w.(players := w.players - {peer}), if peer in w.players then Some(w.players[peer]) else None)
  }

  function ApplyInput(w: World, peer: PeerId, input: Input, root: real -> real): (World, bool) {
    if peer !in w.players || input.sequence < w.players[peer].lastSequence then (w, false)
    else (w.(players := w.players[peer := Steered(w.players[peer], input, root)]), true)
  }

  function Step(w: World, dt: real): World {
    w.(tick := (w.tick + 1) % 0x1_0000_0000,
       players := map peer | peer in w.players :: StepPlayer(w.players[peer], dt))
  }

  // ---- One player ------------------------------------------------------------------

  /** The mechanical energy of a player, per unit of mass. */
  function Energy(p: Player): real {
    GRAVITY * p.y + p.velocity * p.velocity / 2.0
  }

  predicate OnPlane(p: Player) {
    -PLANE_HALF_SIZE <= p.x <= PLANE_HALF_SIZE && -PLANE_HALF_SIZE <= p.z <= PLANE_HALF_SIZE
  }

  predicate Safe(p: Player) {
    && OnPlane(p)
    && SquaredLength(p.moveX, p.moveZ) <= 1.0
    && p.y >= 0.0 && Energy(p) <= JUMP_SPEED * JUMP_SPEED / 2.0
    && -MAX_LOOK_PITCH <= p.pitch <= MAX_LOOK_PITCH
    && -PI <= p.yaw < PI
  }

  /** No jump is higher than a jump at full speed can be. */
  lemma HeightIsBounded(p: Player)
    requires Safe(p)
    ensures p.y <= JUMP_SPEED * JUMP_SPEED / (2.0 * GRAVITY)
  {
    assert p.velocity * p.velocity >= 0.0;
  }

  /** A step of the flight loses exactly the energy that the discrete fall costs. */
  lemma FlightLosesEnergy(p: Player, dt: real)
    requires p.y >= 0.0 && Energy(p) <= JUMP_SPEED * JUMP_SPEED / 2.0
    ensures var q := Flown(p, dt);
      q.y >= 0.0 && Energy(q) <= JUMP_SPEED * JUMP_SPEED / 2.0
  {
    var launch := if IsGrounded(p) && p.jumpHeld then JUMP_SPEED else p.velocity;
    var velocity := launch - GRAVITY * dt;
    assert GRAVITY * p.y + launch * launch / 2.0 <= JUMP_SPEED * JUMP_SPEED / 2.0;
    FallEnergy(p.y, launch, velocity, dt);
  }

  lemma FallEnergy(y: real, launch: real, velocity: real, dt: real)
    requires velocity == launch - GRAVITY * dt
    ensures GRAVITY * (y + velocity * dt) + velocity * velocity / 2.0
         == GRAVITY * y + launch * launch / 2.0 - GRAVITY * dt * (GRAVITY * dt) / 2.0
    ensures GRAVITY * dt * (GRAVITY * dt) >= 0.0
  {
    var fall := GRAVITY * dt;
    assert launch == velocity + fall;
    assert launch * launch == velocity * velocity + 2.0 * (velocity * fall) + fall * fall;
    assert GRAVITY * (velocity * dt) == velocity * fall;
  }

  lemma ProductIsPositive(u: real, v: real)
    requires u > 0.0 && v > 0.0
    ensures u * v > 0.0
  {
  }

  lemma SquareGrows(low: real, high: real)
    requires 0.0 <= low < high
    ensures low * low < high * high
  {
    ProductIsPositive(high - low, high + low);
    assert (high - low) * (high + low) == high * high - low * low;
  }

  lemma SquareOfProduct(a: real, m: real)
    ensures a * a * (m * m) == a * m * (a * m)
  {
  }

  lemma Spread(a: real, b: real, m: real)
    ensures (a + b) * m == a * m + b * m
  {
  }

  lemma Cancel(a: real, m: real)
    requires m > 0.0 && a * m == m
    ensures a == 1.0
  {
    assert (a - 1.0) * m == 0.0;
  }

  lemma ScaledDown(x: real, z: real, length: real)
    requires length > 1.0 && length * length == SquaredLength(x, z)
    ensures SquaredLength(x / length, z / length) == 1.0
  {
    var a, b, m := x / length, z / length, length * length;
    assert a * length == x && b * length == z;
    SquareOfProduct(a, length);
    SquareOfProduct(b, length);
    Spread(a * a, b * b, m);
    SquareGrows(1.0, length);
    Cancel(a * a + b * b, m);
  }

  lemma RootOf(root: real -> real, v: real)
    requires IsRoot(root) && v >= 0.0
    ensures root(v) >= 0.0 && root(v) * root(v) == v
  {
  }

  lemma ShortenedIsShort(x: real, z: real, length: real)
    requires length >= 0.0 && length * length == SquaredLength(x, z)
    ensures var (a, b) := Shortened(x, z, length); SquaredLength(a, b) <= 1.0
  {
    if length > 1.0 {
      ScaledDown(x, z, length);
    } else if length < 1.0 {
      SquareGrows(length, 1.0);
    } else {
      assert length == 1.0;
    }
  }

  lemma SquaresAdd(x: real, z: real)
    ensures SquaredLength(x, z) >= 0.0
  {
  }

  lemma DirectionIsBounded(moveX: Float, moveZ: Float, root: real -> real)
    requires IsRoot(root)
    ensures var (x, z) := BoundedDirection(moveX, moveZ, root); SquaredLength(x, z) <= 1.0
  {
    hide IsRoot; hide Axis; hide SquaredLength; hide Shortened;
    var x, z := Axis(moveX), Axis(moveZ);
    SquaresAdd(x, z);
    RootOf(root, SquaredLength(x, z));
    ShortenedIsShort(x, z, root(SquaredLength(x, z)));
  }

  predicate TurnedBy(angle: real, turns: int, result: real) {
    result == angle - TAU * turns as real
  }

  /** Wrapping keeps the angle, up to whole turns, and puts it in the half-open range. */
  lemma WrapIsCongruent(angle: real)
    ensures -PI <= WrapAngle(angle) < PI
    ensures exists turns :: TurnedBy(angle, turns, WrapAngle(angle))
  {
    var a := angle + PI;
    var turns := (a / TAU).Floor;
    assert turns as real <= a / TAU < turns as real + 1.0;
    assert a / TAU * TAU == a;
    assert TurnedBy(angle, turns, WrapAngle(angle));
  }

  lemma SameEnergy(p: Player, q: Player)
    requires q.y == p.y && q.velocity == p.velocity
    ensures Energy(q) == Energy(p)
  {
  }

  lemma SteeringIsSafe(p: Player, input: Input, root: real -> real)
    requires Safe(p) && IsRoot(root)
    ensures Safe(Steered(p, input, root))
  {
    DirectionIsBounded(input.moveX, input.moveZ, root);
    if input.lookYaw.Finite? { WrapIsCongruent(input.lookYaw.value); }
    SameEnergy(p, Steered(p, input, root));
    hide BoundedDirection; hide WrapAngle; hide IsRoot; hide Energy; hide SquaredLength;
  }

  lemma StepIsSafe(p: Player, dt: real)
    requires Safe(p)
    ensures Safe(StepPlayer(p, dt))
  {
    FlightLosesEnergy(Moved(p, dt), dt);
  }

  lemma NewcomerIsSafe(id: nat, clientKind: byte, displayName: string, x: real, z: real)
    requires id > 0 && SquaredLength(x, z) <= SPAWN_RADIUS * SPAWN_RADIUS
    ensures Safe(Newcomer(id, clientKind, displayName, x, z))
  {
    Within(x, z, SPAWN_RADIUS);
  }

  lemma Within(x: real, z: real, radius: real)
    requires radius >= 0.0 && x * x + z * z <= radius * radius
    ensures -radius <= x <= radius && -radius <= z <= radius
  {
    assert x * x >= 0.0 && z * z >= 0.0;
    SquareBounds(x, radius);
    SquareBounds(z, radius);
  }

  lemma SquareBounds(x: real, radius: real)
    requires radius >= 0.0 && x * x <= radius * radius
    ensures -radius <= x <= radius
  {
    if x > radius { SquareGrows(radius, x); }
    if -x > radius { SquareGrows(radius, -x); }
  }
}
