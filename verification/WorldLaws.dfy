/** What the simulation does to a player, said in numbers: who is in it, when a player
    jumps, where it walks, and which input it obeys. */
module WorldLaws {
  import opened Bytes
  import opened World
  import opened WorldRuns

  // ---- Who is in the world ---------------------------------------------------------------

  /** A peer's stay: the number it joined as, with what it joined, and what has happened
      since then. */
  datatype Visit = Visit(id: nat, joining: Happening, since: seq<Happening>)

  /** The stay of a peer at the end of a run, if it is there. */
  function VisitOf(run: seq<Happening>, peer: PeerId): (r: Option<Visit>)
    ensures r.Some? ==> r.value.joining.Joins? && r.value.joining.peer == peer && r.value.id > 0
  {
    if run == [] then None
    else
      var before, last := run[..|run| - 1], run[|run| - 1];
      match VisitOf(before, peer)
      case Some(visit) => if last == Leaves(peer) then None else Some(visit.(since := visit.since + [last]))
      case None =>
        if last.Joins? && last.peer == peer then Some(Visit(Arrivals(before) + 1, last, [])) else None
  }

  /** How many joins of a run let somebody in. */
  function Arrivals(run: seq<Happening>): nat {
    if run == [] then 0
    else
      var before, last := run[..|run| - 1], run[|run| - 1];
      Arrivals(before) + if last.Joins? && VisitOf(before, last.peer).None? then 1 else 0
  }

  /** What of a player never changes. */
  predicate IsVisitor(p: Player, visit: Visit)
    requires visit.joining.Joins? && visit.id > 0
  {
    && p.id == visit.id && p.clientKind == visit.joining.clientKind && p.displayName == visit.joining.displayName
    && p.color == PALETTE[(visit.id - 1) % 8]
  }

  /** The roll agrees with the run. */
  ghost predicate Enrolled(w: World, run: seq<Happening>) {
    && w.nextPlayerId == Arrivals(run) && w.tick == StepCount(run) % 0x1_0000_0000
    && forall peer :: Listed(w, run, peer)
  }

  /** The roll agrees with the run about one peer. */
  predicate Listed(w: World, run: seq<Happening>, peer: PeerId) {
    && (peer in w.players <==> VisitOf(run, peer).Some?)
    && (peer in w.players ==> IsVisitor(w.players[peer], VisitOf(run, peer).value))
  }

  predicate SameName(p: Player, q: Player) {
    q.id == p.id && q.clientKind == p.clientKind && q.displayName == p.displayName && q.color == p.color
  }

  /** A player that stays keeps its name. */
  lemma HappenKeepsName(w: World, h: Happening, root: real -> real, peer: PeerId)
    requires peer in w.players && h != Leaves(peer)
    ensures var w' := Happen(w, h, root); peer in w'.players && SameName(w.players[peer], w'.players[peer])
  {
    hide BoundedDirection; hide WrapAngle; hide Clamp;
  }

  lemma NewcomerIsListed(w: World, run: seq<Happening>, root: real -> real, peer: PeerId)
    requires run != [] && peer !in w.players && VisitOf(run[..|run| - 1], peer).None?
    requires w.nextPlayerId == Arrivals(run[..|run| - 1])
    ensures Listed(Happen(w, run[|run| - 1], root), run, peer)
  {
    hide Arrivals; hide Steered; hide StepPlayer;
  }

  lemma HappenLists(w: World, run: seq<Happening>, root: real -> real, peer: PeerId)
    requires run != [] && Listed(w, run[..|run| - 1], peer) && w.nextPlayerId == Arrivals(run[..|run| - 1])
    ensures Listed(Happen(w, run[|run| - 1], root), run, peer)
  {
    var last := run[|run| - 1];
    if peer !in w.players {
      NewcomerIsListed(w, run, root, peer);
    } else if last != Leaves(peer) {
      HappenKeepsName(w, last, root, peer);
      hide Happen;
    }
  }

  lemma HappenEnrols(w: World, run: seq<Happening>, root: real -> real)
    requires run != [] && Enrolled(w, run[..|run| - 1])
    ensures Enrolled(Happen(w, run[|run| - 1], root), run)
  {
    var last := run[|run| - 1];
    var w' := Happen(w, last, root);
    assert w'.nextPlayerId == Arrivals(run) by {
      hide Steered; hide StepPlayer;
      if last.Joins? { assert Listed(w, run[..|run| - 1], last.peer); }
    }
    assert w'.tick == StepCount(run) % 0x1_0000_0000 by { hide Steered; hide StepPlayer; }
    hide Happen;
    forall peer ensures Listed(w', run, peer) {
      assert Listed(w, run[..|run| - 1], peer);
      HappenLists(w, run, root, peer);
    }
  }

  /** Over every run: exactly the peers that joined and have not left are there, each with
      the number of its arrival, the name and kind it first gave, and the colour of its
      number; ids count arrivals and the clock counts steps, modulo 2^32. */
  lemma {:induction false} RollIsRight(run: seq<Happening>, root: real -> real)
    ensures Enrolled(Play(EMPTY, run, root), run)
  {
    hide Happen; hide Enrolled;
    if run == [] {
      NobodyAtFirst();
    } else {
      RollIsRight(run[..|run| - 1], root);
      HappenEnrols(Play(EMPTY, run[..|run| - 1], root), run, root);
    }
  }

  lemma NobodyAtFirst()
    ensures Enrolled(EMPTY, [])
  {
  }

  /** Joining: a peer that has a player keeps it and is told its id; another gets the next
      id and a player that stands still at the given place, and nobody else changes. */
  lemma JoinIsExact(w: World, peer: PeerId, clientKind: byte, displayName: string, x: real, z: real)
    ensures var (w', id) := Join(w, peer, clientKind, displayName, x, z);
      && peer in w'.players && w'.players[peer].id == id && w'.tick == w.tick
      && (peer in w.players ==> w' == w)
      && (peer !in w.players ==>
            var p := w'.players[peer];
            && id == w.nextPlayerId + 1 == w'.nextPlayerId && w'.players - {peer} == w.players
            && p.x == x && p.z == z && Standing(p) && !p.jumpHeld && p.moveX == 0.0 && p.moveZ == 0.0
            && p.yaw == 0.0 && p.pitch == 0.0 && p.lastSequence == 0
            && p.clientKind == clientKind && p.displayName == displayName)
  {
  }

  /** Leaving takes the player away, hands it over if there was one, and changes nobody. */
  lemma LeaveIsExact(w: World, peer: PeerId)
    ensures var (w', left) := Leave(w, peer);
      && peer !in w'.players && w' == w.(players := w'.players)
      && (peer in w.players ==> left == Some(w.players[peer]) && w'.players[peer := w.players[peer]] == w.players)
      && (peer !in w.players ==> left == None && w' == w)
  {
  }

  // ---- When a player jumps ---------------------------------------------------------------

  predicate Standing(p: Player) {
    p.y == 0.0 && p.velocity == 0.0
  }

  /** A standing player leaves the plane in a step iff it holds jump and the step is short
      enough for the jump to outlast it; otherwise it stands on. */
  lemma JumpsOnlyWhenAsked(p: Player, dt: real)
    requires Standing(p) && dt > 0.0
    ensures StepPlayer(p, dt).y > 0.0 <==> p.jumpHeld && 20.0 * dt < 7.0
    ensures !(p.jumpHeld && 20.0 * dt < 7.0) ==> Standing(StepPlayer(p, dt))
  {
    var v := (if p.jumpHeld then 7.0 else 0.0) - 20.0 * dt;
    if v > 0.0 {
      ProductIsPositive(v, dt);
    } else if v < 0.0 {
      ProductIsPositive(-v, dt);
      assert -v * dt == -(v * dt);
    }
  }

  lemma StandsOn(p: Player, dt: real)
    requires Standing(p) && !p.jumpHeld && dt >= 0.0
    ensures Standing(StepPlayer(p, dt)) && !StepPlayer(p, dt).jumpHeld
  {
    if dt > 0.0 { JumpsOnlyWhenAsked(p, dt); }
  }

  predicate Unasked(visit: Visit, peer: PeerId) {
    forall h | h in visit.since :: h.Steers? && h.peer == peer ==> !h.input.jump
  }

  predicate AtRest(p: Player) {
    Standing(p) && !p.jumpHeld
  }

  lemma StaysAtRest(w: World, h: Happening, root: real -> real, peer: PeerId)
    requires peer in w.players && AtRest(w.players[peer]) && Forwards(h)
    requires h.Steers? && h.peer == peer ==> !h.input.jump
    ensures var w' := Happen(w, h, root); peer in w'.players ==> AtRest(w'.players[peer])
  {
    hide BoundedDirection; hide WrapAngle;
    if h.Ticks? { StandsOn(w.players[peer], h.dt); }
    hide StepPlayer;
  }

  /** Nobody jumps unasked: at every moment of every run a peer none of whose inputs since
      it joined asks for a jump stands on the plane. */
  lemma {:induction false} UnaskedNeverJump(run: seq<Happening>, root: real -> real, peer: PeerId)
    requires forall h | h in run :: Forwards(h)
    requires VisitOf(run, peer).Some? && Unasked(VisitOf(run, peer).value, peer)
    ensures var w := Play(EMPTY, run, root); peer in w.players && AtRest(w.players[peer])
  {
    RollIsRight(run, root);
    var before, last := run[..|run| - 1], run[|run| - 1];
    var w := Play(EMPTY, before, root);
    RollIsRight(before, root);
    if VisitOf(before, peer).Some? {
      var since, since' := VisitOf(before, peer).value.since, VisitOf(run, peer).value.since;
      assert since' == since + [last];
      UnaskedNeverJump(before, root, peer);
      assert last in since';
      hide Happen; hide Enrolled; hide AtRest;
      StaysAtRest(w, last, root, peer);
      assert peer in Play(EMPTY, run, root).players by { InEnrolled(Play(EMPTY, run, root), run, peer); }
    } else {
      assert last.Joins? && last.peer == peer && peer !in w.players;
    }
  }

  lemma InEnrolled(w: World, run: seq<Happening>, peer: PeerId)
    requires Enrolled(w, run)
    ensures peer in w.players <==> VisitOf(run, peer).Some?
  {
    assert Listed(w, run, peer);
  }

  // ---- Where a player walks --------------------------------------------------------------

  /** A coordinate, kept on the plane. */
  function Kept(v: real): real {
    if v > 10.0 then 10.0 else if v < -10.0 then -10.0 else v
  }

  /** A coordinate that has gone at five times `direction` for `t` seconds. */
  predicate Went(from: real, direction: real, t: real, to: real) {
    to == Kept(from + 5.0 * direction * t)
  }

  lemma WentOnward(from: real, direction: real, early: real, dt: real, to: real, later: real)
    requires -10.0 <= from <= 10.0 && early >= 0.0 && dt >= 0.0
    requires Went(from, direction, early, to) && Went(to, direction, dt, later)
    ensures Went(from, direction, early + dt, later)
  {
    KeptOnward(from, 5.0 * direction, early, dt);
  }

  lemma KeptOnward(from: real, speed: real, early: real, dt: real)
    requires -10.0 <= from <= 10.0 && early >= 0.0 && dt >= 0.0
    ensures Kept(Kept(from + speed * early) + speed * dt) == Kept(from + speed * (early + dt))
  {
    assert speed * (early + dt) == speed * early + speed * dt;
    SignOfProduct(speed, early);
    SignOfProduct(speed, dt);
  }

  lemma SignOfProduct(a: real, b: real)
    requires b >= 0.0
    ensures a >= 0.0 ==> a * b >= 0.0
    ensures a <= 0.0 ==> a * b <= 0.0
  {
  }

  lemma StepWalks(p: Player, dt: real)
    ensures var q := StepPlayer(p, dt);
      Went(p.x, p.moveX, dt, q.x) && Went(p.z, p.moveZ, dt, q.z) && q.moveX == p.moveX && q.moveZ == p.moveZ
  {
    assert p.moveX * 5.0 * dt == 5.0 * p.moveX * dt && p.moveZ * 5.0 * dt == 5.0 * p.moveZ * dt;
  }

  /** Where a player that set out from `p` is after `t` seconds in one direction. */
  predicate Walked(p: Player, q: Player, t: real) {
    && Went(p.x, p.moveX, t, q.x) && Went(p.z, p.moveZ, t, q.z)
    && q.moveX == p.moveX && q.moveZ == p.moveZ
  }

  lemma WalksOn(p: Player, q: Player, t: real, dt: real)
    requires OnPlane(p) && Walked(p, q, t) && t >= 0.0 && dt >= 0.0
    ensures Walked(p, StepPlayer(q, dt), t + dt)
  {
    hide StepPlayer; hide Went;
    var r := StepPlayer(q, dt);
    StepWalks(q, dt);
    WentOnward(p.x, p.moveX, t, dt, q.x, r.x);
    WentOnward(p.z, p.moveZ, t, dt, q.z, r.z);
  }

  lemma HappenWalks(w: World, h: Happening, root: real -> real, peer: PeerId, p: Player, t: real)
    requires peer in w.players && OnPlane(p) && Walked(p, w.players[peer], t) && t >= 0.0 && Forwards(h)
    requires h != Leaves(peer) && !(h.Steers? && h.peer == peer)
    ensures var w' := Happen(w, h, root);
      peer in w'.players && Walked(p, w'.players[peer], t + if h.Ticks? then h.dt else 0.0)
  {
    if h.Ticks? { WalksOn(p, w.players[peer], t, h.dt); }
    hide StepPlayer; hide Walked; hide Steered;
  }

  lemma NotYetWalked(p: Player)
    requires OnPlane(p)
    ensures Walked(p, p, 0.0)
  {
  }

  /** Over any stretch of any run in which a peer stays and sends no input, its player goes
      straight on: five units a second along its direction, each coordinate stopping at the
      edge, however the time is cut into steps and whatever the others do. */
  lemma {:induction false} WalkIsStraight(w: World, run: seq<Happening>, root: real -> real, peer: PeerId)
    requires peer in w.players && OnPlane(w.players[peer]) && forall h | h in run :: Forwards(h)
    requires InputsOf(run, peer) == [] && Leaves(peer) !in run
    ensures Duration(run) >= 0.0
    ensures var w' := Play(w, run, root);
      peer in w'.players && Walked(w.players[peer], w'.players[peer], Duration(run))
  {
    hide Happen; hide OnPlane; hide Walked;
    if run == [] {
      NotYetWalked(w.players[peer]);
    } else {
      var before, last := run[..|run| - 1], run[|run| - 1];
      assert run == before + [last];
      assert forall h | h in before :: h in run;
      WalkIsStraight(w, before, root, peer);
      HappenWalks(Play(w, before, root), last, root, peer, w.players[peer], Duration(before));
    }
  }

  // ---- Which input a player obeys --------------------------------------------------------

  /** An axis of an input: at most one either way, and nothing if it is not finite. */
  function Wish(f: Float): real {
    match f
    case NotFinite => 0.0
    case Finite(v) => if v > 1.0 then 1.0 else if v < -1.0 then -1.0 else v
  }

  /** `(a, b)` is the direction `(x, z)`, made of length one if that is longer. */
  predicate Points(a: real, b: real, x: real, z: real) {
    && (x * x + z * z <= 1.0 ==> a == x && b == z)
    && (x * x + z * z > 1.0 ==> a * a + b * b == 1.0 && a * z == b * x && a * x >= 0.0 && b * z >= 0.0)
  }

  /** The direction is the one wished for, made no longer than one; jump is as wished. */
  predicate Obeys(p: Player, input: Input) {
    && Points(p.moveX, p.moveZ, Wish(input.moveX), Wish(input.moveZ))
    && p.jumpHeld == input.jump && p.lastSequence == input.sequence
  }

  /** The single-precision value of pi. */
  const HALF_TURN := 3.1415927410125732421875

  predicate Turned(angle: real, turns: int, result: real) {
    result == angle - 2.0 * HALF_TURN * turns as real
  }

  /** The look is the one wished for, up to whole turns and as far up or down as one can
      look; a look that is not finite leaves it as it was. */
  ghost predicate LooksAsTold(p: Player, q: Player, input: Input) {
    && (match input.lookYaw
        case NotFinite => q.yaw == p.yaw
        case Finite(yaw) => -HALF_TURN <= q.yaw < HALF_TURN && exists turns :: Turned(yaw, turns, q.yaw))
    && (match input.lookPitch
        case NotFinite => q.pitch == p.pitch
        case Finite(pitch) => q.pitch == if pitch > 1.5 then 1.5 else if pitch < -1.5 then -1.5 else pitch)
  }

  /** Nothing else of a player is touched by an input. */
  predicate OnlySteered(p: Player, q: Player) {
    q == p.(moveX := q.moveX, moveZ := q.moveZ, jumpHeld := q.jumpHeld, yaw := q.yaw, pitch := q.pitch,
            lastSequence := q.lastSequence)
  }

  lemma ShortenedPoints(x: real, z: real, length: real)
    requires length >= 0.0 && length * length == SquaredLength(x, z)
    ensures var (a, b) := Shortened(x, z, length); Points(a, b, x, z)
  {
    if length > 1.0 {
      ScaledDown(x, z, length);
      SquareGrows(1.0, length);
      var a, b := x / length, z / length;
      assert a * length == x && b * length == z;
      assert a * z == a * (b * length) && b * x == b * (a * length);
      assert a * (b * length) == b * (a * length);
      Squared(a, length);
      Squared(b, length);
    } else if length < 1.0 {
      SquareGrows(length, 1.0);
    }
  }

  lemma Squared(a: real, length: real)
    requires length >= 0.0
    ensures a * (a * length) >= 0.0
  {
    assert a * (a * length) == a * a * length;
    assert a * a >= 0.0;
    ProductOfNonNegatives(a * a, length);
  }

  lemma DirectionObeys(moveX: Float, moveZ: Float, root: real -> real)
    requires IsRoot(root)
    ensures var (a, b) := BoundedDirection(moveX, moveZ, root); Points(a, b, Wish(moveX), Wish(moveZ))
  {
    var ax, az := Axis(moveX), Axis(moveZ);
    assert Wish(moveX) == ax && Wish(moveZ) == az;
    hide IsRoot; hide Axis; hide Wish; hide Shortened; hide Points; hide SquaredLength;
    SquaresAdd(ax, az);
    RootOf(root, SquaredLength(ax, az));
    ShortenedPoints(ax, az, root(SquaredLength(ax, az)));
  }

  lemma SteeringLooks(p: Player, input: Input, root: real -> real)
    ensures LooksAsTold(p, Steered(p, input, root), input) && OnlySteered(p, Steered(p, input, root))
  {
    if input.lookYaw.Finite? {
      WrapIsCongruent(input.lookYaw.value);
      var turns :| TurnedBy(input.lookYaw.value, turns, WrapAngle(input.lookYaw.value));
      assert Turned(input.lookYaw.value, turns, WrapAngle(input.lookYaw.value));
    }
    hide WrapAngle; hide BoundedDirection; hide TurnedBy; hide Turned;
  }

  lemma SteeringObeys(p: Player, input: Input, root: real -> real)
    requires IsRoot(root)
    ensures var q := Steered(p, input, root);
      Obeys(q, input) && LooksAsTold(p, q, input) && OnlySteered(p, q)
  {
    DirectionObeys(input.moveX, input.moveZ, root);
    SteeringLooks(p, input, root);
    hide IsRoot; hide WrapAngle; hide BoundedDirection; hide Wish; hide LooksAsTold; hide OnlySteered; hide Points;
  }

  /** An input is applied iff its peer has a player that has obeyed no higher number; then
      that player obeys it, and nobody else changes. Otherwise nothing does. */
  lemma InputIsObeyed(w: World, peer: PeerId, input: Input, root: real -> real)
    requires IsRoot(root)
    ensures var (w', applied) := ApplyInput(w, peer, input, root);
      && (applied <==> peer in w.players && w.players[peer].lastSequence <= input.sequence)
      && (!applied ==> w' == w)
      && (applied ==>
            && peer in w'.players && w' == w.(players := w.players[peer := w'.players[peer]])
            && Obeys(w'.players[peer], input) && LooksAsTold(w.players[peer], w'.players[peer], input)
            && OnlySteered(w.players[peer], w'.players[peer]))
  {
    if peer in w.players { SteeringObeys(w.players[peer], input, root); }
    hide Steered; hide Obeys; hide LooksAsTold; hide OnlySteered; hide IsRoot;
  }

  /** The input in force: the last of those with the highest number. */
  predicate InForce(inputs: seq<Input>, k: nat) {
    && k < |inputs|
    && (forall i | 0 <= i < |inputs| :: inputs[i].sequence <= inputs[k].sequence)
    && (forall i | k < i < |inputs| :: inputs[i].sequence < inputs[k].sequence)
  }

  /** A player that has obeyed the input in force, or stands as it joined. */
  ghost predicate Governed(p: Player, inputs: seq<Input>) {
    if inputs == [] then p.moveX == 0.0 && p.moveZ == 0.0 && !p.jumpHeld && p.lastSequence == 0
    else exists k: nat :: InForce(inputs, k) && Obeys(p, inputs[k])
  }

  lemma ObeysByControls(p: Player, q: Player, input: Input)
    requires ControlsOf(p) == ControlsOf(q) && Obeys(p, input)
    ensures Obeys(q, input)
  {
    hide Points;
  }

  lemma GovernedAlike(p: Player, q: Player, inputs: seq<Input>)
    requires ControlsOf(p) == ControlsOf(q) && Governed(p, inputs)
    ensures Governed(q, inputs)
  {
    hide Obeys;
    if inputs != [] {
      var k: nat :| InForce(inputs, k) && Obeys(p, inputs[k]);
      ObeysByControls(p, q, inputs[k]);
    }
  }

  lemma HeedGoverns(p: Player, inputs: seq<Input>, input: Input, root: real -> real)
    requires IsRoot(root) && Governed(p, inputs)
    ensures Governed(Heed(p, input, root), inputs + [input])
  {
    SteeringObeys(p, input, root);
    var all := inputs + [input];
    hide Steered; hide IsRoot;
    if inputs == [] {
      assert InForce(all, 0);
    } else {
      var k: nat :| InForce(inputs, k) && Obeys(p, inputs[k]);
      assert p.lastSequence == inputs[k].sequence;
      hide Obeys;
      if input.sequence < p.lastSequence {
        assert InForce(all, k) && all[k] == inputs[k];
      } else {
        assert InForce(all, |inputs|);
      }
    }
  }

  lemma {:induction false} HeedAllGoverns(p: Player, inputs: seq<Input>, root: real -> real)
    requires IsRoot(root) && Governed(p, [])
    ensures Governed(HeedAll(p, inputs, root), inputs)
  {
    hide Governed; hide Heed; hide IsRoot;
    if inputs != [] {
      var before, last := inputs[..|inputs| - 1], inputs[|inputs| - 1];
      HeedAllGoverns(p, before, root);
      HeedGoverns(HeedAll(p, before, root), before, last, root);
      assert before + [last] == inputs;
    }
  }

  lemma HappenGoverns(w: World, h: Happening, root: real -> real, peer: PeerId, inputs: seq<Input>)
    requires IsRoot(root) && peer in w.players && h != Leaves(peer) && Governed(w.players[peer], inputs)
    ensures var w' := Happen(w, h, root);
      && peer in w'.players
      && Governed(w'.players[peer], inputs + if h.Steers? && h.peer == peer then [h.input] else [])
  {
    HappenControls(w, h, root, peer);
    hide Happen; hide Governed; hide IsRoot; hide ControlsOf;
    var p := w.players[peer];
    if h.Steers? && h.peer == peer {
      HeedGoverns(p, inputs, h.input, root);
      GovernedAlike(Heed(p, h.input, root), Happen(w, h, root).players[peer], inputs + [h.input]);
    } else {
      GovernedAlike(p, Happen(w, h, root).players[peer], inputs);
      assert inputs + [] == inputs;
    }
  }

  /** At every moment of every run, a player's direction and jump are those of the last
      among its peer's highest-numbered inputs since it joined, or still when there is
      none: whatever the inputs are and whatever else happens. */
  lemma {:induction false} RunObeysTheHighest(run: seq<Happening>, root: real -> real, peer: PeerId)
    requires IsRoot(root) && VisitOf(run, peer).Some?
    ensures var w := Play(EMPTY, run, root);
      peer in w.players && Governed(w.players[peer], InputsOf(VisitOf(run, peer).value.since, peer))
  {
    var before, last := run[..|run| - 1], run[|run| - 1];
    RollIsRight(run, root);
    RollIsRight(before, root);
    InEnrolled(Play(EMPTY, run, root), run, peer);
    InEnrolled(Play(EMPTY, before, root), before, peer);
    hide Enrolled; hide IsRoot;
    if VisitOf(before, peer).Some? {
      var since := VisitOf(before, peer).value.since;
      RunObeysTheHighest(before, root, peer);
      hide Happen; hide Governed;
      HappenGoverns(Play(EMPTY, before, root), last, root, peer, InputsOf(since, peer));
      assert (since + [last])[..|since|] == since;
      assert InputsOf(since, peer) + [] == InputsOf(since, peer);
    } else {
      assert last.Joins? && last.peer == peer;
    }
  }
}
