/** The simulation as an object whose table of players is updated in place. */
module WorldObject {
  import opened Bytes
  import opened World
  import W = World

  class Simulation {
    var players: map<PeerId, Player>
    var nextPlayerId: nat
    var tick: u32
    const root: real -> real

    ghost function View(): World
      reads this
    {
      World(players, nextPlayerId, tick)
    }

    constructor (root: real -> real)
      ensures View() == EMPTY && this.root == root
    {
      players, nextPlayerId, tick := map[], 0, 0;
      this.root := root;
    }

    /** A peer that has joined keeps its player. */
    method Join(peer: PeerId, clientKind: byte, displayName: string, x: real, z: real) returns (id: nat)
      modifies this
      ensures (View(), id) == W.Join(old(View()), peer, clientKind, displayName, x, z)
    {
      if peer in players { return players[peer].id; }
      nextPlayerId := nextPlayerId + 1;
      id := nextPlayerId;
      players := players[peer := Player(id, clientKind, displayName, PALETTE[(id - 1) % |PALETTE|], x, 0.0, z,
                                        0.0, 0.0, 0.0, 0.0, 0.0, false, 0)];
    }

    method Leave(peer: PeerId) returns (left: Option<Player>)
      modifies this
      ensures (View(), left) == W.Leave(old(View()), peer)
    {
      left := if peer in players then Some(players[peer]) else None;
      players := players - {peer};
    }

    method ApplyInput(peer: PeerId, input: Input) returns (applied: bool)
      modifies this
      ensures (View(), applied) == W.ApplyInput(old(View()), peer, input, root)
    {
      hide BoundedDirection; hide WrapAngle;
      if peer !in players { return false; }
      var player := players[peer];
      if input.sequence < player.lastSequence { return false; }
      var (moveX, moveZ) := BoundedDirection(input.moveX, input.moveZ, root);
      player := player.(lastSequence := input.sequence);
      player := player.(moveX := moveX);
      player := player.(moveZ := moveZ);
      player := player.(jumpHeld := input.jump);
      if input.lookYaw.Finite? {
        player := player.(yaw := WrapAngle(input.lookYaw.value));
      }
      if input.lookPitch.Finite? {
        player := player.(pitch := Clamp(input.lookPitch.value, -MAX_LOOK_PITCH, MAX_LOOK_PITCH));
      }
      players := players[peer := player];
      return true;
    }

    static method MovePlayer(before: Player, dt: real) returns (player: Player)
      ensures player == StepPlayer(before, dt)
    {
      player := before;
      player := player.(x := Clamp(player.x + player.moveX * MOVE_SPEED * dt, -PLANE_HALF_SIZE, PLANE_HALF_SIZE));
      player := player.(z := Clamp(player.z + player.moveZ * MOVE_SPEED * dt, -PLANE_HALF_SIZE, PLANE_HALF_SIZE));
      if IsGrounded(player) && player.jumpHeld {
        player := player.(velocity := JUMP_SPEED);
      }
      player := player.(velocity := player.velocity - GRAVITY * dt);
      player := player.(y := player.y + player.velocity * dt);
      if player.y <= 0.0 {
        player := player.(y := 0.0);
        player := player.(velocity := 0.0);
      }
    }

    /** Every player takes the step once, in whatever order. */
    method Step(dt: real)
      modifies this
      ensures View() == W.Step(old(View()), dt)
    {
      hide StepPlayer;
      tick := (tick + 1) % 0x1_0000_0000;
      ghost var was := players;
      var waiting := players.Keys;
      while waiting != {}
        invariant waiting <= players.Keys == was.Keys
        invariant forall peer | peer in waiting :: players[peer] == was[peer]
        invariant forall peer | peer in was.Keys - waiting :: players[peer] == StepPlayer(was[peer], dt)
        invariant nextPlayerId == old(nextPlayerId) && tick == (old(tick) + 1) % 0x1_0000_0000
        decreases |waiting|
      {
        var peer :| peer in waiting;
        var player := MovePlayer(players[peer], dt);
        players := players[peer := player];
        waiting := waiting - {peer};
      }
    }
  }
}
