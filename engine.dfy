/** The game object: the module-level variables of the game as fields of
    one class, updated in place by methods that follow the source statement
    by statement and are each proved to produce the state the `Rules`
    function of the same operation describes. */
module Engine {
  import opened Geometry
  import opened Clones
  import opened Rules

  /** The collision loop of `update`: scan the clones in order and stop at
      the first one whose box intersects the player's. */
  method HitsAnyClone(p: Pos, cs: seq<Clone>) returns (hit: bool)
    ensures hit == AnyHit(p, cs)
  {
    var i := 0;
    while i < |cs|
      invariant 0 <= i <= |cs|
      invariant forall j :: 0 <= j < i ==> !Intersects(Box(p), Box(cs[j].pos))
    {
      if Intersects(Box(p), Box(cs[i].pos)) {
        return true;
      }
      i := i + 1;
    }
    return false;
  }

  class Game {
    var player: Pos
    var playerSpeed: int
    var cloneQuarters: int
    var score: nat
    var level: nat
    var currentPath: seq<Delta>
    var startPos: Pos
    var clones: seq<Clone>
    var lastSpawn: int
    var trail: seq<Pos>
    var paused: bool
    var gameOver: bool
    var highscore: int

    /** The current values of all fields. */
    function Snapshot(): State
      reads this
    {
      State(player, playerSpeed, cloneQuarters, score, level, currentPath, startPos,
            clones, lastSpawn, trail, paused, gameOver, highscore)
    }

    /** Boot: the initial values of the game's variables, with the clock and
        the stored best score supplied by the caller. */
    constructor (now: int, best: int)
      ensures Snapshot() == Initial(now, best) && Inv(Snapshot())
    {
      player := CENTRE;
      playerSpeed := START_SPEED;
      cloneQuarters := UNIT_QUARTERS;
      score, level := 0, 0;
      currentPath := [];
      startPos := CENTRE;
      clones := [];
      lastSpawn := now;
      trail := [];
      paused, gameOver := false, false;
      highscore := best;
      ResetClears(Initial(now, best), now);
    }

    /** `spawnClone`. */
    method SpawnClone(now: int)
      modifies this
      ensures Snapshot() == Spawn(old(Snapshot()), now)
    {
      if |currentPath| == 0 {
        return;
      }
      clones := clones + [Clone(currentPath, startPos, 0)];
      score := score + 1;
      if score % LEVEL_EVERY == 0 {
        level := level + 1;
        playerSpeed := playerSpeed + 1;
        cloneQuarters := cloneQuarters + 1;
      }
      currentPath := [];
      startPos := player;
      lastSpawn := now;
    }

    /** `updateClones`: every clone with steps left replays the one at its
        cursor, scaled and truncated, advances the cursor and is clamped. */
    method UpdateClones()
      modifies this
      ensures Snapshot() == old(Snapshot()).(clones := StepAll(old(clones), old(cloneQuarters)))
    {
      var i := 0;
      while i < |clones|
        invariant 0 <= i <= |clones| == |old(clones)|
        invariant forall j :: 0 <= j < i ==> clones[j] == StepClone(old(clones)[j], cloneQuarters)
        invariant forall j :: i <= j < |clones| ==> clones[j] == old(clones)[j]
        invariant Snapshot() == old(Snapshot()).(clones := clones)
      {
        var c := clones[i];
        if c.idx < |c.path| {
          var d := c.path[c.idx];
          var pos := Pos(c.pos.x + Scale(d.dx, cloneQuarters), c.pos.y + Scale(d.dy, cloneQuarters));
          clones := clones[i := Clone(c.path, Clamp(pos, PLAYER_SIZE, PLAYER_SIZE), c.idx + 1)];
        }
        i := i + 1;
      }
    }

    /** The movement phase of `update`: the keyboard step is applied and
        clamped and recorded if it is not zero; a drag records a zero step. */
    method MoveAndRecord(inp: Input)
      modifies this
      ensures Snapshot() == MovePlayer(old(Snapshot()), inp)
    {
      var dx, dy := 0, 0;
      if !inp.dragging {
        if inp.up { dy := dy - playerSpeed; }
        if inp.down { dy := dy + playerSpeed; }
        if inp.left { dx := dx - playerSpeed; }
        if inp.right { dx := dx + playerSpeed; }
        assert Delta(dx, dy) == Velocity(inp, playerSpeed);
        player := Clamp(Pos(player.x + dx, player.y + dy), PLAYER_SIZE, PLAYER_SIZE);
        if dx != 0 || dy != 0 {
          currentPath := currentPath + [Delta(dx, dy)];
        } else {
          assert currentPath == currentPath + [];
        }
      } else {
        currentPath := currentPath + [Delta(0, 0)];
      }
    }

    /** The trail phase of `update`. */
    method PushToTrail()
      modifies this
      ensures Snapshot() == old(Snapshot()).(trail := PushTrail(old(trail), old(player)))
    {
      trail := trail + [player];
      if |trail| > TRAIL_MAX {
        trail := trail[1..];
      }
    }

    /** The collision phase of `update`: the first clone that touches the
        player ends the run, and a new best score is recorded. */
    method CheckCollisions()
      modifies this
      ensures Snapshot() == Collide(old(Snapshot()))
    {
      var hit := HitsAnyClone(player, clones);
      if hit {
        gameOver := true;
        if score > highscore {
          highscore := score;
        }
      }
    }

    /** `update`, one frame, minus particles. A well-formed game stays well
        formed. */
    method Update(inp: Input, now: int)
      modifies this
      ensures Snapshot() == Tick(old(Snapshot()), inp, now)
      ensures old(Inv(Snapshot())) ==> Inv(Snapshot())
    {
      ghost var s0 := Snapshot();
      if paused || gameOver {
        return;
      }
      MoveAndRecord(inp);
      PushToTrail();
      ghost var trailed := Snapshot();
      if now - lastSpawn >= CLONE_INTERVAL && |currentPath| > 0 {
        SpawnClone(now);
      }
      assert Snapshot() == if SpawnDue(trailed, now) then Spawn(trailed, now) else trailed;
      UpdateClones();
      CheckCollisions();
      if Inv(s0) {
        TickKeepsInv(s0, inp, now);
      }
    }

    /** `resetGame`; the best score is kept. */
    method ResetGame(now: int)
      modifies this
      ensures Snapshot() == Reset(old(Snapshot()), now)
    {
      score, level := 0, 0;
      playerSpeed := START_SPEED;
      cloneQuarters := UNIT_QUARTERS;
      player := CENTRE;
      startPos := player;
      currentPath := [];
      clones := [];
      trail := [];
      lastSpawn := now;
      paused, gameOver := false, false;
    }

    /** The "p" key. */
    method KeyPause()
      modifies this
      ensures Snapshot() == OnPauseKey(old(Snapshot()))
      ensures old(Inv(Snapshot())) ==> Inv(Snapshot())
    {
      if !gameOver {
        paused := !paused;
      }
      if Inv(old(Snapshot())) {
        PauseKeyKeepsInv(old(Snapshot()));
      }
    }

    /** The Enter key. */
    method KeyEnter(now: int)
      modifies this
      ensures Snapshot() == OnEnterKey(old(Snapshot()), now)
      ensures Inv(old(Snapshot())) ==> Inv(Snapshot())
    {
      if gameOver {
        ResetGame(now);
      }
      ResetClears(old(Snapshot()), now);
    }
  }
}
