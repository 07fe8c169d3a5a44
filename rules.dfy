/** The game state machine as functions on a snapshot of the game's state:
    spawning, one tick of `update`, the pause and restart keys and
    `resetGame`, with the invariants they keep. */
module Rules {
  import opened Geometry
  import opened Clones

  const START_SPEED: int := 5
  /** Milliseconds between spawn attempts. */
  const CLONE_INTERVAL: int := 5000
  /** The game levels up every this many clones. */
  const LEVEL_EVERY: int := 5
  /** Length of the cosmetic trail behind the player. */
  const TRAIL_MAX: int := 15

  /** The player's start corner, centring it in the arena: (626, 346). */
  const CENTRE: Pos := Pos(VWIDTH / 2 - PLAYER_SIZE / 2, VHEIGHT / 2 - PLAYER_SIZE / 2)

  /** The input sampled for one tick: the four directions (keyboard or
      on-screen buttons, already or-ed together) and whether a touch drag
      is in progress. */
  datatype Input = Input(up: bool, down: bool, left: bool, right: bool, dragging: bool)

  /** The game's module-level state. `cloneQuarters` is `cloneSpeed` counted
      in quarters; `lastSpawn` is the clock reading of the last spawn. */
  datatype State = State(
    player: Pos,
    playerSpeed: int,
    cloneQuarters: int,
    score: nat,
    level: nat,
    currentPath: seq<Delta>,
    startPos: Pos,
    clones: seq<Clone>,
    lastSpawn: int,
    trail: seq<Pos>,
    paused: bool,
    gameOver: bool,
    highscore: int)

  /** The state at boot, given the clock and the stored best score. */
  function Initial(now: int, best: int): State {
    State(CENTRE, START_SPEED, UNIT_QUARTERS, 0, 0, [], CENTRE, [], now, [], false, false, best)
  }

  /** `resetGame`: every field back to its boot value except the high score. */
  function Reset(s: State, now: int): State {
    Initial(now, s.highscore)
  }

  /** `spawnClone`: nothing at all happens for an empty path; otherwise the
      path becomes a new clone at the recorded start, the score goes up, the
      level-up rule is applied and recording restarts from the player. */
  function Spawn(s: State, now: int): State {
    if |s.currentPath| == 0 then s
    else
      var score := s.score + 1;
      var up := score % LEVEL_EVERY == 0;
      s.(clones := s.clones + [Clone(s.currentPath, s.startPos, 0)],
         score := score,
         level := if up then s.level + 1 else s.level,
         playerSpeed := if up then s.playerSpeed + 1 else s.playerSpeed,
         cloneQuarters := if up then s.cloneQuarters + 1 else s.cloneQuarters,
         currentPath := [],
         startPos := s.player,
         lastSpawn := now)
  }

  /** The keyboard step: opposite directions cancel additively. */
  function Velocity(inp: Input, speed: int): Delta {
    var dy := (if inp.up then -speed else 0) + (if inp.down then speed else 0);
    var dx := (if inp.left then -speed else 0) + (if inp.right then speed else 0);
    Delta(dx, dy)
  }

  /** What one tick appends to the path: the step if it is not zero, or a
      zero step for a tick spent dragging. */
  function Recorded(inp: Input, speed: int): seq<Delta> {
    if inp.dragging then [Delta(0, 0)]
    else if Velocity(inp, speed) != Delta(0, 0) then [Velocity(inp, speed)]
    else []
  }

  /** Moving and recording. A drag does not move the player here. */
  function MovePlayer(s: State, inp: Input): State {
    if !inp.dragging then
      var d := Velocity(inp, s.playerSpeed);
      s.(player := Clamp(Pos(s.player.x + d.dx, s.player.y + d.dy), PLAYER_SIZE, PLAYER_SIZE),
         currentPath := s.currentPath + Recorded(inp, s.playerSpeed))
    else
      s.(currentPath := s.currentPath + Recorded(inp, s.playerSpeed))
  }

  /** Push the player's position onto the trail, dropping the oldest entry
      once it is longer than `TRAIL_MAX`. */
  function PushTrail(t: seq<Pos>, p: Pos): seq<Pos> {
    var t' := t + [p];
    if |t'| > TRAIL_MAX then t'[1..] else t'
  }

  /** The spawn interval has elapsed and there is movement to replay. */
  predicate SpawnDue(s: State, now: int) {
    now - s.lastSpawn >= CLONE_INTERVAL && |s.currentPath| > 0
  }

  /** The box of an entity of the player's size at `p`. */
  function Box(p: Pos): Rect {
    Rect(p.x, p.y, PLAYER_SIZE, PLAYER_SIZE)
  }

  /** Some clone's box intersects the player's. */
  predicate AnyHit(p: Pos, cs: seq<Clone>) {
    exists i :: 0 <= i < |cs| && Intersects(Box(p), Box(cs[i].pos))
  }

  /** The collision phase: a hit ends the run and records a new best. */
  function Collide(s: State): State {
    if AnyHit(s.player, s.clones) then
      s.(gameOver := true, highscore := if s.score > s.highscore then s.score else s.highscore)
    else s
  }

  /** `update` minus particles: move, record, trail, spawn check, replay,
      collision, in that order; nothing at all while paused or over. */
  function Tick(s: State, inp: Input, now: int): State {
    if s.paused || s.gameOver then s
    else
      var moved := MovePlayer(s, inp);
      var trailed := moved.(trail := PushTrail(moved.trail, moved.player));
      var spawned := if SpawnDue(trailed, now) then Spawn(trailed, now) else trailed;
      var replayed := spawned.(clones := StepAll(spawned.clones, spawned.cloneQuarters));
      Collide(replayed)
  }

  /** The "p" key: toggles pause unless the game is over. */
  function OnPauseKey(s: State): State {
    if !s.gameOver then s.(paused := !s.paused) else s
  }

  /** The Enter key: restarts only a game that is over. */
  function OnEnterKey(s: State, now: int): State {
    if s.gameOver then Reset(s, now) else s
  }

  /** The invariant every reachable state keeps. Beyond the bounds, the
      player is exactly where replaying the current path from the start
      position at multiplier 1.0 leads, and the score, level and speeds are
      tied together as the level-up rule makes them. */
  predicate Inv(s: State) {
    && InBounds(s.player)
    && InBounds(s.startPos)
    && AllOk(s.clones)
    && (forall i :: 0 <= i < |s.clones| ==> |s.clones[i].path| > 0)
    && |s.clones| == s.score
    && s.level == s.score / LEVEL_EVERY
    && s.playerSpeed == START_SPEED + s.level
    && s.cloneQuarters == UNIT_QUARTERS + s.level
    && |s.trail| <= TRAIL_MAX
    && (forall i :: 0 <= i < |s.trail| ==> InBounds(s.trail[i]))
    && Follow(s.startPos, s.currentPath, UNIT_QUARTERS) == s.player
    && !(s.paused && s.gameOver)
    && (s.gameOver ==> s.highscore >= s.score)
  }

  // ---------------------------------------------------------------------
  // Reset and boot

  /** After a reset the run starts over: no score, no level, no clones, no
      path, no trail, initial speeds, the player at the centre with the
      replay start on it, running; only the best score survives. */
  lemma ResetClears(s: State, now: int)
    ensures var r := Reset(s, now);
      && r.score == 0 && r.level == 0 && r.clones == [] && r.currentPath == [] && r.trail == []
      && r.playerSpeed == START_SPEED && r.cloneQuarters == UNIT_QUARTERS
      && r.player == Pos(626, 346) && r.startPos == r.player
      && !r.paused && !r.gameOver && r.lastSpawn == now
      && r.highscore == s.highscore
      && Inv(r)
  {
  }

  // ---------------------------------------------------------------------
  // Spawning

  /** `spawnClone` with an empty path changes nothing. Otherwise exactly one
      clone is appended, holding the recorded path from the recorded start
      with its cursor at 0; the earlier clones are untouched; the score goes
      up by exactly one; the path is emptied and restarts at the player; and
      the level goes up, with both speeds, exactly when the new score is a
      multiple of `LEVEL_EVERY`. */
  lemma SpawnSpec(s: State, now: int)
    ensures var r := Spawn(s, now);
      && (|s.currentPath| == 0 ==> r == s)
      && (|s.currentPath| > 0 ==>
            && |r.clones| == |s.clones| + 1
            && r.clones[..|s.clones|] == s.clones
            && r.clones[|s.clones|] == Clone(s.currentPath, s.startPos, 0)
            && r.score == s.score + 1
            && r.currentPath == [] && r.startPos == s.player && r.lastSpawn == now
            && (r.level == s.level + 1 <==> r.score % LEVEL_EVERY == 0)
            && (r.level == s.level || r.level == s.level + 1)
            && r.playerSpeed - s.playerSpeed == r.level - s.level
            && r.cloneQuarters - s.cloneQuarters == r.level - s.level
            && r.player == s.player && r.trail == s.trail && r.highscore == s.highscore
            && r.paused == s.paused && r.gameOver == s.gameOver)
  {
    if |s.currentPath| > 0 {
      var r := Spawn(s, now);
      assert r.clones[..|s.clones|] == s.clones;
    }
  }

  /** One more point raises the floor of score / 5 exactly when the new
      score is a multiple of five. */
  lemma LevelStep(score: nat)
    ensures (score + 1) / LEVEL_EVERY == score / LEVEL_EVERY + (if (score + 1) % LEVEL_EVERY == 0 then 1 else 0)
  {
  }

  /** Spawning, which only a running tick does, keeps the invariant. */
  lemma SpawnKeepsInv(s: State, now: int)
    requires Inv(s) && !s.gameOver
    ensures Inv(Spawn(s, now))
  {
    if |s.currentPath| > 0 {
      var r := Spawn(s, now);
      LevelStep(s.score);
      assert r.clones == s.clones + [Clone(s.currentPath, s.startPos, 0)];
      forall i | 0 <= i < |r.clones|
        ensures CloneOk(r.clones[i]) && |r.clones[i].path| > 0
      {
        if i < |s.clones| {
          assert r.clones[i] == s.clones[i];
        }
      }
    }
  }

  /** The echo: a clone spawned from a well-formed state, replayed to the end
      of its path at multiplier 1.0, ends exactly where the player stood at
      the moment it was spawned. */
  lemma SpawnedCloneRetracesPlayer(s: State, now: int)
    requires Inv(s) && |s.currentPath| > 0
    ensures var r := Spawn(s, now);
      var c := r.clones[|r.clones| - 1];
      StepN(c, UNIT_QUARTERS, |c.path|).pos == s.player
  {
    var c := Clone(s.currentPath, s.startPos, 0);
    ReplayFollowsPath(s.currentPath, s.startPos, UNIT_QUARTERS, |s.currentPath|);
    assert s.currentPath[..|s.currentPath|] == s.currentPath;
  }

  // ---------------------------------------------------------------------
  // One tick

  /** While paused or after game over a tick changes nothing. */
  lemma TickFrozen(s: State, inp: Input, now: int)
    requires s.paused || s.gameOver
    ensures Tick(s, inp, now) == s
  {
  }

  lemma MovePlayerKeepsInv(s: State, inp: Input)
    requires Inv(s)
    ensures Inv(MovePlayer(s, inp))
  {
    var r := MovePlayer(s, inp);
    var rec := Recorded(inp, s.playerSpeed);
    if rec != [] {
      FollowSnoc(s.startPos, s.currentPath, rec[0], UNIT_QUARTERS);
      ScaleUnit(rec[0].dx);
      ScaleUnit(rec[0].dy);
      assert rec[0] == Delta(0, 0) ==> Move(s.player, rec[0], UNIT_QUARTERS) == s.player by {
        ClampFixesExactlyInside(s.player, PLAYER_SIZE, PLAYER_SIZE);
      }
    } else {
      assert r.currentPath == s.currentPath;
      ClampFixesExactlyInside(s.player, PLAYER_SIZE, PLAYER_SIZE);
    }
  }

  /** The trail never grows beyond `TRAIL_MAX` and its newest entry is the
      position just pushed; it keeps the most recent positions in order. */
  lemma PushTrailSpec(t: seq<Pos>, p: Pos)
    requires |t| <= TRAIL_MAX
    ensures var r := PushTrail(t, p);
      && |r| <= TRAIL_MAX && |r| > 0 && r[|r| - 1] == p
      && (|t| < TRAIL_MAX ==> r == t + [p])
      && (|t| == TRAIL_MAX ==> r == t[1..] + [p])
  {
  }

  lemma CollideKeepsInv(s: State)
    requires Inv(s) && !s.paused
    ensures Inv(Collide(s))
  {
  }

  /** Every tick keeps the invariant: in particular the player and every
      clone stay inside the arena, every cursor stays within its path and
      the level stays score / 5. */
  lemma TickKeepsInv(s: State, inp: Input, now: int)
    requires Inv(s)
    ensures Inv(Tick(s, inp, now))
  {
    if !(s.paused || s.gameOver) {
      var moved := MovePlayer(s, inp);
      MovePlayerKeepsInv(s, inp);
      var trailed := moved.(trail := PushTrail(moved.trail, moved.player));
      PushTrailSpec(moved.trail, moved.player);
      assert Inv(trailed);
      var spawned := if SpawnDue(trailed, now) then Spawn(trailed, now) else trailed;
      SpawnKeepsInv(trailed, now);
      var replayed := spawned.(clones := StepAll(spawned.clones, spawned.cloneQuarters));
      StepAllKeepsClones(spawned.clones, spawned.cloneQuarters);
      assert Inv(replayed);
      CollideKeepsInv(replayed);
    }
  }

  /** A running tick without a drag moves the player by the keyboard step and
      clamps it; a drag tick leaves it in place. Either way it ends in bounds. */
  lemma TickMovesPlayer(s: State, inp: Input, now: int)
    requires !s.paused && !s.gameOver
    ensures var r := Tick(s, inp, now);
      var d := Velocity(inp, s.playerSpeed);
      && (!inp.dragging ==> r.player == Clamp(Pos(s.player.x + d.dx, s.player.y + d.dy), PLAYER_SIZE, PLAYER_SIZE))
      && (inp.dragging ==> r.player == s.player)
      && (!inp.dragging || InBounds(s.player) ==> InBounds(r.player))
  {
  }

  /** A running tick appends one step to the path exactly when the player
      pressed a non-cancelling direction or dragged, and nothing otherwise.
      If the spawn interval elapsed, the extended path went into the newest
      clone and recording restarted empty; otherwise it is the new path. */
  lemma TickRecordsPath(s: State, inp: Input, now: int)
    requires !s.paused && !s.gameOver
    ensures var rec := Recorded(inp, s.playerSpeed);
      var r := Tick(s, inp, now);
      var path := s.currentPath + rec;
      && (|rec| == 1 <==> inp.dragging || Velocity(inp, s.playerSpeed) != Delta(0, 0))
      && (|rec| == 0 <==> !inp.dragging && Velocity(inp, s.playerSpeed) == Delta(0, 0))
      && (now - s.lastSpawn >= CLONE_INTERVAL && |path| > 0 ==>
            r.currentPath == [] && |r.clones| == |s.clones| + 1
            && r.clones[|s.clones|].path == path && r.clones[|s.clones|].idx == 1
            && r.clones[|s.clones|].pos == Move(s.startPos, path[0], r.cloneQuarters))
      && (!(now - s.lastSpawn >= CLONE_INTERVAL && |path| > 0) ==>
            r.currentPath == path && |r.clones| == |s.clones|)
  {
    var moved := MovePlayer(s, inp);
    assert moved.currentPath == s.currentPath + Recorded(inp, s.playerSpeed);
  }

  /** After a running tick of a well-formed state the trail is at most
      `TRAIL_MAX` long and ends with the player's position. */
  lemma TickTrail(s: State, inp: Input, now: int)
    requires Inv(s) && !s.paused && !s.gameOver
    ensures var r := Tick(s, inp, now);
      |r.trail| <= TRAIL_MAX && |r.trail| > 0 && r.trail[|r.trail| - 1] == r.player
  {
    var moved := MovePlayer(s, inp);
    PushTrailSpec(moved.trail, moved.player);
  }

  /** A running tick ends the run exactly when, after the replay step, the
      player's box intersects some clone's box; the best score then becomes
      the larger of the old best and the score, and is otherwise unchanged. */
  lemma TickGameOver(s: State, inp: Input, now: int)
    requires !s.paused && !s.gameOver
    ensures var r := Tick(s, inp, now);
      && (r.gameOver <==> AnyHit(r.player, r.clones))
      && (r.gameOver ==> r.highscore == if r.score > s.highscore then r.score else s.highscore)
      && (!r.gameOver ==> r.highscore == s.highscore)
  {
  }

  /** No transition lowers the best score. */
  lemma HighscoreNeverDecreases(s: State, inp: Input, now: int)
    ensures Tick(s, inp, now).highscore >= s.highscore
    ensures OnPauseKey(s).highscore == s.highscore
    ensures OnEnterKey(s, now).highscore == s.highscore
  {
  }

  // ---------------------------------------------------------------------
  // Keys

  /** The pause key toggles `paused` unless the game is over, and pressing it
      twice restores the state; it never touches anything else. */
  lemma PauseKeySpec(s: State)
    ensures var r := OnPauseKey(s);
      && (s.gameOver ==> r == s)
      && (!s.gameOver ==> r.paused == !s.paused && r.(paused := s.paused) == s)
      && OnPauseKey(r) == s
  {
  }

  /** Enter restarts a finished game and is ignored otherwise. */
  lemma EnterKeySpec(s: State, now: int)
    ensures var r := OnEnterKey(s, now);
      && (!s.gameOver ==> r == s)
      && (s.gameOver ==> r == Reset(s, now))
      && (s.gameOver ==>
            !r.gameOver && !r.paused && r.score == 0 && r.level == 0
            && r.clones == [] && r.currentPath == [] && r.trail == []
            && r.playerSpeed == START_SPEED && r.cloneQuarters == UNIT_QUARTERS
            && r.player == CENTRE && r.startPos == CENTRE && r.lastSpawn == now
            && r.highscore == s.highscore && Inv(r))
  {
    ResetClears(s, now);
  }

  lemma PauseKeyKeepsInv(s: State)
    requires Inv(s)
    ensures Inv(OnPauseKey(s))
  {
  }

  // ---------------------------------------------------------------------
  // Whole runs

  /** Everything that can happen to the game: a frame, or a key press. */
  datatype Event = Frame(inp: Input, now: int) | PauseKey | EnterKey(at: int)

  function Apply(s: State, e: Event): State {
    match e
    case Frame(inp, now) => Tick(s, inp, now)
    case PauseKey => OnPauseKey(s)
    case EnterKey(at) => OnEnterKey(s, at)
  }

  /** The state after a sequence of events. */
  function Run(s: State, evs: seq<Event>): State
    decreases |evs|
  {
    if |evs| == 0 then s else Run(Apply(s, evs[0]), evs[1..])
  }

  /** Across any sequence of frames and key presses, across resets too, the
      invariant holds and the best score never goes down. */
  lemma {:induction false} RunKeepsInv(s: State, evs: seq<Event>)
    requires Inv(s)
    ensures Inv(Run(s, evs)) && Run(s, evs).highscore >= s.highscore
    decreases |evs|
  {
    if |evs| > 0 {
      var s' := Apply(s, evs[0]);
      match evs[0] {
        case Frame(inp, now) =>
          TickKeepsInv(s, inp, now);
          HighscoreNeverDecreases(s, inp, now);
        case PauseKey =>
          PauseKeyKeepsInv(s);
        case EnterKey(at) =>
          ResetClears(s, at);
      }
      RunKeepsInv(s', evs[1..]);
    }
  }

  /** From boot, in every reachable state the level is score / 5, the player
      speed is 5 plus the level, the multiplier is 1.0 plus a quarter per
      level, every clone's cursor is within its path, and everything is in
      the arena. */
  lemma ReachableStates(now: int, best: int, evs: seq<Event>)
    ensures var r := Run(Initial(now, best), evs);
      && r.level == r.score / LEVEL_EVERY
      && r.playerSpeed == START_SPEED + r.level
      && r.cloneQuarters == UNIT_QUARTERS + r.level
      && InBounds(r.player)
      && (forall i :: 0 <= i < |r.clones| ==> r.clones[i].idx <= |r.clones[i].path| && InBounds(r.clones[i].pos))
      && r.highscore >= best
  {
    ResetClears(Initial(now, best), now);
    RunKeepsInv(Initial(now, best), evs);
    var r := Run(Initial(now, best), evs);
    assert forall i :: 0 <= i < |r.clones| ==> CloneOk(r.clones[i]);
  }

  // ---------------------------------------------------------------------
  // Scenario

  /** From boot, one tick moving right records one step of +5; when the
      interval has elapsed and the player has stood still, that step becomes
      the first clone, which replays it in the same tick onto the player's
      square: the run ends with a score and best of 1. */
  lemma OneStepEcho()
    ensures var s0 := Initial(0, 0);
      var s1 := Tick(s0, Input(false, false, false, true, false), 0);
      var s2 := Tick(s1, Input(false, false, false, false, false), CLONE_INTERVAL);
      && s1.player == Pos(631, 346) && s1.currentPath == [Delta(5, 0)] && s1.clones == []
      && !s1.gameOver
      && |s2.clones| == 1 && s2.clones[0].path == [Delta(5, 0)] && s2.clones[0].idx == 1
      && s2.clones[0].pos == Pos(631, 346) && s2.player == Pos(631, 346)
      && s2.score == 1 && s2.gameOver && s2.highscore == 1
  {
    var s0 := Initial(0, 0);
    var right := Input(false, false, false, true, false);
    var idle := Input(false, false, false, false, false);
    assert Velocity(right, 5) == Delta(5, 0);
    var s1 := Tick(s0, right, 0);
    assert s1.player == Pos(631, 346);
    assert !AnyHit(s1.player, s1.clones);
    var s2 := Tick(s1, idle, CLONE_INTERVAL);
    assert Recorded(idle, s1.playerSpeed) == [];
    ScaleUnit(5);
    ScaleUnit(0);
    assert Move(Pos(626, 346), Delta(5, 0), UNIT_QUARTERS) == Pos(631, 346);
    assert Intersects(Box(s2.player), Box(s2.clones[0].pos));
  }
}
