/** The clone engine: a recorded path of per-tick displacements, and the
    replay of such a path by a clone, scaled by the replay multiplier,
    truncated toward zero and clamped into the arena. */
module Clones {
  import opened Geometry

  /** One recorded `[dx, dy]` step. */
  datatype Delta = Delta(dx: int, dy: int)

  /** A clone: its own copy of a path, its replay position and the index of
      the next step to replay. Clones are `PLAYER_SIZE` squares. */
  datatype Clone = Clone(path: seq<Delta>, pos: Pos, idx: nat)

  /** The replay multiplier `cloneSpeed` is always 1.0 + 0.25 k, so it is
      kept exactly as a count of quarters, `q == 4 + k`. */
  const UNIT_QUARTERS: int := 4

  function Abs(n: int): nat {
    if n < 0 then -n else n
  }

  /** `Math.trunc(n / 4)`: division by four rounded toward zero (Dafny's
      own `/` rounds toward minus infinity for negative `n`). */
  function TruncQuarter(n: int): (r: int)
    ensures 4 * Abs(r) <= Abs(n) < 4 * Abs(r) + 4
    ensures (n >= 0 ==> r >= 0) && (n <= 0 ==> r <= 0)
  {
    if n >= 0 then n / 4 else -((-n) / 4)
  }

  /** Truncation commutes with negation, unlike Euclidean division. */
  lemma TruncQuarterOdd(n: int)
    ensures TruncQuarter(-n) == -TruncQuarter(n)
  {
  }

  /** The rounding rule matters for negative steps: -5 quarters truncate to
      -1, where Euclidean division gives -2. */
  lemma TruncDiffersFromFloor()
    ensures TruncQuarter(-5) == -1 && -5 / 4 == -2
  {
  }

  /** `Math.trunc(d * cloneSpeed)` with `cloneSpeed == q / 4`. */
  function Scale(d: int, q: int): int {
    TruncQuarter(d * q)
  }

  /** At multiplier 1.0 a step is replayed unchanged. */
  lemma ScaleUnit(d: int)
    ensures Scale(d, UNIT_QUARTERS) == d
  {
  }

  /** A scaled step never moves further than the multiplier allows and keeps
      the sign of the recorded step. */
  lemma ScaleBounded(d: int, q: int)
    requires q >= 0
    ensures 4 * Abs(Scale(d, q)) <= Abs(d) * q
    ensures (d >= 0 ==> Scale(d, q) >= 0) && (d <= 0 ==> Scale(d, q) <= 0)
  {
    if d >= 0 {
      assert d * q >= 0;
    } else {
      assert d * q == -((-d) * q);
      assert (-d) * q >= 0;
    }
  }

  /** One replayed step from `p`: add the scaled, truncated step, then clamp
      as for the player. */
  function Move(p: Pos, d: Delta, q: int): (r: Pos)
    ensures InBounds(r)
  {
    Clamp(Pos(p.x + Scale(d.dx, q), p.y + Scale(d.dy, q)), PLAYER_SIZE, PLAYER_SIZE)
  }

  /** The position reached from `start` by replaying all of `path` at a
      constant multiplier of `q` quarters. */
  function Follow(start: Pos, path: seq<Delta>, q: int): Pos
    decreases |path|
  {
    if |path| == 0 then start
    else Move(Follow(start, path[..|path| - 1], q), path[|path| - 1], q)
  }

  /** Following a path extended by one step is one more `Move`. */
  lemma FollowSnoc(start: Pos, path: seq<Delta>, d: Delta, q: int)
    ensures Follow(start, path + [d], q) == Move(Follow(start, path, q), d, q)
  {
    assert (path + [d])[..|path|] == path;
  }

  /** The body of the `updateClones` loop for one clone: a clone whose
      cursor has not reached the end of its path replays the step at the
      cursor and advances it; an exhausted clone is frozen. */
  function StepClone(c: Clone, q: int): Clone {
    if c.idx < |c.path| then Clone(c.path, Move(c.pos, c.path[c.idx], q), c.idx + 1)
    else c
  }

  /** A clone is well formed: its cursor never passes the end of its path
      and it lies in the arena. */
  predicate CloneOk(c: Clone) {
    c.idx <= |c.path| && InBounds(c.pos)
  }

  /** What `updateClones` promises for a single clone: the path is never
      changed, a well-formed clone stays well formed, a frozen clone stays
      exactly where it is, and any other clone advances one step. */
  lemma StepCloneSpec(c: Clone, q: int)
    ensures var r := StepClone(c, q);
      && r.path == c.path
      && (CloneOk(c) ==> CloneOk(r))
      && (c.idx == |c.path| ==> r == c)
      && (c.idx < |c.path| ==> r.idx == c.idx + 1 && r.pos == Move(c.pos, c.path[c.idx], q))
  {
  }

  /** One replay tick for every clone (`updateClones`), in order. */
  function StepAll(cs: seq<Clone>, q: int): seq<Clone> {
    seq(|cs|, i requires 0 <= i < |cs| => StepClone(cs[i], q))
  }

  /** Every clone is well formed. */
  predicate AllOk(cs: seq<Clone>) {
    forall i :: 0 <= i < |cs| ==> CloneOk(cs[i])
  }

  /** A replay tick keeps every clone well formed, keeps the clone count and
      every clone's path. */
  lemma StepAllKeepsClones(cs: seq<Clone>, q: int)
    requires AllOk(cs)
    ensures var r := StepAll(cs, q);
      && AllOk(r) && |r| == |cs|
      && forall i :: 0 <= i < |cs| ==> r[i].path == cs[i].path
  {
    var r := StepAll(cs, q);
    forall i | 0 <= i < |cs|
      ensures CloneOk(r[i]) && r[i].path == cs[i].path
    {
      StepCloneSpec(cs[i], q);
    }
  }

  /** `n` successive replay ticks of one clone at a constant multiplier. */
  function StepN(c: Clone, q: int, n: nat): Clone {
    if n == 0 then c else StepClone(StepN(c, q, n - 1), q)
  }

  /** Determinism of replay: a freshly spawned clone replayed `n` times at a
      constant multiplier is at the position reached by following the first
      `n` steps of its path from its start (all of them once `n` passes the
      path length, after which it is frozen). */
  lemma {:induction false} ReplayFollowsPath(path: seq<Delta>, start: Pos, q: int, n: nat)
    ensures var k := if n <= |path| then n else |path|;
      StepN(Clone(path, start, 0), q, n) == Clone(path, Follow(start, path[..k], q), k)
  {
    if n == 0 {
      assert path[..0] == [];
    } else {
      ReplayFollowsPath(path, start, q, n - 1);
      if n <= |path| {
        assert path[..n] == path[..n - 1] + [path[n - 1]];
        FollowSnoc(start, path[..n - 1], path[n - 1], q);
      }
    }
  }
}
