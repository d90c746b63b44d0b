/** The enemy population of enemies.js: enemies spawn on the edge of a
    square around the origin on a timer, walk in the x/z plane toward a goal
    and are removed when they come within reach of the core. */
module Enemies {
  import opened Common
  import opened Geometry

  /** Half the side of the spawn square. */
  const SpawnRange: real := 20.0
  /** Height of a spawned enemy (the radius of its sphere). */
  const EnemyHeight: real := 0.7
  /** Units per second. */
  const EnemySpeed: real := 3.0
  /** An enemy closer than this to the core hits it. */
  const CoreReach: real := 2.0
  /** Milliseconds between spawns. */
  const DefaultSpawnInterval: real := 1000.0

  /** An enemy mesh; only its position matters to the simulation. */
  class Enemy {
    var pos: Vec3

    constructor (pos: Vec3)
      ensures this.pos == pos
    {
      this.pos := pos;
    }
  }

  /** Which edge `Math.floor(Math.random() * 4)` picks: 0 left, 1 right, 2 top, 3 bottom. */
  function SpawnSide(r: real): (side: int)
    requires 0.0 <= r < 1.0
    ensures 0 <= side < 4
    ensures side as real <= 4.0 * r < side as real + 1.0
  {
    (r * 4.0).Floor
  }

  /** On the boundary of the spawn square: one of x, z is at an edge and the
      other one runs along it, from the lower corner up to (not including)
      the upper one; at enemy height. */
  ghost predicate OnPerimeter(p: Vec3) {
    && p.y == EnemyHeight
    && (|| ((p.x == -SpawnRange || p.x == SpawnRange) && -SpawnRange <= p.z < SpawnRange)
        || ((p.z == -SpawnRange || p.z == SpawnRange) && -SpawnRange <= p.x < SpawnRange))
  }

  /** Where `spawnEnemy` puts an enemy, given the two `Math.random()` values
      it draws: `r1` chooses the edge, `r2` the place along it. */
  function SpawnPoint(r1: real, r2: real): (p: Vec3)
    requires 0.0 <= r1 < 1.0 && 0.0 <= r2 < 1.0
    ensures OnPerimeter(p)
  {
    var side := SpawnSide(r1);
    var along := r2 * SpawnRange * 2.0 - SpawnRange;
    if side == 0 then Vec3(-SpawnRange, EnemyHeight, along)
    else if side == 1 then Vec3(SpawnRange, EnemyHeight, along)
    else if side == 2 then Vec3(along, EnemyHeight, -SpawnRange)
    else Vec3(along, EnemyHeight, SpawnRange)
  }

  /** Every point of the perimeter is a possible spawn point. */
  lemma PerimeterIsReachable(p: Vec3)
    requires OnPerimeter(p)
    ensures exists r1: real, r2: real :: 0.0 <= r1 < 1.0 && 0.0 <= r2 < 1.0 && SpawnPoint(r1, r2) == p
  {
    var onX := (p.x == -SpawnRange || p.x == SpawnRange) && -SpawnRange <= p.z < SpawnRange;
    var along := if onX then p.z else p.x;
    var r2 := (along + SpawnRange) / (2.0 * SpawnRange);
    var side :=
      if onX then (if p.x == -SpawnRange then 0 else 1)
      else (if p.z == -SpawnRange then 2 else 3);
    var r1 := side as real / 4.0 + 0.125;
    assert SpawnSide(r1) == side;
    assert r2 * SpawnRange * 2.0 - SpawnRange == along;
    assert SpawnPoint(r1, r2) == p;
  }

  /** One frame of walking: `step` units toward `goal` in the x/z plane. */
  function Stride(p: Vec3, goal: Vec3, step: real, len: LengthFn): (r: Vec3)
    ensures r.y == p.y
    ensures step == 0.0 ==> r == p
    ensures p.x == goal.x && p.z == goal.z ==> r == p
  {
    Advance(p, Vec3(goal.x, p.y, goal.z), step, len)
  }

  /** A stride stays on the line through `p` and the goal, and with a
      non-negative step and length it heads toward the goal, never away. */
  lemma StrideIsTowardGoal(p: Vec3, goal: Vec3, step: real, len: LengthFn)
    ensures var r := Stride(p, goal, step, len);
      && (r.x - p.x) * (goal.z - p.z) == (r.z - p.z) * (goal.x - p.x)
      && (0.0 <= step && 0.0 <= len(Vec3(goal.x - p.x, 0.0, goal.z - p.z)) ==>
            0.0 <= (r.x - p.x) * (goal.x - p.x) && 0.0 <= (r.z - p.z) * (goal.z - p.z))
  {
    var dir := Vec3(goal.x - p.x, 0.0, goal.z - p.z);
    var u := Normalize(dir, len);
    NormalizeIsParallel(dir, len);
    StrideOffset(p, goal, step, len);
    ScaledCross(u.x, dir.z, u.z, dir.x, step);
    if 0.0 <= step && 0.0 <= len(dir) {
      ScaledDot(u.x, dir.x, step);
      ScaledDot(u.z, dir.z, step);
    }
  }

  /** With a faithful length, an enemy not yet above the goal walks exactly
      `step` units. */
  lemma StrideCoversStep(p: Vec3, goal: Vec3, step: real, len: LengthFn)
    requires IsLength(len) && 0.0 < DistSq(Vec3(goal.x, p.y, goal.z), p)
    ensures DistSq(Stride(p, goal, step, len), p) == step * step
  {
    AdvanceCoversStep(p, Vec3(goal.x, p.y, goal.z), step, len);
  }

  /** The stride moves `p` by the normalised direction to the goal, scaled by the step. */
  lemma StrideOffset(p: Vec3, goal: Vec3, step: real, len: LengthFn)
    ensures var u := Normalize(Vec3(goal.x - p.x, 0.0, goal.z - p.z), len);
      var r := Stride(p, goal, step, len);
      r.x - p.x == u.x * step && r.z - p.z == u.z * step
  {
    assert Sub(Vec3(goal.x, p.y, goal.z), p) == Vec3(goal.x - p.x, 0.0, goal.z - p.z);
  }

  lemma ScaledCross(a: real, b: real, c: real, d: real, s: real)
    requires a * b == c * d
    ensures (a * s) * b == (c * s) * d
  {
    calc {
      (a * s) * b;
      (a * b) * s;
      (c * d) * s;
      (c * s) * d;
    }
  }

  lemma ScaledDot(a: real, b: real, s: real)
    requires 0.0 <= a * b && 0.0 <= s
    ensures 0.0 <= (a * s) * b
  {
    assert (a * s) * b == (a * b) * s;
  }

  /** A position this close to the core is a hit (`distanceTo(core) < 2`). */
  predicate InReach(p: Vec3, core: Vec3) {
    DistSq(p, core) < CoreReach * CoreReach
  }

  predicate Collides(e: Enemy, core: Vec3)
    reads e
  {
    InReach(e.pos, core)
  }

  /** Where the enemies of `es` stand, in list order. */
  function Positions(es: seq<Enemy>): (ps: seq<Vec3>)
    reads es
    ensures |ps| == |es| && forall i :: 0 <= i < |es| ==> ps[i] == es[i].pos
  {
    seq(|es|, i requires 0 <= i < |es| reads es => es[i].pos)
  }

  /** The entries of `xs` whose positions in `ps` are out of the core's
      reach, in order: the collision check on a snapshot of positions. */
  function OutOfReach<T>(xs: seq<T>, ps: seq<Vec3>, core: Vec3): (left: seq<T>)
    requires |xs| == |ps|
    decreases |xs|
  {
    if xs == [] then []
    else
      var rest := OutOfReach(xs[..|xs| - 1], ps[..|ps| - 1], core);
      if InReach(ps[|ps| - 1], core) then rest else rest + [xs[|xs| - 1]]
  }

  /** How many of the positions `ps` are within the core's reach. */
  function CountInReach(ps: seq<Vec3>, core: Vec3): (n: nat)
    decreases |ps|
  {
    if ps == [] then 0
    else CountInReach(ps[..|ps| - 1], core) + (if InReach(ps[|ps| - 1], core) then 1 else 0)
  }

  /** The enemies of `es` that stay after a collision check, in order. */
  function Remaining(es: seq<Enemy>, core: Vec3): (left: seq<Enemy>)
    reads es
    decreases |es|
  {
    if es == [] then []
    else
      var rest := Remaining(es[..|es| - 1], core);
      if Collides(es[|es| - 1], core) then rest else rest + [es[|es| - 1]]
  }

  /** How many of `es` hit the core, that is how many times `onHit` runs. */
  function CountColliding(es: seq<Enemy>, core: Vec3): (n: nat)
    reads es
    decreases |es|
  {
    if es == [] then 0
    else CountColliding(es[..|es| - 1], core) + (if Collides(es[|es| - 1], core) then 1 else 0)
  }

  lemma {:induction false} RemainingIsSubsequence(es: seq<Enemy>, core: Vec3)
    ensures SubsequenceOf(Remaining(es, core), es)
    decreases |es|
  {
    if es != [] {
      var init := es[..|es| - 1];
      RemainingIsSubsequence(init, core);
      var r := Remaining(es, core);
      if !Collides(es[|es| - 1], core) {
        assert r[..|r| - 1] == Remaining(init, core);
      }
    }
  }

  /** An enemy stays exactly when it was there and does not hit the core. */
  lemma {:induction false} RemainingMembers(es: seq<Enemy>, core: Vec3)
    ensures forall e :: e in Remaining(es, core) <==> e in es && !Collides(e, core)
    decreases |es|
  {
    if es != [] {
      var init := es[..|es| - 1];
      RemainingMembers(init, core);
      assert es == init + [es[|es| - 1]];
    }
  }

  /** Every enemy is either kept or reported once through `onHit`. */
  lemma {:induction false} RemainingCount(es: seq<Enemy>, core: Vec3)
    ensures |Remaining(es, core)| + CountColliding(es, core) == |es|
    decreases |es|
  {
    if es != [] {
      RemainingCount(es[..|es| - 1], core);
    }
  }

  /** A second check with no movement in between removes nothing. */
  lemma {:induction false} RemainingIdempotent(es: seq<Enemy>, core: Vec3)
    ensures Remaining(Remaining(es, core), core) == Remaining(es, core)
    ensures CountColliding(Remaining(es, core), core) == 0
    decreases |es|
  {
    if es != [] {
      var init := es[..|es| - 1];
      RemainingIdempotent(init, core);
      var r := Remaining(es, core);
      if !Collides(es[|es| - 1], core) {
        assert r[..|r| - 1] == Remaining(init, core);
      }
    }
  }

  /** The collision check decided on the enemies' positions alone: the
      enemies left and the count of hits are those of a snapshot of where
      the enemies stand, and so are the positions of the enemies left. */
  lemma {:induction false} RemainingOnPositions(es: seq<Enemy>, core: Vec3)
    ensures Remaining(es, core) == OutOfReach(es, Positions(es), core)
    ensures CountColliding(es, core) == CountInReach(Positions(es), core)
    ensures Positions(Remaining(es, core)) == OutOfReach(Positions(es), Positions(es), core)
    decreases |es|
  {
    if es != [] {
      var init := es[..|es| - 1];
      RemainingOnPositions(init, core);
      assert Positions(es)[..|es| - 1] == Positions(init);
      var r := Remaining(init, core);
      if !Collides(es[|es| - 1], core) {
        assert Positions(r + [es[|es| - 1]]) == Positions(r) + [es[|es| - 1].pos];
      }
    }
  }

  /** The spawn gate of `update`: strictly more than `interval` since the last spawn. */
  predicate SpawnDue(now: real, lastSpawn: real, interval: real) {
    now - lastSpawn > interval
  }

  /** The spawn clock after `update` has been called at each of `times` in
      turn: when the last spawn happened and how many spawns there were. */
  datatype SpawnClock = SpawnClock(lastSpawn: real, spawns: nat)

  function RunSpawnClock(lastSpawn: real, interval: real, times: seq<real>): (clock: SpawnClock)
    decreases |times|
  {
    if times == [] then SpawnClock(lastSpawn, 0)
    else
      var c := RunSpawnClock(lastSpawn, interval, times[..|times| - 1]);
      var now := times[|times| - 1];
      if SpawnDue(now, c.lastSpawn, interval) then SpawnClock(now, c.spawns + 1) else c
  }

  /** No catch-up: each spawn needs more than `interval` of fresh time, so
      `n` spawns need more than `n * interval` of clock, and the clock never
      runs past the latest call. */
  lemma {:induction false} SpawnsAreSpaced(lastSpawn: real, interval: real, times: seq<real>)
    requires 0.0 <= interval
    ensures var c := RunSpawnClock(lastSpawn, interval, times);
      && c.spawns as real * interval <= c.lastSpawn - lastSpawn
      && (c.spawns > 0 ==> c.spawns as real * interval < c.lastSpawn - lastSpawn)
      && (c.lastSpawn == lastSpawn || c.lastSpawn in times)
    decreases |times|
  {
    if times != [] {
      SpawnsAreSpaced(lastSpawn, interval, times[..|times| - 1]);
    }
  }

  /** The `EnemyManager` class: the live enemies in spawn order, and the spawn timer. */
  class EnemyManager {
    /** Where enemies walk to (the main loop passes the origin). */
    const target: Vec3
    var enemies: seq<Enemy>
    var spawnInterval: real
    var lastSpawn: real

    ghost predicate Valid()
      reads this
    {
      Distinct(enemies)
    }

    constructor (target: Vec3)
      ensures Valid()
      ensures this.target == target && enemies == []
      ensures spawnInterval == DefaultSpawnInterval && lastSpawn == 0.0
    {
      this.target := target;
      enemies := [];
      spawnInterval := DefaultSpawnInterval;
      lastSpawn := 0.0;
    }

    /** `spawnEnemy()`: appends one new enemy on the spawn square. */
    method SpawnEnemy(r1: real, r2: real)
      requires Valid()
      requires 0.0 <= r1 < 1.0 && 0.0 <= r2 < 1.0
      modifies this
      ensures Valid()
      ensures |enemies| == |old(enemies)| + 1 && enemies[..|old(enemies)|] == old(enemies)
      ensures fresh(enemies[|old(enemies)|]) && enemies[|old(enemies)|].pos == SpawnPoint(r1, r2)
      ensures spawnInterval == old(spawnInterval) && lastSpawn == old(lastSpawn)
    {
      var side := SpawnSide(r1);
      var x, z := 0.0, 0.0;
      if side == 0 {
        x := -SpawnRange;
        z := r2 * SpawnRange * 2.0 - SpawnRange;
      }
      if side == 1 {
        x := SpawnRange;
        z := r2 * SpawnRange * 2.0 - SpawnRange;
      }
      if side == 2 {
        z := -SpawnRange;
        x := r2 * SpawnRange * 2.0 - SpawnRange;
      }
      if side == 3 {
        z := SpawnRange;
        x := r2 * SpawnRange * 2.0 - SpawnRange;
      }
      var e := new Enemy(Vec3(x, EnemyHeight, z));
      enemies := enemies + [e];
    }

    /** `update(deltaTime)` at clock reading `now`: at most one spawn, then
        every enemy (the new one included) takes one stride toward `target`. */
    method Update(now: real, deltaTime: real, r1: real, r2: real, len: LengthFn)
      requires Valid()
      requires 0.0 <= r1 < 1.0 && 0.0 <= r2 < 1.0
      modifies this, enemies
      ensures Valid()
      ensures var spawned := SpawnDue(now, old(lastSpawn), old(spawnInterval));
        && lastSpawn == (if spawned then now else old(lastSpawn))
        && |enemies| == |old(enemies)| + (if spawned then 1 else 0)
        && (spawned ==> fresh(enemies[|old(enemies)|])
                        && enemies[|old(enemies)|].pos == Stride(SpawnPoint(r1, r2), target, deltaTime * EnemySpeed, len))
      ensures enemies[..|old(enemies)|] == old(enemies)
      ensures forall i :: 0 <= i < |old(enemies)| ==>
        enemies[i].pos == Stride(old(enemies[i].pos), target, deltaTime * EnemySpeed, len)
      ensures spawnInterval == old(spawnInterval)
    {
      if SpawnDue(now, lastSpawn, spawnInterval) {
        SpawnEnemy(r1, r2);
        lastSpawn := now;
      }
      Walk(deltaTime, len);
    }

    /** The movement loop of `update`: every enemy takes one stride toward `target`. */
    method Walk(deltaTime: real, len: LengthFn)
      requires Valid()
      modifies enemies
      ensures forall i :: 0 <= i < |enemies| ==>
        enemies[i].pos == Stride(old(enemies[i].pos), target, deltaTime * EnemySpeed, len)
    {
      for i := 0 to |enemies|
        invariant forall j :: 0 <= j < i ==> enemies[j].pos == Stride(old(enemies[j].pos), target, deltaTime * EnemySpeed, len)
        invariant forall j :: i <= j < |enemies| ==> enemies[j].pos == old(enemies[j].pos)
      {
        var e := enemies[i];
        var dir := Vec3(target.x - e.pos.x, 0.0, target.z - e.pos.z);
        e.pos := Add(e.pos, Scale(Normalize(dir, len), deltaTime * EnemySpeed));
        assert e.pos == Stride(old(e.pos), target, deltaTime * EnemySpeed, len);
      }
    }

    /** `checkCollisions(corePosition, onHit)`: drops the enemies within
        reach of the core, keeping the others in order; returns how many
        times `onHit` is called. */
    method CheckCollisions(core: Vec3) returns (hits: nat)
      requires Valid()
      modifies this
      ensures Valid()
      ensures enemies == Remaining(old(enemies), core)
      ensures hits == CountColliding(old(enemies), core)
      ensures hits + |enemies| == |old(enemies)|
      ensures spawnInterval == old(spawnInterval) && lastSpawn == old(lastSpawn)
    {
      var remaining := [];
      hits := 0;
      for i := 0 to |enemies|
        invariant remaining == Remaining(enemies[..i], core)
        invariant hits == CountColliding(enemies[..i], core)
      {
        var e := enemies[i];
        assert enemies[..i + 1][..i] == enemies[..i];
        if DistSq(e.pos, core) < CoreReach * CoreReach {
          hits := hits + 1;
        } else {
          remaining := remaining + [e];
        }
      }
      assert enemies[..|enemies|] == enemies;
      RemainingCount(enemies, core);
      RemainingIsSubsequence(enemies, core);
      SubsequenceDistinct(remaining, enemies);
      enemies := remaining;
    }
  }
}
