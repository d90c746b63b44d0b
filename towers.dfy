/** Towers of towers.js: each tower picks the nearest enemy in range every
    frame, fires homing bullets on a cooldown, and resolves its bullets. A
    bullet that reaches its target "kills" it by moving it to y = -999; the
    enemy stays in the population's list, but from that depth no tower can
    target it and it cannot reach the core. */
module Towers {
  import opened Common
  import opened Geometry
  import opened Enemies

  const BulletSpeed: real := 20.0
  /** A bullet closer than this to its target hits it. */
  const HitRadius: real := 0.5
  /** Where a hit enemy is put. */
  const DeadY: real := -999.0
  const TowerRange: real := 10.0

  /** Milliseconds between shots: 200 for "rapid", 600 for any other type. */
  function FireRate(kind: string): (rate: real) {
    if kind == "rapid" then 200.0 else 600.0
  }

  /** Height of the tower's cylinder; the mesh stands on the ground, so its centre is at half of it. */
  function TowerHeight(kind: string): (height: real) {
    if kind == "rapid" then 2.5 else 3.5
  }

  /** A bullet mesh and its `userData`: a target, possibly none, and a speed. */
  class Bullet {
    var pos: Vec3
    const target: Enemy?
    const speed: real
    /** The tower that fired it; it exists only for the proofs. */
    ghost const shooter: Tower

    constructor (pos: Vec3, target: Enemy?, speed: real, ghost shooter: Tower)
      ensures this.pos == pos && this.target == target && this.speed == speed && this.shooter == shooter
    {
      this.pos := pos;
      this.target := target;
      this.speed := speed;
      this.shooter := shooter;
    }
  }

  /** Squared distances from `from` to each enemy, in list order. */
  function SqDistances(from: Vec3, es: seq<Enemy>): (ds: seq<real>)
    reads es
    ensures |ds| == |es| && forall i :: 0 <= i < |es| ==> ds[i] == DistSq(from, es[i].pos)
  {
    seq(|es|, i requires 0 <= i < |es| reads es => DistSq(from, es[i].pos))
  }

  /** Squared distances from `from` to each point of `ps`, in order. */
  function DistancesFrom(from: Vec3, ps: seq<Vec3>): (ds: seq<real>)
    ensures |ds| == |ps| && forall i :: 0 <= i < |ps| ==> ds[i] == DistSq(from, ps[i])
  {
    seq(|ps|, i requires 0 <= i < |ps| => DistSq(from, ps[i]))
  }

  /** The targeting scan over distances `ds`: `minDist` starts at `bound`
      and an entry is taken when it is strictly smaller. The index chosen,
      or -1 when none is. */
  function NearestIn(ds: seq<real>, bound: real): (k: int)
    ensures -1 <= k < |ds|
    decreases |ds|
  {
    if ds == [] then -1
    else
      var k := NearestIn(ds[..|ds| - 1], bound);
      var best := if k < 0 then bound else ds[k];
      if ds[|ds| - 1] < best then |ds| - 1 else k
  }

  /** The scan finds nothing exactly when nothing is strictly below the
      bound; otherwise it finds the first of the smallest entries. */
  lemma {:induction false} NearestInIsFirstMinimum(ds: seq<real>, bound: real)
    ensures var k := NearestIn(ds, bound);
      && (k == -1 <==> forall j :: 0 <= j < |ds| ==> bound <= ds[j])
      && (k >= 0 ==> ds[k] < bound
                     && (forall j :: 0 <= j < |ds| ==> ds[k] <= ds[j])
                     && (forall j :: 0 <= j < k ==> ds[k] < ds[j]))
    decreases |ds|
  {
    if ds != [] {
      var init := ds[..|ds| - 1];
      NearestInIsFirstMinimum(init, bound);
      assert forall j :: 0 <= j < |init| ==> init[j] == ds[j];
    }
  }

  /** The enemy the scan of `update` selects from `from` with range `range`. */
  function Target(from: Vec3, range: real, es: seq<Enemy>): (t: Enemy?)
    reads es
    ensures t != null ==> t in es
  {
    var k := NearestIn(SqDistances(from, es), range * range);
    if k < 0 then null else es[k]
  }

  /** The scan on a snapshot `ps` of the enemies' positions: the index it
      selects, or -1. */
  function TargetIndex(from: Vec3, range: real, ps: seq<Vec3>): (k: int)
    ensures -1 <= k < |ps|
  {
    NearestIn(DistancesFrom(from, ps), range * range)
  }

  /** The scan depends on the enemies only through where they stand. */
  lemma TargetOnPositions(from: Vec3, range: real, es: seq<Enemy>)
    ensures var k := TargetIndex(from, range, Positions(es));
      Target(from, range, es) == if k < 0 then null else es[k]
  {
    var ps := Positions(es);
    assert SqDistances(from, es) == DistancesFrom(from, ps);
  }

  /** Each position of `after` is the one of `before`, or it dropped to `DeadY`. */
  predicate OnlyKills(before: seq<Vec3>, after: seq<Vec3>) {
    && |after| == |before|
    && forall i :: 0 <= i < |before| ==> after[i] == before[i] || after[i] == before[i].(y := DeadY)
  }

  /** The tie-break of the scan: the enemy selected sits at some position
      `k` of the list, strictly nearer than every enemy before it and no
      farther than any enemy after it. */
  lemma TargetIsFirstNearest(from: Vec3, range: real, es: seq<Enemy>)
    ensures var t := Target(from, range, es);
      t != null ==>
        exists k :: (&& 0 <= k < |es| && es[k] == t
                     && (forall j :: 0 <= j < k ==> DistSq(from, t.pos) < DistSq(from, es[j].pos))
                     && (forall j :: k < j < |es| ==> DistSq(from, t.pos) <= DistSq(from, es[j].pos)))
  {
    var ds := SqDistances(from, es);
    NearestInIsFirstMinimum(ds, range * range);
    var k := NearestIn(ds, range * range);
    if k >= 0 {
      assert es[k] == Target(from, range, es);
    }
  }

  /** An enemy put at `DeadY` is out of range of any tower standing on or
      above the ground. */
  lemma DeadIsOutOfRange(from: Vec3, p: Vec3)
    requires 0.0 <= from.y && p.y == DeadY
    ensures TowerRange * TowerRange <= DistSq(from, p)
  {
    var d := Sub(from, p);
    assert 999.0 <= d.y;
    assert 999.0 * 999.0 <= d.y * d.y;
  }

  /** Hence the scan never selects a dead enemy. */
  lemma {:induction false} TargetIsAlive(from: Vec3, es: seq<Enemy>)
    requires 0.0 <= from.y
    ensures Target(from, TowerRange, es) != null ==> Target(from, TowerRange, es).pos.y != DeadY
  {
    var ds := SqDistances(from, es);
    NearestInIsFirstMinimum(ds, TowerRange * TowerRange);
    var k := NearestIn(ds, TowerRange * TowerRange);
    if k >= 0 && es[k].pos.y == DeadY {
      DeadIsOutOfRange(from, es[k].pos);
      assert false;
    }
  }

  /** A bullet as `updateBullets` finds it: position, target, speed. */
  datatype Flight = Flight(pos: Vec3, target: Enemy?, speed: real)

  function Flights(bs: seq<Bullet>): (fs: seq<Flight>)
    reads bs
    ensures |fs| == |bs|
    ensures forall i :: 0 <= i < |bs| ==> fs[i] == Flight(bs[i].pos, bs[i].target, bs[i].speed)
  {
    seq(|bs|, i requires 0 <= i < |bs| reads bs => Flight(bs[i].pos, bs[i].target, bs[i].speed))
  }

  /** The enemies some bullet is aimed at. */
  function TargetsOf(bs: seq<Bullet>): (targets: set<Enemy>) {
    set b | b in bs && b.target != null :: b.target
  }

  function AimsOf(fs: seq<Flight>): (aims: set<Enemy>) {
    set f | f in fs && f.target != null :: f.target
  }

  /** The positions of the enemies in `es`. */
  function Sights(es: set<Enemy>): (at: map<Enemy, Vec3>)
    reads es
    ensures at.Keys == es && forall e :: e in es ==> at[e] == e.pos
  {
    map e | e in es :: e.pos
  }

  /** `f` hits its target, whose position is taken from `at`. */
  predicate Strikes(f: Flight, at: map<Enemy, Vec3>) {
    f.target != null && f.target in at && DistSq(at[f.target], f.pos) < HitRadius * HitRadius
  }

  /** Target positions after the flights `fs` have been resolved in order,
      starting from `at`: each hit puts its target at depth `DeadY`. */
  function Resolve(fs: seq<Flight>, at: map<Enemy, Vec3>): (r: map<Enemy, Vec3>)
    ensures r.Keys == at.Keys
    decreases |fs|
  {
    if fs == [] then at else AfterFlight(fs[|fs| - 1], Resolve(fs[..|fs| - 1], at))
  }

  /** Target positions after the one flight `f`: a hit puts the target at `DeadY`. */
  function AfterFlight(f: Flight, at: map<Enemy, Vec3>): (r: map<Enemy, Vec3>)
    ensures r.Keys == at.Keys
    ensures forall e :: e in at && e != f.target ==> r[e] == at[e]
  {
    if Strikes(f, at) then at[f.target := at[f.target].(y := DeadY)] else at
  }

  /** The bullets of `bs` (described by `fs`) still in flight after the
      resolution: those with a target that they did not hit. */
  function Kept(bs: seq<Bullet>, fs: seq<Flight>, at: map<Enemy, Vec3>): (kept: seq<Bullet>)
    requires |bs| == |fs|
    decreases |fs|
  {
    if fs == [] then []
    else
      var n := |fs| - 1;
      var rest := Kept(bs[..n], fs[..n], at);
      if Stays(fs, at, n) then rest + [bs[n]] else rest
  }

  /** The `i`-th flight has a target and does not hit it, the targets
      standing where the flights before it left them. */
  predicate Stays(fs: seq<Flight>, at: map<Enemy, Vec3>, i: nat)
    requires i < |fs|
  {
    fs[i].target != null && !Strikes(fs[i], Resolve(fs[..i], at))
  }

  /** Where a bullet that stays in flight moves to: one step of
      `speed * delta` toward its target's current position. */
  function Flown(f: Flight, at: map<Enemy, Vec3>, delta: real, len: LengthFn): (p: Vec3) {
    if f.target != null && f.target in at then Advance(f.pos, at[f.target], f.speed * delta, len) else f.pos
  }

  /** With a faithful length, a bullet short of its target moves exactly
      `speed * delta` units. */
  lemma FlownCoversStep(f: Flight, at: map<Enemy, Vec3>, delta: real, len: LengthFn)
    requires IsLength(len) && f.target != null && f.target in at
    requires 0.0 < DistSq(at[f.target], f.pos)
    ensures DistSq(Flown(f, at, delta, len), f.pos) == (f.speed * delta) * (f.speed * delta)
  {
    AdvanceCoversStep(f.pos, at[f.target], f.speed * delta, len);
  }

  /** Where the `i`-th bullet is after the pass: moved if it stays in flight, untouched otherwise. */
  function Landing(fs: seq<Flight>, at: map<Enemy, Vec3>, i: nat, delta: real, len: LengthFn): (p: Vec3)
    requires i < |fs|
  {
    if Stays(fs, at, i) then Flown(fs[i], Resolve(fs[..i], at), delta, len) else fs[i].pos
  }

  /** One more flight: how `Resolve` of a prefix grows by one element. */
  lemma ResolveStep(fs: seq<Flight>, at: map<Enemy, Vec3>, i: nat)
    requires i < |fs|
    ensures Resolve(fs[..i + 1], at) == AfterFlight(fs[i], Resolve(fs[..i], at))
  {
    assert fs[..i + 1][..i] == fs[..i];
  }

  /** One more flight: how `Kept` of a prefix grows by one element. */
  lemma KeptStep(bs: seq<Bullet>, fs: seq<Flight>, at: map<Enemy, Vec3>, i: nat)
    requires |bs| == |fs| && i < |fs|
    ensures Kept(bs[..i + 1], fs[..i + 1], at) ==
      if Stays(fs, at, i) then Kept(bs[..i], fs[..i], at) + [bs[i]] else Kept(bs[..i], fs[..i], at)
  {
    assert fs[..i + 1][..i] == fs[..i] && bs[..i + 1][..i] == bs[..i];
    assert Stays(fs[..i + 1], at, i) == Stays(fs, at, i);
  }

  lemma {:induction false} KeptIsSubsequence(bs: seq<Bullet>, fs: seq<Flight>, at: map<Enemy, Vec3>)
    requires |bs| == |fs|
    ensures SubsequenceOf(Kept(bs, fs, at), bs)
    decreases |fs|
  {
    if fs != [] {
      var n := |fs| - 1;
      KeptIsSubsequence(bs[..n], fs[..n], at);
      var r := Kept(bs, fs, at);
      if Stays(fs, at, n) {
        assert r[..|r| - 1] == Kept(bs[..n], fs[..n], at);
      }
    }
  }

  /** No bullet is kept twice. */
  /** A tower keeps only bullets it fired: each bullet kept from `bs` has the
      shooter `t` of all of them. */
  lemma {:induction false} KeptShooters(bs: seq<Bullet>, fs: seq<Flight>, at: map<Enemy, Vec3>, t: Tower)
    requires |bs| == |fs| && forall i :: 0 <= i < |bs| ==> bs[i].shooter == t
    ensures forall i :: 0 <= i < |Kept(bs, fs, at)| ==> Kept(bs, fs, at)[i].shooter == t
    decreases |fs|
  {
    if fs != [] {
      var n := |fs| - 1;
      KeptShooters(bs[..n], fs[..n], at, t);
    }
  }

  lemma KeptIsDistinct(bs: seq<Bullet>, fs: seq<Flight>, at: map<Enemy, Vec3>)
    requires |bs| == |fs| && Distinct(bs)
    ensures Distinct(Kept(bs, fs, at))
  {
    KeptIsSubsequence(bs, fs, at);
    SubsequenceDistinct(Kept(bs, fs, at), bs);
  }

  /** A bullet stays in flight exactly when it has a target and did not hit it. */
  lemma {:induction false} KeptMembers(bs: seq<Bullet>, fs: seq<Flight>, at: map<Enemy, Vec3>)
    requires |bs| == |fs| && Distinct(bs)
    ensures forall i :: 0 <= i < |bs| ==>
      (bs[i] in Kept(bs, fs, at) <==> Stays(fs, at, i))
    decreases |fs|
  {
    if fs != [] {
      var n := |fs| - 1;
      var init := bs[..n];
      assert Distinct(init);
      KeptMembers(init, fs[..n], at);
      KeptIsSubsequence(init, fs[..n], at);
      SubsequenceMembers(Kept(init, fs[..n], at), init);
      forall i | 0 <= i < |bs|
        ensures bs[i] in Kept(bs, fs, at) <==> Stays(fs, at, i)
      {
        if i < n {
          assert fs[..n][..i] == fs[..i];
          assert bs[i] == init[i];
        } else {
          assert bs[n] !in init;
        }
      }
    }
  }

  /** Resolving bullets only ever kills: every targeted enemy keeps its x
      and z, and its y is either unchanged or `DeadY`. */
  lemma {:induction false} ResolveOnlyKills(fs: seq<Flight>, at: map<Enemy, Vec3>)
    ensures forall e :: e in at ==> Resolve(fs, at)[e] == at[e] || Resolve(fs, at)[e] == at[e].(y := DeadY)
    decreases |fs|
  {
    if fs != [] {
      ResolveOnlyKills(fs[..|fs| - 1], at);
    }
  }

  /** An enemy no bullet aims at is not touched. */
  lemma {:induction false} ResolveUntargeted(fs: seq<Flight>, at: map<Enemy, Vec3>, e: Enemy)
    requires e in at && e !in AimsOf(fs)
    ensures e in Resolve(fs, at) && Resolve(fs, at)[e] == at[e]
    decreases |fs|
  {
    if fs != [] {
      var init := fs[..|fs| - 1];
      assert AimsOf(init) <= AimsOf(fs);
      ResolveUntargeted(init, at, e);
      ResolveOnlyKills(init, at);
    }
  }

  /** A hit kills its target, and it stays dead for the rest of the pass. */
  lemma {:induction false} StrikeKills(fs: seq<Flight>, at: map<Enemy, Vec3>, i: nat)
    requires i < |fs| && Strikes(fs[i], Resolve(fs[..i], at))
    ensures fs[i].target in Resolve(fs, at) && Resolve(fs, at)[fs[i].target].y == DeadY
    decreases |fs|
  {
    ResolveOnlyKills(fs, at);
    if i < |fs| - 1 {
      var init := fs[..|fs| - 1];
      assert init[..i] == fs[..i];
      StrikeKills(init, at, i);
      ResolveOnlyKills(init, at);
    } else {
      assert fs[..|fs| - 1] == fs[..i];
    }
  }

  /** The flights of some bullets aim at exactly the bullets' targets. */
  lemma AimsOfFlights(bs: seq<Bullet>)
    ensures AimsOf(Flights(bs)) == TargetsOf(bs)
  {
    var fs := Flights(bs);
    forall e ensures e in AimsOf(fs) <==> e in TargetsOf(bs) {
      if e in AimsOf(fs) {
        var i :| 0 <= i < |fs| && fs[i].target == e;
        assert bs[i] in bs;
      }
      if e in TargetsOf(bs) {
        var i :| 0 <= i < |bs| && bs[i].target == e;
        assert fs[i] in fs;
      }
    }
  }

  /** Firing one more bullet adds its target, if any, to the targets. */
  lemma TargetsOfPush(bs: seq<Bullet>, b: Bullet)
    ensures TargetsOf(bs + [b]) == TargetsOf(bs) + (if b.target != null then {b.target} else {})
  {
    assert forall c :: c in bs + [b] <==> c in bs || c == b;
  }

  /** A `Tower`: its type, placement and mesh position never change; the
      shot timer and the bullet list do. */
  class Tower {
    const kind: string
    /** The placement point (`this.position`). */
    const position: Vec3
    /** The mesh position: the placement point raised to half the tower's height. */
    const muzzle: Vec3
    const fireRate: real
    const range: real
    var lastShot: real
    var bullets: seq<Bullet>

    /** The constants the constructor derives from the type and the
        placement point. */
    predicate Built() {
      && fireRate == FireRate(kind) && range == TowerRange
      && muzzle == Vec3(position.x, TowerHeight(kind) / 2.0, position.z)
    }

    /** The tower holds each bullet once, and only bullets it fired. */
    ghost predicate Valid()
      reads this
    {
      Distinct(bullets) && forall i :: 0 <= i < |bullets| ==> bullets[i].shooter == this
    }

    constructor (position: Vec3, kind: string := "basic")
      ensures Valid() && Built()
      ensures this.kind == kind && this.position == position
      ensures lastShot == 0.0 && bullets == []
    {
      this.kind := kind;
      this.position := position;
      this.lastShot := 0.0;
      this.fireRate := FireRate(kind);
      this.range := TowerRange;
      this.bullets := [];
      this.muzzle := Vec3(position.x, TowerHeight(kind) / 2.0, position.z);
    }

    /** Step 1 of `update`: the nearest enemy strictly within range, the
        first one on a tie, or null. */
    method SelectTarget(enemies: seq<Enemy>) returns (nearest: Enemy?)
      ensures nearest == Target(muzzle, range, enemies)
      ensures nearest == null <==> forall e :: e in enemies ==> range * range <= DistSq(muzzle, e.pos)
      ensures nearest != null ==>
        && nearest in enemies
        && DistSq(muzzle, nearest.pos) < range * range
        && forall e :: e in enemies ==> DistSq(muzzle, nearest.pos) <= DistSq(muzzle, e.pos)
    {
      nearest := null;
      var minDist := range * range;
      ghost var k := -1;
      for i := 0 to |enemies|
        invariant k == NearestIn(SqDistances(muzzle, enemies[..i]), range * range)
        invariant nearest == (if k < 0 then null else enemies[k])
        invariant minDist == (if k < 0 then range * range else DistSq(muzzle, enemies[k].pos))
      {
        var dist := DistSq(muzzle, enemies[i].pos);
        assert SqDistances(muzzle, enemies[..i + 1])[..i] == SqDistances(muzzle, enemies[..i]);
        if dist < minDist {
          minDist := dist;
          nearest := enemies[i];
          k := i;
        }
      }
      assert enemies[..|enemies|] == enemies;
      NearestInIsFirstMinimum(SqDistances(muzzle, enemies), range * range);
    }

    /** `shoot(target)`: one new bullet at the mesh position, aimed at `target`. */
    method Shoot(target: Enemy?)
      requires Valid()
      modifies this
      ensures Valid()
      ensures |bullets| == |old(bullets)| + 1 && bullets[..|old(bullets)|] == old(bullets)
      ensures var b := bullets[|old(bullets)|];
        fresh(b) && b.pos == muzzle && b.target == target && b.speed == BulletSpeed
      ensures lastShot == old(lastShot)
      ensures Flights(bullets) == old(Flights(bullets)) + [Flight(muzzle, target, BulletSpeed)]
      ensures TargetsOf(bullets) == old(TargetsOf(bullets)) + (if target != null then {target} else {})
    {
      var b := new Bullet(muzzle, target, BulletSpeed, this);
      TargetsOfPush(bullets, b);
      bullets := bullets + [b];
    }

    /** One turn of the loop of `updateBullets`: bullet `b`, described by
        the flight `f`, with its target standing where `cur` says. Returns
        whether `b` stays in flight. */
    method Fly(bs: seq<Bullet>, i: nat, delta: real, len: LengthFn, ghost f: Flight, ghost cur: map<Enemy, Vec3>)
      returns (stays: bool)
      requires i < |bs| && Distinct(bs)
      requires f == Flight(bs[i].pos, bs[i].target, bs[i].speed)
      requires bs[i].target != null ==> bs[i].target in cur
      requires forall e :: e in cur ==> e.pos == cur[e]
      modifies bs[i], bs[i].target
      ensures stays == (f.target != null && !Strikes(f, cur))
      ensures bs[i].pos == if stays then Flown(f, cur, delta, len) else f.pos
      ensures forall j :: 0 <= j < |bs| && j != i ==> bs[j].pos == old(bs[j].pos)
      ensures forall e :: e in cur ==> e.pos == AfterFlight(f, cur)[e]
    {
      var b := bs[i];
      var target := b.target;
      if target == null {
        return false;
      }
      var dir := Sub(target.pos, b.pos);
      if LengthSq(dir) < HitRadius * HitRadius {
        target.pos := target.pos.(y := DeadY);
        return false;
      }
      b.pos := Advance(b.pos, target.pos, b.speed * delta, len);
      return true;
    }

    /** The loop of `updateBullets` over the bullets `bs`, described by the
        flights `fs`, whose targets stand where `at` says. Returns the
        bullets still in flight. */
    method FlyAll(bs: seq<Bullet>, delta: real, len: LengthFn, ghost fs: seq<Flight>, ghost at: map<Enemy, Vec3>)
      returns (active: seq<Bullet>)
      requires |fs| == |bs| && Distinct(bs)
      requires forall j :: 0 <= j < |bs| ==> fs[j] == Flight(bs[j].pos, bs[j].target, bs[j].speed)
      requires forall j :: 0 <= j < |bs| && bs[j].target != null ==> bs[j].target in at
      requires forall e :: e in at ==> e.pos == at[e]
      modifies bs, TargetsOf(bs)
      ensures active == Kept(bs, fs, at)
      ensures forall e :: e in at ==> e.pos == Resolve(fs, at)[e]
      ensures forall j :: 0 <= j < |bs| ==> bs[j].pos == Landing(fs, at, j, delta, len)
    {
      active := [];
      ghost var cur := at;
      for i := 0 to |bs|
        invariant cur == Resolve(fs[..i], at)
        invariant active == Kept(bs[..i], fs[..i], at)
        invariant forall e :: e in at ==> e.pos == cur[e]
        invariant forall j :: 0 <= j < i ==> bs[j].pos == Landing(fs, at, j, delta, len)
        invariant forall j :: i <= j < |bs| ==> bs[j].pos == fs[j].pos
      {
        ResolveStep(fs, at, i);
        KeptStep(bs, fs, at, i);
        assert bs[i].target != null ==> bs[i].target in TargetsOf(bs);
        ghost var next := AfterFlight(fs[i], cur);
        var stays := Fly(bs, i, delta, len, fs[i], cur);
        if stays {
          active := active + [bs[i]];
        }
        cur := next;
      }
      assert bs[..|bs|] == bs && fs[..|fs|] == fs;
    }

    /** `updateBullets(delta)`: resolves the bullets in order. A bullet
        without target is dropped; one within `HitRadius` of its target's
        current position is dropped and the target is put at `DeadY`; any
        other one moves one step toward its target and stays. */
    method UpdateBullets(delta: real, len: LengthFn)
      requires Valid()
      modifies this, bullets, TargetsOf(bullets)
      ensures Valid()
      ensures lastShot == old(lastShot)
      ensures var fs := old(Flights(bullets)); var at := old(Sights(AimsOf(fs)));
        bullets == Kept(old(bullets), fs, at)
      ensures var fs := old(Flights(bullets)); var at := old(Sights(AimsOf(fs)));
        forall e :: e in at ==> e.pos == Resolve(fs, at)[e]
      ensures var fs := old(Flights(bullets)); var at := old(Sights(AimsOf(fs)));
        forall i :: 0 <= i < |fs| ==> (old(bullets)[i] in bullets <==> Stays(fs, at, i))
      ensures var fs := old(Flights(bullets)); var at := old(Sights(AimsOf(fs)));
        forall i :: 0 <= i < |fs| ==> old(bullets)[i].pos == Landing(fs, at, i, delta, len)
      ensures forall e :: e in old(TargetsOf(bullets)) ==> e.pos == old(e.pos) || e.pos == old(e.pos).(y := DeadY)
    {
      var bs := bullets;
      ghost var fs := Flights(bullets);
      AimsOfFlights(bs);
      ghost var at := Sights(AimsOf(fs));
      var active := FlyAll(bs, delta, len, fs, at);
      KeptIsDistinct(bs, fs, at);
      KeptMembers(bs, fs, at);
      KeptShooters(bs, fs, at, this);
      assert Distinct(active);
      bullets := active;
      assert Valid();
      ResolveOnlyKills(fs, at);
    }

    /** Steps 1 and 2 of `update` at time `now`: select the nearest enemy
        in range and fire at it when the cooldown has passed. No enemy moves. */
    method Fire(enemies: seq<Enemy>, now: real) returns (fired: bool)
      requires Valid()
      modifies this
      ensures Valid()
      ensures var t := old(Target(muzzle, range, enemies));
        && (fired <==> t != null && now - old(lastShot) > fireRate)
        && lastShot == (if fired then now else old(lastShot))
        && |bullets| == |old(bullets)| + (if fired then 1 else 0)
        && bullets[..|old(bullets)|] == old(bullets)
        && (fired ==> var b := bullets[|old(bullets)|];
                      fresh(b) && b.pos == muzzle && b.target == t && b.speed == BulletSpeed)
        && Flights(bullets) == old(Flights(bullets)) + (if fired then [Flight(muzzle, t, BulletSpeed)] else [])
        && TargetsOf(bullets) == old(TargetsOf(bullets)) + (if fired then {t} else {})
      ensures forall e :: e in TargetsOf(bullets) ==> (e in old(TargetsOf(bullets)) || e in enemies) && e.pos == old(e.pos)
    {
      var nearest := SelectTarget(enemies);
      fired := nearest != null && now - lastShot > fireRate;
      if fired {
        Shoot(nearest);
        lastShot := now;
      } else {
        assert bullets[..|bullets|] == bullets;
      }
      forall e | e in TargetsOf(bullets)
        ensures (e in old(TargetsOf(bullets)) || e in enemies) && e.pos == old(e.pos)
      {
        assert e in old(TargetsOf(bullets)) || e in enemies;
      }
    }

    /** `update(enemies, delta)` at time `now`: select the nearest enemy in
        range, fire at it when the cooldown has passed, then resolve the
        bullets, the new one last. `shot` is the bullet list before the
        resolution, `fs` its flights and `at` where their targets stood.
        Enemies are never moved, only killed. */
    method Update(enemies: seq<Enemy>, delta: real, now: real, len: LengthFn)
      returns (ghost shot: seq<Bullet>, ghost fs: seq<Flight>, ghost at: map<Enemy, Vec3>)
      requires Valid()
      modifies this, bullets, TargetsOf(bullets), enemies
      ensures Valid()
      ensures var t := old(Target(muzzle, range, enemies));
        var fire := t != null && now - old(lastShot) > fireRate;
        var n := |old(bullets)|;
        && lastShot == (if fire then now else old(lastShot))
        && fs == old(Flights(bullets)) + (if fire then [Flight(muzzle, t, BulletSpeed)] else [])
        && |shot| == |fs| && shot[..n] == old(bullets)
        && (fire ==> fresh(shot[n]) && shot[n].target == t && shot[n].speed == BulletSpeed)
      ensures at.Keys == AimsOf(fs) && forall e :: e in at ==> at[e] == old(e.pos)
      ensures bullets == Kept(shot, fs, at)
      ensures forall i :: 0 <= i < |fs| ==> shot[i].pos == Landing(fs, at, i, delta, len)
      ensures forall e :: e in at ==> e.pos == Resolve(fs, at)[e]
      ensures forall e :: e in enemies ==> e.pos == old(e.pos) || e.pos == old(e.pos).(y := DeadY)
      ensures forall e :: e in enemies && e !in at ==> e.pos == old(e.pos)
    {
      var fired := Fire(enemies, now);
      shot := bullets;
      fs := Flights(shot);
      AimsOfFlights(shot);
      at := Sights(AimsOf(fs));
      label resolving:
      UpdateBullets(delta, len);
      forall e | e in enemies
        ensures e.pos == old(e.pos) || e.pos == old(e.pos).(y := DeadY)
        ensures e !in at ==> e.pos == old(e.pos)
      {
        assert old@resolving(e.pos) == old(e.pos);
      }
    }
  }
}
