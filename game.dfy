/** The game of main.js: the player's health, the towers placed on the
    ground grid, the tower type selected for placement, and the frame loop
    that drives the enemies and the towers. */
module Game {
  import opened Common
  import opened Geometry
  import opened Enemies
  import opened Towers

  /** Side of a grid cell; towers are placed at multiples of it. */
  const GridSize: real := 2.0
  /** Health at the start of a game; the health bar shows it as 100%. */
  const MaxHealth: int := 20
  /** `world.core.position`: the core box stands two units above the origin. */
  const CorePosition: Vec3 := Vec3(0.0, 2.0, 0.0)
  /** The point the enemy manager is told to walk the enemies to. */
  const EnemyGoal: Vec3 := Origin
  /** No tower closer than this to the origin. */
  const MinCoreDistance: real := 4.0
  /** The spawn interval set at game over. */
  const GameOverSpawnInterval: real := 999999.0

  /** `Math.round(c / GRID_SIZE) * GRID_SIZE`, where `Math.round` rounds
      halves up: the multiple of the cell size nearest to `c`. */
  function SnapCoord(c: real): (r: real)
    ensures OnGridLine(r)
    ensures c - GridSize / 2.0 < r <= c + GridSize / 2.0
  {
    var n := (c / GridSize + 0.5).Floor;
    assert (n as real) * GridSize / GridSize == n as real;
    (n as real) * GridSize
  }

  /** `c` is a multiple of the cell size. */
  predicate OnGridLine(c: real) {
    ((c / GridSize).Floor as real) * GridSize == c
  }

  /** The clicked ground point snapped to the grid, at ground level. */
  function Snap(p: Vec3): (q: Vec3)
    ensures OnGrid(q)
    ensures Abs(q.x - p.x) <= GridSize / 2.0 && Abs(q.z - p.z) <= GridSize / 2.0
  {
    Vec3(SnapCoord(p.x), 0.0, SnapCoord(p.z))
  }

  /** A ground point on the grid. */
  predicate OnGrid(p: Vec3) {
    p.y == 0.0 && OnGridLine(p.x) && OnGridLine(p.z)
  }

  /** `pos.length() < 4`, compared by squares. */
  predicate TooCloseToCore(pos: Vec3) {
    LengthSq(pos) < MinCoreDistance * MinCoreDistance
  }

  /** The occupancy test of a tower's mesh position `a` against `b`. */
  predicate SameCell(a: Vec3, b: Vec3) {
    Abs(a.x - b.x) < 0.01 && Abs(a.z - b.z) < 0.01
  }

  /** `towers.some(...)`: some tower's mesh stands in the cell of `pos`. */
  predicate Occupied(towers: seq<Tower>, pos: Vec3) {
    exists i :: 0 <= i < |towers| && SameCell(towers[i].muzzle, pos)
  }

  /** Two multiples of the cell size closer than 0.01 are equal. */
  lemma GridLinesApart(a: real, b: real)
    requires OnGridLine(a) && OnGridLine(b)
    ensures Abs(a - b) < 0.01 <==> a == b
  {
    var m, n := (a / GridSize).Floor, (b / GridSize).Floor;
    if m != n {
      if m < n {
        assert (n - m) as real >= 1.0;
        assert b - a == (n - m) as real * GridSize;
      } else {
        assert (m - n) as real >= 1.0;
        assert a - b == (m - n) as real * GridSize;
      }
    }
  }

  /** On the grid, the occupancy test is exact: the same cell means the same x and z. */
  lemma SameCellOnGrid(a: Vec3, b: Vec3)
    requires OnGrid(a) && OnGrid(b)
    ensures SameCell(a, b) <==> a.x == b.x && a.z == b.z
  {
    GridLinesApart(a.x, b.x);
    GridLinesApart(a.z, b.z);
  }

  /** A tower as `onMouseClick` builds one: on the grid, outside the
      core's exclusion circle, with the mesh above its placement point. */
  predicate Placed(t: Tower) {
    && t.Built()
    && OnGrid(t.position) && !TooCloseToCore(t.position)
    && t.muzzle.x == t.position.x && t.muzzle.z == t.position.z
    && 0.0 <= t.muzzle.y
  }

  /** Two towers in different cells, by the occupancy test. */
  predicate Apart(a: Tower, b: Tower) {
    !SameCell(a.muzzle, b.muzzle)
  }

  /** Where the towers stand: every one placed as a click places it, at
      most one per cell. */
  ghost predicate Layout(towers: seq<Tower>) {
    && (forall i {:trigger Placed(towers[i])} :: 0 <= i < |towers| ==> Placed(towers[i]))
    && (forall i, j {:trigger Apart(towers[i], towers[j])} :: 0 <= i < j < |towers| ==> Apart(towers[i], towers[j]))
  }

  /** Towers in different cells are different towers. */
  lemma LayoutDistinct(towers: seq<Tower>)
    requires Layout(towers)
    ensures Distinct(towers)
  {
    forall i, j | 0 <= i < j < |towers| ensures towers[i] != towers[j] {
      assert Apart(towers[i], towers[j]);
    }
  }

  /** `placingTower` used as a condition: null and the empty string are false. */
  predicate Truthy(selected: Option<string>) {
    selected.Some? && selected.value != ""
  }

  /** The tower button handler: clicking the selected type deselects it,
      clicking any other type selects that one. */
  function Toggle(selected: Option<string>, clicked: string): (r: Option<string>)
    ensures r == None <==> selected == Some(clicked)
    ensures r != None ==> r == Some(clicked)
  {
    if selected == Some(clicked) then None else Some(clicked)
  }

  /** Clicking the same button twice restores the selection when it was
      empty or already that type. */
  lemma ToggleTwice(selected: Option<string>, clicked: string)
    requires selected == None || selected == Some(clicked)
    ensures Toggle(Toggle(selected, clicked), clicked) == selected
  {
  }

  /** The width of the health bar in percent: `max(0, health / 20 * 100)`. */
  function HealthPercent(health: int): (p: real)
    ensures 0.0 <= p
    ensures health <= MaxHealth ==> p <= 100.0
    ensures p == 0.0 <==> health <= 0
    ensures 0 <= health ==> p == 5.0 * health as real
  {
    var q := (health as real / MaxHealth as real) * 100.0;
    if q < 0.0 then 0.0 else q
  }

  /** The colour of the health bar. */
  datatype Band = Green | Yellow | Red

  /** The colour chosen from the percentage: above 50 green, above 25
      yellow, red otherwise; in hit points, above 10, above 5, the rest. */
  function HealthBand(health: int): (b: Band)
    ensures b == Green <==> 10 < health
    ensures b == Yellow <==> 5 < health <= 10
    ensures b == Red <==> health <= 5
  {
    var p := HealthPercent(health);
    if p > 50.0 then Green else if p > 25.0 then Yellow else Red
  }

  /** An enemy put at `DeadY` is far below the core. */
  lemma DeadIsClearOfCore(p: Vec3)
    requires p.y == DeadY
    ensures CoreReach * CoreReach <= DistSq(p, CorePosition)
  {
    var d := Sub(p, CorePosition);
    assert d.y <= -1001.0;
    assert 1001.0 * 1001.0 <= d.y * d.y;
  }

  /** The bullets of all the towers. */
  function AllBullets(towers: seq<Tower>): (bullets: set<Bullet>)
    reads towers
  {
    set i, b | 0 <= i < |towers| && b in towers[i].bullets :: b
  }

  /** The enemies the bullets of all the towers are aimed at. */
  function AllTargets(towers: seq<Tower>): (targets: set<Enemy>)
    reads towers
  {
    set i, e | 0 <= i < |towers| && e in TargetsOf(towers[i].bullets) :: e
  }

  /** The record of one tower's update: the bullets of its pass, their
      flights, and where the enemies they are aimed at stood. */
  datatype Volley = Volley(shot: seq<Bullet>, fs: seq<Flight>, at: map<Enemy, Vec3>)

  /** What the update of tower `t` at clock reading `now` did, told on
      values. It held the bullets `held`, in flight as `hf`, had last shot at
      `last`, and saw the enemies `es` at `before`. It fired (`f`) exactly
      when its scan over `before` found an enemy and its cooldown was over.
      The bullets of its pass are `v.shot`: those held, then, when it fired,
      one aimed at the enemy found; `v.fs` are their flights, those of `hf`
      then the new one, and `v.at` where their targets stood. It keeps the bullets `kept` that `Kept` selects, and the
      enemies end at `after`: each target where `Resolve` puts it, every
      other enemy where it was. */
  predicate Struck(t: Tower, es: seq<Enemy>, held: seq<Bullet>, hf: seq<Flight>, kept: seq<Bullet>,
                   last: real, now: real, before: seq<Vec3>, after: seq<Vec3>, f: bool, v: Volley) {
    var i := TargetIndex(t.muzzle, t.range, before);
    && |before| == |es| && |after| == |es|
    && (f <==> i >= 0 && now - last > t.fireRate)
    && |v.shot| == |held| + (if f then 1 else 0) && v.shot[..|held|] == held
    && |hf| == |held| && v.fs == hf + (if f then [Flight(t.muzzle, es[i], BulletSpeed)] else [])
    && v.at.Keys == AimsOf(v.fs)
    && kept == Kept(v.shot, v.fs, v.at)
    && (forall k :: 0 <= k < |es| && es[k] in v.at ==> v.at[es[k]] == before[k])
    && (forall k :: 0 <= k < |es| ==>
          after[k] == if es[k] in v.at then Resolve(v.fs, v.at)[es[k]] else before[k])
  }

  /** A tower's update only kills: every enemy stays where it was or drops
      to `DeadY`. */
  lemma StruckOnlyKills(t: Tower, es: seq<Enemy>, held: seq<Bullet>, hf: seq<Flight>, kept: seq<Bullet>,
                        last: real, now: real, before: seq<Vec3>, after: seq<Vec3>, f: bool, v: Volley)
    requires Struck(t, es, held, hf, kept, last, now, before, after, f, v)
    ensures OnlyKills(before, after)
  {
    ResolveOnlyKills(v.fs, v.at);
    forall k | 0 <= k < |before|
      ensures after[k] == before[k] || after[k] == before[k].(y := DeadY)
    {
      if es[k] in v.at {
        assert v.at[es[k]] == before[k];
      }
    }
  }

  /** The first `|fired|` steps of the tower loop at clock reading `now`,
      told by what each tower did: tower `j` of `ts` held `held[j]`, in
      flight as `flights[j]`, had last shot at `last[j]`, keeps `kept[j]`
      and took the enemies `es` from `views[j]` to `views[j + 1]`, as
      `Struck` tells with `fired[j]` and the record `volleys[j]`. */
  predicate VolleysSoFar(ts: seq<Tower>, es: seq<Enemy>, held: seq<seq<Bullet>>, flights: seq<seq<Flight>>,
                         kept: seq<seq<Bullet>>, last: seq<real>, now: real, views: seq<seq<Vec3>>, fired: seq<bool>,
                         volleys: seq<Volley>)
  {
    && |fired| <= |ts| && |fired| <= |held| && |fired| <= |flights| && |fired| <= |kept| && |fired| <= |last|
    && |volleys| == |fired| && |views| == |fired| + 1
    && forall j {:trigger volleys[j]} :: 0 <= j < |fired| ==>
         Struck(ts[j], es, held[j], flights[j], kept[j], last[j], now, views[j], views[j + 1], fired[j], volleys[j])
  }

  /** The whole tower loop: every tower of `ts` did what `VolleysSoFar`
      tells. */
  predicate Volleys(ts: seq<Tower>, es: seq<Enemy>, held: seq<seq<Bullet>>, flights: seq<seq<Flight>>,
                    kept: seq<seq<Bullet>>, last: seq<real>, now: real, views: seq<seq<Vec3>>, fired: seq<bool>,
                    volleys: seq<Volley>)
  {
    && |ts| == |fired| && |held| == |fired| && |flights| == |fired| && |kept| == |fired| && |last| == |fired|
    && VolleysSoFar(ts, es, held, flights, kept, last, now, views, fired, volleys)
  }

  /** Along the tower loop enemies are only killed, tower by tower. */
  lemma VolleysOnlyKill(ts: seq<Tower>, es: seq<Enemy>, held: seq<seq<Bullet>>, flights: seq<seq<Flight>>,
                        kept: seq<seq<Bullet>>, last: seq<real>, now: real, views: seq<seq<Vec3>>, fired: seq<bool>,
                        volleys: seq<Volley>)
    requires Volleys(ts, es, held, flights, kept, last, now, views, fired, volleys)
    ensures forall j :: 0 <= j < |fired| ==> OnlyKills(views[j], views[j + 1])
  {
    forall j | 0 <= j < |fired|
      ensures OnlyKills(views[j], views[j + 1])
    {
      StruckOnlyKills(ts[j], es, held[j], flights[j], kept[j], last[j], now, views[j], views[j + 1], fired[j], volleys[j]);
    }
  }

  /** One more step extends the record `VolleysSoFar`: the next tower did
      what `Struck` tells and keeps `kept'[n]`, the towers before it keep
      what they kept. */
  lemma VolleysGrow(ts: seq<Tower>, es: seq<Enemy>, held: seq<seq<Bullet>>, flights: seq<seq<Flight>>,
                    kept: seq<seq<Bullet>>, kept': seq<seq<Bullet>>, last: seq<real>, now: real,
                    views: seq<seq<Vec3>>, fired: seq<bool>, volleys: seq<Volley>, view: seq<Vec3>, f: bool, v: Volley)
    requires VolleysSoFar(ts, es, held, flights, kept, last, now, views, fired, volleys)
    requires var n := |fired|; n < |ts| && n < |held| && n < |flights| && n < |kept'| && n < |last|
    requires forall j :: 0 <= j < |fired| ==> kept'[j] == kept[j]
    requires var n := |fired|; Struck(ts[n], es, held[n], flights[n], kept'[n], last[n], now, views[n], view, f, v)
    ensures VolleysSoFar(ts, es, held, flights, kept', last, now, views + [view], fired + [f], volleys + [v])
  {
    var n := |fired|;
    forall j | 0 <= j <= n
      ensures Struck(ts[j], es, held[j], flights[j], kept'[j], last[j], now,
                     (views + [view])[j], (views + [view])[j + 1], (fired + [f])[j], (volleys + [v])[j])
    {
      if j < n {
        assert volleys[j] == (volleys + [v])[j];
      }
    }
  }

  /** The state of the tower loop after its first `k` steps: those towers
      did what `Volleys` says and have their new `lastShot`, the others
      still hold the bullets `held`, in flight as `flights`, and the
      `lastShot` `last` they had before the loop, and the enemies stand at
      the last view. */
  ghost predicate TowerPass(ts: seq<Tower>, es: seq<Enemy>, held: seq<seq<Bullet>>, flights: seq<seq<Flight>>,
                            last: seq<real>, views: seq<seq<Vec3>>, fired: seq<bool>, volleys: seq<Volley>,
                            now: real, k: nat)
    reads ts, es, AllBullets(ts)
  {
    && k <= |ts| && |held| == |ts| && |flights| == |ts| && |last| == |ts| && |fired| == k
    && VolleysSoFar(ts, es, held, flights, Held(ts), last, now, views, fired, volleys)
    && views[k] == Positions(es)
    && (forall j :: 0 <= j < |ts| ==> ts[j].Valid())
    && (forall j :: k <= j < |ts| ==> ts[j].bullets == held[j] && ts[j].lastShot == last[j])
    && (forall j :: k <= j < |ts| ==> HeldFlights(ts)[j] == flights[j])
    && (forall j :: 0 <= j < k ==> ts[j].lastShot == if fired[j] then now else last[j])
  }

  /** One `tower.update(enemies, delta)` of the frame loop, seen from the
      game: tower `k` fires when the scan over where the enemies stand finds
      one and its cooldown is over, then resolves its bullets as
      `Tower.Update` states; the other towers and their bullets are
      untouched, and enemies can only be killed. */
  method StepTower(ts: seq<Tower>, k: nat, es: seq<Enemy>, delta: real, now: real, len: LengthFn)
    returns (ghost fired: bool, ghost shot: seq<Bullet>, ghost fs: seq<Flight>, ghost at: map<Enemy, Vec3>)
    requires k < |ts| && Distinct(ts)
    requires forall j :: 0 <= j < |ts| ==> ts[j].Valid()
    modifies ts[k], ts[k].bullets, TargetsOf(ts[k].bullets), set e | e in es
    ensures forall j :: 0 <= j < |ts| ==> ts[j].Valid()
    ensures forall j :: 0 <= j < |ts| && j != k ==>
      ts[j].bullets == old(ts[j].bullets) && ts[j].lastShot == old(ts[j].lastShot)
    ensures forall j :: 0 <= j < |ts| && j != k ==> Flights(ts[j].bullets) == old(Flights(ts[j].bullets))
    ensures var i := TargetIndex(ts[k].muzzle, ts[k].range, old(Positions(es)));
      var n := |old(ts[k].bullets)|;
      && (fired <==> i >= 0 && now - old(ts[k].lastShot) > ts[k].fireRate)
      && ts[k].lastShot == (if fired then now else old(ts[k].lastShot))
      && fs == old(Flights(ts[k].bullets)) + (if fired then [Flight(ts[k].muzzle, es[i], BulletSpeed)] else [])
      && |shot| == |fs| && shot[..n] == old(ts[k].bullets)
      && (fired ==> fresh(shot[n]))
    ensures at.Keys == AimsOf(fs) && forall e :: e in at ==> at[e] == old(e.pos)
    ensures ts[k].bullets == Kept(shot, fs, at)
    ensures forall e :: e in at ==> e.pos == Resolve(fs, at)[e]
    ensures forall e :: e in es && e !in at ==> e.pos == old(e.pos)
    ensures forall e :: e in es ==> e.pos == old(e.pos) || e.pos == old(e.pos).(y := DeadY)
    ensures Struck(ts[k], es, old(ts[k].bullets), old(Flights(ts[k].bullets)), ts[k].bullets,
                   old(ts[k].lastShot), now, old(Positions(es)), Positions(es), fired, Volley(shot, fs, at))
  {
    ghost var held := Held(ts);
    TargetOnPositions(ts[k].muzzle, ts[k].range, es);
    fired := Target(ts[k].muzzle, ts[k].range, es) != null && now - ts[k].lastShot > ts[k].fireRate;
    shot, fs, at := ts[k].Update(es, delta, now, len);
    forall j | 0 <= j < |ts| && j != k
      ensures Flights(ts[j].bullets) == old(Flights(ts[j].bullets))
    {
      var bs := held[j];
      forall i | 0 <= i < |bs|
        ensures bs[i].pos == old(bs[i].pos)
      {
        assert bs[i] !in held[k];
      }
    }
  }

  /** `StepTower` as a step of the tower loop: the loop state moves from
      step `k` to step `k + 1`, and the bullet tower `k` fires is new. */
  method PassStep(ts: seq<Tower>, k: nat, es: seq<Enemy>, delta: real, now: real, len: LengthFn,
                  ghost held: seq<seq<Bullet>>, ghost flights: seq<seq<Flight>>, ghost last: seq<real>,
                  ghost views: seq<seq<Vec3>>, ghost fired: seq<bool>, ghost volleys: seq<Volley>)
    returns (ghost views': seq<seq<Vec3>>, ghost fired': seq<bool>, ghost volleys': seq<Volley>)
    requires k < |ts| && Distinct(ts)
    requires TowerPass(ts, es, held, flights, last, views, fired, volleys, now, k)
    modifies ts[k], ts[k].bullets, TargetsOf(ts[k].bullets), set e | e in es
    ensures TowerPass(ts, es, held, flights, last, views', fired', volleys', now, k + 1)
    ensures views'[..k + 1] == views && fired'[..k] == fired && volleys'[..k] == volleys
    ensures forall e :: e in es ==> e.pos == old(e.pos) || e.pos == old(e.pos).(y := DeadY)
  {
    ghost var f, shot, fs, at := StepTower(ts, k, es, delta, now, len);
    VolleysGrow(ts, es, held, flights, old(Held(ts)), Held(ts), last, now, views, fired, volleys,
                Positions(es), f, Volley(shot, fs, at));
    views' := views + [Positions(es)];
    fired' := fired + [f];
    volleys' := volleys + [Volley(shot, fs, at)];
  }

  /** The tower loop of `animate()`: every tower of `ts`, in placement
      order, updates against the enemy list `es`. `views[j]` is where the
      enemies stand when tower `j` updates, and `fired[j]` whether it shot:
      it does when its scan over `views[j]` finds an enemy and its cooldown
      is over. `volleys[j]` records its pass: the new bullet it fired, the
      bullets it keeps, and the enemies it kills, as `Struck` tells from the
      bullets the tower held before the loop and their flights. */
  method RunTowers(ts: seq<Tower>, es: seq<Enemy>, delta: real, now: real, len: LengthFn)
    returns (ghost views: seq<seq<Vec3>>, ghost fired: seq<bool>, ghost volleys: seq<Volley>)
    requires Distinct(ts) && forall j :: 0 <= j < |ts| ==> ts[j].Valid()
    modifies ts, AllBullets(ts), AllTargets(ts), set e | e in es
    ensures forall j :: 0 <= j < |ts| ==> ts[j].Valid()
    ensures Volleys(ts, es, old(Held(ts)), old(HeldFlights(ts)), Held(ts), old(LastShots(ts)), now,
                    views, fired, volleys)
    ensures views[0] == old(Positions(es)) && views[|ts|] == Positions(es)
    ensures forall j :: 0 <= j < |ts| ==> ts[j].lastShot == if fired[j] then now else old(ts[j].lastShot)
    ensures forall e :: e in es ==> e.pos == old(e.pos) || e.pos == old(e.pos).(y := DeadY)
  {
    ghost var held := Held(ts);
    ghost var flights := HeldFlights(ts);
    ghost var bullets := AllBullets(ts);
    ghost var targets := AllTargets(ts);
    assert forall j, b :: 0 <= j < |ts| && b in held[j] ==> b in bullets;
    assert forall j :: 0 <= j < |ts| ==> TargetsOf(held[j]) <= targets;
    ghost var last := LastShots(ts);
    ghost var start := Positions(es);
    views := [start];
    fired := [];
    volleys := [];
    for k := 0 to |ts|
      invariant TowerPass(ts, es, held, flights, last, views, fired, volleys, now, k)
      invariant views[0] == start
      invariant forall e :: e in es ==> e.pos == old(e.pos) || e.pos == old(e.pos).(y := DeadY)
    {
      views, fired, volleys := PassStep(ts, k, es, delta, now, len, held, flights, last, views, fired, volleys);
    }
  }

  /** The walk of `enemies.update` told on values: the enemies `before`,
      standing at `at`, each take one stride of `step` toward `target`, and
      when `spawned` one enemy is appended, on the spawn square at
      `SpawnPoint(r1, r2)` and one stride on. `walked` is the new list and
      `spots` where its enemies stand. */
  predicate Walked(before: seq<Enemy>, at: seq<Vec3>, spawned: bool, target: Vec3, step: real,
                   r1: real, r2: real, len: LengthFn, walked: seq<Enemy>, spots: seq<Vec3>) {
    && |at| == |before| && |spots| == |walked|
    && |walked| == |before| + (if spawned then 1 else 0) && walked[..|before|] == before
    && (forall i :: 0 <= i < |before| ==> spots[i] == Stride(at[i], target, step, len))
    && (spawned ==> 0.0 <= r1 < 1.0 && 0.0 <= r2 < 1.0
                    && spots[|before|] == Stride(SpawnPoint(r1, r2), target, step, len))
  }

  /** The seconds from clock reading `last` to `now`, both in milliseconds. */
  function Seconds(now: real, last: real): (s: real) {
    (now - last) / 1000.0
  }

  /** The bullets of each tower of `ts`. */
  function Held(ts: seq<Tower>): (held: seq<seq<Bullet>>)
    reads ts
    ensures |held| == |ts| && forall j :: 0 <= j < |ts| ==> held[j] == ts[j].bullets
  {
    seq(|ts|, j requires 0 <= j < |ts| reads ts => ts[j].bullets)
  }

  /** The flights of the bullets each tower of `ts` holds. */
  function HeldFlights(ts: seq<Tower>): (flights: seq<seq<Flight>>)
    reads ts, AllBullets(ts)
    ensures |flights| == |ts| && forall j :: 0 <= j < |ts| ==> flights[j] == Flights(ts[j].bullets)
  {
    seq(|ts|, j requires 0 <= j < |ts| reads ts, AllBullets(ts) => TowerFlights(ts, j))
  }

  /** The flights of the bullets tower `j` of `ts` holds. */
  function TowerFlights(ts: seq<Tower>, j: nat): (fs: seq<Flight>)
    requires j < |ts|
    reads ts, AllBullets(ts)
    ensures fs == Flights(ts[j].bullets)
  {
    InAllBullets(ts);
    Flights(ts[j].bullets)
  }

  /** The bullets of each tower are among those of all the towers. */
  lemma InAllBullets(ts: seq<Tower>)
    ensures forall j, b :: 0 <= j < |ts| && b in ts[j].bullets ==> b in AllBullets(ts)
  {
  }

  /** No bullet belongs to two of the bullet lists `held`. */
  predicate Unshared(held: seq<seq<Bullet>>) {
    forall i, j, b :: 0 <= i < |held| && 0 <= j < |held| && i != j && b in held[i] ==> b !in held[j]
  }

  /** Each tower only ever holds the bullets it fired itself, so no bullet
      belongs to two towers. */
  lemma TowersUnshared(ts: seq<Tower>)
    requires Distinct(ts) && forall j :: 0 <= j < |ts| ==> ts[j].Valid()
    ensures Unshared(Held(ts))
  {
    forall i, j, b | 0 <= i < |ts| && 0 <= j < |ts| && i != j && b in ts[i].bullets
      ensures b !in ts[j].bullets
    {
      assert b.shooter == ts[i];
    }
  }

  /** The `lastShot` of each tower of `ts`. */
  function LastShots(ts: seq<Tower>): (last: seq<real>)
    reads ts
    ensures |last| == |ts| && forall j :: 0 <= j < |ts| ==> last[j] == ts[j].lastShot
  {
    seq(|ts|, j requires 0 <= j < |ts| reads ts => ts[j].lastShot)
  }

  /** `enemies.update(delta)` then `enemies.checkCollisions(core, ...)` on
      the manager `m`. `walked` is the list after the update: the old
      enemies, each one stride on toward the goal, and the enemy spawned if
      the spawn timer was due; `spots` is where they stand. The enemies
      left are those of `walked` out of the core's reach, and `hits`
      counts the others. */
  method EnemyPhase(m: EnemyManager, now: real, delta: real, r1: real, r2: real, len: LengthFn)
    returns (hits: nat, ghost walked: seq<Enemy>, ghost spots: seq<Vec3>)
    requires m.Valid()
    requires 0.0 <= r1 < 1.0 && 0.0 <= r2 < 1.0
    modifies m, m.enemies
    ensures m.Valid()
    ensures var spawned := SpawnDue(now, old(m.lastSpawn), old(m.spawnInterval));
      && m.lastSpawn == (if spawned then now else old(m.lastSpawn))
      && Walked(old(m.enemies), old(Positions(m.enemies)), spawned, m.target, delta * EnemySpeed, r1, r2, len, walked, spots)
      && (spawned ==> fresh(walked[|old(m.enemies)|]))
    ensures m.spawnInterval == old(m.spawnInterval)
    ensures spots == Positions(walked)
    ensures m.enemies == Remaining(walked, CorePosition) && hits == CountColliding(walked, CorePosition)
    ensures m.enemies == OutOfReach(walked, spots, CorePosition) && hits == CountInReach(spots, CorePosition)
    ensures Positions(m.enemies) == OutOfReach(spots, spots, CorePosition)
    ensures forall e :: e in m.enemies ==> !Collides(e, CorePosition)
    ensures forall e :: e in m.enemies ==> e in old(m.enemies) || fresh(e)
  {
    m.Update(now, delta, r1, r2, len);
    walked := m.enemies;
    spots := Positions(walked);
    hits := m.CheckCollisions(CorePosition);
    RemainingOnPositions(walked, CorePosition);
    RemainingMembers(walked, CorePosition);
  }

  /** The body of `animate()` on the enemy manager `m` and the towers
      `ts`: the enemies walk (and one may spawn), those within the core's
      reach are removed, as `EnemyPhase` states, then the towers update
      against the enemies left, as `RunTowers` states. A tower can kill an
      enemy only by moving it below the ground, so no enemy left is within
      the core's reach at the end. */
  method Animate(m: EnemyManager, ts: seq<Tower>, now: real, delta: real, r1: real, r2: real, len: LengthFn)
    returns (hits: nat, ghost walked: seq<Enemy>, ghost spots: seq<Vec3>,
             ghost views: seq<seq<Vec3>>, ghost fired: seq<bool>, ghost volleys: seq<Volley>)
    requires m.Valid() && Layout(ts) && forall j :: 0 <= j < |ts| ==> ts[j].Valid()
    requires 0.0 <= r1 < 1.0 && 0.0 <= r2 < 1.0
    modifies m, m.enemies, ts, AllBullets(ts), AllTargets(ts)
    ensures m.Valid() && forall j :: 0 <= j < |ts| ==> ts[j].Valid()
    ensures var spawned := SpawnDue(now, old(m.lastSpawn), old(m.spawnInterval));
      && m.lastSpawn == (if spawned then now else old(m.lastSpawn))
      && Walked(old(m.enemies), old(Positions(m.enemies)), spawned, m.target, delta * EnemySpeed, r1, r2, len, walked, spots)
      && (spawned ==> fresh(walked[|old(m.enemies)|]))
    ensures m.spawnInterval == old(m.spawnInterval)
    ensures m.enemies == OutOfReach(walked, spots, CorePosition) && hits == CountInReach(spots, CorePosition)
    ensures Volleys(ts, m.enemies, old(Held(ts)), old(HeldFlights(ts)), Held(ts), old(LastShots(ts)), now,
                    views, fired, volleys)
    ensures views[0] == OutOfReach(spots, spots, CorePosition) && views[|ts|] == Positions(m.enemies)
    ensures forall j :: 0 <= j < |ts| ==> ts[j].lastShot == if fired[j] then now else old(ts[j].lastShot)
    ensures forall e :: e in m.enemies ==> !Collides(e, CorePosition)
  {
    LayoutDistinct(ts);
    hits, walked, spots := EnemyPhase(m, now, delta, r1, r2, len);
    label walkedOn:
    assert LastShots(ts) == old(LastShots(ts)) && Held(ts) == old(Held(ts));
    assert HeldFlights(ts) == old(HeldFlights(ts));
    var es := m.enemies;
    views, fired, volleys := RunTowers(ts, es, delta, now, len);
    forall e | e in es && e.pos != old@walkedOn(e.pos) ensures !Collides(e, CorePosition) {
      DeadIsClearOfCore(e.pos);
    }
  }

  /** The game state of main.js. */
  class Game {
    /** `enemies`, the enemy manager. */
    const manager: EnemyManager
    var towers: seq<Tower>
    var lastTime: real
    /** The tower type selected for placement, if any. */
    var placingTower: Option<string>
    var health: int

    ghost predicate Valid()
      reads this, manager, towers
    {
      && manager.Valid()
      && manager.target == EnemyGoal
      && (forall i :: 0 <= i < |towers| ==> towers[i].Valid())
      && Layout(towers)
    }

    /** `initGame()` at clock reading `now`: full health, a fresh enemy
        manager walking enemies to the origin, no towers, nothing selected. */
    constructor (now: real)
      ensures Valid()
      ensures health == MaxHealth && towers == [] && placingTower == None && lastTime == now
      ensures fresh(manager) && manager.enemies == []
      ensures manager.spawnInterval == DefaultSpawnInterval && manager.lastSpawn == 0.0
    {
      manager := new EnemyManager(EnemyGoal);
      towers := [];
      lastTime := now;
      placingTower := None;
      health := MaxHealth;
    }

    /** `handleCoreHit()`: one hit point less; nothing stops it going below zero. */
    method HandleCoreHit()
      requires Valid()
      modifies this
      ensures Valid()
      ensures health == old(health) - 1
      ensures towers == old(towers)
      ensures lastTime == old(lastTime) && placingTower == old(placingTower)
    {
      health := health - 1;
    }

    /** `handleCoreHit()` called `hits` times. */
    method HandleCoreHits(hits: nat)
      requires Valid()
      modifies this
      ensures Valid()
      ensures health == old(health) - hits
      ensures towers == old(towers)
      ensures lastTime == old(lastTime) && placingTower == old(placingTower)
    {
      for k := 0 to hits
        invariant Valid()
        invariant health == old(health) - k
        invariant towers == old(towers)
        invariant lastTime == old(lastTime) && placingTower == old(placingTower)
      {
        HandleCoreHit();
      }
    }

    /** `showGameOver()`: the spawn interval becomes 999999 ms. */
    method ShowGameOver()
      requires Valid()
      modifies manager
      ensures Valid()
      ensures manager.spawnInterval == GameOverSpawnInterval
      ensures manager.enemies == old(manager.enemies) && manager.lastSpawn == old(manager.lastSpawn)
      ensures Positions(manager.enemies) == old(Positions(manager.enemies))
    {
      manager.spawnInterval := GameOverSpawnInterval;
    }

    /** The game-over test at the end of `animate()`. */
    method CheckGameOver()
      requires Valid()
      modifies manager
      ensures Valid()
      ensures manager.spawnInterval == if health <= 0 then GameOverSpawnInterval else old(manager.spawnInterval)
      ensures manager.enemies == old(manager.enemies) && manager.lastSpawn == old(manager.lastSpawn)
      ensures Positions(manager.enemies) == old(Positions(manager.enemies))
    {
      if health <= 0 {
        ShowGameOver();
      }
    }

    /** What `animate()` does besides moving enemies and towers: the
        `hits` core hits are taken, the game-over test is made, and
        `lastTime` moves on to `now`. */
    method EndFrame(now: real, hits: nat)
      requires Valid()
      modifies this, manager
      ensures Valid()
      ensures health == old(health) - hits && lastTime == now
      ensures manager.spawnInterval == if health <= 0 then GameOverSpawnInterval else old(manager.spawnInterval)
      ensures towers == old(towers) && placingTower == old(placingTower)
      ensures manager.enemies == old(manager.enemies) && manager.lastSpawn == old(manager.lastSpawn)
      ensures Positions(manager.enemies) == old(Positions(manager.enemies))
      ensures forall j :: 0 <= j < |towers| ==> towers[j].lastShot == old(towers[j].lastShot)
      ensures Held(towers) == old(Held(towers))
      ensures forall e :: e in manager.enemies ==> Collides(e, CorePosition) == old(Collides(e, CorePosition))
    {
      HandleCoreHits(hits);
      CheckGameOver();
      lastTime := now;
    }

    /** A tower button was clicked. */
    method SelectTowerType(clicked: string)
      requires Valid()
      modifies this
      ensures Valid()
      ensures placingTower == Toggle(old(placingTower), clicked)
      ensures towers == old(towers)
      ensures health == old(health) && lastTime == old(lastTime)
    {
      if placingTower == Some(clicked) {
        placingTower := None;
      } else {
        placingTower := Some(clicked);
      }
    }

    /** `onMouseClick` with `click` the point where the ray first meets the
        ground plane, if it does. A tower of the selected type is placed on
        the snapped cell unless that cell is too close to the core or
        taken; placing ends placement mode. */
    method PlaceTower(click: Option<Vec3>) returns (placed: bool)
      requires Valid()
      modifies this
      ensures Valid()
      ensures placed <==> (Truthy(old(placingTower)) && click.Some?
        && !TooCloseToCore(Snap(click.value)) && !Occupied(old(towers), Snap(click.value)))
      ensures placed ==> |towers| == |old(towers)| + 1 && towers[..|old(towers)|] == old(towers)
      ensures placed ==> var t := towers[|old(towers)|];
        fresh(t) && t.position == Snap(click.value) && t.kind == old(placingTower).value
        && t.fireRate == FireRate(t.kind) && t.range == TowerRange
        && t.muzzle == Vec3(t.position.x, TowerHeight(t.kind) / 2.0, t.position.z)
        && t.bullets == [] && t.lastShot == 0.0
      ensures placed ==> placingTower == None
      ensures !placed ==> towers == old(towers) && placingTower == old(placingTower)
      ensures health == old(health) && lastTime == old(lastTime)
    {
      placed := false;
      if !Truthy(placingTower) {
        return;
      }
      if click == None {
        return;
      }
      var pos := Snap(click.value);
      if TooCloseToCore(pos) {
        return;
      }
      if Occupied(towers, pos) {
        return;
      }
      var t := new Tower(pos, placingTower.value);
      forall i | 0 <= i < |towers| ensures !SameCell(towers[i].muzzle, t.muzzle) {
        assert !SameCell(towers[i].muzzle, pos);
      }
      towers := towers + [t];
      placingTower := None;
      placed := true;
    }

    /** One frame of `animate()` at clock reading `now`, with the two
        random draws a spawn would use: the enemies walk (and one may
        spawn), those within the core's reach are removed and each costs
        one health point, then every tower in turn updates, and the game
        ends if health is gone. `walked` and `spots` are the enemy list and
        its positions after the walk, `views` and `fired` what the towers
        saw and did (as `Volleys` tells). */
    method Frame(now: real, r1: real, r2: real, len: LengthFn)
      returns (hits: nat, ghost walked: seq<Enemy>, ghost spots: seq<Vec3>,
               ghost views: seq<seq<Vec3>>, ghost fired: seq<bool>, ghost volleys: seq<Volley>)
      requires Valid()
      requires 0.0 <= r1 < 1.0 && 0.0 <= r2 < 1.0
      modifies this, manager, manager.enemies, towers, AllBullets(towers), AllTargets(towers)
      ensures Valid()
      ensures lastTime == now && towers == old(towers)
      ensures placingTower == old(placingTower)
      ensures var spawned := SpawnDue(now, old(manager.lastSpawn), old(manager.spawnInterval));
        && manager.lastSpawn == (if spawned then now else old(manager.lastSpawn))
        && Walked(old(manager.enemies), old(Positions(manager.enemies)), spawned, EnemyGoal,
                  Seconds(now, old(lastTime)) * EnemySpeed, r1, r2, len, walked, spots)
        && (spawned ==> fresh(walked[|old(manager.enemies)|]))
      ensures manager.enemies == OutOfReach(walked, spots, CorePosition) && hits == CountInReach(spots, CorePosition)
      ensures health == old(health) - hits
      ensures Volleys(towers, manager.enemies, old(Held(towers)), old(HeldFlights(towers)), Held(towers),
                      old(LastShots(towers)), now, views, fired, volleys)
      ensures views[0] == OutOfReach(spots, spots, CorePosition) && views[|towers|] == Positions(manager.enemies)
      ensures forall j :: 0 <= j < |towers| ==> towers[j].lastShot == if fired[j] then now else old(towers[j].lastShot)
      ensures forall e :: e in manager.enemies ==> !Collides(e, CorePosition)
      ensures manager.spawnInterval == if health <= 0 then GameOverSpawnInterval else old(manager.spawnInterval)
    {
      hits, walked, spots, views, fired, volleys := Animate(manager, towers, now, Seconds(now, lastTime), r1, r2, len);
      EndFrame(now, hits);
    }
  }
}
