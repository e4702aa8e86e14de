/** The star's particle trail as values: spawning a burst of particles at
    the star's position and one tick of motion and ageing, which keeps the
    particles still alive in their original order. */
module Particles {
  import opened Types

  /** The four rnd.Float64() draws one new particle consumes, in the order
      spawnParticles makes them: x offset, y offset, x velocity, y velocity. */
  datatype Jitter = Jitter(dx: Unit, dy: Unit, vx: Unit, vy: Unit)

  /** How many particles one tick spawns for the raw draw behind
      rnd.Intn(3): two to four, plus the front bonus when the star is in
      front of the tree (z >= 0). */
  function SpawnCount(raw: nat, z: real): (n: nat)
    ensures 2 <= n <= 4 + ParticleFrontExtra
    ensures z >= 0.0 ==> 2 + ParticleFrontExtra <= n
    ensures z < 0.0 ==> n <= 4
    ensures raw < 3 ==> n == raw + 2 + (if z >= 0.0 then ParticleFrontExtra else 0)
  {
    var count := Intn(raw, 3) + 2;
    if z >= 0.0 then count + ParticleFrontExtra else count
  }

  /** One new particle: scattered up to one cell left or right and half a
      cell up or down around (x, y), at depth z, drifting slowly sideways
      and downwards, with full life and the star's colour. */
  function Spawned(j: Jitter, x: real, y: real, z: real, color: Color): (p: Particle)
    ensures p.life == ParticleInitialLife && p.color == color && p.pos.z == z
    ensures x - 1.0 <= p.pos.x < x + 1.0 && y - 0.5 <= p.pos.y < y + 0.5
    ensures -0.1 <= p.velocity.x < 0.1 && 0.0 <= p.velocity.y < 0.2 && p.velocity.z == 0.0
  {
    Particle(Vec3(x + (j.dx - 0.5) * 2.0, y + (j.dy - 0.5) * 1.0, z),
             Vec3((j.vx - 0.5) * 0.2, j.vy * 0.2, 0.0),
             ParticleInitialLife, color)
  }

  /** The first n particles of a burst, made from the first n jitter draws. */
  function Burst(js: seq<Jitter>, n: nat, x: real, y: real, z: real, color: Color): seq<Particle>
    requires n <= |js|
  {
    if n == 0 then [] else Burst(js, n - 1, x, y, z, color) + [Spawned(js[n - 1], x, y, z, color)]
  }

  /** The particle list after spawnParticles(x, y, z, color). */
  function Spawn(ps: seq<Particle>, raw: nat, js: seq<Jitter>, x: real, y: real, z: real, color: Color): seq<Particle>
    requires SpawnCount(raw, z) <= |js|
  {
    ps + Burst(js, SpawnCount(raw, z), x, y, z, color)
  }

  lemma {:induction false} BurstCells(js: seq<Jitter>, n: nat, x: real, y: real, z: real, color: Color)
    requires n <= |js|
    ensures |Burst(js, n, x, y, z, color)| == n
    ensures forall i :: 0 <= i < n ==> Burst(js, n, x, y, z, color)[i] == Spawned(js[i], x, y, z, color)
  {
    if n > 0 {
      BurstCells(js, n - 1, x, y, z, color);
    }
  }

  /** Spawning keeps the existing particles unchanged and in order, and
      appends two to five fresh particles, each with full life, the star's
      depth and colour, and a position within the jitter box around the star. */
  lemma SpawnAppends(ps: seq<Particle>, raw: nat, js: seq<Jitter>, x: real, y: real, z: real, color: Color)
    requires SpawnCount(raw, z) <= |js|
    ensures var r := Spawn(ps, raw, js, x, y, z, color);
      && |r| == |ps| + SpawnCount(raw, z)
      && |ps| + 2 <= |r| <= |ps| + 4 + ParticleFrontExtra
      && r[..|ps|] == ps
      && forall i :: |ps| <= i < |r| ==>
           && r[i] == Spawned(js[i - |ps|], x, y, z, color)
           && r[i].life == ParticleInitialLife && r[i].pos.z == z && r[i].color == color
           && x - 1.0 <= r[i].pos.x < x + 1.0 && y - 0.5 <= r[i].pos.y < y + 0.5
  {
    BurstCells(js, SpawnCount(raw, z), x, y, z, color);
    var r := Spawn(ps, raw, js, x, y, z, color);
    forall i | |ps| <= i < |r|
      ensures r[i] == Spawned(js[i - |ps|], x, y, z, color)
    {
      assert r[i] == Burst(js, SpawnCount(raw, z), x, y, z, color)[i - |ps|];
    }
  }

  /** One tick of motion: the position moves by the velocity in x and y,
      life drops by the decay, velocity, depth and colour stay. */
  function Advance(p: Particle): (q: Particle)
    ensures q.velocity == p.velocity && q.color == p.color && q.pos.z == p.pos.z
    ensures q.life == p.life - ParticleLifeDecay
  {
    p.(pos := Vec3(p.pos.x + p.velocity.x, p.pos.y + p.velocity.y, p.pos.z),
       life := p.life - ParticleLifeDecay)
  }

  /** The particle list after updateParticles: every particle advanced,
      those whose life is still positive kept in their original order. */
  function Survivors(ps: seq<Particle>): (r: seq<Particle>)
    ensures |r| <= |ps|
    ensures forall q <- r :: q.life > 0.0
  {
    if ps == [] then []
    else
      var rest := Survivors(ps[..|ps| - 1]);
      var q := Advance(ps[|ps| - 1]);
      if q.life > 0.0 then rest + [q] else rest
  }

  /** The indices of the particles that survive an update, in order. */
  function SurvivorIndices(ps: seq<Particle>): seq<nat> {
    if ps == [] then []
    else
      var rest := SurvivorIndices(ps[..|ps| - 1]);
      if Advance(ps[|ps| - 1]).life > 0.0 then rest + [|ps| - 1] else rest
  }

  /** The update is an order-preserving selection: the k-th survivor is the
      advanced form of the particle at a strictly increasing index, and a
      particle is selected exactly when its advanced life is positive. */
  lemma {:induction false} SurvivorsSelect(ps: seq<Particle>)
    ensures var idx := SurvivorIndices(ps);
      && |idx| == |Survivors(ps)|
      && (forall k :: 0 <= k < |idx| ==> idx[k] < |ps| && Survivors(ps)[k] == Advance(ps[idx[k]]))
      && (forall k, l :: 0 <= k < l < |idx| ==> idx[k] < idx[l])
      && (forall i :: 0 <= i < |ps| ==> (i in idx <==> Advance(ps[i]).life > 0.0))
  {
    if ps != [] {
      var init := ps[..|ps| - 1];
      SurvivorsSelect(init);
      var idx0 := SurvivorIndices(init);
      assert forall i :: 0 <= i < |init| ==> ps[i] == init[i];
      assert forall k :: 0 <= k < |idx0| ==> idx0[k] < |ps| - 1;
    }
  }

  /** Updating a list is updating its two halves: the survivors of the
      older particles stay ahead of the survivors of the newer ones. */
  lemma {:induction false} SurvivorsAppend(a: seq<Particle>, b: seq<Particle>)
    ensures Survivors(a + b) == Survivors(a) + Survivors(b)
  {
    if b == [] {
      assert a + b == a;
    } else {
      var b0 := b[..|b| - 1];
      SurvivorsAppend(a, b0);
      assert (a + b)[..|a + b| - 1] == a + b0;
      assert (a + b)[|a + b| - 1] == b[|b| - 1];
    }
  }

  /** The life invariant of the particle list: every particle has positive
      life no greater than the initial life. */
  ghost predicate LifeInRange(ps: seq<Particle>) {
    forall p <- ps :: 0.0 < p.life <= ParticleInitialLife
  }

  lemma SpawnKeepsLife(ps: seq<Particle>, raw: nat, js: seq<Jitter>, x: real, y: real, z: real, color: Color)
    requires SpawnCount(raw, z) <= |js|
    requires LifeInRange(ps)
    ensures LifeInRange(Spawn(ps, raw, js, x, y, z, color))
  {
    SpawnAppends(ps, raw, js, x, y, z, color);
    var r := Spawn(ps, raw, js, x, y, z, color);
    forall p | p in r
      ensures 0.0 < p.life <= ParticleInitialLife
    {
      var i :| 0 <= i < |r| && r[i] == p;
      if i < |ps| {
        assert r[i] == r[..|ps|][i];
      }
    }
  }

  lemma {:induction false} SurvivorsKeepLife(ps: seq<Particle>)
    requires LifeInRange(ps)
    ensures LifeInRange(Survivors(ps))
    ensures forall q <- Survivors(ps) :: q.life <= ParticleInitialLife - ParticleLifeDecay
  {
    SurvivorsSelect(ps);
    var idx := SurvivorIndices(ps);
    forall q | q in Survivors(ps)
      ensures 0.0 < q.life <= ParticleInitialLife - ParticleLifeDecay
    {
      var k :| 0 <= k < |Survivors(ps)| && Survivors(ps)[k] == q;
      assert ps[idx[k]] in ps;
    }
  }
}
