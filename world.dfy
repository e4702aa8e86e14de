/** The animation's mutable state, the program's global variables, and one
    iteration of the main loop over it: the size check of the sky cache,
    the sky, the twinkle clock, the particle trail, and the painting of the
    frame. */
module Animation {
  import opened Types
  import opened SceneBuilder
  import opened Particles
  import opened SkyField
  import opened Terminal
  import opened Compositor
  import opened Painter

  /** Everything random or floating-point one tick consumes: the draws of a
      possible sky regeneration, the twinkle colours, the orbiting star
      computed from the advanced clock, the draws of the particle burst,
      and the light-radius verdict per screen position. */
  datatype TickInput = TickInput(
    skyDraws: seq<StarDraw>,
    twinkle: Twinkle,
    orbit: Orbit,
    countDraw: nat,
    jitters: seq<Jitter>,
    lit: (int, int) -> bool)

  class World {
    var particles: seq<Particle>
    var skyStars: seq<SkyStar>
    var prevWidth: int
    var prevTopY: int
    /** The main loop's clock. */
    var t: real

    function Cache(): SkyCache
      reads this
    {
      SkyCache(prevWidth, prevTopY, skyStars)
    }

    /** The invariant of the state: the cached stars lie in the sky band of
        the cached size, and every particle's life is in (0, 1.2]. */
    ghost predicate Valid()
      reads this
    {
      CacheValid(Cache()) && LifeInRange(particles)
    }

    /** The state at program start. */
    constructor ()
      ensures particles == [] && Cache() == InitialCache && t == 0.0
      ensures Valid()
    {
      particles := [];
      skyStars := [];
      prevWidth := -1;
      prevTopY := -1;
      t := 0.0;
    }

    /** spawnParticles(x, y, z, color) */
    method SpawnParticles(x: real, y: real, z: real, color: Color, countDraw: nat, jitters: seq<Jitter>)
      requires Valid()
      requires SpawnCount(countDraw, z) <= |jitters|
      modifies this
      ensures Valid()
      ensures particles == Spawn(old(particles), countDraw, jitters, x, y, z, color)
      ensures skyStars == old(skyStars) && prevWidth == old(prevWidth) && prevTopY == old(prevTopY) && t == old(t)
    {
      var count := Intn(countDraw, 3) + 2;
      if z >= 0.0 {
        count := count + ParticleFrontExtra;
      }
      var i := 0;
      while i < count
        invariant 0 <= i <= count == SpawnCount(countDraw, z)
        invariant particles == old(particles) + Burst(jitters, i, x, y, z, color)
        invariant skyStars == old(skyStars) && prevWidth == old(prevWidth) && prevTopY == old(prevTopY) && t == old(t)
      {
        var j := jitters[i];
        var offsetX := (j.dx - 0.5) * 2.0;
        var offsetY := (j.dy - 0.5) * 1.0;
        particles := particles + [Particle(Vec3(x + offsetX, y + offsetY, z),
                                           Vec3((j.vx - 0.5) * 0.2, j.vy * 0.2, 0.0),
                                           ParticleInitialLife, color)];
        assert particles == old(particles) + Burst(jitters, i + 1, x, y, z, color);
        i := i + 1;
      }
      SpawnKeepsLife(old(particles), countDraw, jitters, x, y, z, color);
    }

    /** updateParticles() */
    method UpdateParticles()
      requires Valid()
      modifies this
      ensures Valid()
      ensures particles == Survivors(old(particles))
      ensures skyStars == old(skyStars) && prevWidth == old(prevWidth) && prevTopY == old(prevTopY) && t == old(t)
    {
      var alive: seq<Particle> := [];
      var k := 0;
      while k < |particles|
        invariant 0 <= k <= |particles|
        invariant alive == Survivors(particles[..k])
      {
        var p := particles[k];
        p := p.(pos := p.pos.(x := p.pos.x + p.velocity.x));
        p := p.(pos := p.pos.(y := p.pos.y + p.velocity.y));
        p := p.(life := p.life - ParticleLifeDecay);
        assert p == Advance(particles[k]);
        assert particles[..k + 1][..k] == particles[..k];
        if p.life > 0.0 {
          alive := alive + [p];
        }
        k := k + 1;
      }
      assert particles[..k] == particles;
      SurvivorsKeepLife(particles);
      particles := alive;
    }

    /** initSkyStars(width, topY) */
    method InitSkyStars(width: int, topY: int, draws: seq<StarDraw>)
      requires CanLayout(width, topY, draws)
      modifies this
      ensures skyStars == Layout(width, topY, draws)
      ensures particles == old(particles) && prevWidth == old(prevWidth) && prevTopY == old(prevTopY) && t == old(t)
    {
      if topY <= TreeTopMargin {
        skyStars := [];
        return;
      }
      skyStars := [];
      var i := 0;
      while i < SkyStarCount
        invariant 0 <= i <= SkyStarCount
        invariant skyStars == Stars(draws, i, width, topY)
        invariant particles == old(particles) && prevWidth == old(prevWidth) && prevTopY == old(prevTopY) && t == old(t)
      {
        var d := draws[i];
        var x := Intn(d.xDraw, width);
        var y := TreeTopMargin + Intn(d.yDraw, Max(1, topY - TreeTopMargin));
        var phase := d.phase * 2.0 * Pi;
        var speed := 0.8 + d.speed * 0.8;
        skyStars := skyStars + [SkyStar(x, y, phase, speed)];
        assert skyStars == Stars(draws, i + 1, width, topY);
        i := i + 1;
      }
    }

    /** The size check at the start of a tick. */
    method RefreshSky(width: int, topY: int, draws: seq<StarDraw>)
      requires Valid()
      requires CanRefresh(Cache(), width, topY, draws)
      modifies this
      ensures Valid()
      ensures Cache() == Refresh(old(Cache()), width, topY, draws)
      ensures forall s <- skyStars :: InSky(s, width, topY)
      ensures particles == old(particles) && t == old(t)
    {
      RefreshKeepsValid(Cache(), width, topY, draws);
      if width != prevWidth || topY != prevTopY {
        InitSkyStars(width, topY, draws);
        prevWidth := width;
        prevTopY := topY;
      }
    }

    /** One iteration of the main loop for the static scene `tree`: the
        new state follows from the old by the cache check, the clock step,
        a spawn and an update; the screen holds, cell by cell, the frame of
        the new sky stars and particles, twinkling at the old clock value. */
    method Tick(scr: Screen, tree: seq<TreeCell>, inp: TickInput)
      requires Valid()
      requires CanRefresh(Cache(), scr.Width(), TopY(scr.Height()), inp.skyDraws)
      requires SpawnCount(inp.countDraw, inp.orbit.relZ) <= |inp.jitters|
      modifies this, scr.cells
      ensures Valid()
      ensures Cache() == Refresh(old(Cache()), scr.Width(), TopY(scr.Height()), inp.skyDraws)
      ensures forall s <- skyStars :: InSky(s, scr.Width(), TopY(scr.Height()))
      ensures t == old(t) + StarTimeStep
      ensures particles == Survivors(Spawn(old(particles), inp.countDraw, inp.jitters,
                                           inp.orbit.x, inp.orbit.y, inp.orbit.relZ, inp.orbit.color))
      ensures forall i, j :: scr.OnGrid(i, j) ==>
        scr.cells[i, j] == FrameAt(tree, skyStars, particles, FrameInput(old(t), inp.twinkle, inp.orbit, inp.lit),
                                   scr.Width(), scr.Height(), i, j)
    {
      scr.Clear();
      var width: int, height: int := scr.Width(), scr.Height();
      var midX := width / 2;
      var baseY := height - 4;
      var topY := baseY - TreeHeight;

      RefreshSky(width, topY, inp.skyDraws);

      PaintSkyBase(scr, topY);
      PaintStars(scr, skyStars, t, inp.twinkle, topY);

      t := t + StarTimeStep;

      var o := inp.orbit;
      SpawnParticles(o.x, o.y, o.relZ, o.color, inp.countDraw, inp.jitters);
      UpdateParticles();

      var occupied := OccupiedCells(tree, midX, baseY, width, height);
      var skyOccupied := SkyOccupiedCells(skyStars, width, topY);
      var bottom := baseY + 4;
      if bottom >= height {
        bottom := height - 1;
      }
      FillGaps(scr, topY, bottom, occupied, skyOccupied);
      PaintTree(scr, tree, midX, baseY, inp.lit);
      PaintParticles(scr, particles);
      PaintOrbitStar(scr, o);
    }
  }

  /** The frame of the built scene, for any sky layout the cache can hold:
      from the tree top to the bottom edge every position ends on the sky
      base background, and the orbiting star's glyph appears exactly at
      its truncated position and only when it is in front of the tree. */
  lemma SceneFrameFacts(draws: seq<Decoration>, stars: seq<SkyStar>, ps: seq<Particle>, inp: FrameInput,
                        width: nat, height: nat, x: int, y: int)
    requires |draws| >= CanopyCellCount
    requires forall s <- stars :: InSky(s, width, TopY(height))
    requires 0 <= x < width && 0 <= y < height
    ensures y >= TopY(height) ==> FrameAt(RichTree(draws), stars, ps, inp, width, height, x, y).style.bg == SkyBase
    ensures FrameAt(RichTree(draws), stars, ps, inp, width, height, x, y).glyph == StarGlyph <==>
      inp.orbit.relZ >= 0.0 && x == Trunc(inp.orbit.x) && y == Trunc(inp.orbit.y)
  {
    var tree := RichTree(draws);
    RichTreeLayout(draws);
    assert StarGlyph !in SceneGlyphs;
    StarGlyphExactly(tree, stars, ps, inp, width, height, x, y);
    if y >= TopY(height) {
      BandOnSkyBase(tree, stars, ps, inp, width, height, x, y);
    }
  }
}
