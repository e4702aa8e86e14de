/** What one tick paints, cell by cell. Each layer of the frame is a
    function from the cell a position held before the layer to the cell
    it holds after it; the frame is the composition of the layers in the
    order the main loop paints them:
      clear, sky band, sky stars and their glow, gap fill, tree cells,
      particles, the orbiting star.
    A position (x, y) below is always on the grid, 0 <= x < width and
    0 <= y < height. */
module Compositor {
  import opened Types
  import opened SkyField
  import opened Terminal

  // ---------------------------------------------------------------------
  // Geometry of one tick
  // ---------------------------------------------------------------------

  /** Column of the tree's centre; width is never negative, so Go's
      truncating division and Dafny's agree. */
  function MidX(width: nat): int { width / 2 }

  /** Row of the tree's base, four rows above the bottom edge. */
  function BaseY(height: nat): int { height - 4 }

  /** Row of the tree's top. */
  function TopY(height: nat): int { BaseY(height) - TreeHeight }

  /** The last row the gap fill covers: baseY + 4 clamped to the screen.
      Since baseY is height - 4, the clamp always applies. */
  function FillBottom(height: nat): (b: int)
    ensures b == height - 1
  {
    var bottom := BaseY(height) + 4;
    if bottom >= height then height - 1 else bottom
  }

  // ---------------------------------------------------------------------
  // The cells each layer writes
  // ---------------------------------------------------------------------

  /** A space on the dark blue sky base. */
  const SkyBlank: ScreenCell := ScreenCell(' ', Style(Default, SkyBase, false))

  const StarGlyph: char := '★'

  /** A sky star's dot: a '.' in its twinkle shade on the reset background. */
  function DotCell(shade: Color): ScreenCell {
    ScreenCell('.', Style(shade, Reset, false))
  }

  /** A glow cell: a space on a brightened background. */
  function GlowCell(glow: Color): ScreenCell {
    ScreenCell(' ', Style(Default, glow, false))
  }

  /** A particle: a '.' in the particle's colour on the sky base. */
  function ParticleCell(color: Color): ScreenCell {
    ScreenCell('.', Style(color, SkyBase, false))
  }

  /** How a tree cell looks: its glyph on the sky base, in its lit colour
      when it is within the light radius and is neither a decoration nor
      a gift, in its base colour otherwise. */
  function TreeLook(c: TreeCell, lit: bool): ScreenCell {
    ScreenCell(c.glyph, Style(if lit && c.kind != Decor && c.kind != Gift then c.litColor else c.baseColor, SkyBase, false))
  }

  /** Decorations and gifts look the same lit or unlit; needles and trunk
      cells take their lit colour exactly when lit (when the two colours
      differ). All tree cells sit on the sky base. */
  lemma TreeLookMeaning(c: TreeCell, lit: bool)
    ensures TreeLook(c, lit).glyph == c.glyph && TreeLook(c, lit).style.bg == SkyBase
    ensures c.kind == Decor || c.kind == Gift ==> TreeLook(c, lit) == TreeLook(c, !lit)
    ensures c.kind != Decor && c.kind != Gift && c.litColor != c.baseColor ==>
      (TreeLook(c, lit).style.fg == c.litColor <==> lit)
  {
  }

  // ---------------------------------------------------------------------
  // Injected floating-point results
  // ---------------------------------------------------------------------

  /** The twinkle colours of this tick, computed by the program from each
      star's phase and speed, the time t, and for the glow the offset
      from the star. */
  datatype Twinkle = Twinkle(dot: (SkyStar, real) -> Color, glow: (SkyStar, real, int, int) -> Color)

  /** The orbiting star of this tick: its screen position, its depth
      (negative behind the tree) and its rainbow colour. */
  datatype Orbit = Orbit(x: real, y: real, relZ: real, color: Color)

  /** Everything a frame depends on besides the scene and the state: the
      time the twinkle is computed for, the twinkle colours, the orbit,
      and the verdict of the distance test "within LightRadius of the
      star" for each screen position. */
  datatype FrameInput = FrameInput(t: real, twinkle: Twinkle, orbit: Orbit, lit: (int, int) -> bool)

  /** Go's float64-to-int conversion, which truncates toward zero. */
  function Trunc(r: real): (n: int)
    ensures r >= 0.0 ==> n as real <= r < n as real + 1.0
    ensures r < 0.0 ==> n as real - 1.0 < r <= n as real
  {
    if r >= 0.0 then r.Floor else -((-r).Floor)
  }

  // ---------------------------------------------------------------------
  // Layers
  // ---------------------------------------------------------------------

  /** The sky band: every row above the tree top becomes SkyBlank. */
  function SkyBandAt(topY: int, prev: ScreenCell, y: int): ScreenCell {
    if y < topY then SkyBlank else prev
  }

  /** The glow disc: offsets within SkyGlowRadius of the centre. The
      source's test sqrt(dx*dx + dy*dy) > 2.0 is exact on these small
      integers, so it is the integer test below. */
  predicate InGlowDisc(dx: int, dy: int) {
    -SkyGlowRadius <= dx <= SkyGlowRadius && -SkyGlowRadius <= dy <= SkyGlowRadius &&
    dx * dx + dy * dy <= SkyGlowRadius * SkyGlowRadius
  }

  /** One sky star as the source paints it: the dot, then the glow over
      every disc cell above the tree top, the centre included. */
  function StarPaintAsWritten(s: SkyStar, t: real, tw: Twinkle, topY: int, prev: ScreenCell, x: int, y: int): ScreenCell {
    var dx, dy := x - s.x, y - s.y;
    if y < topY && InGlowDisc(dx, dy) then GlowCell(tw.glow(s, t, dx, dy))
    else if dx == 0 && dy == 0 then DotCell(tw.dot(s, t))
    else prev
  }

  /** A star paints (x, y) at all: with its dot or its glow. */
  predicate PaintsOver(s: SkyStar, topY: int, x: int, y: int) {
    (x == s.x && y == s.y) || (y < topY && InGlowDisc(x - s.x, y - s.y))
  }

  /** One sky star as intended: the dot, with the glow around it. */
  function StarPaint(s: SkyStar, t: real, tw: Twinkle, topY: int, prev: ScreenCell, x: int, y: int): ScreenCell {
    var dx, dy := x - s.x, y - s.y;
    if dx == 0 && dy == 0 then DotCell(tw.dot(s, t))
    else if y < topY && InGlowDisc(dx, dy) then GlowCell(tw.glow(s, t, dx, dy))
    else prev
  }

  /** All sky stars, painted in list order, as the source paints them. */
  function StarsLayerAsWrittenAt(stars: seq<SkyStar>, t: real, tw: Twinkle, topY: int, prev: ScreenCell, x: int, y: int): ScreenCell
    decreases |stars|
  {
    if stars == [] then prev
    else StarPaintAsWritten(stars[|stars| - 1], t, tw, topY,
                            StarsLayerAsWrittenAt(stars[..|stars| - 1], t, tw, topY, prev, x, y), x, y)
  }

  /** All sky stars, painted in list order, as intended. */
  function StarsLayerAt(stars: seq<SkyStar>, t: real, tw: Twinkle, topY: int, prev: ScreenCell, x: int, y: int): ScreenCell
    decreases |stars|
  {
    if stars == [] then prev
    else StarPaint(stars[|stars| - 1], t, tw, topY, StarsLayerAt(stars[..|stars| - 1], t, tw, topY, prev, x, y), x, y)
  }

  /** A screen position some on-screen tree cell maps to. */
  predicate OccupiedAt(tree: seq<TreeCell>, midX: int, baseY: int, width: int, height: int, x: int, y: int) {
    0 <= x < width && 0 <= y < height && exists c <- tree :: midX + c.x == x && baseY + c.y == y
  }

  /** A position the sky stars reserve: within the 5x5 square around some
      star, on screen and above the tree top. */
  predicate SkyOccupiedAt(stars: seq<SkyStar>, width: int, topY: int, x: int, y: int) {
    0 <= x < width && 0 <= y < topY &&
    exists s <- stars :: -SkyGlowRadius <= x - s.x <= SkyGlowRadius && -SkyGlowRadius <= y - s.y <= SkyGlowRadius
  }

  /** The gap fill: rows topY..bottom, except where a tree cell or a sky
      star reserved the position, become SkyBlank. */
  function FillAt(topY: int, bottom: int, occupied: bool, skyOccupied: bool, prev: ScreenCell, y: int): ScreenCell {
    if topY <= y <= bottom && !occupied && !skyOccupied then SkyBlank else prev
  }

  /** All tree cells in list order; each one that lands on (x, y) paints it. */
  function TreeLayerAt(tree: seq<TreeCell>, midX: int, baseY: int, lit: (int, int) -> bool, prev: ScreenCell, x: int, y: int): ScreenCell
    decreases |tree|
  {
    if tree == [] then prev
    else
      var c := tree[|tree| - 1];
      var below := TreeLayerAt(tree[..|tree| - 1], midX, baseY, lit, prev, x, y);
      if Lands(c, midX, baseY, x, y) then TreeLook(c, lit(x, y)) else below
  }

  /** A particle the painter draws: inside the screen in real coordinates. */
  predicate ParticleOnScreen(p: Particle, width: int, height: int) {
    0.0 <= p.pos.x < width as real && 0.0 <= p.pos.y < height as real
  }

  /** All particles in list order; each on-screen one paints the cell its
      truncated position names. */
  function ParticleLayerAt(ps: seq<Particle>, width: int, height: int, prev: ScreenCell, x: int, y: int): ScreenCell
    decreases |ps|
  {
    if ps == [] then prev
    else
      var p := ps[|ps| - 1];
      var below := ParticleLayerAt(ps[..|ps| - 1], width, height, prev, x, y);
      if ParticleOnScreen(p, width, height) && Trunc(p.pos.x) == x && Trunc(p.pos.y) == y
      then ParticleCell(p.color) else below
  }

  /** The orbiting star, drawn only in front of the tree, bold, on the sky base. */
  function StarGlyphAt(o: Orbit, prev: ScreenCell, x: int, y: int): ScreenCell {
    if o.relZ >= 0.0 && Trunc(o.x) == x && Trunc(o.y) == y
    then ScreenCell(StarGlyph, Style(o.color, SkyBase, true))
    else prev
  }

  /** The cell at (x, y) after the sky band and the sky stars, painted as
      the source paints them. */
  function SkyAt(stars: seq<SkyStar>, inp: FrameInput, width: nat, height: nat, x: int, y: int): ScreenCell {
    var topY := TopY(height);
    StarsLayerAsWrittenAt(stars, inp.t, inp.twinkle, topY, SkyBandAt(topY, Blank, y), x, y)
  }

  /** The cell at (x, y) after the gap fill. */
  function FilledAt(tree: seq<TreeCell>, stars: seq<SkyStar>, inp: FrameInput, width: nat, height: nat, x: int, y: int): ScreenCell {
    var topY := TopY(height);
    FillAt(topY, FillBottom(height),
           OccupiedAt(tree, MidX(width), BaseY(height), width, height, x, y),
           SkyOccupiedAt(stars, width, topY, x, y),
           SkyAt(stars, inp, width, height, x, y), y)
  }

  /** The cell at (x, y) of the frame one tick paints, for the scene, the
      sky stars and the particles of that tick. */
  function FrameAt(tree: seq<TreeCell>, stars: seq<SkyStar>, ps: seq<Particle>, inp: FrameInput,
                   width: nat, height: nat, x: int, y: int): ScreenCell
  {
    var trees := TreeLayerAt(tree, MidX(width), BaseY(height), inp.lit, FilledAt(tree, stars, inp, width, height, x, y), x, y);
    StarGlyphAt(inp.orbit, ParticleLayerAt(ps, width, height, trees, x, y), x, y)
  }

  // ---------------------------------------------------------------------
  // Properties of the layers
  // ---------------------------------------------------------------------

  /** A tree cell lands on screen position (x, y). */
  predicate Lands(c: TreeCell, midX: int, baseY: int, x: int, y: int) {
    midX + c.x == x && baseY + c.y == y
  }

  /** Where no tree cell lands, the tree layer leaves the cell alone. */
  lemma {:induction false} TreeLayerUntouched(tree: seq<TreeCell>, midX: int, baseY: int, lit: (int, int) -> bool, prev: ScreenCell, x: int, y: int)
    requires forall i :: 0 <= i < |tree| ==> !Lands(tree[i], midX, baseY, x, y)
    ensures TreeLayerAt(tree, midX, baseY, lit, prev, x, y) == prev
    decreases |tree|
  {
    if tree != [] {
      var init := tree[..|tree| - 1];
      assert forall i :: 0 <= i < |init| ==> init[i] == tree[i];
      TreeLayerUntouched(init, midX, baseY, lit, prev, x, y);
    }
  }

  /** Where tree cells land, the tree layer paints the look of the last
      of them. */
  lemma {:induction false} TreeLayerPicksLast(tree: seq<TreeCell>, midX: int, baseY: int, lit: (int, int) -> bool, prev: ScreenCell, x: int, y: int, i: nat)
    requires i < |tree| && Lands(tree[i], midX, baseY, x, y)
    requires forall j :: i < j < |tree| ==> !Lands(tree[j], midX, baseY, x, y)
    ensures TreeLayerAt(tree, midX, baseY, lit, prev, x, y) == TreeLook(tree[i], lit(x, y))
    decreases |tree|
  {
    var init := tree[..|tree| - 1];
    if i < |tree| - 1 {
      assert forall j :: i < j < |init| ==> init[j] == tree[j];
      TreeLayerPicksLast(init, midX, baseY, lit, prev, x, y, i);
    }
  }

  /** A tree layer over a cell that already sits on the sky base leaves it
      on the sky base. */
  lemma {:induction false} TreeLayerKeepsSkyBase(tree: seq<TreeCell>, midX: int, baseY: int, lit: (int, int) -> bool, prev: ScreenCell, x: int, y: int)
    requires prev.style.bg == SkyBase || exists c <- tree :: midX + c.x == x && baseY + c.y == y
    ensures TreeLayerAt(tree, midX, baseY, lit, prev, x, y).style.bg == SkyBase
    decreases |tree|
  {
    if tree != [] {
      var init := tree[..|tree| - 1];
      var c := tree[|tree| - 1];
      if !(midX + c.x == x && baseY + c.y == y) {
        if prev.style.bg != SkyBase {
          var d :| d in tree && midX + d.x == x && baseY + d.y == y;
          assert d in init by {
            var k :| 0 <= k < |tree| && tree[k] == d;
            assert init[k] == d;
          }
        }
        TreeLayerKeepsSkyBase(init, midX, baseY, lit, prev, x, y);
      }
    }
  }

  /** The glyph of a tree-layer cell is one of the tree's glyphs or the
      glyph it had before. */
  lemma {:induction false} TreeLayerGlyph(tree: seq<TreeCell>, midX: int, baseY: int, lit: (int, int) -> bool, prev: ScreenCell, x: int, y: int)
    ensures var g := TreeLayerAt(tree, midX, baseY, lit, prev, x, y).glyph;
      g == prev.glyph || exists c <- tree :: c.glyph == g
    decreases |tree|
  {
    if tree != [] {
      var init := tree[..|tree| - 1];
      TreeLayerGlyph(init, midX, baseY, lit, prev, x, y);
      assert forall d <- init :: d in tree;
    }
  }

  /** Where on-screen particles land, the particle layer paints the colour
      of the last of them. */
  lemma {:induction false} ParticleLayerPicksLast(ps: seq<Particle>, width: int, height: int, prev: ScreenCell, x: int, y: int, i: nat)
    requires i < |ps| && ParticleOnScreen(ps[i], width, height) && Trunc(ps[i].pos.x) == x && Trunc(ps[i].pos.y) == y
    requires forall j :: i < j < |ps| ==>
      !ParticleOnScreen(ps[j], width, height) || Trunc(ps[j].pos.x) != x || Trunc(ps[j].pos.y) != y
    ensures ParticleLayerAt(ps, width, height, prev, x, y) == ParticleCell(ps[i].color)
    decreases |ps|
  {
    var init := ps[..|ps| - 1];
    if i < |ps| - 1 {
      assert forall j :: i < j < |init| ==> init[j] == ps[j];
      ParticleLayerPicksLast(init, width, height, prev, x, y, i);
    }
  }

  /** Only on-screen particles are drawn: a particle-layer cell is either
      the cell it was, or the particle cell of some on-screen particle
      whose truncated position is (x, y), and it is the cell it was when
      there is no such particle. */
  lemma {:induction false} ParticleLayerWrites(ps: seq<Particle>, width: int, height: int, prev: ScreenCell, x: int, y: int)
    ensures var r := ParticleLayerAt(ps, width, height, prev, x, y);
      r == prev ||
      exists i :: 0 <= i < |ps| && ParticleOnScreen(ps[i], width, height) &&
        Trunc(ps[i].pos.x) == x && Trunc(ps[i].pos.y) == y && r == ParticleCell(ps[i].color)
    ensures (forall p <- ps :: !ParticleOnScreen(p, width, height) || Trunc(p.pos.x) != x || Trunc(p.pos.y) != y) ==>
      ParticleLayerAt(ps, width, height, prev, x, y) == prev
    decreases |ps|
  {
    if ps != [] {
      var init := ps[..|ps| - 1];
      ParticleLayerWrites(init, width, height, prev, x, y);
      var r := ParticleLayerAt(ps, width, height, prev, x, y);
      if r != prev && r == ParticleLayerAt(init, width, height, prev, x, y) {
        var i :| 0 <= i < |init| && ParticleOnScreen(init[i], width, height) &&
          Trunc(init[i].pos.x) == x && Trunc(init[i].pos.y) == y && r == ParticleCell(init[i].color);
        assert ps[i] == init[i];
      }
      assert forall p <- init :: p in ps;
    }
  }

  /** Every on-screen particle lands on a grid position. */
  lemma ParticleOnGrid(p: Particle, width: int, height: int)
    requires ParticleOnScreen(p, width, height)
    ensures 0 <= Trunc(p.pos.x) < width && 0 <= Trunc(p.pos.y) < height
  {
  }

  /** The particle layer leaves the sky base background where it found it. */
  lemma {:induction false} ParticleLayerKeepsSkyBase(ps: seq<Particle>, width: int, height: int, prev: ScreenCell, x: int, y: int)
    requires prev.style.bg == SkyBase
    ensures ParticleLayerAt(ps, width, height, prev, x, y).style.bg == SkyBase
    ensures ParticleLayerAt(ps, width, height, prev, x, y).glyph in {prev.glyph, '.'}
    decreases |ps|
  {
    if ps != [] {
      ParticleLayerKeepsSkyBase(ps[..|ps| - 1], width, height, prev, x, y);
    }
  }

  /** The sky stars only paint ' ' and '.' glyphs. */
  lemma {:induction false} StarsLayerGlyph(stars: seq<SkyStar>, t: real, tw: Twinkle, topY: int, prev: ScreenCell, x: int, y: int)
    ensures StarsLayerAsWrittenAt(stars, t, tw, topY, prev, x, y).glyph in {prev.glyph, ' ', '.'}
    decreases |stars|
  {
    if stars != [] {
      StarsLayerGlyph(stars[..|stars| - 1], t, tw, topY, prev, x, y);
    }
  }

  /** Below the tree top the sky stars change nothing, as long as every
      star lies above the tree top. */
  lemma {:induction false} StarsLayerAboveTree(stars: seq<SkyStar>, t: real, tw: Twinkle, topY: int, prev: ScreenCell, x: int, y: int)
    requires forall s <- stars :: s.y < topY
    requires y >= topY
    ensures StarsLayerAsWrittenAt(stars, t, tw, topY, prev, x, y) == prev
    decreases |stars|
  {
    if stars != [] {
      assert stars[|stars| - 1] in stars;
      assert forall s <- stars[..|stars| - 1] :: s in stars;
      StarsLayerAboveTree(stars[..|stars| - 1], t, tw, topY, prev, x, y);
    }
  }

  /** The positions the sky stars reserve all lie above the tree top, so
      they never take part in the gap fill of rows topY and below. */
  lemma SkyOccupiedIrrelevant(stars: seq<SkyStar>, width: int, topY: int, bottom: int, occupied: bool, prev: ScreenCell, x: int, y: int)
    ensures SkyOccupiedAt(stars, width, topY, x, y) ==> y < topY
    ensures FillAt(topY, bottom, occupied, SkyOccupiedAt(stars, width, topY, x, y), prev, y) ==
            FillAt(topY, bottom, occupied, false, prev, y)
  {
  }

  // ---------------------------------------------------------------------
  // Properties of the frame
  // ---------------------------------------------------------------------

  /** The gap fill leaves no hole: right after it, every position in rows
      topY to the bottom edge is either reserved by an on-screen tree cell
      or a space on the sky base. */
  lemma GapFillComplete(tree: seq<TreeCell>, stars: seq<SkyStar>, inp: FrameInput, width: nat, height: nat, x: int, y: int)
    requires 0 <= x < width && 0 <= y < height && y >= TopY(height)
    ensures OccupiedAt(tree, MidX(width), BaseY(height), width, height, x, y) ||
            FilledAt(tree, stars, inp, width, height, x, y) == SkyBlank
  {
  }

  /** Every position from the tree top down to the bottom edge ends the
      frame on the sky base background, whichever of gap fill, tree cell,
      particle or star painted it last, provided the sky stars lie above
      the tree top (as every cached layout does). */
  lemma BandOnSkyBase(tree: seq<TreeCell>, stars: seq<SkyStar>, ps: seq<Particle>, inp: FrameInput, width: nat, height: nat, x: int, y: int)
    requires forall s <- stars :: s.y < TopY(height)
    requires 0 <= x < width && 0 <= y < height && y >= TopY(height)
    ensures FrameAt(tree, stars, ps, inp, width, height, x, y).style.bg == SkyBase
  {
    var midX, baseY := MidX(width), BaseY(height);
    var filled := FilledAt(tree, stars, inp, width, height, x, y);
    GapFillComplete(tree, stars, inp, width, height, x, y);
    TreeLayerKeepsSkyBase(tree, midX, baseY, inp.lit, filled, x, y);
    var trees := TreeLayerAt(tree, midX, baseY, inp.lit, filled, x, y);
    ParticleLayerKeepsSkyBase(ps, width, height, trees, x, y);
  }

  /** The orbiting star appears exactly once and only in front of the tree:
      a frame cell shows the star glyph if and only if the star's depth is
      not negative and the cell is at the star's truncated position
      (given that no scene cell uses the star glyph). */
  lemma StarGlyphExactly(tree: seq<TreeCell>, stars: seq<SkyStar>, ps: seq<Particle>, inp: FrameInput, width: nat, height: nat, x: int, y: int)
    requires forall c <- tree :: c.glyph != StarGlyph
    ensures FrameAt(tree, stars, ps, inp, width, height, x, y).glyph == StarGlyph <==>
      inp.orbit.relZ >= 0.0 && x == Trunc(inp.orbit.x) && y == Trunc(inp.orbit.y)
  {
    var midX, baseY, topY := MidX(width), BaseY(height), TopY(height);
    var band := SkyBandAt(topY, Blank, y);
    StarsLayerGlyph(stars, inp.t, inp.twinkle, topY, band, x, y);
    var filled := FilledAt(tree, stars, inp, width, height, x, y);
    TreeLayerGlyph(tree, midX, baseY, inp.lit, filled, x, y);
    var trees := TreeLayerAt(tree, midX, baseY, inp.lit, filled, x, y);
    ParticleLayerWrites(ps, width, height, trees, x, y);
  }

  // ---------------------------------------------------------------------
  // The sky star's dot
  // ---------------------------------------------------------------------

  /** As written, a star's own glow covers its dot: wherever the star lies
      above the tree top, its position ends as a glow space. */
  lemma DotHiddenAsWritten(s: SkyStar, t: real, tw: Twinkle, topY: int, prev: ScreenCell)
    requires s.y < topY
    ensures StarPaintAsWritten(s, t, tw, topY, prev, s.x, s.y) == GlowCell(tw.glow(s, t, 0, 0))
    ensures StarPaintAsWritten(s, t, tw, topY, prev, s.x, s.y).glyph != '.'
  {
  }

  /** As written, no sky star's dot survives the star layer: if no cell
      showed a '.' before, none shows one after, for any layout whose
      stars lie above the tree top. */
  lemma {:induction false} NoDotsAsWritten(stars: seq<SkyStar>, t: real, tw: Twinkle, topY: int, prev: ScreenCell, x: int, y: int)
    requires forall s <- stars :: s.y < topY
    requires prev.glyph != '.'
    ensures StarsLayerAsWrittenAt(stars, t, tw, topY, prev, x, y).glyph != '.'
    decreases |stars|
  {
    if stars != [] {
      assert stars[|stars| - 1] in stars;
      assert forall s <- stars[..|stars| - 1] :: s in stars;
      NoDotsAsWritten(stars[..|stars| - 1], t, tw, topY, prev, x, y);
    }
  }

  /** Corrected, a star's dot shows at its position unless a later star in
      the list paints over that position with its own dot or glow. */
  lemma {:induction false} DotVisible(stars: seq<SkyStar>, k: nat, t: real, tw: Twinkle, topY: int, prev: ScreenCell)
    requires k < |stars|
    requires forall j :: k < j < |stars| ==> !PaintsOver(stars[j], topY, stars[k].x, stars[k].y)
    ensures StarsLayerAt(stars, t, tw, topY, prev, stars[k].x, stars[k].y) == DotCell(tw.dot(stars[k], t))
    decreases |stars|
  {
    var s := stars[k];
    var last := |stars| - 1;
    var init := stars[..last];
    if k < last {
      assert init[k] == s;
      assert forall j :: k < j < |init| ==> init[j] == stars[j];
      DotVisible(init, k, t, tw, topY, prev);
    }
  }
}
