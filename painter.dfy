/** The painting loops of one tick, each proved to paint exactly the layer
    the Compositor module defines for it, and the loops that build the
    sets of reserved positions. */
module Painter {
  import opened Types
  import opened SkyField
  import opened Terminal
  import opened Compositor

  /** Fills rows 0 .. topY-1 with SkyBlank. */
  method PaintSkyBase(scr: Screen, topY: int)
    modifies scr.cells
    ensures forall i, j :: scr.OnGrid(i, j) ==> scr.cells[i, j] == SkyBandAt(topY, old(scr.cells[i, j]), j)
  {
    var y := 0;
    while y < topY
      invariant 0 <= y && (y <= topY || y == 0)
      invariant forall i, j :: scr.OnGrid(i, j) ==> scr.cells[i, j] == SkyBandAt(y, old(scr.cells[i, j]), j)
    {
      var x := 0;
      while x < scr.Width()
        invariant 0 <= x <= scr.Width()
        invariant forall i, j :: scr.OnGrid(i, j) ==>
          scr.cells[i, j] == (if j < y || (j == y && i < x) then SkyBlank else old(scr.cells[i, j]))
      {
        scr.SetContent(x, y, SkyBlank);
        x := x + 1;
      }
      y := y + 1;
    }
  }

  /** The glow offsets (dx, dy) the glow loop has visited once it reaches
      (dxNext, dyNext), rows of dy first. */
  predicate GlowVisited(dx: int, dy: int, dxNext: int, dyNext: int) {
    dy < dyNext || (dy == dyNext && dx < dxNext)
  }

  /** One sky star: its dot when it is on screen, then its glow on every
      disc cell above the tree top, the dot's own cell included. */
  method PaintStar(scr: Screen, s: SkyStar, t: real, tw: Twinkle, topY: int)
    modifies scr.cells
    ensures forall i, j :: scr.OnGrid(i, j) ==> scr.cells[i, j] == StarPaintAsWritten(s, t, tw, topY, old(scr.cells[i, j]), i, j)
  {
    if 0 <= s.y < scr.Height() && 0 <= s.x < scr.Width() {
      scr.SetContent(s.x, s.y, DotCell(tw.dot(s, t)));
    }
    var dy := -SkyGlowRadius;
    while dy <= SkyGlowRadius
      invariant -SkyGlowRadius <= dy <= SkyGlowRadius + 1
      invariant forall i, j :: scr.OnGrid(i, j) ==>
        scr.cells[i, j] == (if j < topY && InGlowDisc(i - s.x, j - s.y) &&
                               GlowVisited(i - s.x, j - s.y, -SkyGlowRadius, dy)
                            then GlowCell(tw.glow(s, t, i - s.x, j - s.y))
                            else if i == s.x && j == s.y then DotCell(tw.dot(s, t)) else old(scr.cells[i, j]))
    {
      var dx := -SkyGlowRadius;
      while dx <= SkyGlowRadius
        invariant -SkyGlowRadius <= dx <= SkyGlowRadius + 1
        invariant forall i, j :: scr.OnGrid(i, j) ==>
          scr.cells[i, j] == (if j < topY && InGlowDisc(i - s.x, j - s.y) &&
                                 GlowVisited(i - s.x, j - s.y, dx, dy)
                              then GlowCell(tw.glow(s, t, i - s.x, j - s.y))
                              else if i == s.x && j == s.y then DotCell(tw.dot(s, t)) else old(scr.cells[i, j]))
      {
        var tx, ty := s.x + dx, s.y + dy;
        if tx < 0 || tx >= scr.Width() || ty < 0 || ty >= topY {
          // off screen or not above the tree top
        } else if dx * dx + dy * dy > SkyGlowRadius * SkyGlowRadius {
          // outside the glow disc
        } else {
          scr.SetContent(tx, ty, GlowCell(tw.glow(s, t, dx, dy)));
        }
        dx := dx + 1;
      }
      dy := dy + 1;
    }
  }

  /** All sky stars in list order. */
  method PaintStars(scr: Screen, stars: seq<SkyStar>, t: real, tw: Twinkle, topY: int)
    modifies scr.cells
    ensures forall i, j :: scr.OnGrid(i, j) ==>
      scr.cells[i, j] == StarsLayerAsWrittenAt(stars, t, tw, topY, old(scr.cells[i, j]), i, j)
  {
    var k := 0;
    while k < |stars|
      invariant 0 <= k <= |stars|
      invariant forall i, j :: scr.OnGrid(i, j) ==>
        scr.cells[i, j] == StarsLayerAsWrittenAt(stars[..k], t, tw, topY, old(scr.cells[i, j]), i, j)
    {
      PaintStar(scr, stars[k], t, tw, topY);
      assert stars[..k + 1][..k] == stars[..k];
      k := k + 1;
    }
    assert stars[..k] == stars;
  }

  /** The positions of the on-screen tree cells. */
  method OccupiedCells(tree: seq<TreeCell>, midX: int, baseY: int, width: int, height: int)
    returns (occ: set<(int, int)>)
    ensures forall p: (int, int) :: p in occ <==> OccupiedAt(tree, midX, baseY, width, height, p.0, p.1)
  {
    occ := {};
    var k := 0;
    while k < |tree|
      invariant 0 <= k <= |tree|
      invariant forall p: (int, int) :: p in occ <==> OccupiedAt(tree[..k], midX, baseY, width, height, p.0, p.1)
    {
      var c := tree[k];
      var cx, cy := midX + c.x, baseY + c.y;
      assert tree[..k + 1] == tree[..k] + [c];
      if cx < 0 || cx >= width || cy < 0 || cy >= height {
        // off screen
      } else {
        occ := occ + {(cx, cy)};
      }
      k := k + 1;
    }
    assert tree[..k] == tree;
  }

  /** The positions one star reserves, added to those already reserved:
      the 5x5 square around it, then the star itself, each on screen and
      above the tree top. */
  method ReserveAroundStar(occ0: set<(int, int)>, s: SkyStar, width: int, topY: int) returns (occ: set<(int, int)>)
    ensures forall p: (int, int) :: p in occ <==>
      p in occ0 || (0 <= p.0 < width && 0 <= p.1 < topY &&
                    -SkyGlowRadius <= p.0 - s.x <= SkyGlowRadius && -SkyGlowRadius <= p.1 - s.y <= SkyGlowRadius)
  {
    occ := occ0;
    var dy := -SkyGlowRadius;
    while dy <= SkyGlowRadius
      invariant -SkyGlowRadius <= dy <= SkyGlowRadius + 1
      invariant forall p: (int, int) :: p in occ <==>
        p in occ0 || (0 <= p.0 < width && 0 <= p.1 < topY &&
                      -SkyGlowRadius <= p.0 - s.x <= SkyGlowRadius && -SkyGlowRadius <= p.1 - s.y < dy)
    {
      var dx := -SkyGlowRadius;
      while dx <= SkyGlowRadius
        invariant -SkyGlowRadius <= dx <= SkyGlowRadius + 1
        invariant forall p: (int, int) :: p in occ <==>
          p in occ0 || (0 <= p.0 < width && 0 <= p.1 < topY &&
                        -SkyGlowRadius <= p.0 - s.x <= SkyGlowRadius && -SkyGlowRadius <= p.1 - s.y <= SkyGlowRadius &&
                        GlowVisited(p.0 - s.x, p.1 - s.y, dx, dy))
      {
        var tx, ty := s.x + dx, s.y + dy;
        if tx < 0 || tx >= width || ty < 0 || ty >= topY {
          // off screen or not above the tree top
        } else {
          occ := occ + {(tx, ty)};
        }
        dx := dx + 1;
      }
      dy := dy + 1;
    }
    if s.x >= 0 && s.x < width && s.y >= 0 && s.y < topY {
      occ := occ + {(s.x, s.y)};
    }
  }

  /** The positions all sky stars reserve. */
  method SkyOccupiedCells(stars: seq<SkyStar>, width: int, topY: int) returns (occ: set<(int, int)>)
    ensures forall p: (int, int) :: p in occ <==> SkyOccupiedAt(stars, width, topY, p.0, p.1)
  {
    occ := {};
    var k := 0;
    while k < |stars|
      invariant 0 <= k <= |stars|
      invariant forall p: (int, int) :: p in occ <==> SkyOccupiedAt(stars[..k], width, topY, p.0, p.1)
    {
      assert stars[..k + 1] == stars[..k] + [stars[k]];
      occ := ReserveAroundStar(occ, stars[k], width, topY);
      k := k + 1;
    }
    assert stars[..k] == stars;
  }

  /** The gap fill over rows topY .. bottom and all columns. */
  method FillGaps(scr: Screen, topY: int, bottom: int, occ: set<(int, int)>, skyOcc: set<(int, int)>)
    modifies scr.cells
    ensures forall i, j :: scr.OnGrid(i, j) ==>
      scr.cells[i, j] == FillAt(topY, bottom, (i, j) in occ, (i, j) in skyOcc, old(scr.cells[i, j]), j)
  {
    var left, right := 0, scr.Width() - 1;
    var y := topY;
    while y <= bottom
      invariant topY <= y && (y <= bottom + 1 || y == topY)
      invariant forall i, j :: scr.OnGrid(i, j) ==>
        scr.cells[i, j] == FillAt(topY, y - 1, (i, j) in occ, (i, j) in skyOcc, old(scr.cells[i, j]), j)
    {
      var x := left;
      while x <= right
        invariant left <= x <= right + 1
        invariant forall i, j :: scr.OnGrid(i, j) ==>
          scr.cells[i, j] == (if j == y && i < x && (i, j) !in occ && (i, j) !in skyOcc then SkyBlank
                              else FillAt(topY, y - 1, (i, j) in occ, (i, j) in skyOcc, old(scr.cells[i, j]), j))
      {
        if (x, y) in occ || (x, y) in skyOcc {
          // reserved
        } else {
          scr.SetContent(x, y, SkyBlank);
        }
        x := x + 1;
      }
      y := y + 1;
    }
  }

  /** The tree cells in list order, skipping those off screen. */
  method PaintTree(scr: Screen, tree: seq<TreeCell>, midX: int, baseY: int, lit: (int, int) -> bool)
    modifies scr.cells
    ensures forall i, j :: scr.OnGrid(i, j) ==>
      scr.cells[i, j] == TreeLayerAt(tree, midX, baseY, lit, old(scr.cells[i, j]), i, j)
  {
    var k := 0;
    while k < |tree|
      invariant 0 <= k <= |tree|
      invariant forall i, j :: scr.OnGrid(i, j) ==>
        scr.cells[i, j] == TreeLayerAt(tree[..k], midX, baseY, lit, old(scr.cells[i, j]), i, j)
    {
      var c := tree[k];
      var cx, cy := midX + c.x, baseY + c.y;
      assert tree[..k + 1][..k] == tree[..k];
      if cx < 0 || cx >= scr.Width() || cy < 0 || cy >= scr.Height() {
        // off screen
      } else {
        scr.SetContent(cx, cy, TreeLook(c, lit(cx, cy)));
      }
      k := k + 1;
    }
    assert tree[..k] == tree;
  }

  /** The particles in list order, skipping those off screen. */
  method PaintParticles(scr: Screen, ps: seq<Particle>)
    modifies scr.cells
    ensures forall i, j :: scr.OnGrid(i, j) ==>
      scr.cells[i, j] == ParticleLayerAt(ps, scr.Width(), scr.Height(), old(scr.cells[i, j]), i, j)
  {
    var k := 0;
    while k < |ps|
      invariant 0 <= k <= |ps|
      invariant forall i, j :: scr.OnGrid(i, j) ==>
        scr.cells[i, j] == ParticleLayerAt(ps[..k], scr.Width(), scr.Height(), old(scr.cells[i, j]), i, j)
    {
      var p := ps[k];
      assert ps[..k + 1][..k] == ps[..k];
      if p.pos.x >= 0.0 && p.pos.x < scr.Width() as real && p.pos.y >= 0.0 && p.pos.y < scr.Height() as real {
        scr.SetContent(Trunc(p.pos.x), Trunc(p.pos.y), ParticleCell(p.color));
      }
      k := k + 1;
    }
    assert ps[..k] == ps;
  }

  /** The orbiting star, only when it is in front of the tree; the write is
      not bounds-checked, so off-screen positions are dropped by the grid. */
  method PaintOrbitStar(scr: Screen, o: Orbit)
    modifies scr.cells
    ensures forall i, j :: scr.OnGrid(i, j) ==> scr.cells[i, j] == StarGlyphAt(o, old(scr.cells[i, j]), i, j)
  {
    var shouldDrawStar := true;
    if o.relZ < 0.0 {
      shouldDrawStar := false;
    }
    if shouldDrawStar {
      scr.SetContent(Trunc(o.x), Trunc(o.y), ScreenCell(StarGlyph, Style(o.color, SkyBase, true)));
    }
  }
}
