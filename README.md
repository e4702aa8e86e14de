# christmas-cli-tree, modelled in Dafny

This project models the core of christmas-cli-tree, a terminal animation written in Go. The animation shows:

- a decorated Christmas tree with a trunk and two gift boxes;
- a rainbow star that spirals around the tree, leaving a particle trail;
- a few twinkling stars in a dark-blue sky above the tree.

All of it lives in one file, `main.go`. The model covers four parts of it.

- **The scene builder (`buildRichTreeData`).** This is module `SceneBuilder`.
  - Methods build the scene the way the source does: the canopy row by row and cell by cell, then the 5x4 trunk, then each gift box.
  - Each method is proved equal to its pure counterpart (`Canopy`, `Row`, `TrunkCells`, `Gifts`, `GiftBox`), and the builder as a whole is proved equal to the pure function `RichTree`.
  - Lemmas about `RichTree` state the whole layout:
    - 634 canopy cells, then 20 trunk cells, then 14 gift cells;
    - each canopy row spans offsets -w..w, where w is the row's half-width;
    - what every cell holds for the random decoration drawn for it;
    - the trunk block, and the ribbon and paper pattern of the gifts.
- **The particle trail (`spawnParticles` and `updateParticles`).**
  - Module `Particles` gives the trail as functions on values.
  - Module `Animation` has the `World` class, whose methods update its `particles` field in place.
  - The properties proved:
    - a spawn adds 2 to 5 particles and leaves the old ones untouched;
    - an update is an order-preserving selection of the advanced particles whose life is still positive;
    - every particle's life stays in (0, 1.2].
- **The sky stars (`initSkyStars`) and the size check that regenerates them.** This is module `SkyField`.
  - The properties proved:
    - the layout has exactly 8 stars, each in the sky band, or none when there is no room above the tree;
    - the cache regenerates the stars only when the width or the tree-top row changes;
    - the cache's invariant is preserved.
- **The painting of one frame.** This is modules `Terminal`, `Compositor`, `Painter` and `Animation`.
  - The terminal is a class holding an `array2` of cells.
  - Each painting loop is a method, proved to leave every cell equal to a pointwise function, called a layer, of the cell's previous content.
  - `World.Tick` runs one iteration of the main loop over that state. It paints the sky stars exactly as the source does, glow over dot. It ensures:
    - the new state is the one the size check, the clock step, the spawn and the update produce;
    - every screen cell is `FrameAt(...)`, the composition of the layers.
  - Lemmas about the frame:
    - every row from the tree top down ends on the sky-base background;
    - the spiralling star's glyph appears exactly at its truncated position, and only when the star is in front of the tree;
    - the gap fill leaves no hole.

Randomness, floating point and the terminal are handled as follows.

- **Random draws are parameters.**
  - `Decoration`: the outcome for one canopy cell.
  - `Jitter`: the four `Float64` draws one new particle consumes.
  - `StarDraw`: the draws one sky star consumes.
  - `rnd.Intn(n)` is `Intn(raw, n)`, which equals `raw % n`.
  - `rnd.Float64()` is a `Unit`, a real number in [0, 1).
- **Floats are reals.** The values computed by trigonometry, square roots and HSV conversion are passed in as inputs:
  - `Twinkle`: the sky stars' shades and glow colours;
  - `Orbit`: the spiralling star's position, depth and colour;
  - `FrameInput.lit`: whether a position is within the light radius.
- **The terminal (tcell) is an abstract grid.** Writes outside the grid are ignored.

The model follows the code. The one defect found (see "## Findings") is modelled as written in the main loop. The corrected star pass is defined beside it, and its intended property is proved there.

## Model

| member | source | states |
|---|---|---|
| SceneBuilder.RichTree | main.go:412-504 | Definition: the scene list, the canopy followed by the trunk and the gift boxes. |
| SceneBuilder.Canopy | main.go:416-458 | Definition: the first n canopy rows, top row first. |
| SceneBuilder.CanopyCell | main.go:427-456 | Definition: the cell built at offset x of row y for one decoration draw. |
| SceneBuilder.GiftGlyph | main.go:486-488 | Definition: the ribbon pattern, where the middle column '\|' wins over the middle row '-' and everything else is 'H'. |
| Particles.Burst | main.go:381-393 | Definition: the first n particles spawned from the jitter draws, in order. |
| Particles.Spawn | main.go:374-394 | Definition: the old list followed by a burst of `SpawnCount` particles. |
| SkyField.Layout | main.go:550-564 | Definition: no stars when topY <= 3, otherwise the 8 stars made from the first 8 draws. |
| SkyField.Refresh | main.go:163-167 | Definition: the cache after the size check, regenerated only when the width or topY changed. |
| Compositor.TreeLook | main.go:322-340 | Definition: a tree cell's glyph on the sky base, in its lit or base colour. |
| Compositor.SkyBandAt | main.go:171-178 | Definition: the sky-base pass, where rows above topY become blanks on the sky base. |
| Compositor.StarPaintAsWritten | main.go:185-206 | Definition: one sky star as the source paints it, the dot first and then the glow over every disc cell above topY, so the glow covers the dot. |
| Compositor.StarPaint | main.go:185-206 | Definition: one sky star as evidently intended, the glow around the dot but not on it. This is the corrected half of the finding. |
| Compositor.StarsLayerAsWrittenAt | main.go:181-209 | Definition: all sky stars painted in list order as the source paints them. The frame uses this pass. |
| Compositor.StarsLayerAt | main.go:181-209 | Definition: all sky stars painted in list order with the corrected `StarPaint`. |
| Compositor.FillAt | main.go:287-302 | Definition: the gap fill, where unreserved positions in rows topY..bottom become blanks on the sky base. |
| Compositor.TreeLayerAt | main.go:305-341 | Definition: the tree pass, where each tree cell that lands on (x, y) paints it, in list order. |
| Compositor.ParticleLayerAt | main.go:345-351 | Definition: the particle pass, where each on-screen particle paints its truncated position, in list order. |
| Compositor.StarGlyphAt | main.go:353-364 | Definition: the orbiting star's bold glyph at its truncated position, only when relZ >= 0. |
| Compositor.FrameAt | main.go:171-364 | Definition: one frame cell, made of the sky base, the as-written star pass, the gap fill, the tree, the particles and the orbiting star, in that order. |
| Compositor.MidX | main.go:156 | Definition: the tree's centre column, width / 2. |
| Compositor.BaseY | main.go:158 | Definition: the tree's base row, height - 4. |
| Compositor.TopY | main.go:160 | Definition: the tree's top row, baseY - 22. |
| Compositor.InGlowDisc | main.go:191-201 | Definition: the glow offsets, within ±2 in x and y with dx² + dy² <= 4, the exact integer form of the distance test. |
| Compositor.OccupiedAt | main.go:257-265 | Definition: an on-screen position some tree cell maps to. |
| Compositor.SkyOccupiedAt | main.go:268-285 | Definition: an on-screen position above topY within the 5x5 square around some sky star. |
| Compositor.SkyAt | main.go:171-209 | Definition: the frame cell after the sky base and the as-written star pass. |
| Compositor.FilledAt | main.go:171-302 | Definition: the frame cell after the gap fill, which uses the occupied and sky-occupied positions. |
| SceneBuilder.TrunkCells | main.go:460-474 | Definition: the 4 trunk rows of 5 '#' cells, row by row. |
| SceneBuilder.Gifts | main.go:476-501 | Definition: the boxes of the given gift configurations, in order. |
| SkyField.Stars | main.go:555-563 | Definition: the stars made from the first n draws, in order. |
| SceneBuilder.NeedleGlyph | main.go:452-454 | Definition: a plain needle's glyph, '/' at the left edge, '\\' at the right edge and '*' between. |
| SceneBuilder.RowCell | main.go:427-456 | Definition: cell i of canopy row y, built at offset i - w from the draw at index RowStart(y) + i. |
| SceneBuilder.Row | main.go:427-457 | Definition: the 2w+1 cells of canopy row y, for x from -w to w. |
| SceneBuilder.TrunkCell | main.go:466-472 | Definition: the '#' trunk cell at (x, y) with the trunk's base and lit colours. |
| SceneBuilder.TrunkRow | main.go:465-473 | Definition: the five trunk cells of row y, for x from -2 to 2. |
| SceneBuilder.TrunkRows | main.go:463-473 | Definition: the first n trunk rows, row 0 first. |
| SceneBuilder.GiftCell | main.go:486-498 | Definition: the cell at column gw and row gh of a gift box, at x = g.x + gw and y = 3 - gh, in the box's colour whether lit or not. |
| SceneBuilder.GiftRow | main.go:485-499 | Definition: the w cells of row gh of a gift box, in column order. |
| SceneBuilder.GiftRows | main.go:484-499 | Definition: the first n rows of a gift box, row 0 first. |
| SceneBuilder.GiftBox | main.go:484-500 | Definition: all h rows of one gift box. |
| SkyField.NeedsRegen | main.go:163 | Definition: the size check's test, true when the width or topY differs from the stored pair. |
| Compositor.SkyBlank | main.go:173-176 | Definition: a space on the sky-base background. The sky-base pass writes it, and so does the gap fill at main.go:299-300. |
| Compositor.DotCell | main.go:186-188 | Definition: a sky star's '.' in its twinkle shade on the reset background. |
| Compositor.GlowCell | main.go:203-206 | Definition: a glow space on the brightened background. |
| Compositor.ParticleCell | main.go:348-349 | Definition: a particle's '.' in its colour on the sky base. |
| Compositor.Lands | main.go:307-308 | Definition: a tree cell maps to screen position (x, y), that is midX + c.x == x and baseY + c.y == y. Positions off the grid are never painted, by the clipping at main.go:311-313. |
| Compositor.ParticleOnScreen | main.go:346 | Definition: a particle's real position lies inside the screen. |
| Types.Intn | main.go:557-559 | The result is always in [0, n), and a raw draw already in range is returned unchanged. |
| Types.Max | main.go:559 | The result is one of the two arguments and at least as large as both. |
| SceneBuilder.HalfWidth | main.go:424-425 | A canopy row's half-width is at least 1. |
| SceneBuilder.RowStartMonotone | main.go:416-427 | Row start indices never decrease, and each row ends at or before the next row starts. |
| SceneBuilder.CanopySize | main.go:416-427 | The 22 canopy rows hold 634 cells in total. |
| SceneBuilder.BuildRichTreeData | main.go:412-504 | The builder returns exactly `RichTree(draws)`: the canopy, then the trunk, then the gift boxes. |
| SceneBuilder.BuildCanopy | main.go:416-458 | The outer loop produces the first `height` canopy rows in order. |
| SceneBuilder.BuildCanopyRow | main.go:421-457 | The inner loop produces one row: for x in -w..w, the cell for the draw at index k+x+w, with needle edges drawn as '/' and '\\'. |
| SceneBuilder.AppendTrunk | main.go:460-474 | Appends the 4 trunk rows of 5 cells each to the prefix, leaving the prefix unchanged. |
| SceneBuilder.AppendGifts | main.go:476-501 | Appends every configured gift box in order to the prefix. |
| SceneBuilder.BuildGiftBox | main.go:484-500 | Produces the h rows of w cells of one gift box. |
| SceneBuilder.CanopyLength | main.go:416-427 | The first n canopy rows hold RowStart(n) cells. |
| SceneBuilder.CanopyAt | main.go:421-457 | Cell i of canopy row y sits at index RowStart(y)+i and is built from the draw at that index. |
| SceneBuilder.CanopyCellFacts | main.go:427-456 | Every canopy cell is a needle or a decoration, lies on a canopy row, uses a scene glyph, and a decoration's lit colour equals its base colour. |
| SceneBuilder.CanopyCellsOk | main.go:416-458 | Every cell of the first n canopy rows satisfies the canopy-cell facts. |
| SceneBuilder.TrunkRowFacts | main.go:464-473 | A trunk row is the five '#' cells at x = -2..2. |
| SceneBuilder.TrunkRowsShape | main.go:463-474 | The first n trunk rows hold 5n cells, and each block position (x, y) appears exactly at index 5y+x+2. |
| SceneBuilder.GiftRowsShape | main.go:484-500 | A gift box's first n rows hold w·n cells of its colour, one per (gw, gh), with the ribbon glyph pattern. |
| SceneBuilder.TrunkShape | main.go:460-474 | The trunk is exactly the 20 '#' cells of the block x in [-2, 2], y in [0, 3], with the trunk colours, laid out row by row. |
| SceneBuilder.GiftShape | main.go:476-501 | The gifts are a red 3x2 box at x -8..-6 and a blue 4x2 box at x 6..9, on rows 2 and 3. The middle column is '\|', the middle row is '-', everything else is 'H', and no gift changes colour when lit. |
| SceneBuilder.TwoGifts | main.go:478-501 | The same shape, stated for any two boxes equal to the configured ones. |
| SceneBuilder.SceneLayout | main.go:412-504 | In a canopy+trunk+gifts list, a cell's kind determines which part it is in, and the reverse holds too. No cell is Empty, and glyphs and colour invariants carry over. |
| SceneBuilder.RichTreeLayout | main.go:412-504 | The built scene has the canopy at indices 0..633, the trunk at 634..653 and the gifts at 654..667. No cell is Empty, decorations and gifts ignore light, and every glyph is a scene glyph. |
| SceneBuilder.SceneFacts | main.go:412-504 | The same layout, for any canopy height and any trunk and gift parts of the right size and kinds. |
| SceneBuilder.CanopyCellMeans | main.go:427-456 | The cell built for each draw: a plain draw gives a needle with '/', '*' or '\\' and the green colours; an ornament draw gives a decoration glyph and colour; a bulb draw gives gold '•'. |
| SceneBuilder.CanopyRowCells | main.go:416-457 | In the built scene, row y's cell i is at index RowStart(y)+i, at x = i - w, on height y-22, with the meaning above for its own draw. |
| SceneBuilder.CanopyCellBeforeRest | main.go:416-457 | The same, for any trunk and gifts that follow the canopy. |
| Particles.SpawnCount | main.go:376-380 | Two to four particles, plus one more exactly when the star is in front (z >= 0). This is exact for an in-range draw. |
| Particles.Spawned | main.go:383-392 | A new particle has full life, the star's colour and depth, a position within ±1 in x and ±0.5 in y, and a small sideways and downward velocity. |
| Particles.BurstCells | main.go:381-393 | A burst of n particles is the n particles made from the first n jitter draws, in order. |
| Particles.SpawnAppends | main.go:374-394 | Spawning keeps the old list as a prefix and appends 2 to 5 fresh particles with the properties above. |
| Particles.Advance | main.go:400-402 | One tick of motion: life drops by 0.05, while velocity, depth and colour stay the same. |
| Particles.Survivors | main.go:397-409 | The update never grows the list, and every kept particle has positive life. |
| Particles.SurvivorsSelect | main.go:397-409 | The update is an order-preserving selection: survivors are the advanced particles at increasing indices, and a particle is kept if and only if its advanced life is positive. |
| Particles.SurvivorsAppend | main.go:397-409 | Updating a concatenation gives the concatenation of the updates. |
| Particles.SpawnKeepsLife | main.go:386-392 | Spawning preserves the life invariant (0, 1.2]. |
| Particles.SurvivorsKeepLife | main.go:397-409 | The update preserves the life invariant, and survivors have life at most 1.15. |
| SkyField.StarFrom | main.go:557-562 | A star from one draw lies in the sky band, with phase in [0, 2π) and speed in [0.8, 1.6). In-range draws give the drawn position. |
| SkyField.StarsShape | main.go:556-563 | The first n stars are made from the first n draws, in order. |
| SkyField.LayoutShape | main.go:550-564 | There are no stars when topY <= 3; otherwise exactly 8, the i-th made from the i-th draw, all in the sky band. |
| SkyField.EverySkyCellReachable | main.go:557-559 | Every cell of the sky band is the position of some draw. |
| SkyField.RefreshMeaning | main.go:163-167 | After the size check the stored pair is the current one, and the stars are regenerated exactly when the pair changed. |
| SkyField.InitialCacheValid | main.go:91-93 | The initial cache (-1, -1, no stars) satisfies the cache invariant. |
| SkyField.RefreshKeepsValid | main.go:163-167 | The size check preserves the cache invariant and leaves every star in the current sky band. |
| SkyField.RefreshRunStable | main.go:163-167 | Over consecutive ticks at an unchanged size, only the first tick can regenerate the stars. |
| Terminal.Screen.constructor | main.go:98-103 | A new screen has the requested size, and all of it is blank. |
| Terminal.Screen.SetContent | main.go:176 | Writes one on-grid cell and changes nothing else; an off-grid write is ignored. |
| Terminal.Screen.Clear | main.go:152 | Every cell becomes blank. |
| Compositor.FillBottom | main.go:290-293 | The gap fill's bottom row is always height-1. |
| Compositor.Trunc | main.go:349 | Go's float-to-int conversion truncates toward zero. |
| Compositor.TreeLookMeaning | main.go:322-340 | A tree cell shows its glyph on the sky base. Decorations and gifts look the same lit or unlit; other cells show their lit colour exactly when lit. |
| Compositor.TreeLayerUntouched | main.go:305-341 | Where no tree cell lands, the tree pass leaves the cell unchanged. |
| Compositor.TreeLayerPicksLast | main.go:305-341 | Where tree cells land, the last one in list order decides the cell. |
| Compositor.TreeLayerKeepsSkyBase | main.go:305-341 | The tree pass keeps or sets the sky-base background. |
| Compositor.TreeLayerGlyph | main.go:305-341 | After the tree pass, a cell's glyph is either its old glyph or some tree cell's glyph. |
| Compositor.ParticleLayerPicksLast | main.go:345-351 | Where on-screen particles truncate to (x, y), the last of them in list order decides the cell's colour. |
| Compositor.ParticleLayerWrites | main.go:345-351 | A particle-pass cell is either unchanged or shows the colour of an on-screen particle at that truncated position. It is unchanged when no such particle exists. |
| Compositor.ParticleOnGrid | main.go:346-349 | An on-screen particle truncates to a grid position. |
| Compositor.ParticleLayerKeepsSkyBase | main.go:345-351 | The particle pass keeps the sky base and writes only '.'. |
| Compositor.StarsLayerGlyph | main.go:181-209 | The sky-star pass, as the source paints it, writes only ' ' and '.'. |
| Compositor.StarsLayerAboveTree | main.go:181-209 | The sky-star pass, as the source paints it, changes nothing at or below the tree top. |
| Compositor.SkyOccupiedIrrelevant | main.go:268-285 | The positions the sky stars reserve all lie above the tree top, so they never affect the gap fill. |
| Compositor.GapFillComplete | main.go:287-302 | After the gap fill, every position from the tree top down is either a tree position or a blank on the sky base. |
| Compositor.BandOnSkyBase | main.go:171-364 | From the tree top to the bottom edge, every frame cell ends on the sky-base background. |
| Compositor.StarGlyphExactly | main.go:353-364 | The frame shows '★' at (x, y) if and only if the star is in front (relZ >= 0) and (x, y) is its truncated position. |
| Compositor.DotHiddenAsWritten | main.go:187-206 | As written, a star above the tree top has its own dot overwritten by its centre glow. |
| Compositor.NoDotsAsWritten | main.go:181-209 | As written, no sky star's '.' survives the star pass. |
| Compositor.DotVisible | main.go:181-209 | In the corrected pass `StarsLayerAt`, each star's dot shows at its position unless a later star paints over that position. |
| Painter.PaintSkyBase | main.go:171-178 | Rows above the tree top become blanks on the sky base; all other cells are unchanged. |
| Painter.PaintStar | main.go:185-208 | Every cell becomes `StarPaintAsWritten` of its old content: the dot when on screen, then the glow on every disc cell above the tree top, the star's own cell included. |
| Painter.PaintStars | main.go:181-209 | Every cell becomes `StarsLayerAsWrittenAt` of its old content: the stars are painted in list order as the source paints them. |
| Painter.OccupiedCells | main.go:257-265 | The set holds exactly the on-screen positions of tree cells. |
| Painter.ReserveAroundStar | main.go:269-284 | Adds exactly the on-screen, above-tree positions of the 5x5 square around one star. |
| Painter.SkyOccupiedCells | main.go:268-285 | The set holds exactly the positions all sky stars reserve. |
| Painter.FillGaps | main.go:287-302 | In rows topY..bottom, every unreserved position becomes a blank on the sky base. |
| Painter.PaintTree | main.go:305-341 | Paints the on-screen tree cells in list order, each in its lit or base look. |
| Painter.PaintParticles | main.go:345-351 | Paints the on-screen particles in list order as coloured '.'s. |
| Painter.PaintOrbitStar | main.go:353-364 | Writes the bold '★' at the truncated position, only when relZ >= 0. |
| Animation.World.constructor | main.go:87-94 | The state at start: no particles, the cache (-1, -1, no stars), and t = 0. |
| Animation.World.SpawnParticles | main.go:374-394 | The particle field becomes `Spawn` of the old list, the other fields are unchanged, and the state invariant is kept. |
| Animation.World.UpdateParticles | main.go:397-409 | The particle field becomes `Survivors` of the old list, the other fields are unchanged, and the state invariant is kept. |
| Animation.World.InitSkyStars | main.go:550-564 | The star field becomes `Layout(width, topY, draws)`. |
| Animation.World.RefreshSky | main.go:163-167 | The cache becomes `Refresh` of the old cache, the state invariant is kept, and every star lies in the current sky band. |
| Animation.World.Tick | main.go:152-364 | Keeps the state invariant and refreshes the cache. Advances t by 0.06, and the particles become `Survivors(Spawn(...))`. Every screen cell is `FrameAt` of the new stars and particles, with the sky stars painted as the source paints them. |
| Animation.SceneFrameFacts | main.go:171-364 | For the built scene, every row from the tree top down ends on the sky base, and the star glyph appears exactly at the star's truncated position when it is in front. |

## Left out
- SkyField.Layout and Animation.World.Tick: require a positive width whenever stars are generated (topY > 3). On a zero-width screen at least 30 rows tall, `rnd.Intn(0)` at main.go:557 panics. The model excludes that case rather than modelling the panic.

- The tcell plumbing is not modelled: the init-failure exits (main.go:99-106), the key-event goroutine, signal handling, the ticker and `screen.Show()`. The `Screen` constructor stands for the created, cleared screen, which is a grid that is only written to.
- Random number generation is not modelled. Each draw is an input; `Intn(raw, n)` reduces a raw draw modulo n.
- Floating point is modelled with reals. `int(...)` conversions are `Trunc`, which truncates toward zero. Rounding of float64 arithmetic is not modelled.
- The orbit trigonometry is not modelled: vertical progress, radius, rotation, and `hsvToRgb`. Its results are the `Orbit` input.
- The twinkle brightness and `skyBgColor` are not modelled. Their colours are the `Twinkle` input.
- The light-radius distance test is not modelled. Its verdict per position is `FrameInput.lit`.
- SceneBuilder.HalfWidth: uses integer division `y*30/22` where the source converts `float64(y)/22*30` to int. For y in 0..21 the two agree. At y = 0 and y = 11 the quotients are exactly 0 and 15, and float64 computes them exactly. Every other quotient y·30/22 = 15y/11 is at least 1/11 away from an integer, far more than float64 rounding.
- Compositor.InGlowDisc: replaces `sqrt(dx*dx+dy*dy) > 2` with the exact integer test `dx*dx+dy*dy > 4`.
- The `max(1, ...)` guard in `initSkyStars` is kept but never bites, because topY-3 is already at least 1 whenever stars are generated.
- The marking of each sky star's own position (main.go:282-284) is modelled. That position already lies inside its 5x5 square, so the marking adds nothing.
- The frame is modelled cell by cell, with the glyph and style each cell ends with. How tcell displays wide runes like '★' and '•' is not modelled.
- Particles.Survivors: proves that a particle is removed once its life is at most 0. It does not compute after how many ticks that happens, which would need float64 subtraction.

## Findings

| source | as written | input that shows it | evidently intended | confidence | as-written member | corrected member |
|---|---|---|---|---|---|---|
| main.go:187-206 | Each sky star's '.' dot is painted first. Then the glow loop, whose offsets include dx = dy = 0, paints a glow space over that same cell. So for a star above the tree top no dot ever shows. The source only places stars above the tree top. | Any star, e.g. SkyStar(5, 4, 0.0, 1.0) with topY = 10: its position (5, 4) ends as a glow space. | The dot shows at the star's position and the glow surrounds it (the comments call the dot the star's body and the glow the cells around it). | not executed | Compositor.NoDotsAsWritten | Compositor.DotVisible |
