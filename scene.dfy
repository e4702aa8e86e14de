/** The static scene: the decorated canopy, the trunk and the gift boxes,
    built once as an ordered list of cells relative to the tree's base centre.
    The random decoration of each canopy cell is an injected draw. */
module SceneBuilder {
  import opened Types

  type GlyphDraw = i: int | 0 <= i < 6
  type ColorDraw = i: int | 0 <= i < 4

  /** The random outcome for one canopy cell: an ornament (first float draw
      below 0.10, then a glyph index and a colour index), a light bulb (the
      second float draw below 0.03), or a plain needle. */
  datatype Decoration = Ornament(glyph: GlyphDraw, color: ColorDraw) | Bulb | Plain

  const DecorGlyphs: seq<char> := ['o', '@', 'O', '8', '&', '$']
  const DecorColors: seq<Color> := [Red, Yellow, Rgb(255, 105, 180), Rgb(0, 255, 255)]
  const BulbGlyph: char := '•'
  const Gold: Color := Rgb(255, 215, 0)
  const NeedleLit: Color := Rgb(100, 255, 100)

  const TrunkHeight: int := 4
  const TrunkWidth: int := 5
  const TrunkBase: Color := Rgb(101, 67, 33)
  const TrunkLit: Color := Rgb(200, 150, 50)

  datatype GiftConfig = GiftConfig(x: int, w: nat, h: nat, color: Color)

  const GiftConfigs: seq<GiftConfig> := [GiftConfig(-8, 3, 2, Red), GiftConfig(6, 4, 2, Blue)]

  /** Every glyph the scene uses: needle edges and body, ornaments, the
      bulb, the trunk and the gift ribbons and paper. */
  const SceneGlyphs: set<char> := {'/', '\\', '*', 'o', '@', 'O', '8', '&', '$', '•', '#', '|', '-', 'H'}

  /** Σ (2w+1) over the 22 canopy rows. */
  const CanopyCellCount: nat := 634

  // ---------------------------------------------------------------------
  // Canopy
  // ---------------------------------------------------------------------

  /** Half-width of canopy row y: int(float64(y)/22*30), at least 1.  For
      y in [0, 22) the float quotient is never within rounding of an
      integer except at y = 0 and y = 11, where it is exact, so integer
      division gives the same value. */
  function HalfWidth(y: int): (w: int)
    ensures w >= 1
  {
    var w := y * TreeBaseWidth / TreeHeight;
    if w < 1 then 1 else w
  }

  function RowLength(y: int): nat {
    2 * HalfWidth(y) + 1
  }

  /** Index of the first cell of canopy row y in the built list. */
  function RowStart(y: nat): nat {
    if y == 0 then 0 else RowStart(y - 1) + RowLength(y - 1)
  }

  lemma {:induction false} RowStartMonotone(a: nat, b: nat)
    requires a <= b
    ensures RowStart(a) <= RowStart(b)
    ensures a < b ==> RowStart(a) + RowLength(a) <= RowStart(b)
  {
    if a < b {
      RowStartMonotone(a, b - 1);
    }
  }

  lemma CanopySize()
    ensures RowStart(TreeHeight) == CanopyCellCount
  {
    assert RowStart(1) == 3;
    assert RowStart(2) == 6;
    assert RowStart(3) == 11;
    assert RowStart(4) == 20;
    assert RowStart(5) == 31;
    assert RowStart(6) == 44;
    assert RowStart(7) == 61;
    assert RowStart(8) == 80;
    assert RowStart(9) == 101;
    assert RowStart(10) == 126;
    assert RowStart(11) == 153;
    assert RowStart(12) == 184;
    assert RowStart(13) == 217;
    assert RowStart(14) == 252;
    assert RowStart(15) == 291;
    assert RowStart(16) == 332;
    assert RowStart(17) == 375;
    assert RowStart(18) == 422;
    assert RowStart(19) == 471;
    assert RowStart(20) == 522;
    assert RowStart(21) == 577;
  }

  /** Edge texture of a plain needle: '\' at the right edge, '/' at the left. */
  function NeedleGlyph(x: int, w: int): char {
    if x == w then '\\' else if x == -w then '/' else '*'
  }

  /** The cell built at horizontal offset x of canopy row y for draw d. */
  function CanopyCell(y: int, x: int, d: Decoration): TreeCell {
    match d
    case Ornament(g, c) => TreeCell(Decor, DecorGlyphs[g], DecorColors[c], DecorColors[c], x, y - TreeHeight)
    case Bulb => TreeCell(Decor, BulbGlyph, Gold, Gold, x, y - TreeHeight)
    case Plain => TreeCell(Needle, NeedleGlyph(x, HalfWidth(y)), Green, NeedleLit, x, y - TreeHeight)
  }

  /** Cell i of canopy row y, made from the draw consumed at its index. */
  function RowCell(draws: seq<Decoration>, y: nat, i: int): TreeCell
    requires RowStart(y) + RowLength(y) <= |draws| && 0 <= i < RowLength(y)
  {
    CanopyCell(y, i - HalfWidth(y), draws[RowStart(y) + i])
  }

  function Row(draws: seq<Decoration>, y: nat): seq<TreeCell>
    requires RowStart(y) + RowLength(y) <= |draws|
  {
    seq(RowLength(y), i requires 0 <= i < RowLength(y) => RowCell(draws, y, i))
  }

  /** The first n canopy rows, top row first. */
  function Canopy(draws: seq<Decoration>, n: nat): seq<TreeCell>
    requires RowStart(n) <= |draws|
  {
    if n == 0 then [] else Canopy(draws, n - 1) + Row(draws, n - 1)
  }

  // ---------------------------------------------------------------------
  // Trunk and gifts
  // ---------------------------------------------------------------------

  function TrunkCell(x: int, y: int): TreeCell {
    TreeCell(Trunk, '#', TrunkBase, TrunkLit, x, y)
  }

  function TrunkRow(y: int): seq<TreeCell> {
    seq(2 * (TrunkWidth / 2) + 1, i => TrunkCell(i - TrunkWidth / 2, y))
  }

  function TrunkRows(n: nat): seq<TreeCell> {
    if n == 0 then [] else TrunkRows(n - 1) + TrunkRow(n - 1)
  }

  function TrunkCells(): seq<TreeCell> {
    TrunkRows(TrunkHeight)
  }

  /** Ribbon pattern: the middle column is '|', which wins over the middle row '-'. */
  function GiftGlyph(g: GiftConfig, gw: int, gh: int): char {
    if gw == g.w / 2 then '|' else if gh == g.h / 2 then '-' else 'H'
  }

  function GiftCell(g: GiftConfig, gw: int, gh: int): TreeCell {
    TreeCell(Gift, GiftGlyph(g, gw, gh), g.color, g.color, g.x + gw, TrunkHeight - gh - 1)
  }

  function GiftRow(g: GiftConfig, gh: int): seq<TreeCell> {
    seq(g.w, gw => GiftCell(g, gw, gh))
  }

  function GiftRows(g: GiftConfig, n: nat): seq<TreeCell> {
    if n == 0 then [] else GiftRows(g, n - 1) + GiftRow(g, n - 1)
  }

  function GiftBox(g: GiftConfig): seq<TreeCell> {
    GiftRows(g, g.h)
  }

  /** The boxes of the given gift configurations, in order. */
  function Gifts(gs: seq<GiftConfig>): seq<TreeCell> {
    if gs == [] then [] else Gifts(gs[..|gs| - 1]) + GiftBox(gs[|gs| - 1])
  }

  /** The whole scene as the builder returns it. */
  function RichTree(draws: seq<Decoration>): seq<TreeCell>
    requires |draws| >= CanopyCellCount
  {
    CanopySize();
    Canopy(draws, TreeHeight) + TrunkCells() + Gifts(GiftConfigs)
  }

  // ---------------------------------------------------------------------
  // The builder
  // ---------------------------------------------------------------------

  /** buildRichTreeData: appends the canopy row by row, then the trunk,
      then each gift box, consuming one decoration draw per canopy cell. */
  method BuildRichTreeData(draws: seq<Decoration>) returns (cells: seq<TreeCell>)
    requires |draws| >= CanopyCellCount
    ensures cells == RichTree(draws)
  {
    CanopySize();
    cells := BuildCanopy(draws, TreeHeight);
    cells := AppendTrunk(cells);
    cells := AppendGifts(cells);
  }

  /** Section 1 of the builder: the first `height` canopy rows (the builder
      asks for TreeHeight of them). */
  method BuildCanopy(draws: seq<Decoration>, height: nat) returns (cells: seq<TreeCell>)
    requires RowStart(height) <= |draws|
    ensures cells == Canopy(draws, height)
  {
    cells := [];
    var k := 0;
    var y := 0;
    while y < height
      invariant 0 <= y <= height
      invariant k == RowStart(y) <= |draws|
      invariant cells == Canopy(draws, y)
    {
      RowStartMonotone(y + 1, height);
      var row := BuildCanopyRow(draws, y, k);
      cells := cells + row;
      k := k + |row|;
      y := y + 1;
    }
  }

  /** One canopy row: the inner loop over x in [-width, width], where the
      draw consumed for the cell at x is draws[k + x + width]. */
  method BuildCanopyRow(draws: seq<Decoration>, y: nat, k0: nat) returns (row: seq<TreeCell>)
    requires k0 == RowStart(y) && RowStart(y) + RowLength(y) <= |draws|
    ensures row == Row(draws, y)
  {
    var currentY := -TreeHeight + y;
    var width := y * TreeBaseWidth / TreeHeight;
    if width < 1 { width := 1; }
    assert width == HalfWidth(y);
    row := [];
    var k := k0;
    var x := -width;
    while x <= width
      invariant -width <= x <= width + 1
      invariant k == k0 + (x + width)
      invariant |row| == x + width
      invariant forall j :: 0 <= j < |row| ==> row[j] == RowCell(draws, y, j)
    {
      var cell: TreeCell;
      match draws[k] {
        case Ornament(g, c) =>
          var glyph := DecorGlyphs[g];
          var baseColor := DecorColors[c];
          cell := TreeCell(Decor, glyph, baseColor, baseColor, x, currentY);
        case Bulb =>
          cell := TreeCell(Decor, BulbGlyph, Gold, Gold, x, currentY);
        case Plain =>
          var glyph := '*';
          if x == -width { glyph := '/'; }
          if x == width { glyph := '\\'; }
          cell := TreeCell(Needle, glyph, Green, NeedleLit, x, currentY);
      }
      assert cell == RowCell(draws, y, x + width);
      row := row + [cell];
      k := k + 1;
      x := x + 1;
    }
    assert row == Row(draws, y);
  }

  /** Section 2 of the builder: the 5-wide, 4-high trunk. */
  method AppendTrunk(prefix: seq<TreeCell>) returns (cells: seq<TreeCell>)
    ensures cells == prefix + TrunkCells()
  {
    cells := prefix;
    var trunkHeight := TrunkHeight;
    var trunkWidth := TrunkWidth;
    var y := 0;
    while y < trunkHeight
      invariant 0 <= y <= trunkHeight
      invariant cells == prefix + TrunkRows(y)
    {
      // Go's -trunkWidth/2 is (-5)/2 truncated, i.e. -2
      var x := -(trunkWidth / 2);
      while x <= trunkWidth / 2
        invariant -(trunkWidth / 2) <= x <= trunkWidth / 2 + 1
        invariant cells == prefix + TrunkRows(y) + TrunkRow(y)[..x + trunkWidth / 2]
      {
        var cell := TreeCell(Trunk, '#', TrunkBase, TrunkLit, x, y);
        assert TrunkRow(y)[x + 2] == TrunkCell(x, y);
        assert TrunkRow(y)[..x + trunkWidth / 2 + 1] == TrunkRow(y)[..x + trunkWidth / 2] + [cell];
        cells := cells + [cell];
        x := x + 1;
      }
      assert TrunkRow(y)[..x + trunkWidth / 2] == TrunkRow(y);
      y := y + 1;
    }
  }

  /** Section 3 of the builder: each configured gift box in turn. */
  method AppendGifts(prefix: seq<TreeCell>) returns (cells: seq<TreeCell>)
    ensures cells == prefix + Gifts(GiftConfigs)
  {
    cells := prefix;
    var gi := 0;
    while gi < |GiftConfigs|
      invariant 0 <= gi <= |GiftConfigs|
      invariant cells == prefix + Gifts(GiftConfigs[..gi])
    {
      var box := BuildGiftBox(GiftConfigs[gi]);
      assert GiftConfigs[..gi + 1][..gi] == GiftConfigs[..gi];
      cells := cells + box;
      gi := gi + 1;
    }
    assert GiftConfigs[..gi] == GiftConfigs;
  }

  /** One gift box: rows gh in [0, h), columns gw in [0, w). */
  method BuildGiftBox(g: GiftConfig) returns (box: seq<TreeCell>)
    ensures box == GiftBox(g)
  {
    box := [];
    var gh := 0;
    while gh < g.h
      invariant 0 <= gh <= g.h
      invariant box == GiftRows(g, gh)
    {
      var gw := 0;
      while gw < g.w
        invariant 0 <= gw <= g.w
        invariant box == GiftRows(g, gh) + GiftRow(g, gh)[..gw]
      {
        var glyph := 'H';
        if gh == g.h / 2 { glyph := '-'; }
        if gw == g.w / 2 { glyph := '|'; }
        var cell := TreeCell(Gift, glyph, g.color, g.color, g.x + gw, TrunkHeight - gh - 1);
        assert GiftRow(g, gh)[..gw + 1] == GiftRow(g, gh)[..gw] + [cell];
        box := box + [cell];
        gw := gw + 1;
      }
      assert GiftRow(g, gh)[..gw] == GiftRow(g, gh);
      gh := gh + 1;
    }
  }

  // ---------------------------------------------------------------------
  // Properties of the scene
  // ---------------------------------------------------------------------

  lemma {:induction false} CanopyLength(draws: seq<Decoration>, n: nat)
    requires RowStart(n) <= |draws|
    ensures |Canopy(draws, n)| == RowStart(n)
  {
    if n > 0 {
      CanopyLength(draws, n - 1);
    }
  }

  /** Cell i of canopy row y sits at index RowStart(y) + i. */
  lemma {:induction false} CanopyAt(draws: seq<Decoration>, n: nat, y: nat, i: nat)
    requires RowStart(n) <= |draws| && y < n && i < RowLength(y)
    ensures RowStart(y) + i < RowStart(y) + RowLength(y) <= RowStart(n) == |Canopy(draws, n)|
    ensures Canopy(draws, n)[RowStart(y) + i] == RowCell(draws, y, i)
  {
    CanopyLength(draws, n - 1);
    RowStartMonotone(y, n);
    if y < n - 1 {
      RowStartMonotone(y, n - 1);
      CanopyAt(draws, n - 1, y, i);
      assert Canopy(draws, n)[RowStart(y) + i] == Canopy(draws, n - 1)[RowStart(y) + i];
    } else {
      assert Canopy(draws, n)[RowStart(y) + i] == Row(draws, y)[i];
    }
  }


  /** What every canopy cell is: a needle or a decoration, inside the
      canopy's rows, and a decoration never changes colour when lit. */
  ghost predicate CanopyCellOk(c: TreeCell) {
    && -TreeHeight <= c.y < 0
    && (c.kind == Needle || c.kind == Decor)
    && (c.kind == Decor ==> c.litColor == c.baseColor)
    && c.glyph in SceneGlyphs
  }

  lemma CanopyCellFacts(y: int, x: int, d: Decoration)
    requires 0 <= y < TreeHeight
    ensures CanopyCellOk(CanopyCell(y, x, d))
  {
  }

  lemma {:induction false} CanopyCellsOk(draws: seq<Decoration>, n: nat)
    requires RowStart(n) <= |draws| && n <= TreeHeight
    ensures forall c <- Canopy(draws, n) :: CanopyCellOk(c)
  {
    if n > 0 {
      CanopyCellsOk(draws, n - 1);
      var y := n - 1;
      forall c <- Row(draws, y) ensures CanopyCellOk(c) {
        var i :| 0 <= i < |Row(draws, y)| && Row(draws, y)[i] == c;
        CanopyCellFacts(y, i - HalfWidth(y), draws[RowStart(y) + i]);
      }
    }
  }

  /** A trunk cell of one of the first n trunk rows. */
  ghost predicate TrunkCellOk(c: TreeCell, n: nat) {
    c.kind == Trunk && c.glyph == '#' && c.baseColor == TrunkBase && c.litColor == TrunkLit &&
    -2 <= c.x <= 2 && 0 <= c.y < n
  }

  lemma TrunkRowFacts(y: int)
    ensures |TrunkRow(y)| == 5
    ensures forall i :: 0 <= i < 5 ==> TrunkRow(y)[i] == TrunkCell(i - 2, y)
  {
  }

  lemma {:induction false} TrunkRowsShape(n: nat)
    ensures |TrunkRows(n)| == 5 * n
    ensures forall c <- TrunkRows(n) :: TrunkCellOk(c, n)
    ensures forall x, y :: -2 <= x <= 2 && 0 <= y < n ==> TrunkCell(x, y) == TrunkRows(n)[5 * y + x + 2]
  {
    if n > 0 {
      var y := n - 1;
      TrunkRowsShape(y);
      TrunkRowFacts(y);
      var prev := TrunkRows(y);
      assert TrunkRows(n) == prev + TrunkRow(y);
      forall x, yy | -2 <= x <= 2 && 0 <= yy < n
        ensures TrunkCell(x, yy) == TrunkRows(n)[5 * yy + x + 2]
      {
        if yy < y {
          assert TrunkRows(n)[5 * yy + x + 2] == prev[5 * yy + x + 2];
        } else {
          assert TrunkRows(n)[5 * yy + x + 2] == TrunkRow(y)[x + 2];
        }
      }
      forall c | c in TrunkRows(n)
        ensures TrunkCellOk(c, n)
      {
        if c in prev {
          assert TrunkCellOk(c, y);
        } else {
          var i :| 0 <= i < 5 && TrunkRow(y)[i] == c;
        }
      }
    }
  }

  /** A cell of the first n rows of gift box g. */
  ghost predicate GiftCellOk(g: GiftConfig, n: nat, c: TreeCell) {
    c.kind == Gift && c.baseColor == g.color && c.litColor == g.color &&
    g.x <= c.x < g.x + g.w && TrunkHeight - n <= c.y < TrunkHeight &&
    c.glyph == GiftGlyph(g, c.x - g.x, TrunkHeight - 1 - c.y)
  }

  lemma {:induction false} GiftRowsShape(g: GiftConfig, n: nat)
    ensures |GiftRows(g, n)| == g.w * n
    ensures forall c <- GiftRows(g, n) :: GiftCellOk(g, n, c)
    ensures forall gw, gh :: 0 <= gw < g.w && 0 <= gh < n ==> GiftCell(g, gw, gh) in GiftRows(g, n)
  {
    if n > 0 {
      var gh := n - 1;
      GiftRowsShape(g, gh);
      var prev := GiftRows(g, gh);
      assert GiftRows(g, n) == prev + GiftRow(g, gh);
      forall gw | 0 <= gw < g.w ensures GiftCell(g, gw, gh) in GiftRows(g, n) {
        assert GiftRow(g, gh)[gw] == GiftCell(g, gw, gh);
      }
      forall c | c in GiftRows(g, n)
        ensures GiftCellOk(g, n, c)
      {
        if c in prev {
          assert GiftCellOk(g, gh, c);
        } else {
          var i :| 0 <= i < g.w && GiftRow(g, gh)[i] == c;
        }
      }
    }
  }

  /** The trunk: exactly the 20 '#' cells of the block x in [-2, 2], y in [0, 3],
      row by row from y = 0, each x from left to right. */
  lemma TrunkShape()
    ensures |TrunkCells()| == 20
    ensures forall c <- TrunkCells() ::
      c.kind == Trunk && c.glyph == '#' && c.baseColor == TrunkBase && c.litColor == TrunkLit &&
      -2 <= c.x <= 2 && 0 <= c.y <= 3
    ensures forall x, y :: -2 <= x <= 2 && 0 <= y <= 3 ==> TrunkCell(x, y) == TrunkCells()[5 * y + x + 2]
  {
    TrunkRowsShape(TrunkHeight);
  }

  /** The gifts: a red 3x2 box at x in [-8, -6] and a blue 4x2 box at
      x in [6, 9], both on rows y = 3 - gh for gh in {0, 1}.  The middle
      column (x = -7 and x = 8) is '|', the middle row gh = 1 (y = 2) is
      '-' elsewhere, every other cell is 'H', and no gift responds to light. */
  lemma GiftShape()
    ensures |Gifts(GiftConfigs)| == 14
    ensures forall c <- Gifts(GiftConfigs) ::
      && c.kind == Gift && c.litColor == c.baseColor
      && (c.y == 2 || c.y == 3)
      && ((c.baseColor == Red && -8 <= c.x <= -6) || (c.baseColor == Blue && 6 <= c.x <= 9))
      && c.glyph == (if c.x == -7 || c.x == 8 then '|' else if c.y == 2 then '-' else 'H')
    ensures forall gw, gh :: 0 <= gw < 3 && 0 <= gh < 2 ==> GiftCell(GiftConfigs[0], gw, gh) in Gifts(GiftConfigs)
    ensures forall gw, gh :: 0 <= gw < 4 && 0 <= gh < 2 ==> GiftCell(GiftConfigs[1], gw, gh) in Gifts(GiftConfigs)
  {
    assert GiftConfigs == [GiftConfigs[0], GiftConfigs[1]];
    TwoGifts(GiftConfigs[0], GiftConfigs[1]);
  }

  /** GiftShape for two boxes equal to the configured ones. */
  lemma TwoGifts(red: GiftConfig, blue: GiftConfig)
    requires red == GiftConfig(-8, 3, 2, Red) && blue == GiftConfig(6, 4, 2, Blue)
    ensures |Gifts([red, blue])| == 14
    ensures forall c <- Gifts([red, blue]) ::
      && c.kind == Gift && c.litColor == c.baseColor
      && (c.y == 2 || c.y == 3)
      && ((c.baseColor == Red && -8 <= c.x <= -6) || (c.baseColor == Blue && 6 <= c.x <= 9))
      && c.glyph == (if c.x == -7 || c.x == 8 then '|' else if c.y == 2 then '-' else 'H')
    ensures forall gw, gh :: 0 <= gw < 3 && 0 <= gh < 2 ==> GiftCell(red, gw, gh) in Gifts([red, blue])
    ensures forall gw, gh :: 0 <= gw < 4 && 0 <= gh < 2 ==> GiftCell(blue, gw, gh) in Gifts([red, blue])
  {
    GiftRowsShape(red, 2);
    GiftRowsShape(blue, 2);
    assert [red, blue][..1] == [red];
    assert [red][..0] == [];
    assert Gifts([red]) == GiftBox(red);
    assert Gifts([red, blue]) == GiftBox(red) + GiftBox(blue);
    forall c | c in Gifts([red, blue])
      ensures && c.kind == Gift && c.litColor == c.baseColor
              && (c.y == 2 || c.y == 3)
              && ((c.baseColor == Red && -8 <= c.x <= -6) || (c.baseColor == Blue && 6 <= c.x <= 9))
              && c.glyph == (if c.x == -7 || c.x == 8 then '|' else if c.y == 2 then '-' else 'H')
    {
      if c in GiftBox(red) {
        assert GiftCellOk(red, 2, c);
      } else {
        assert GiftCellOk(blue, 2, c);
      }
    }
  }

  /** Kinds by position in a list made of a canopy part, a trunk part and a gift part. */
  lemma SceneLayout(canopy: seq<TreeCell>, trunk: seq<TreeCell>, gifts: seq<TreeCell>)
    requires forall c <- canopy :: c.kind == Needle || c.kind == Decor
    requires forall c <- trunk :: c.kind == Trunk
    requires forall c <- gifts :: c.kind == Gift
    requires forall c <- canopy :: c.kind == Decor ==> c.litColor == c.baseColor
    requires forall c <- gifts :: c.litColor == c.baseColor
    requires forall c <- canopy :: c.glyph in SceneGlyphs
    requires forall c <- trunk :: c.glyph in SceneGlyphs
    requires forall c <- gifts :: c.glyph in SceneGlyphs
    ensures forall k :: 0 <= k < |canopy + trunk + gifts| ==>
      && (((canopy + trunk + gifts)[k].kind == Needle || (canopy + trunk + gifts)[k].kind == Decor) <==> k < |canopy|)
      && ((canopy + trunk + gifts)[k].kind == Trunk <==> |canopy| <= k < |canopy| + |trunk|)
      && ((canopy + trunk + gifts)[k].kind == Gift <==> |canopy| + |trunk| <= k)
    ensures forall c <- canopy + trunk + gifts :: c.kind != Empty
    ensures forall c <- canopy + trunk + gifts :: c.kind == Decor || c.kind == Gift ==> c.litColor == c.baseColor
    ensures forall c <- canopy + trunk + gifts :: c.glyph in SceneGlyphs
  {
    var all := canopy + trunk + gifts;
    forall k | 0 <= k < |all|
      ensures k < |canopy| ==> all[k] in canopy
      ensures |canopy| <= k < |canopy| + |trunk| ==> all[k] in trunk
      ensures |canopy| + |trunk| <= k ==> all[k] in gifts
    {
      if k < |canopy| {
        assert all[k] == canopy[k];
      } else if k < |canopy| + |trunk| {
        assert all[k] == trunk[k - |canopy|];
      } else {
        assert all[k] == gifts[k - |canopy| - |trunk|];
      }
    }
  }

  /** The layout of a scene list whose canopy part has canopyCount cells:
      the canopy cells (needles and decorations) come first, then the 20
      trunk cells, then the 14 gift cells; no cell is Empty; decorations
      and gifts do not change colour when lit; every glyph is one of
      SceneGlyphs. */
  ghost predicate SceneShape(all: seq<TreeCell>, canopyCount: nat) {
    && |all| == canopyCount + 20 + 14
    && (forall k :: 0 <= k < |all| ==>
          && ((all[k].kind == Needle || all[k].kind == Decor) <==> k < canopyCount)
          && (all[k].kind == Trunk <==> canopyCount <= k < canopyCount + 20)
          && (all[k].kind == Gift <==> canopyCount + 20 <= k))
    && (forall c <- all :: c.kind != Empty)
    && (forall c <- all :: c.kind == Decor || c.kind == Gift ==> c.litColor == c.baseColor)
    && (forall c <- all :: c.glyph in SceneGlyphs)
  }

  /** The built scene has the layout above with the 634 canopy cells. */
  lemma RichTreeLayout(draws: seq<Decoration>)
    requires |draws| >= CanopyCellCount
    ensures SceneShape(RichTree(draws), CanopyCellCount)
  {
    CanopySize();
    TrunkShape();
    GiftShape();
    SceneFacts(draws, TreeHeight, TrunkCells(), Gifts(GiftConfigs));
  }

  /** The layout of a canopy of the first n rows followed by any trunk and
      gift parts of the trunk's and the gifts' size and kinds. */
  lemma SceneFacts(draws: seq<Decoration>, n: nat, trunk: seq<TreeCell>, gifts: seq<TreeCell>)
    requires RowStart(n) <= |draws| && n <= TreeHeight
    requires |trunk| == 20 && forall c <- trunk :: c.kind == Trunk && c.glyph == '#'
    requires |gifts| == 14
    requires forall c <- gifts :: c.kind == Gift && c.litColor == c.baseColor && c.glyph in {'|', '-', 'H'}
    ensures SceneShape(Canopy(draws, n) + trunk + gifts, RowStart(n))
  {
    CanopyLength(draws, n);
    CanopyCellsOk(draws, n);
    SceneLayout(Canopy(draws, n), trunk, gifts);
  }

  /** The cell built for offset i of canopy row y, whose half-width is w:
      it sits at x = i - w on height y - 22; a plain draw gives a needle,
      '/' at i = 0, '\\' at i = 2w and '*' between; any other draw gives a
      decoration whose lit colour is its base colour: an ornament glyph and
      colour from the fixed sets, or the gold bulb glyph. */
  ghost predicate CanopyCellMeaning(c: TreeCell, y: int, i: int, d: Decoration) {
    var w := HalfWidth(y);
    && c.x == i - w
    && c.y == y - TreeHeight
    && (c.kind == Needle <==> d == Plain)
    && (c.kind == Needle ==>
          c.baseColor == Green && c.litColor == NeedleLit &&
          c.glyph == (if i == 0 then '/' else if i == 2 * w then '\\' else '*'))
    && (c.kind != Needle ==> c.kind == Decor && c.litColor == c.baseColor)
    && (d.Ornament? ==> c.glyph in DecorGlyphs && c.baseColor in DecorColors)
    && (d == Bulb ==> c.glyph == BulbGlyph && c.baseColor == Gold)
  }

  lemma CanopyCellMeans(y: int, i: int, d: Decoration)
    ensures CanopyCellMeaning(CanopyCell(y, i - HalfWidth(y), d), y, i, d)
  {
  }

  /** Canopy row y (0 <= y < 22), of half-width w = HalfWidth(y), occupies the 2w+1 indices of the scene starting at RowStart(y); its
      i-th cell is at offset x = i - w, so x runs from -w to w with none
      missing or repeated, and that cell has the meaning above for the
      draw consumed at that index. */
  lemma CanopyRowCells(draws: seq<Decoration>, y: nat, i: nat)
    requires |draws| >= CanopyCellCount && y < TreeHeight && i < RowLength(y)
    ensures RowStart(y) + i < CanopyCellCount <= |RichTree(draws)|
    ensures CanopyCellMeaning(RichTree(draws)[RowStart(y) + i], y, i, draws[RowStart(y) + i])
  {
    CanopySize();
    CanopyCellBeforeRest(draws, TreeHeight, TrunkCells(), Gifts(GiftConfigs), y, i);
  }

  /** The canopy part of any scene that starts with the canopy. */
  lemma CanopyCellBeforeRest(draws: seq<Decoration>, n: nat, trunk: seq<TreeCell>, gifts: seq<TreeCell>, y: nat, i: nat)
    requires RowStart(n) <= |draws| && y < n && i < RowLength(y)
    ensures RowStart(y) + i < RowStart(n) <= |Canopy(draws, n) + trunk + gifts|
    ensures CanopyCellMeaning((Canopy(draws, n) + trunk + gifts)[RowStart(y) + i], y, i, draws[RowStart(y) + i])
  {
    CanopyAt(draws, n, y, i);
    ghost var d := draws[RowStart(y) + i];
    assert (Canopy(draws, n) + trunk + gifts)[RowStart(y) + i] == RowCell(draws, y, i);
    CanopyCellMeans(y, i, d);
  }

}
