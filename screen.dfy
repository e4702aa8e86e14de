/** The terminal as an abstract grid of character cells: each cell holds a
    glyph and a style. Writes outside the grid are silently ignored, as the
    terminal library does. */
module Terminal {
  import opened Types

  /** Foreground, background and boldness of a cell. */
  datatype Style = Style(fg: Color, bg: Color, bold: bool)

  /** The style every Style(...) chain in the program starts from. */
  const DefaultStyle: Style := Style(Default, Default, false)

  datatype ScreenCell = ScreenCell(glyph: char, style: Style)

  /** What a cleared cell holds. */
  const Blank: ScreenCell := ScreenCell(' ', DefaultStyle)

  class Screen {
    /** cells[x, y] is column x of row y. */
    const cells: array2<ScreenCell>

    function Width(): nat { cells.Length0 }
    function Height(): nat { cells.Length1 }

    predicate OnGrid(x: int, y: int) {
      0 <= x < cells.Length0 && 0 <= y < cells.Length1
    }

    /** A cleared screen of the given size. */
    constructor (width: nat, height: nat)
      ensures Width() == width && Height() == height
      ensures forall x, y :: 0 <= x < width && 0 <= y < height ==> cells[x, y] == Blank
    {
      cells := new ScreenCell[width, height]((x, y) => Blank);
    }

    /** SetContent: writes one cell when (x, y) is on the grid, and
        changes nothing otherwise. */
    method SetContent(x: int, y: int, c: ScreenCell)
      modifies cells
      ensures forall i, j :: 0 <= i < cells.Length0 && 0 <= j < cells.Length1 ==>
        cells[i, j] == (if i == x && j == y then c else old(cells[i, j]))
    {
      if 0 <= x < cells.Length0 && 0 <= y < cells.Length1 {
        cells[x, y] := c;
      }
    }

    /** Clear: every cell becomes Blank. */
    method Clear()
      modifies cells
      ensures forall i, j :: 0 <= i < cells.Length0 && 0 <= j < cells.Length1 ==> cells[i, j] == Blank
    {
      var x := 0;
      while x < cells.Length0
        invariant 0 <= x <= cells.Length0
        invariant forall i, j :: 0 <= i < x && 0 <= j < cells.Length1 ==> cells[i, j] == Blank
      {
        var y := 0;
        while y < cells.Length1
          invariant 0 <= y <= cells.Length1
          invariant forall i, j :: 0 <= i < x && 0 <= j < cells.Length1 ==> cells[i, j] == Blank
          invariant forall j :: 0 <= j < y ==> cells[x, j] == Blank
        {
          cells[x, y] := Blank;
          y := y + 1;
        }
        x := x + 1;
      }
    }
  }
}
