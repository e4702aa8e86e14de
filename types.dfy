/** Shared vocabulary of the animated tree: the compile-time constants,
    colours, the cell, particle and sky-star records, and the two shapes
    of random draw that the generator hands out. */
module Types {

  // --- configuration constants ---
  const TreeTopMargin: int := 3
  const TreeHeight: int := 22
  const TreeBaseWidth: int := 30
  const StarTimeStep: real := 0.06
  const ParticleInitialLife: real := 1.2
  const ParticleLifeDecay: real := 0.05
  const ParticleFrontExtra: int := 1
  const SkyStarCount: int := 8
  const SkyGlowRadius: int := 2

  /** The float64 value of math.Pi, as a real. */
  const Pi: real := 3.141592653589793

  /** A terminal colour: the terminal's default and reset colours, the
      named palette colours the program uses, and 24-bit RGB colours. */
  datatype Color = Default | Reset | Green | Red | Blue | Yellow | Rgb(r: int, g: int, b: int)

  /** The dark blue sky base colour (6, 10, 40). */
  const SkyBase: Color := Rgb(6, 10, 40)

  /** The kinds of scene cell; Empty is declared by the program but never built. */
  datatype CellType = Empty | Needle | Trunk | Decor | Gift

  /** One cell of the static scene, positioned relative to the tree's base
      centre (negative y is above the base). */
  datatype TreeCell = TreeCell(kind: CellType, glyph: char, baseColor: Color, litColor: Color, x: int, y: int)

  datatype Vec3 = Vec3(x: real, y: real, z: real)

  /** A trail particle; float64 positions and life are modelled as reals. */
  datatype Particle = Particle(pos: Vec3, velocity: Vec3, life: real, color: Color)

  /** A background star at screen coordinates with its twinkle phase and speed. */
  datatype SkyStar = SkyStar(x: int, y: int, phase: real, speed: real)

  /** One rnd.Float64() draw: a value in [0, 1). */
  type Unit = r: real | 0.0 <= r < 1.0

  /** rnd.Intn(n) for a raw draw: every value in [0, n) is the result of
      some raw draw, and no other value is. */
  function Intn(raw: nat, n: int): (r: int)
    requires n > 0
    ensures 0 <= r < n
    ensures raw < n ==> r == raw
  {
    raw % n
  }

  /** The program's own integer maximum. */
  function Max(a: int, b: int): (r: int)
    ensures r >= a && r >= b
    ensures r == a || r == b
  {
    if a > b then a else b
  }
}
