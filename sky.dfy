/** The background stars: how one layout is generated from random draws,
    and the cache that regenerates the layout only when the screen width
    or the tree-top row changes. */
module SkyField {
  import opened Types

  /** The four draws one star consumes, in the order initSkyStars makes
      them: the raw draws behind rnd.Intn for x and y, then two
      rnd.Float64() values for the twinkle phase and speed. */
  datatype StarDraw = StarDraw(xDraw: nat, yDraw: nat, phase: Unit, speed: Unit)

  /** A star lies in the sky band of a screen of the given width whose
      tree top is at row topY: on screen, not above the top margin, and
      strictly above the tree. */
  predicate InSky(s: SkyStar, width: int, topY: int) {
    0 <= s.x < width && TreeTopMargin <= s.y < topY
  }

  /** The star made from one draw. The Max guard of the source never bites
      here, because topY - TreeTopMargin is already at least 1. */
  function StarFrom(d: StarDraw, width: int, topY: int): (s: SkyStar)
    requires width > 0 && topY > TreeTopMargin
    ensures InSky(s, width, topY)
    ensures 0.0 <= s.phase < 2.0 * Pi && 0.8 <= s.speed < 1.6
    ensures d.xDraw < width ==> s.x == d.xDraw
    ensures d.yDraw < topY - TreeTopMargin ==> s.y == TreeTopMargin + d.yDraw
  {
    SkyStar(Intn(d.xDraw, width),
            TreeTopMargin + Intn(d.yDraw, Max(1, topY - TreeTopMargin)),
            d.phase * 2.0 * Pi,
            0.8 + d.speed * 0.8)
  }

  /** The first n stars made from the first n draws. */
  function Stars(draws: seq<StarDraw>, n: nat, width: int, topY: int): seq<SkyStar>
    requires width > 0 && topY > TreeTopMargin && n <= |draws|
  {
    if n == 0 then [] else Stars(draws, n - 1, width, topY) + [StarFrom(draws[n - 1], width, topY)]
  }

  /** The layout initSkyStars(width, topY) produces: none when the tree
      leaves no sky above the top margin, otherwise SkyStarCount stars.
      rnd.Intn(width) demands a positive width in the second case. */
  function Layout(width: int, topY: int, draws: seq<StarDraw>): seq<SkyStar>
    requires CanLayout(width, topY, draws)
  {
    if topY <= TreeTopMargin then [] else Stars(draws, SkyStarCount, width, topY)
  }

  lemma {:induction false} StarsShape(draws: seq<StarDraw>, n: nat, width: int, topY: int)
    requires width > 0 && topY > TreeTopMargin && n <= |draws|
    ensures |Stars(draws, n, width, topY)| == n
    ensures forall i :: 0 <= i < n ==> Stars(draws, n, width, topY)[i] == StarFrom(draws[i], width, topY)
  {
    if n > 0 {
      StarsShape(draws, n - 1, width, topY);
    }
  }

  /** No stars when topY <= TreeTopMargin; otherwise exactly SkyStarCount
      stars, the i-th made from the i-th draw, every one in the sky band
      with a phase in [0, 2*Pi) and a speed in [0.8, 1.6). */
  lemma LayoutShape(width: int, topY: int, draws: seq<StarDraw>)
    requires CanLayout(width, topY, draws)
    ensures var stars := Layout(width, topY, draws);
      && (topY <= TreeTopMargin ==> stars == [])
      && (topY > TreeTopMargin ==>
            && |stars| == SkyStarCount
            && forall i :: 0 <= i < SkyStarCount ==> stars[i] == StarFrom(draws[i], width, topY))
      && forall s <- stars :: InSky(s, width, topY) && 0.0 <= s.phase < 2.0 * Pi && 0.8 <= s.speed < 1.6
  {
    if topY > TreeTopMargin {
      StarsShape(draws, SkyStarCount, width, topY);
    }
  }

  /** Every cell of the sky band is the position some draw yields. */
  lemma EverySkyCellReachable(width: int, topY: int, x: int, y: int)
    requires 0 <= x < width && TreeTopMargin <= y < topY
    ensures exists d: StarDraw :: StarFrom(d, width, topY).x == x && StarFrom(d, width, topY).y == y
  {
    var d := StarDraw(x, y - TreeTopMargin, 0.0, 0.0);
    assert StarFrom(d, width, topY).x == x;
  }

  // ---------------------------------------------------------------------
  // The cache: the stored (prevWidth, prevTopY) pair and the star list
  // ---------------------------------------------------------------------

  datatype SkyCache = SkyCache(width: int, topY: int, stars: seq<SkyStar>)

  /** The program starts with the pair (-1, -1) and no stars. */
  const InitialCache: SkyCache := SkyCache(-1, -1, [])

  predicate NeedsRegen(c: SkyCache, width: int, topY: int) {
    width != c.width || topY != c.topY
  }

  /** What generating a layout demands of the draws and the screen. */
  predicate CanLayout(width: int, topY: int, draws: seq<StarDraw>) {
    topY <= TreeTopMargin || (width > 0 && |draws| >= SkyStarCount)
  }

  /** What the size check demands: a layout is only generated on a change. */
  predicate CanRefresh(c: SkyCache, width: int, topY: int, draws: seq<StarDraw>) {
    NeedsRegen(c, width, topY) ==> CanLayout(width, topY, draws)
  }

  /** The cache after the size check of one tick. */
  function Refresh(c: SkyCache, width: int, topY: int, draws: seq<StarDraw>): SkyCache
    requires CanRefresh(c, width, topY, draws)
  {
    if NeedsRegen(c, width, topY) then SkyCache(width, topY, Layout(width, topY, draws)) else c
  }

  /** After the check the stored pair is the current one; the stars are
      regenerated from the draws exactly when the pair changed, and are
      kept as they were otherwise. */
  lemma RefreshMeaning(c: SkyCache, width: int, topY: int, draws: seq<StarDraw>)
    requires CanRefresh(c, width, topY, draws)
    ensures var r := Refresh(c, width, topY, draws);
      && r.width == width && r.topY == topY
      && (NeedsRegen(c, width, topY) ==> r.stars == Layout(width, topY, draws))
      && (!NeedsRegen(c, width, topY) ==> r.stars == c.stars)
      && !NeedsRegen(r, width, topY)
  {
  }

  /** The cache invariant: every stored star lies in the sky band of the
      stored size, and there are at most SkyStarCount of them. */
  ghost predicate CacheValid(c: SkyCache) {
    |c.stars| <= SkyStarCount && forall s <- c.stars :: InSky(s, c.width, c.topY)
  }

  lemma InitialCacheValid()
    ensures CacheValid(InitialCache)
  {
  }

  lemma RefreshKeepsValid(c: SkyCache, width: int, topY: int, draws: seq<StarDraw>)
    requires CanRefresh(c, width, topY, draws)
    requires CacheValid(c)
    ensures CacheValid(Refresh(c, width, topY, draws))
    ensures forall s <- Refresh(c, width, topY, draws).stars :: InSky(s, width, topY)
  {
    if NeedsRegen(c, width, topY) {
      LayoutShape(width, topY, draws);
    }
  }

  /** The caches after a run of ticks at the same size, one list of draws
      per tick. */
  function RefreshRun(c: SkyCache, width: int, topY: int, runs: seq<seq<StarDraw>>): SkyCache
    requires forall k :: 0 <= k < |runs| ==> CanLayout(width, topY, runs[k])
  {
    if runs == [] then c
    else Refresh(RefreshRun(c, width, topY, runs[..|runs| - 1]), width, topY, runs[|runs| - 1])
  }

  /** Consecutive ticks at an unchanged size: only the first may regenerate
      the stars; every later tick leaves them as the first one made them. */
  lemma {:induction false} RefreshRunStable(c: SkyCache, width: int, topY: int, runs: seq<seq<StarDraw>>)
    requires forall k :: 0 <= k < |runs| ==> CanLayout(width, topY, runs[k])
    requires |runs| >= 1
    ensures RefreshRun(c, width, topY, runs) == Refresh(c, width, topY, runs[0])
  {
    if |runs| > 1 {
      var init := runs[..|runs| - 1];
      assert init[0] == runs[0];
      RefreshRunStable(c, width, topY, init);
    } else {
      assert runs[..0] == [];
    }
  }
}
