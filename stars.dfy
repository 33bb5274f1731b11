/**
 * Background stars: the `makeStar` factory, the per-frame horizontal drift
 * with its one-sided wrap, the parallax offset and twinkle of the paint pass,
 * and `createStars`, which builds the whole layered population.
 */
module Stars {
  import opened Sampling

  const LAYERS: nat := 4
  /** STAR_COUNT / LAYERS, the inner loop bound of createStars; 200 / 4 divides exactly. */
  const PER_LAYER: nat := 50
  const STAR_COUNT: nat := LAYERS * PER_LAYER
  /** Parallax weight per unit of pointer displacement and per layer. */
  const PARALLAX: real := 0.008

  datatype Star = Star(
    x: real,
    y: real,
    r: real,
    alpha: real,
    speed: real,
    twinklePhase: real,
    layer: nat,
    color: string)

  /** The six Math.random() draws makeStar consumes, in the order it consumes them. */
  datatype StarDraws = StarDraws(x: Uniform, y: Uniform, r: Uniform, alpha: Uniform, phase: Uniform, color: Uniform)

  function MinRadius(layer: nat): real { 0.5 + layer as real * 0.2 }
  function MaxRadius(layer: nat): real { 1.5 + layer as real * 0.5 }
  function LayerSpeed(layer: nat): real { 0.1 + layer as real * 0.05 }

  /** Deeper layers are larger and faster, and every layer has a non-empty radius band. */
  lemma LayerBiasIncreases(l1: nat, l2: nat)
    requires l1 < l2
    ensures MinRadius(l1) < MaxRadius(l1)
    ensures MinRadius(l1) < MinRadius(l2) && MaxRadius(l1) < MaxRadius(l2)
    ensures LayerSpeed(l1) < LayerSpeed(l2)
  {
  }

  /** makeStar(layer, width, height). */
  function MakeStar(layer: nat, width: real, height: real, d: StarDraws): (s: Star)
    requires 0.0 <= width && 0.0 <= height
    ensures Sampled(s.x, 0.0, width) && Sampled(s.y, 0.0, height)
    ensures Sampled(s.r, MinRadius(layer), MaxRadius(layer))
    ensures Sampled(s.alpha, 0.4, 1.0)
    ensures Sampled(s.twinklePhase, 0.0, PI * 2.0)
    ensures s.speed == LayerSpeed(layer) && s.layer == layer && s.color in COLORS
  {
    Star(
      RandomBetween(d.x, 0.0, width),
      RandomBetween(d.y, 0.0, height),
      RandomBetween(d.r, MinRadius(layer), MaxRadius(layer)),
      RandomBetween(d.alpha, 0.4, 1.0),
      LayerSpeed(layer),
      RandomBetween(d.phase, 0.0, PI * 2.0),
      layer,
      PickColor(d.color))
  }

  /**
   * What every star keeps from its creation on a width x height surface:
   * the attribute bands of makeStar, and a position on the conveyor
   * (horizontally within the glow radius of the surface, vertically inside it).
   */
  ghost predicate WellFormed(s: Star, width: real, height: real) {
    && s.speed == LayerSpeed(s.layer)
    && Sampled(s.r, MinRadius(s.layer), MaxRadius(s.layer))
    && Sampled(s.alpha, 0.4, 1.0)
    && Sampled(s.twinklePhase, 0.0, PI * 2.0)
    && s.color in COLORS
    && -4.0 * s.r <= s.x <= width + 4.0 * s.r
    && Sampled(s.y, 0.0, height)
  }

  lemma MakeStarWellFormed(layer: nat, width: real, height: real, d: StarDraws)
    requires 0.0 <= width && 0.0 <= height
    ensures WellFormed(MakeStar(layer, width, height, d), width, height)
  {
  }

  /** The star moved past the right edge plus its glow radius, so the drift wraps it. */
  predicate LeavesRight(s: Star, width: real) {
    s.x + s.speed > width + s.r * 4.0
  }

  /**
   * One frame of drift: x advances by speed; a star past the right edge plus
   * 4r restarts at -4r with a fresh y in [0, height).
   */
  function DriftStar(s: Star, width: real, height: real, u: Uniform): (t: Star)
    ensures t.(x := s.x, y := s.y) == s
  {
    if LeavesRight(s, width) then s.(x := -s.r * 4.0, y := RandomBetween(u, 0.0, height))
    else s.(x := s.x + s.speed)
  }

  /**
   * The drift in terms of its effect: a star moves right by its speed and
   * keeps its row, unless that takes it past the right edge, and only then
   * is it back at -4r on a fresh row inside the surface.
   */
  lemma DriftStarMoves(s: Star, width: real, height: real, u: Uniform)
    requires 0.0 <= height
    ensures var t := DriftStar(s, width, height, u);
      if s.x + s.speed <= width + 4.0 * s.r then t.x == s.x + s.speed && t.y == s.y
      else t.x == -4.0 * s.r && Sampled(t.y, 0.0, height)
  {
  }

  /** The wrap invariant: after a frame no star is further right than width + 4r, and one not left of -4r stays so. */
  lemma DriftStaysOnConveyor(s: Star, width: real, height: real, u: Uniform)
    requires 0.0 <= width && 0.0 <= s.r && 0.0 <= s.speed
    ensures DriftStar(s, width, height, u).x <= width + 4.0 * s.r
    ensures -4.0 * s.r <= s.x ==> -4.0 * s.r <= DriftStar(s, width, height, u).x
  {
  }

  lemma DriftPreservesWellFormed(s: Star, width: real, height: real, u: Uniform)
    requires 0.0 <= width && 0.0 <= height && WellFormed(s, width, height)
    ensures WellFormed(DriftStar(s, width, height, u), width, height)
  {
    assert 0.0 < s.r;
    DriftStaysOnConveyor(s, width, height, u);
    DriftStarMoves(s, width, height, u);
  }

  /** The parallax offset of a star of the given layer under the pointer (mouseX, mouseY). */
  function Parallax(mouseX: real, mouseY: real, width: real, height: real, layer: nat): (offset: (real, real))
  {
    ((mouseX - width / 2.0) * PARALLAX * (layer as real + 1.0),
     (mouseY - height / 2.0) * PARALLAX * (layer as real + 1.0))
  }

  /** No star is shifted exactly when the pointer is at the centre of the surface. */
  lemma ParallaxZeroIffCentred(mouseX: real, mouseY: real, width: real, height: real, layer: nat)
    ensures Parallax(mouseX, mouseY, width, height, layer) == (0.0, 0.0)
        <==> mouseX == width / 2.0 && mouseY == height / 2.0
  {
    var k := PARALLAX * (layer as real + 1.0);
    var dx, dy := mouseX - width / 2.0, mouseY - height / 2.0;
    Associative(dx, PARALLAX, layer as real + 1.0);
    Associative(dy, PARALLAX, layer as real + 1.0);
    ZeroProduct(dx, k);
    ZeroProduct(dy, k);
    assert Parallax(mouseX, mouseY, width, height, layer).0 == dx * PARALLAX * (layer as real + 1.0) == dx * k;
    assert Parallax(mouseX, mouseY, width, height, layer).1 == dy * PARALLAX * (layer as real + 1.0) == dy * k;
  }

  lemma Associative(a: real, b: real, c: real)
    ensures a * b * c == a * (b * c)
  {
  }

  lemma ZeroProduct(a: real, k: real)
    requires 0.0 < k
    ensures a * k == 0.0 <==> a == 0.0
  {
  }

  /** The depth illusion: a star of layer L moves L + 1 times as far as a star of layer 0. */
  lemma ParallaxScalesWithDepth(mouseX: real, mouseY: real, width: real, height: real, layer: nat)
    ensures Parallax(mouseX, mouseY, width, height, layer).0
        == (layer as real + 1.0) * Parallax(mouseX, mouseY, width, height, 0).0
    ensures Parallax(mouseX, mouseY, width, height, layer).1
        == (layer as real + 1.0) * Parallax(mouseX, mouseY, width, height, 0).1
  {
    var n := layer as real + 1.0;
    var dx, dy := mouseX - width / 2.0, mouseY - height / 2.0;
    var base := Parallax(mouseX, mouseY, width, height, 0);
    assert base.0 == dx * PARALLAX && base.1 == dy * PARALLAX;
    assert dx * PARALLAX * n == n * (dx * PARALLAX);
    assert dy * PARALLAX * n == n * (dy * PARALLAX);
    assert Parallax(mouseX, mouseY, width, height, layer).0 == dx * PARALLAX * n;
    assert Parallax(mouseX, mouseY, width, height, layer).1 == dy * PARALLAX * n;
  }

  /**
   * The painted opacity: the base alpha scaled by 0.5 + 0.5 * sin(time / 500 + phase),
   * with that sine value passed in.
   */
  function TwinkleAlpha(s: Star, sine: real): (a: real)
    requires -1.0 <= sine <= 1.0
    ensures 0.0 <= s.alpha ==> 0.0 <= a <= s.alpha
    ensures sine == 1.0 ==> a == s.alpha
    ensures sine == -1.0 ==> a == 0.0
  {
    var twinkle := 0.5 + 0.5 * sine;
    assert 0.0 <= twinkle <= 1.0;
    assert s.alpha - s.alpha * twinkle == s.alpha * (1.0 - twinkle);
    s.alpha * twinkle
  }

  /**
   * A full population for a width x height surface: STAR_COUNT well-formed
   * stars, grouped by layer in ascending order with PER_LAYER stars per layer.
   */
  ghost predicate Population(stars: seq<Star>, width: real, height: real) {
    && |stars| == STAR_COUNT
    && forall k :: 0 <= k < |stars| ==> stars[k].layer == k / PER_LAYER && WellFormed(stars[k], width, height)
  }

  /** createStars(width, height): one draw record per star, consumed in creation order. */
  method CreateStars(width: real, height: real, draws: seq<StarDraws>) returns (stars: seq<Star>)
    requires 0.0 <= width && 0.0 <= height && |draws| == STAR_COUNT
    ensures |stars| == STAR_COUNT
    ensures forall k :: 0 <= k < |stars| ==> stars[k] == MakeStar(k / PER_LAYER, width, height, draws[k])
    ensures forall k :: 0 <= k < |stars| ==> Sampled(stars[k].x, 0.0, width) && Sampled(stars[k].y, 0.0, height)
    ensures Population(stars, width, height)
  {
    stars := [];
    for layer := 0 to LAYERS
      invariant |stars| == layer * PER_LAYER
      invariant forall k :: 0 <= k < |stars| ==> stars[k] == MakeStar(k / PER_LAYER, width, height, draws[k])
    {
      for i := 0 to PER_LAYER
        invariant |stars| == layer * PER_LAYER + i
        invariant forall k :: 0 <= k < |stars| ==> stars[k] == MakeStar(k / PER_LAYER, width, height, draws[k])
      {
        assert (layer * PER_LAYER + i) / PER_LAYER == layer;
        stars := stars + [MakeStar(layer, width, height, draws[|stars|])];
      }
    }
    forall k | 0 <= k < |stars|
      ensures WellFormed(stars[k], width, height)
    {
      MakeStarWellFormed(k / PER_LAYER, width, height, draws[k]);
    }
  }

  /** How many stars of the sequence belong to the given layer. */
  function CountInLayer(stars: seq<Star>, layer: nat): (n: nat)
    ensures n <= |stars|
  {
    if stars == [] then 0
    else CountInLayer(stars[..|stars| - 1], layer) + (if stars[|stars| - 1].layer == layer then 1 else 0)
  }

  /** In a prefix of length j of a layer-grouped sequence, a layer has as many stars as the prefix reaches into its block. */
  lemma {:induction false} CountInLayerPrefix(stars: seq<Star>, layer: nat, j: nat)
    requires j <= |stars|
    requires forall k :: 0 <= k < |stars| ==> stars[k].layer == k / PER_LAYER
    ensures CountInLayer(stars[..j], layer) ==
      if j <= layer * PER_LAYER then 0
      else if j >= (layer + 1) * PER_LAYER then PER_LAYER
      else j - layer * PER_LAYER
  {
    if j > 0 {
      CountInLayerPrefix(stars, layer, j - 1);
      assert stars[..j][..j - 1] == stars[..j - 1];
      assert stars[..j][j - 1] == stars[j - 1];
    }
  }

  /** The layer partition: every layer of a population holds exactly PER_LAYER stars. */
  lemma PopulationLayerSizes(stars: seq<Star>, width: real, height: real, layer: nat)
    requires Population(stars, width, height) && layer < LAYERS
    ensures CountInLayer(stars, layer) == PER_LAYER
  {
    CountInLayerPrefix(stars, layer, |stars|);
    assert stars[..|stars|] == stars;
  }

  /** Stars are grouped by layer in ascending order, layer 0 first. */
  lemma PopulationLayersAscend(stars: seq<Star>, width: real, height: real, i: nat, j: nat)
    requires Population(stars, width, height) && i <= j < |stars|
    ensures stars[i].layer <= stars[j].layer < LAYERS
  {
  }
}
