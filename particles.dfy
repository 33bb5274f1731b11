/**
 * Burst particles: the particle built by `createBurst`, its per-frame
 * integration and decay, and the visibility filter that keeps the live set
 * finite.
 */
module Particles {
  import opened Sampling

  /** Default batch size of createBurst. */
  const BURST_SIZE: nat := 15
  const RADIUS_DECAY: real := 0.95
  const ALPHA_DECAY: real := 0.92
  /** A particle stays live only while alpha > MIN_ALPHA and r > MIN_RADIUS. */
  const MIN_ALPHA: real := 0.03
  const MIN_RADIUS: real := 0.1
  /**
   * The exact lifetime of a burst particle in frames: it is visible after
   * k frames exactly when k < LIFETIME (see BurstLifetime).
   */
  const LIFETIME: nat := 43

  datatype Particle = Particle(
    x: real,
    y: real,
    vx: real,
    vy: real,
    r: real,
    alpha: real,
    color: string,
    life: nat)

  /**
   * (cos θ, sin θ) for the direction θ = Math.random() * 2π of one particle;
   * the trigonometry is outside the model, only the unit length is kept.
   */
  type Direction = d: (real, real) | d.0 * d.0 + d.1 * d.1 == 1.0 witness (1.0, 0.0)

  /** The draws one particle of createBurst consumes, in the order it consumes them. */
  datatype BurstDraws = BurstDraws(direction: Direction, speed: Uniform, r: Uniform, color: Uniform)

  lemma MulNonNegative(a: real, b: real)
    requires 0.0 <= a && 0.0 <= b
    ensures 0.0 <= a * b
  {
  }

  /** One particle of createBurst(x, y): at (x, y), moving in the drawn direction at a speed in [1, 3). */
  function MakeParticle(x: real, y: real, d: BurstDraws): (p: Particle)
    ensures p.x == x && p.y == y && p.alpha == 1.0 && p.life == 0
    ensures Sampled(p.r, 1.0, 3.0) && p.color in COLORS
    ensures 1.0 <= p.vx * p.vx + p.vy * p.vy < 9.0
  {
    var speed := RandomBetween(d.speed, 1.0, 3.0);
    var (c, s) := d.direction;
    assert (c * speed) * (c * speed) + (s * speed) * (s * speed) == (c * c + s * s) * (speed * speed);
    assert 1.0 <= speed * speed < 9.0 by {
      assert speed <= speed * speed < 3.0 * speed;
    }
    Particle(x, y, c * speed, s * speed, RandomBetween(d.r, 1.0, 3.0), 1.0, PickColor(d.color), 0)
  }

  /** One frame of a particle: constant-velocity move, geometric decay of radius and opacity, one frame older. */
  function StepParticle(p: Particle): (q: Particle)
  {
    p.(x := p.x + p.vx, y := p.y + p.vy, r := p.r * RADIUS_DECAY, alpha := p.alpha * ALPHA_DECAY, life := p.life + 1)
  }

  /** Radius and opacity never grow; they strictly shrink while positive; velocity and colour are kept. */
  lemma StepDecays(p: Particle)
    requires 0.0 <= p.r && 0.0 <= p.alpha
    ensures var q := StepParticle(p);
      && 0.0 <= q.r <= p.r && 0.0 <= q.alpha <= p.alpha
      && (0.0 < p.r ==> q.r < p.r) && (0.0 < p.alpha ==> q.alpha < p.alpha)
      && q.vx == p.vx && q.vy == p.vy && q.color == p.color
  {
  }

  /** b raised to the k. */
  function Pow(b: real, k: nat): (r: real)
    ensures 0.0 <= b ==> 0.0 <= r
    ensures 0.0 <= b <= 1.0 ==> r <= 1.0
  {
    if k == 0 then 1.0
    else
      var rest := Pow(b, k - 1);
      assert 0.0 <= b ==> 0.0 <= b * rest by {
        if 0.0 <= b { MulNonNegative(b, rest); }
      }
      assert 0.0 <= b <= 1.0 ==> b * rest <= 1.0 by {
        if 0.0 <= b <= 1.0 {
          MulNonNegative(1.0 - b, rest);
          assert rest - b * rest == (1.0 - b) * rest;
        }
      }
      b * rest
  }

  /** The particle after k frames, ignoring the visibility filter. */
  function StepN(p: Particle, k: nat): Particle
  {
    if k == 0 then p else StepParticle(StepN(p, k - 1))
  }

  /** Pure linear integration and exponential decay: each attribute after k frames in closed form. */
  lemma {:induction false} StepNAttributes(p: Particle, k: nat)
    ensures StepN(p, k).x == p.x + k as real * p.vx
    ensures StepN(p, k).y == p.y + k as real * p.vy
    ensures StepN(p, k).r == p.r * Pow(RADIUS_DECAY, k)
    ensures StepN(p, k).alpha == p.alpha * Pow(ALPHA_DECAY, k)
    ensures StepN(p, k).life == p.life + k
    ensures StepN(p, k).vx == p.vx && StepN(p, k).vy == p.vy && StepN(p, k).color == p.color
  {
    if k > 0 {
      StepNAttributes(p, k - 1);
      var q := StepN(p, k - 1);
      assert StepN(p, k) == StepParticle(q);
      var j := (k - 1) as real;
      assert q.x + q.vx == p.x + k as real * p.vx by {
        assert q.x == p.x + j * p.vx && q.vx == p.vx;
      }
      assert q.y + q.vy == p.y + k as real * p.vy by {
        assert q.y == p.y + j * p.vy && q.vy == p.vy;
      }
      DecayStep(p.r, RADIUS_DECAY, k);
      DecayStep(p.alpha, ALPHA_DECAY, k);
    }
  }

  lemma DecayStep(v: real, b: real, k: nat)
    requires 0 < k
    ensures v * Pow(b, k - 1) * b == v * Pow(b, k)
  {
    var a := Pow(b, k - 1);
    assert Pow(b, k) == b * a;
    assert v * a * b == v * (b * a);
  }

  // Powers: the addition law and what it gives for factors in [0, 1]

  lemma {:induction false} PowAdd(b: real, m: nat, n: nat)
    ensures Pow(b, m + n) == Pow(b, m) * Pow(b, n)
  {
    if n > 0 {
      PowAdd(b, m, n - 1);
      assert Pow(b, m + n) == b * Pow(b, m + n - 1);
      assert b * (Pow(b, m) * Pow(b, n - 1)) == Pow(b, m) * (b * Pow(b, n - 1));
    }
  }

  /** A factor in [0, 1] decays: later powers are never larger. */
  lemma PowAntitone(b: real, m: nat, n: nat)
    requires 0.0 <= b <= 1.0 && m <= n
    ensures Pow(b, n) <= Pow(b, m)
  {
    var a := Pow(b, m);
    var c := Pow(b, n - m);
    assert Pow(b, n) == a * c by { PowAdd(b, m, n - m); }
    assert a * c <= a by {
      MulNonNegative(a, 1.0 - c);
      assert a - a * c == a * (1.0 - c);
    }
  }

  /** Interval multiplication on the non-negative reals. */
  lemma ProductBounds(a: real, b: real, la: real, ha: real, lb: real, hb: real)
    requires 0.0 <= la <= a <= ha && 0.0 <= lb <= b <= hb
    ensures la * lb <= a * b <= ha * hb
  {
    MulNonNegative(a - la, b);
    MulNonNegative(la, b - lb);
    assert a * b - la * lb == (a - la) * b + la * (b - lb);
    MulNonNegative(ha - a, b);
    MulNonNegative(ha, hb - b);
    assert ha * hb - a * b == (ha - a) * b + ha * (hb - b);
  }

  /** Bounds on b^k give bounds on b^(2k). */
  lemma PowDouble(b: real, k: nat, lo: real, hi: real)
    requires 0.0 <= lo <= Pow(b, k) <= hi
    ensures lo * lo <= Pow(b, k + k) <= hi * hi
  {
    PowAdd(b, k, k);
    ProductBounds(Pow(b, k), Pow(b, k), lo, hi, lo, hi);
  }

  /** Bounds on b^m and b^n give bounds on b^(m+n). */
  lemma PowSum(b: real, m: nat, n: nat, lm: real, hm: real, ln: real, hn: real)
    requires 0.0 <= lm <= Pow(b, m) <= hm && 0.0 <= ln <= Pow(b, n) <= hn
    ensures lm * ln <= Pow(b, m + n) <= hm * hn
  {
    PowAdd(b, m, n);
    ProductBounds(Pow(b, m), Pow(b, n), lm, hm, ln, hn);
  }

  // 0.92^42 and 0.92^43 by repeated squaring, one interval step per lemma
  // (42 = 32 + 8 + 2); the bounds are decimal roundings of the exact powers.

  lemma Opacity8(b: real)
    requires b == 0.92
    ensures Pow(b, 2) == 0.8464
    ensures 0.5132187 <= Pow(b, 8) <= 0.5132190
  {
    assert Pow(b, 1) == b;
    PowDouble(b, 1, 0.92, 0.92);
    PowDouble(b, 2, 0.8464, 0.8464);
    PowDouble(b, 4, 0.7163929, 0.7163930);
  }

  lemma Opacity32(b: real)
    requires 0.5132187 <= Pow(b, 8) <= 0.5132190
    ensures 0.0693760 <= Pow(b, 32) <= 0.0693763
  {
    PowDouble(b, 8, 0.5132187, 0.5132190);
    PowDouble(b, 16, 0.2633934, 0.2633938);
  }

  lemma Opacity40(b: real)
    requires 0.5132187 <= Pow(b, 8) <= 0.5132190
    requires 0.0693760 <= Pow(b, 32) <= 0.0693763
    ensures 0.0356050 <= Pow(b, 40) <= 0.0356053
  {
    PowSum(b, 32, 8, 0.0693760, 0.0693763, 0.5132187, 0.5132190);
  }

  lemma Opacity42(b: real)
    requires Pow(b, 2) == 0.8464
    requires 0.0356050 <= Pow(b, 40) <= 0.0356053
    ensures 0.0301360 <= Pow(b, 42) <= 0.0301364
  {
    PowSum(b, 40, 2, 0.0356050, 0.0356053, 0.8464, 0.8464);
  }

  lemma Opacity43(b: real)
    requires Pow(b, 1) == 0.92
    requires 0.0301360 <= Pow(b, 42) <= 0.0301364
    ensures Pow(b, 43) <= 0.03
  {
    PowSum(b, 42, 1, 0.0301360, 0.0301364, 0.92, 0.92);
  }

  /** Opacity alone decides the lifetime: 0.92^42 is still above 0.03, 0.92^43 is not. */
  lemma OpacityThreshold(b: real)
    requires b == 0.92
    ensures 0.03 < Pow(b, 42) && Pow(b, 43) <= 0.03
  {
    Opacity8(b);
    Opacity32(b);
    Opacity40(b);
    Opacity42(b);
    assert Pow(b, 1) == 0.92;
    Opacity43(b);
  }

  // 0.95^42 from below, by the same squaring steps.

  lemma Radius8(b: real)
    requires b == 0.95
    ensures Pow(b, 2) == 0.9025
    ensures 0.662 <= Pow(b, 8) <= 1.0
  {
    assert Pow(b, 1) == b;
    PowDouble(b, 1, 0.95, 0.95);
    PowDouble(b, 2, 0.9025, 0.9025);
    PowDouble(b, 4, 0.814, 1.0);
  }

  lemma Radius32(b: real)
    requires 0.662 <= Pow(b, 8) <= 1.0
    requires Pow(b, 16) <= 1.0
    ensures 0.191 <= Pow(b, 32) <= 1.0
  {
    PowDouble(b, 8, 0.662, 1.0);
    PowDouble(b, 16, 0.438, 1.0);
  }

  lemma Radius42(b: real)
    requires Pow(b, 2) == 0.9025
    requires 0.662 <= Pow(b, 8) <= 1.0
    requires 0.191 <= Pow(b, 32) <= 1.0
    ensures 0.1 < Pow(b, 42)
  {
    PowSum(b, 32, 8, 0.191, 1.0, 0.662, 1.0);
    PowSum(b, 40, 2, 0.126, 1.0, 0.9025, 0.9025);
  }

  /** A particle of radius at least 1 still has radius above 0.1 after 42 frames. */
  lemma RadiusThreshold(b: real)
    requires b == 0.95
    ensures 0.1 < Pow(b, 42)
  {
    Radius8(b);
    Radius32(b);
    Radius42(b);
  }

  /** From LIFETIME frames on, the opacity of a particle born at 1 is at most 0.03. */
  lemma AlphaExpired(k: nat)
    requires LIFETIME <= k
    ensures Pow(ALPHA_DECAY, k) <= MIN_ALPHA
  {
    OpacityThreshold(0.92);
    PowAntitone(0.92, 43, k);
  }

  /** The visibility threshold: a stepped particle is kept iff it is still visible. */
  predicate Alive(p: Particle) {
    p.alpha > MIN_ALPHA && p.r > MIN_RADIUS
  }

  /**
   * What every particle of the live set keeps from its creation: the radius
   * band, the speed band, the palette, and opacity 0.92^life.
   */
  ghost predicate Consistent(p: Particle) {
    && 0.0 <= p.r < 3.0
    && p.alpha == Pow(ALPHA_DECAY, p.life)
    && 1.0 <= p.vx * p.vx + p.vy * p.vy < 9.0
    && p.color in COLORS
  }

  lemma MakeParticleConsistent(x: real, y: real, d: BurstDraws)
    ensures Consistent(MakeParticle(x, y, d)) && Alive(MakeParticle(x, y, d))
  {
  }

  lemma StepPreservesConsistent(p: Particle)
    requires Consistent(p)
    ensures Consistent(StepParticle(p))
  {
    assert Pow(ALPHA_DECAY, p.life + 1) == ALPHA_DECAY * Pow(ALPHA_DECAY, p.life);
  }

  /** Expiry is guaranteed: a live particle is fewer than LIFETIME frames old. */
  lemma LiveParticleIsYoung(p: Particle)
    requires Consistent(p) && Alive(p)
    ensures p.life < LIFETIME
  {
    if p.life >= LIFETIME {
      AlphaExpired(p.life);
      assert false;
    }
  }

  /** Before LIFETIME frames have passed, a burst particle is still visible. */
  lemma BurstVisible(p: Particle, k: nat)
    requires p.alpha == 1.0 && 1.0 <= p.r && k < LIFETIME
    ensures Alive(StepN(p, k))
  {
    StepNAttributes(p, k);
    var s := Pow(RADIUS_DECAY, k);
    assert MIN_ALPHA < Pow(ALPHA_DECAY, k) by {
      OpacityThreshold(0.92);
      PowAntitone(0.92, k, 42);
    }
    assert MIN_RADIUS < s by {
      RadiusThreshold(0.95);
      PowAntitone(0.95, k, 42);
    }
    assert s <= p.r * s by {
      MulNonNegative(p.r - 1.0, s);
      assert p.r * s - s == (p.r - 1.0) * s;
    }
    assert StepN(p, k).alpha == Pow(ALPHA_DECAY, k) && StepN(p, k).r == p.r * s;
  }

  /**
   * The exact lifetime of a burst particle: k frames after its creation it is
   * still visible exactly when k < LIFETIME. The radius (at least 1 at birth)
   * never decides it; the opacity 0.92^k does.
   */
  lemma BurstLifetime(x: real, y: real, d: BurstDraws, k: nat)
    ensures Alive(StepN(MakeParticle(x, y, d), k)) <==> k < LIFETIME
  {
    var p := MakeParticle(x, y, d);
    if k < LIFETIME {
      BurstVisible(p, k);
    } else {
      StepNAttributes(p, k);
      AlphaExpired(k);
    }
  }

  /** The live set after one frame: every particle stepped, the visible ones kept in their order. */
  function Survivors(ps: seq<Particle>): (out: seq<Particle>)
  {
    if ps == [] then []
    else
      var q := StepParticle(ps[|ps| - 1]);
      Survivors(ps[..|ps| - 1]) + (if Alive(q) then [q] else [])
  }

  /** The positions, in ascending order, of the particles that survive a frame. */
  function KeptIndices(ps: seq<Particle>): seq<nat>
  {
    if ps == [] then []
    else KeptIndices(ps[..|ps| - 1]) + (if Alive(StepParticle(ps[|ps| - 1])) then [|ps| - 1] else [])
  }

  /** Kept positions lie inside the sequence, ascend, and are exactly those whose stepped particle is alive. */
  lemma {:induction false} KeptIndicesExact(ps: seq<Particle>)
    ensures |KeptIndices(ps)| <= |ps|
    ensures forall k :: 0 <= k < |KeptIndices(ps)| ==> KeptIndices(ps)[k] < |ps|
    ensures forall a, b :: 0 <= a < b < |KeptIndices(ps)| ==> KeptIndices(ps)[a] < KeptIndices(ps)[b]
    ensures forall j :: 0 <= j < |ps| ==> (j in KeptIndices(ps) <==> Alive(StepParticle(ps[j])))
  {
    if ps != [] {
      var n := |ps| - 1;
      var init := ps[..n];
      KeptIndicesExact(init);
      var kept := KeptIndices(init);
      assert KeptIndices(ps) == kept + (if Alive(StepParticle(ps[n])) then [n] else []);
      assert n !in kept;
      forall j | 0 <= j < n
        ensures j in KeptIndices(ps) <==> Alive(StepParticle(ps[j]))
      {
        assert init[j] == ps[j];
      }
    }
  }

  /**
   * Survivors is an order-preserving filter: its k-th element is the stepped
   * particle at the k-th kept position.
   */
  lemma {:induction false} SurvivorsFilter(ps: seq<Particle>)
    ensures |Survivors(ps)| == |KeptIndices(ps)| <= |ps|
    ensures forall k :: 0 <= k < |KeptIndices(ps)| ==>
      KeptIndices(ps)[k] < |ps| && Survivors(ps)[k] == StepParticle(ps[KeptIndices(ps)[k]])
  {
    KeptIndicesExact(ps);
    if ps != [] {
      var n := |ps| - 1;
      var init := ps[..n];
      SurvivorsFilter(init);
      KeptIndicesExact(init);
      var q := StepParticle(ps[n]);
      assert Survivors(ps) == Survivors(init) + (if Alive(q) then [q] else []);
      assert KeptIndices(ps) == KeptIndices(init) + (if Alive(q) then [n] else []);
      forall k | 0 <= k < |KeptIndices(init)|
        ensures Survivors(ps)[k] == StepParticle(ps[KeptIndices(ps)[k]])
      {
        assert init[KeptIndices(init)[k]] == ps[KeptIndices(init)[k]];
      }
    }
  }

  /** Every survivor is alive, and the live count never grows within a frame. */
  lemma SurvivorsShrink(ps: seq<Particle>)
    ensures |Survivors(ps)| <= |ps|
    ensures forall q :: q in Survivors(ps) ==> Alive(q)
  {
    SurvivorsFilter(ps);
    KeptIndicesExact(ps);
    forall q | q in Survivors(ps)
      ensures Alive(q)
    {
      var k :| 0 <= k < |Survivors(ps)| && Survivors(ps)[k] == q;
      assert KeptIndices(ps)[k] in KeptIndices(ps);
    }
  }

  /** createBurst's loop: count particles at (x, y), one draw record each, in order. */
  method BuildBurst(x: real, y: real, count: nat, draws: seq<BurstDraws>) returns (ps: seq<Particle>)
    requires |draws| == count
    ensures |ps| == count
    ensures forall i :: 0 <= i < count ==> ps[i] == MakeParticle(x, y, draws[i])
    ensures forall i :: 0 <= i < count ==>
      ps[i].x == x && ps[i].y == y && ps[i].alpha == 1.0 && ps[i].life == 0 && Sampled(ps[i].r, 1.0, 3.0)
  {
    ps := [];
    for i := 0 to count
      invariant |ps| == i
      invariant forall j :: 0 <= j < i ==> ps[j] == MakeParticle(x, y, draws[j])
    {
      ps := ps + [MakeParticle(x, y, draws[i])];
    }
  }
}
