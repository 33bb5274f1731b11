/**
 * The simulation state of the Starfield component and its transitions: the
 * mount-time setup, one animation frame, and the pointer, click and resize
 * handlers. Painting, frame scheduling and listener wiring are not modelled.
 */
module Starfield {
  import opened Optional
  import opened Sampling
  import opened Stars
  import opened Particles

  datatype Point = Point(x: real, y: real)

  /**
   * The two event shapes the handlers receive: a mouse event with client
   * coordinates, and a touch event with its active touch points.
   */
  datatype InputEvent = MouseEvent(clientX: real, clientY: real) | TouchEvent(touches: seq<Point>)

  /**
   * The coordinates a handler reads from an event: the first touch when there
   * is one, otherwise the mouse coordinates; a touch event with no active
   * touch carries none.
   */
  function EventPoint(e: InputEvent): (p: Option<Point>)
    ensures p.Some? <==> (e.MouseEvent? || |e.touches| > 0)
    ensures p.Some? && e.MouseEvent? ==> p.value == Point(e.clientX, e.clientY)
    ensures p.Some? && e.TouchEvent? ==> p.value == e.touches[0]
  {
    if e.TouchEvent? && |e.touches| > 0 then Some(e.touches[0])
    else if e.MouseEvent? then Some(Point(e.clientX, e.clientY))
    else None
  }

  class Simulation {
    /** starsRef: the background population. */
    var stars: seq<Star>
    /** clickParticlesRef: the live burst particles, oldest first. */
    var particles: seq<Particle>
    /** mouse: the pointer target of the parallax. */
    var mouseX: real
    var mouseY: real
    /** widthRef and heightRef: the surface dimensions. */
    var width: real
    var height: real

    /**
     * The state invariant: a full layered star population for the current
     * surface, and only consistent, visible burst particles.
     */
    ghost predicate Valid()
      reads this
    {
      && 0.0 <= width && 0.0 <= height
      && Population(stars, width, height)
      && forall k :: 0 <= k < |particles| ==> Consistent(particles[k]) && Alive(particles[k])
    }

    /** The parallax offset of a star of the given layer under the current pointer. */
    function Offset(layer: nat): (real, real)
      reads this
    {
      Parallax(mouseX, mouseY, width, height, layer)
    }

    /**
     * Mounting on a width x height viewport: the pointer starts at the centre
     * (so no star is offset), there are no particles, and the stars are
     * createStars(width, height).
     */
    constructor Mount(w: real, h: real, draws: seq<StarDraws>)
      requires 0.0 <= w && 0.0 <= h && |draws| == STAR_COUNT
      ensures Valid()
      ensures width == w && height == h && particles == []
      ensures mouseX == w / 2.0 && mouseY == h / 2.0
      ensures forall layer: nat :: Offset(layer) == (0.0, 0.0)
      ensures |stars| == STAR_COUNT
      ensures forall k :: 0 <= k < |stars| ==> stars[k] == MakeStar(k / PER_LAYER, w, h, draws[k])
    {
      var initial := CreateStars(w, h, draws);
      stars := initial;
      particles := [];
      mouseX, mouseY := w / 2.0, h / 2.0;
      width, height := w, h;
      new;
      forall layer: nat
        ensures Offset(layer) == (0.0, 0.0)
      {
        ParallaxZeroIffCentred(mouseX, mouseY, width, height, layer);
      }
    }

    /**
     * One animation frame: every star drifts (wrapDraws[k] is the draw used
     * for the fresh y if star k wraps) and the burst particles are stepped and
     * filtered. The surface and the pointer are untouched.
     */
    method Tick(wrapDraws: seq<Uniform>)
      requires Valid() && |wrapDraws| == |stars|
      modifies this`stars, this`particles
      ensures Valid()
      ensures width == old(width) && height == old(height) && mouseX == old(mouseX) && mouseY == old(mouseY)
      ensures |stars| == |old(stars)|
      ensures forall k :: 0 <= k < |stars| ==> stars[k] == DriftStar(old(stars)[k], width, height, wrapDraws[k])
      ensures particles == Survivors(old(particles))
      ensures |particles| <= |old(particles)|
    {
      DriftStars(wrapDraws);
      UpdateParticles();
    }

    /** The star half of a frame: each star drifts in place, in population order. */
    method DriftStars(wrapDraws: seq<Uniform>)
      requires Valid() && |wrapDraws| == |stars|
      modifies this`stars
      ensures Valid()
      ensures |stars| == |old(stars)|
      ensures forall k :: 0 <= k < |stars| ==> stars[k] == DriftStar(old(stars)[k], width, height, wrapDraws[k])
    {
      for k := 0 to |stars|
        invariant |stars| == |old(stars)|
        invariant forall j :: 0 <= j < k ==> stars[j] == DriftStar(old(stars)[j], width, height, wrapDraws[j])
        invariant forall j :: k <= j < |stars| ==> stars[j] == old(stars)[j]
      {
        stars := stars[k := DriftStar(stars[k], width, height, wrapDraws[k])];
      }
      forall j | 0 <= j < |stars|
        ensures stars[j].layer == j / PER_LAYER && WellFormed(stars[j], width, height)
      {
        DriftPreservesWellFormed(old(stars)[j], width, height, wrapDraws[j]);
      }
    }

    /**
     * The particle half of a frame: each particle is stepped, and the visible
     * ones are collected, in order, into the new live set.
     */
    method UpdateParticles()
      requires Valid()
      modifies this`particles
      ensures Valid()
      ensures particles == Survivors(old(particles))
      ensures |particles| <= |old(particles)|
    {
      var live := particles;
      var alive: seq<Particle> := [];
      for k := 0 to |live|
        invariant alive == Survivors(live[..k])
        invariant forall j :: 0 <= j < |alive| ==> Consistent(alive[j]) && Alive(alive[j])
      {
        var p := StepParticle(live[k]);
        assert Consistent(p) by { StepPreservesConsistent(live[k]); }
        assert live[..k + 1][..k] == live[..k];
        if Alive(p) {
          alive := alive + [p];
        }
      }
      assert live[..|live|] == live;
      SurvivorsShrink(live);
      particles := alive;
    }

    /** handleMove: the pointer target is overwritten by the event's coordinates, if it has any. */
    method Move(e: InputEvent)
      requires Valid()
      modifies this`mouseX, this`mouseY
      ensures Valid()
      ensures EventPoint(e).Some? ==> mouseX == EventPoint(e).value.x && mouseY == EventPoint(e).value.y
      ensures EventPoint(e).None? ==> mouseX == old(mouseX) && mouseY == old(mouseY)
    {
      match EventPoint(e)
      case Some(p) =>
        mouseX, mouseY := p.x, p.y;
      case None =>
    }

    /**
     * createBurst(x, y, count): count new particles at (x, y) are appended;
     * the particles already live are kept, unchanged and in order, before them.
     */
    method SpawnBurst(x: real, y: real, count: nat, draws: seq<BurstDraws>)
      requires Valid() && |draws| == count
      modifies this`particles
      ensures Valid()
      ensures |particles| == |old(particles)| + count
      ensures particles[..|old(particles)|] == old(particles)
      ensures forall i :: 0 <= i < count ==> particles[|old(particles)| + i] == MakeParticle(x, y, draws[i])
    {
      var burst := BuildBurst(x, y, count, draws);
      forall i | 0 <= i < count
        ensures Consistent(burst[i]) && Alive(burst[i])
      {
        MakeParticleConsistent(x, y, draws[i]);
      }
      particles := particles + burst;
    }

    /** handleClick: a burst of BURST_SIZE at the event's coordinates; an event without coordinates spawns nothing. */
    method Click(e: InputEvent, draws: seq<BurstDraws>)
      requires Valid() && |draws| == BURST_SIZE
      modifies this`particles
      ensures Valid()
      ensures EventPoint(e).None? ==> particles == old(particles)
      ensures EventPoint(e).Some? ==>
        && |particles| == |old(particles)| + BURST_SIZE
        && particles[..|old(particles)|] == old(particles)
        && forall i :: 0 <= i < BURST_SIZE ==>
             particles[|old(particles)| + i] == MakeParticle(EventPoint(e).value.x, EventPoint(e).value.y, draws[i])
    {
      match EventPoint(e)
      case Some(p) =>
        SpawnBurst(p.x, p.y, BURST_SIZE, draws);
      case None =>
    }

    /**
     * handleResize: the surface takes the new viewport size and the whole
     * star population is rebuilt for it; particles and pointer are untouched.
     */
    method Resize(w: real, h: real, draws: seq<StarDraws>)
      requires Valid() && 0.0 <= w && 0.0 <= h && |draws| == STAR_COUNT
      modifies this`width, this`height, this`stars
      ensures Valid()
      ensures width == w && height == h
      ensures particles == old(particles) && mouseX == old(mouseX) && mouseY == old(mouseY)
      ensures |stars| == STAR_COUNT
      ensures forall k :: 0 <= k < |stars| ==> stars[k] == MakeStar(k / PER_LAYER, w, h, draws[k])
      ensures forall k :: 0 <= k < |stars| ==> Sampled(stars[k].x, 0.0, w) && Sampled(stars[k].y, 0.0, h)
    {
      width, height := w, h;
      stars := CreateStars(w, h, draws);
    }
  }
}
