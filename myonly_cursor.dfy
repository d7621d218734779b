/**
 * myonly/cursor.js, class `CursorParticleManager`: a main particle follows
 * the pointer; a left press kills it and drops a falling copy; dead
 * particles fade out and are removed, and the pool keeps at most ten.
 * Random sizes, colours and shapes, the clock and the window size are
 * parameters; the styling is not modelled.
 */
module MyonlyCursor {
  import opened Wrappers
  import opened Records

  datatype State = Alive | Dying | Falling | Dead

  /** A particle record; `hoverTarget` names the hovered element. */
  datatype Particle = Particle(
    x: real, y: real, vx: real, vy: real, size: int, color: string, shape: string,
    opacity: real, state: State, isMain: bool, deathTimer: int,
    hoverTarget: Option<nat>, isHovering: bool)

  const MaxParticles: nat := 10

  /** The record `createParticle` builds: alive, fully opaque, at rest. */
  function NewParticle(x: real, y: real, size: int, color: string, shape: string, isMain: bool): (p: Particle)
    ensures p.state == Alive && p.opacity == 1.0 && p.deathTimer == 0 && !p.isHovering
    ensures p.x == x && p.y == y && p.vx == 0.0 && p.vy == 0.0 && p.isMain == isMain
  {
    Particle(x, y, 0.0, 0.0, size, color, shape, 1.0, Alive, isMain, 0, None, false)
  }

  /** Every particle's `spring` and `friction`. */
  const Spring: real := 0.1
  const Friction: real := 0.85

  /**
   * One `handleMouseMove` step of the spring-follow towards the pointer at
   * (`cx`, `cy`): the velocity is pulled towards the pointer, damped, and
   * added to the position; nothing else about the particle changes.
   */
  function Followed(p: Particle, cx: real, cy: real): (r: Particle)
    ensures r.(x := p.x, y := p.y, vx := p.vx, vy := p.vy) == p
    ensures r.x - r.vx == p.x && r.y - r.vy == p.y
  {
    var vx := (p.vx + (cx - p.x) * Spring) * Friction;
    var vy := (p.vy + (cy - p.y) * Spring) * Friction;
    p.(vx := vx, vy := vy, x := p.x + vx, y := p.y + vy)
  }

  /** A particle at rest on the pointer stays where it is. */
  lemma FollowAtRest(p: Particle)
    requires p.vx == 0.0 && p.vy == 0.0
    ensures Followed(p, p.x, p.y) == p
  {
  }

  /**
   * From rest, one move covers 8.5 % of the way to the pointer on each axis,
   * so the particle approaches the pointer without reaching or passing it.
   */
  lemma FollowFromRest(p: Particle, cx: real, cy: real)
    requires p.vx == 0.0 && p.vy == 0.0
    ensures Followed(p, cx, cy).x - p.x == (cx - p.x) * 0.085
    ensures Followed(p, cx, cy).y - p.y == (cy - p.y) * 0.085
    ensures p.x < cx ==> p.x < Followed(p, cx, cy).x < cx
    ensures cx < p.x ==> cx < Followed(p, cx, cy).x < p.x
  {
  }

  /** `getRandomSize` for a `Math.random()` result `r`: a whole number from 30 to 120. */
  function RandomSize(r: real): (size: int)
    requires 0.0 <= r < 1.0
    ensures 30 <= size <= 120
  {
    (r * 91.0).Floor + 30
  }

  /** `updateMainParticle`: a dying particle's timer drops by 16 a frame, and it is dead once that reaches 0. */
  function StepMain(p: Particle): Particle {
    if p.state == Dying then
      var t := p.deathTimer - 16;
      p.(deathTimer := t, state := if t <= 0 then Dead else Dying)
    else p
  }

  /** `n` frames of `updateMainParticle`. */
  function StepMainTimes(p: Particle, n: nat): Particle
    decreases n
  {
    if n == 0 then p else StepMain(StepMainTimes(p, n - 1))
  }

  /**
   * A dying main particle is dead after `n` frames exactly when its timer
   * is at most `16·n`; until then the timer has dropped by 16 a frame.
   */
  lemma {:induction false} DyingFrames(p: Particle, n: nat)
    requires p.state == Dying && n >= 1
    ensures StepMainTimes(p, n).state == Dead <==> p.deathTimer <= 16 * n
    ensures StepMainTimes(p, n).state != Dead ==>
      StepMainTimes(p, n).state == Dying && StepMainTimes(p, n).deathTimer == p.deathTimer - 16 * n
    ensures StepMainTimes(p, n).state == Dead || StepMainTimes(p, n).state == Dying
    decreases n
  {
    if n > 1 {
      DyingFrames(p, n - 1);
    }
  }

  /** A press gives 200 ms: the main particle dies on the thirteenth frame, not before. */
  lemma PressTakesThirteenFrames(p: Particle)
    requires p.state == Dying && p.deathTimer == 200
    ensures StepMainTimes(p, 12).state == Dying && StepMainTimes(p, 13).state == Dead
  {
    DyingFrames(p, 12);
    DyingFrames(p, 13);
  }

  /**
   * `updateParticle` in a window `innerHeight` high: a falling particle
   * moves down by a sixtieth of its speed and dies once it is below the
   * window by its size; a dead particle loses 0.05 of opacity.
   */
  function Step(p: Particle, innerHeight: real): (r: Particle)
    ensures p.state == Alive || p.state == Dying ==> r == p
    ensures p.state == Dead ==> r == p.(opacity := p.opacity - 0.05)
    ensures p.state == Falling ==>
      (r.y == p.y + p.vy / 60.0
       && (r.state == Dead <==> r.y > innerHeight + p.size as real)
       && (r.state != Dead ==> r == p.(y := r.y))
       && (r.state == Dead ==> r == p.(y := r.y, state := Dead, opacity := p.opacity - 0.05)))
  {
    var q := if p.state == Falling then
      var y := p.y + p.vy / 60.0;
      p.(y := y, state := if y > innerHeight + p.size as real then Dead else Falling)
    else p;
    if q.state == Dead then q.(opacity := q.opacity - 0.05) else q
  }

  /** `n` frames of `updateParticle`. */
  function StepTimes(p: Particle, innerHeight: real, n: nat): Particle
    decreases n
  {
    if n == 0 then p else Step(StepTimes(p, innerHeight, n - 1), innerHeight)
  }

  /** A dead particle stays dead and loses 0.05 of opacity every frame. */
  lemma {:induction false} DeadFades(p: Particle, innerHeight: real, n: nat)
    requires p.state == Dead
    ensures StepTimes(p, innerHeight, n) == p.(opacity := p.opacity - 0.05 * n as real)
    decreases n
  {
    if n > 0 {
      DeadFades(p, innerHeight, n - 1);
    }
  }

  /** A particle that died fully opaque is removed by the clean-up after twenty more frames, and not before. */
  lemma FadedAfterTwentyFrames(p: Particle, innerHeight: real)
    requires p.state == Dead && p.opacity == 1.0
    ensures Unfinished(StepTimes(p, innerHeight, 19)) && !Unfinished(StepTimes(p, innerHeight, 20))
  {
    DeadFades(p, innerHeight, 19);
    DeadFades(p, innerHeight, 20);
  }

  /** A particle `cleanupParticles` keeps: one that is not both dead and faded out. */
  predicate Unfinished(p: Particle) { !(p.state == Dead && p.opacity <= 0.0) }

  /** The particles `cleanupOffscreenParticles` keeps: those at most 100 pixels outside the window. */
  function OnScreen(innerWidth: real, innerHeight: real): Particle -> bool {
    (p: Particle) => !(p.y > innerHeight + 100.0 || p.y < -100.0 || p.x > innerWidth + 100.0 || p.x < -100.0)
  }

  /** The newest `MaxParticles` of `s`, which is what the `shift` loop leaves. */
  function Newest(s: seq<Particle>): (r: seq<Particle>)
    ensures |r| <= MaxParticles && (|s| <= MaxParticles ==> r == s)
    ensures exists k :: 0 <= k <= |s| && r == s[k..]
  {
    if |s| <= MaxParticles then (assert s == s[0..]; s) else s[|s| - MaxParticles..]
  }

  /** The pool `cleanupParticles` leaves: the newest ten particles that are not finished, in order. */
  function Cleaned(s: seq<Particle>): (r: seq<Particle>)
    ensures |r| <= MaxParticles
    ensures forall i :: 0 <= i < |r| ==> r[i] in s && Unfinished(r[i])
  {
    Newest(Filter(s, Unfinished))
  }

  /** One pass of the backwards `splice` loop, at index `i`. */
  function SpliceStep(s: seq<Particle>, i: nat, keep: Particle -> bool, cur: seq<Particle>): (r: seq<Particle>)
    requires i < |s| && cur == s[..i + 1] + Filter(s[i + 1..], keep)
    ensures r == s[..i] + Filter(s[i..], keep)
  {
    SpliceAt(s, i, keep, cur);
    if keep(s[i]) then cur else cur[..i] + cur[i + 1..]
  }

  lemma SpliceAt<T>(s: seq<T>, i: nat, keep: T -> bool, cur: seq<T>)
    requires i < |s| && cur == s[..i + 1] + Filter(s[i + 1..], keep)
    ensures keep(s[i]) ==> cur == s[..i] + Filter(s[i..], keep)
    ensures !keep(s[i]) ==> cur[..i] + cur[i + 1..] == s[..i] + Filter(s[i..], keep)
  {
    var a, x, f := s[..i], s[i], Filter(s[i + 1..], keep);
    FilterFirst(s[i..], keep);
    assert s[i..][1..] == s[i + 1..];
    assert s[..i + 1] == a + [x];
    assert cur == (a + [x]) + f;
    if keep(x) {
      assert Filter(s[i..], keep) == [x] + f;
      assert (a + [x]) + f == a + ([x] + f);
    } else {
      assert Filter(s[i..], keep) == f;
      assert cur[..i] == a;
      assert cur[i + 1..] == f;
    }
  }

  class CursorParticleManager {
    /** The pool; the main particle is not in it. */
    var particles: seq<Particle>
    var mainParticle: Option<Particle>

    /**
     * The constructor and `init`: on a mobile user agent nothing is set up
     * and there is no main particle; on a desktop one main particle starts
     * in the middle of the window.
     */
    constructor (isMobile: bool, innerWidth: real, innerHeight: real, size: int, color: string, shape: string)
      ensures particles == []
      ensures isMobile ==> mainParticle.None?
      ensures !isMobile ==> mainParticle == Some(NewParticle(innerWidth / 2.0, innerHeight / 2.0, size, color, shape, true))
    {
      particles := [];
      if isMobile {
        mainParticle := None;
      } else {
        mainParticle := Some(NewParticle(innerWidth / 2.0, innerHeight / 2.0, size, color, shape, true));
      }
    }

    /** `createParticle`: only a particle that is not the main one joins the pool. */
    method CreateParticle(x: real, y: real, size: int, color: string, shape: string, isMain: bool) returns (p: Particle)
      modifies this`particles
      ensures p == NewParticle(x, y, size, color, shape, isMain)
      ensures particles == if isMain then old(particles) else old(particles) + [p]
    {
      p := NewParticle(x, y, size, color, shape, isMain);
      if !isMain {
        particles := particles + [p];
      }
    }

    /**
     * `handleMouseClick` for the left button: the main particle starts
     * dying with 200 ms left, and a falling copy of it, at 50 pixels a
     * second, joins the pool.
     */
    method HandleMouseClick()
      modifies this`particles, this`mainParticle
      ensures old(mainParticle).None? ==> particles == old(particles) && mainParticle == old(mainParticle)
      ensures old(mainParticle).Some? ==>
        var m := old(mainParticle).value;
        mainParticle == Some(m.(state := Dying, deathTimer := 200))
        && particles == old(particles) + [NewParticle(m.x, m.y, m.size, m.color, m.shape, false).(state := Falling, vy := 50.0)]
    {
      if mainParticle.None? {
        return;
      }
      var m := mainParticle.value.(state := Dying, deathTimer := 200);
      mainParticle := Some(m);
      var falling := CreateParticle(m.x, m.y, m.size, m.color, m.shape, false);
      particles := particles[|particles| - 1 := falling.(state := Falling, vy := 50.0)];
    }

    /** `handleMouseMove` to (`cx`, `cy`): the main particle takes one spring-follow step; with none nothing changes. */
    method HandleMouseMove(cx: real, cy: real)
      modifies this`mainParticle
      ensures old(mainParticle).None? ==> mainParticle.None?
      ensures old(mainParticle).Some? ==> mainParticle == Some(Followed(old(mainParticle).value, cx, cy))
    {
      if mainParticle.None? {
        return;
      }
      mainParticle := Some(Followed(mainParticle.value, cx, cy));
    }

    /** `createNewMainParticle`, 200 ms after a press: a new main particle where the pointer was pressed. */
    method CreateNewMainParticle(x: real, y: real, size: int, color: string, shape: string)
      modifies this`mainParticle
      ensures mainParticle == Some(NewParticle(x, y, size, color, shape, true))
    {
      mainParticle := Some(NewParticle(x, y, size, color, shape, true));
    }

    /** `handleMouseOver`: a clickable target is taken only when none is hovered yet. */
    method HandleMouseOver(target: nat, isClickable: bool)
      modifies this`mainParticle
      ensures old(mainParticle).Some? && isClickable && !old(mainParticle).value.isHovering ==>
        mainParticle == Some(old(mainParticle).value.(isHovering := true, hoverTarget := Some(target)))
      ensures !(old(mainParticle).Some? && isClickable && !old(mainParticle).value.isHovering) ==>
        mainParticle == old(mainParticle)
    {
      if mainParticle.Some? && isClickable && !mainParticle.value.isHovering {
        mainParticle := Some(mainParticle.value.(isHovering := true, hoverTarget := Some(target)));
      }
    }

    /** `handleMouseOut`: hovering ends only when the pointer leaves the hovered target itself. */
    method HandleMouseOut(target: nat)
      modifies this`mainParticle
      ensures old(mainParticle).Some? && old(mainParticle).value.hoverTarget == Some(target) && old(mainParticle).value.isHovering ==>
        mainParticle == Some(old(mainParticle).value.(isHovering := false, hoverTarget := None))
      ensures !(old(mainParticle).Some? && old(mainParticle).value.hoverTarget == Some(target) && old(mainParticle).value.isHovering) ==>
        mainParticle == old(mainParticle)
    {
      if mainParticle.Some? && mainParticle.value.hoverTarget == Some(target) && mainParticle.value.isHovering {
        mainParticle := Some(mainParticle.value.(isHovering := false, hoverTarget := None));
      }
    }

    /** `updateParticles`: one frame for the main particle and, from the last to the first, for the pool. */
    method UpdateParticles(innerHeight: real)
      modifies this`particles, this`mainParticle
      ensures mainParticle == if old(mainParticle).Some? then Some(StepMain(old(mainParticle).value)) else None
      ensures |particles| == |old(particles)|
      ensures forall i :: 0 <= i < |particles| ==> particles[i] == Step(old(particles)[i], innerHeight)
    {
      if mainParticle.Some? {
        mainParticle := Some(StepMain(mainParticle.value));
      }
      var m := mainParticle;
      var i := |particles|;
      while i > 0
        invariant mainParticle == m
        invariant 0 <= i <= |particles| == |old(particles)|
        invariant forall j :: 0 <= j < i ==> particles[j] == old(particles)[j]
        invariant forall j :: i <= j < |particles| ==> particles[j] == Step(old(particles)[j], innerHeight)
      {
        i := i - 1;
        particles := particles[i := Step(particles[i], innerHeight)];
      }
    }

    /** The backwards `splice` loop shared by both clean-ups: the particles `keep` rejects leave the pool, the rest keep their order. */
    method SpliceUnless(keep: Particle -> bool)
      modifies this`particles
      ensures particles == Filter(old(particles), keep)
    {
      var s := particles;
      var r := s;
      var i := |s|;
      while i > 0
        invariant 0 <= i <= |s|
        invariant r == s[..i] + Filter(s[i..], keep)
      {
        i := i - 1;
        r := SpliceStep(s, i, keep, r);
      }
      assert s[0..] == s;
      particles := r;
    }

    /** `cleanupParticles`: finished particles go, then the oldest until ten remain. */
    method CleanupParticles()
      modifies this`particles
      ensures particles == Cleaned(old(particles))
    {
      SpliceUnless(Unfinished);
      var f := particles;
      while |particles| > MaxParticles
        invariant |particles| <= |f| && particles == f[|f| - |particles|..]
        invariant |f| > MaxParticles ==> |particles| >= MaxParticles
        invariant |f| <= MaxParticles ==> particles == f
        decreases |particles|
      {
        particles := particles[1..];
      }
      assert |f| > MaxParticles ==> |particles| == MaxParticles;
    }

    /** `cleanupOffscreenParticles` after a window resize. */
    method CleanupOffscreenParticles(innerWidth: real, innerHeight: real)
      modifies this`particles
      ensures particles == Filter(old(particles), OnScreen(innerWidth, innerHeight))
    {
      SpliceUnless(OnScreen(innerWidth, innerHeight));
    }
  }
}
