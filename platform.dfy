/**
 * Platforms: immovable, centre-based surfaces. Every field is fixed at
 * construction (the width and height come from the platform image), so a
 * platform is a value.
 */
module Platforms {
  import opened Geometry
  import opened Wrappers

  datatype Platform = Platform(x: real, y: real, width: real, height: real) {
    predicate Valid() { width > 0.0 && height > 0.0 }

    /** The y coordinate of the platform's upper edge. */
    function TopY(): (t: real)
      ensures t + height / 2.0 == y
    {
      y - height / 2.0
    }

    /** The centre-based box, whose upper edge is `TopY()`. */
    function BoundingBox(): (r: Rect)
      ensures r == CentredAt(x, y, width, height)
      ensures r.top == TopY() && r.Bottom() == y + height / 2.0
    {
      CentredAt(x, y, width, height)
    }
  }

  /** The index of the first platform, in array order, whose box intersects `box`. */
  function FirstHit(box: Rect, ps: seq<Platform>): (r: Option<nat>)
    ensures r.Some? ==> r.value < |ps| && Intersects(box, ps[r.value].BoundingBox())
    ensures r.Some? ==> forall j :: 0 <= j < r.value ==> !Intersects(box, ps[j].BoundingBox())
    ensures r.None? <==> forall j :: 0 <= j < |ps| ==> !Intersects(box, ps[j].BoundingBox())
  {
    if ps == [] then None
    else if Intersects(box, ps[0].BoundingBox()) then Some(0)
    else
      match FirstHit(box, ps[1..])
      case None => None
      case Some(k) => Some(k + 1)
  }

  /** A linear scan that has passed `i` misses and meets a hit stops at the first hit. */
  lemma FirstHitAt(box: Rect, ps: seq<Platform>, i: nat)
    requires i < |ps| && Intersects(box, ps[i].BoundingBox())
    requires forall j :: 0 <= j < i ==> !Intersects(box, ps[j].BoundingBox())
    ensures FirstHit(box, ps) == Some(i)
  {
  }

  /** The `for (Platform p : platforms) if (box.intersects(...)) { ...; break; }` scan. */
  method FindFirstHit(box: Rect, ps: seq<Platform>) returns (r: Option<nat>)
    ensures r == FirstHit(box, ps)
  {
    var i := 0;
    while i < |ps|
      invariant 0 <= i <= |ps|
      invariant forall j :: 0 <= j < i ==> !Intersects(box, ps[j].BoundingBox())
    {
      if Intersects(box, ps[i].BoundingBox()) {
        FirstHitAt(box, ps, i);
        return Some(i);
      }
      i := i + 1;
    }
    return None;
  }
}

/**
 * Falling-body integration, shared by barrels, ladders, the boss and the
 * vertical half of a monkey's update: add gravity, cap the velocity at the
 * terminal velocity, move, and rest on the first intersecting platform.
 */
module Falling {
  import opened Geometry
  import opened Wrappers
  import opened Physics
  import opened Platforms

  /** The vertical part of a body's state. */
  datatype Motion = Motion(y: real, vy: real)

  /** Velocity first, then position: `v += g; v = min(v, T); y += v` (barrels, ladders). */
  function Integrate(m: Motion, gravity: real, terminal: real): (r: Motion)
    ensures r.vy == Cap(m.vy + gravity, terminal)
    ensures r.y - m.y == r.vy
  {
    var v := Cap(m.vy + gravity, terminal);
    Motion(m.y + v, v)
  }

  /** The boss's order: `v += g; y += v; v = min(v, T)`, so the body moves by the uncapped velocity. */
  function IntegrateThenCap(m: Motion, gravity: real, terminal: real): (r: Motion)
    ensures r.vy == Cap(m.vy + gravity, terminal)
    ensures r.y - m.y == m.vy + gravity
  {
    Motion(m.y + m.vy + gravity, Cap(m.vy + gravity, terminal))
  }

  /** Rest a centre-based body of size (w, h) at column x on the first platform its box meets. */
  function Settle(m: Motion, x: real, w: real, h: real, ps: seq<Platform>): (r: Motion)
    ensures FirstHit(CentredAt(x, m.y, w, h), ps).None? ==> r == m
    ensures FirstHit(CentredAt(x, m.y, w, h), ps).Some? ==>
              r.vy == 0.0 && r.y + h / 2.0 == ps[FirstHit(CentredAt(x, m.y, w, h), ps).value].TopY()
  {
    match FirstHit(CentredAt(x, m.y, w, h), ps)
    case None => m
    case Some(k) => Motion(ps[k].TopY() - h / 2.0, 0.0)
  }

  /** One frame of a capped body (barrel, ladder): it either moved by the capped velocity and
      kept it, or came to rest. */
  function FallStep(m: Motion, x: real, w: real, h: real, gravity: real, terminal: real, ps: seq<Platform>): (r: Motion)
    ensures r == Integrate(m, gravity, terminal) || r.vy == 0.0
  {
    Settle(Integrate(m, gravity, terminal), x, w, h, ps)
  }

  /** After a frame the velocity never exceeds the terminal velocity, and a body that met a
      platform rests exactly on the first one it met, with its bottom edge on that platform's top. */
  lemma FallStepFacts(m: Motion, x: real, w: real, h: real, gravity: real, terminal: real, ps: seq<Platform>)
    requires terminal > 0.0
    ensures FallStep(m, x, w, h, gravity, terminal, ps).vy <= terminal
    ensures var moved := Integrate(m, gravity, terminal);
            var hit := FirstHit(CentredAt(x, moved.y, w, h), ps);
            var r := FallStep(m, x, w, h, gravity, terminal, ps);
            (hit.None? ==> r.y == m.y + Cap(m.vy + gravity, terminal) && r.vy == Cap(m.vy + gravity, terminal))
            && (hit.Some? ==>
                  && r.y + h / 2.0 == ps[hit.value].TopY() && r.vy == 0.0
                  && forall j :: 0 <= j < hit.value ==> !Intersects(CentredAt(x, moved.y, w, h), ps[j].BoundingBox()))
  {
  }

  /** The shared update loop: integrate, then scan the platforms and rest on the first one met. */
  method FallScan(m: Motion, x: real, w: real, h: real, gravity: real, terminal: real, ps: seq<Platform>)
    returns (r: Motion)
    ensures r == FallStep(m, x, w, h, gravity, terminal, ps)
  {
    var vy := m.vy + gravity;
    if vy > terminal {
      vy := terminal;
    }
    r := SettleScan(Motion(m.y + vy, vy), x, w, h, ps);
  }

  /** The platform scan alone: rest on the first platform the body's box meets. */
  method SettleScan(m: Motion, x: real, w: real, h: real, ps: seq<Platform>) returns (r: Motion)
    ensures r == Settle(m, x, w, h, ps)
  {
    var hit := FindFirstHit(CentredAt(x, m.y, w, h), ps);
    r := m;
    if hit.Some? {
      var p := ps[hit.value];
      r := Motion(p.y - p.height / 2.0 - h / 2.0, 0.0);
    }
  }

  /** n frames with no platform at all. */
  function FreeFall(m: Motion, gravity: real, terminal: real, n: nat): Motion
  {
    if n == 0 then m else Integrate(FreeFall(m, gravity, terminal, n - 1), gravity, terminal)
  }

  /** The velocity n frames of gravity add, one frame at a time. */
  function Gained(n: nat, gravity: real): real
  {
    if n == 0 then 0.0 else Gained(n - 1, gravity) + gravity
  }

  /** n frames of gravity add n times the gravity. */
  lemma {:induction false} GainedIsProduct(n: nat, gravity: real)
    ensures Gained(n, gravity) == (n as real) * gravity
  {
    if n > 0 {
      GainedIsProduct(n - 1, gravity);
      assert (n as real) * gravity == ((n - 1) as real) * gravity + gravity;
    }
  }

  /** From rest, with nothing to land on, the velocity after n frames is the capped sum of n
      frames of gravity. */
  lemma {:induction false} FreeFallGained(m: Motion, gravity: real, terminal: real, n: nat)
    requires gravity > 0.0 && terminal > 0.0 && m.vy == 0.0
    ensures FreeFall(m, gravity, terminal, n).vy == Cap(Gained(n, gravity), terminal)
  {
    if n > 0 {
      FreeFallGained(m, gravity, terminal, n - 1);
      CapAbsorbs(Gained(n - 1, gravity), gravity, terminal);
    }
  }

  /** From rest, with nothing to land on, the velocity after n frames is min(n * gravity, terminal):
      it grows by gravity each frame until it reaches exactly the terminal velocity, then stays there. */
  lemma FreeFallVelocity(m: Motion, gravity: real, terminal: real, n: nat)
    requires gravity > 0.0 && terminal > 0.0 && m.vy == 0.0
    ensures FreeFall(m, gravity, terminal, n).vy == Cap((n as real) * gravity, terminal)
  {
    FreeFallGained(m, gravity, terminal, n);
    GainedIsProduct(n, gravity);
  }

  /** While below the terminal velocity a free-falling body strictly speeds up; at it, it stays. */
  lemma FreeFallMonotone(m: Motion, gravity: real, terminal: real)
    requires gravity > 0.0 && m.vy <= terminal
    ensures m.vy < terminal ==> Integrate(m, gravity, terminal).vy > m.vy
    ensures m.vy == terminal ==> Integrate(m, gravity, terminal).vy == terminal
  {
  }
}
