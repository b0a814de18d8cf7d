/**
 * Patrolling monkeys. The two variants of the source share one state machine
 * and differ by a tag: both walk at 0.5 per frame; only the intelligent one
 * keeps a fire counter and a list of bananas it throws, updates and prunes.
 * A monkey's (x, y) is the top-left corner of its image.
 */
module Monkeys {
  import opened Geometry
  import opened Wrappers
  import opened Physics
  import opened Platforms
  import opened Bananas

  const Gravity: real := 0.4
  const TerminalVelocity: real := 5.0
  const NormalSpeed: real := 0.5
  const IntelligentSpeed: real := 0.5
  const FireInterval: int := 300
  const DefaultRouteDistance: int := 30

  datatype Kind = Normal | Intelligent

  /** `getSpeed()` of each variant. */
  function WalkSpeed(k: Kind): (r: real)
    ensures r == 0.5
  {
    match k
    case Normal => NormalSpeed
    case Intelligent => IntelligentSpeed
  }

  /** `parseRoute`: the parsed distances, or the single default distance when there are no tokens;
      never empty. */
  function ParseRoute(tokens: seq<int>): (r: seq<int>)
    ensures r != []
    ensures tokens == [] ==> r == [DefaultRouteDistance]
    ensures tokens != [] ==> r == tokens
  {
    if |tokens| == 0 then [DefaultRouteDistance] else tokens
  }

  /** The two images; width and height of the monkey are those of the left one. */
  datatype MonkeyLook = MonkeyLook(left: Size, right: Size) {
    predicate Valid() { left.Valid() && right.Valid() }
    function Width(): real { left.w }
    function Height(): real { left.h }
  }

  /** The fields of a monkey that the patrol state machine changes. */
  datatype MonkeyState = MonkeyState(
    x: real, y: real, vy: real,
    landed: bool, dead: bool, movingRight: bool,
    index: int, segment: real)

  /** The route index is a valid position of a non-empty route. */
  predicate IndexOk(s: MonkeyState, route: seq<int>)
  {
    0 <= s.index && (route != [] ==> s.index < |route|)
  }

  /** The one-pixel-high rectangle under the monkey's feet. */
  function Feet(s: MonkeyState, look: MonkeyLook): Rect
  {
    Rect(s.x, s.y + look.Height(), look.Width(), 1.0)
  }

  /** The 1x1 probe just beyond the leading foot after a step to `nextX`. */
  function EdgeProbe(s: MonkeyState, look: MonkeyLook, nextX: real): Rect
  {
    Rect(if s.movingRight then nextX + look.Width() else nextX, s.y + look.Height(), 1.0, 1.0)
  }

  /** The box of the current image, centred on the centre of the monkey. */
  function MonkeyBox(s: MonkeyState, look: MonkeyLook): (r: Rect)
    ensures var img := if s.movingRight then look.right else look.left;
            && r.width == img.w && r.height == img.h
            && r.left + img.w / 2.0 == s.x + look.Width() / 2.0 && r.top + img.h / 2.0 == s.y + look.Height() / 2.0
  {
    var img := if s.movingRight then look.right else look.left;
    CentredAt(s.x + look.Width() / 2.0, s.y + look.Height() / 2.0, img.w, img.h)
  }

  /** The monkey after gravity and the capped velocity were applied, before any platform test. */
  function Fallen(s: MonkeyState): (r: MonkeyState)
    ensures r.vy == Cap(s.vy + Gravity, TerminalVelocity) && r.y == s.y + r.vy && !r.landed
  {
    var v := Cap(s.vy + Gravity, TerminalVelocity);
    s.(landed := false, vy := v, y := s.y + v)
  }

  /** `applyGravity`: landed is recomputed from scratch; the capped velocity moves the monkey;
      on the first platform under its feet it stands with its bottom on that platform's top. */
  function ApplyGravity(s: MonkeyState, look: MonkeyLook, ps: seq<Platform>): (r: MonkeyState)
    ensures r.x == s.x && r.dead == s.dead && r.movingRight == s.movingRight
    ensures r.index == s.index && r.segment == s.segment
    ensures FirstHit(Feet(Fallen(s), look), ps).None? ==> r == Fallen(s)
    ensures FirstHit(Feet(Fallen(s), look), ps).Some? ==>
              && r.landed && r.vy == 0.0
              && r.y + look.Height() == ps[FirstHit(Feet(Fallen(s), look), ps).value].TopY()
  {
    var moved := Fallen(s);
    match FirstHit(Feet(moved, look), ps)
    case None => moved
    case Some(k) => moved.(y := ps[k].TopY() - look.Height(), vy := 0.0, landed := true)
  }

  /** End of a segment: reset the distance, advance the route index (wrapping) and turn. */
  function Turn(s: MonkeyState, n: nat): (r: MonkeyState)
    requires n > 0 && s.index >= 0
    ensures r.x == s.x && r.y == s.y && r.vy == s.vy && r.landed == s.landed && r.dead == s.dead
    ensures r.segment == 0.0 && 0 <= r.index < n && r.movingRight == !s.movingRight
    ensures s.index + 1 < n ==> r.index == s.index + 1
  {
    s.(segment := 0.0, index := (s.index + 1) % n, movingRight := !s.movingRight)
  }

  /** The horizontal position a step in the facing direction leads to. */
  function NextX(s: MonkeyState, kind: Kind): (r: real)
    ensures s.movingRight ==> r == s.x + 0.5
    ensures !s.movingRight ==> r == s.x - 0.5
  {
    s.x + (if s.movingRight then WalkSpeed(kind) else -WalkSpeed(kind))
  }

  /** `move`: one patrol step of a monkey that is alive. */
  function Walk(s: MonkeyState, kind: Kind, look: MonkeyLook, route: seq<int>, ps: seq<Platform>): (r: MonkeyState)
    requires IndexOk(s, route)
    ensures IndexOk(r, route)
    ensures r.y == s.y && r.vy == s.vy && r.landed == s.landed && r.dead == s.dead
  {
    if route == [] then s
    else if !s.landed || FirstHit(Feet(s, look), ps).None? then s
    else if FirstHit(EdgeProbe(s, look, NextX(s, kind)), ps).None? then Turn(s, |route|)
    else
      var moved := s.(x := NextX(s, kind), segment := s.segment + WalkSpeed(kind));
      if moved.segment >= route[s.index] as real then Turn(moved, |route|) else moved
  }

  /** The patrol rules: nothing happens without a route, in the air, or with no platform under
      the feet; when the probe beyond the leading foot finds no platform the monkey turns where it
      stands; otherwise it moves by exactly its speed, and the segment ends (distance reset, next
      route entry, turn) once the distance walked reaches the entry's target. */
  lemma WalkRules(s: MonkeyState, kind: Kind, look: MonkeyLook, route: seq<int>, ps: seq<Platform>)
    requires IndexOk(s, route)
    ensures route == [] || !s.landed || FirstHit(Feet(s, look), ps).None? ==> Walk(s, kind, look, route, ps) == s
    ensures route != [] && s.landed && FirstHit(Feet(s, look), ps).Some?
            && FirstHit(EdgeProbe(s, look, NextX(s, kind)), ps).None? ==>
              Walk(s, kind, look, route, ps)
              == s.(segment := 0.0, index := (s.index + 1) % |route|, movingRight := !s.movingRight)
    ensures route != [] && s.landed && FirstHit(Feet(s, look), ps).Some?
            && FirstHit(EdgeProbe(s, look, NextX(s, kind)), ps).Some? ==>
              var r := Walk(s, kind, look, route, ps);
              && r.x == s.x + (if s.movingRight then 0.5 else -0.5)
              && (s.segment + 0.5 < route[s.index] as real ==>
                    r.segment == s.segment + 0.5 && r.index == s.index && r.movingRight == s.movingRight)
              && (s.segment + 0.5 >= route[s.index] as real ==>
                    r.segment == 0.0 && r.index == (s.index + 1) % |route| && r.movingRight == !s.movingRight)
  {
  }

  /** `update` of either variant, leaving aside the intelligent monkey's bananas:
      gravity always, the patrol only while alive. */
  function MonkeyStep(s: MonkeyState, kind: Kind, look: MonkeyLook, route: seq<int>, ps: seq<Platform>): (r: MonkeyState)
    requires IndexOk(s, route)
    ensures IndexOk(r, route)
    ensures r.dead == s.dead
  {
    var g := ApplyGravity(s, look, ps);
    if g.dead then g else Walk(g, kind, look, route, ps)
  }

  /** A dead monkey still falls but never moves horizontally, and stays dead. */
  lemma DeadMonkeyOnlyFalls(s: MonkeyState, kind: Kind, look: MonkeyLook, route: seq<int>, ps: seq<Platform>)
    requires IndexOk(s, route) && s.dead
    ensures MonkeyStep(s, kind, look, route, ps) == ApplyGravity(s, look, ps)
    ensures MonkeyStep(s, kind, look, route, ps).x == s.x && MonkeyStep(s, kind, look, route, ps).dead
  {
  }

  /** The fire counter of an intelligent monkey after an update whose patrol produced `g`:
      it counts only while alive and landed, and wraps to 0 on reaching the interval. */
  function NextCounter(kind: Kind, g: MonkeyState, counter: int): (c: int)
    requires 0 <= counter < FireInterval
    ensures 0 <= c < FireInterval
    ensures kind == Normal || g.dead || !g.landed ==> c == counter
    ensures kind == Intelligent && !g.dead && g.landed ==>
              (c == 0 <==> counter + 1 == FireInterval) && (c != 0 ==> c == counter + 1)
  {
    if kind == Intelligent && !g.dead && g.landed then
      if counter + 1 >= FireInterval then 0 else counter + 1
    else counter
  }

  /** Whether this update throws a banana. */
  predicate Fires(kind: Kind, g: MonkeyState, counter: int)
    ensures 0 <= counter < FireInterval ==>
              (Fires(kind, g, counter) <==> kind == Intelligent && !g.dead && g.landed && NextCounter(kind, g, counter) == 0)
  {
    kind == Intelligent && !g.dead && g.landed && counter + 1 >= FireInterval
  }

  /** `shootBanana`: from the leading edge, a quarter of the way down, in the facing direction. */
  function Spawn(g: MonkeyState, look: MonkeyLook): (b: BananaState)
    ensures !b.expired && b.distance == 0.0 && b.movingRight == g.movingRight
    ensures b.x == (if g.movingRight then g.x + look.Width() - 5.0 else g.x - 5.0)
    ensures b.y == g.y + 0.25 * look.Height()
  {
    Thrown(if g.movingRight then g.x + look.Width() - 5.0 else g.x - 5.0, g.y + look.Height() * 0.25, g.movingRight)
  }

  /** Every banana advanced by one `update()`. */
  function StepAll(vs: seq<BananaState>): (r: seq<BananaState>)
    ensures |r| == |vs| && forall i :: 0 <= i < |vs| ==> r[i] == BananaStep(vs[i])
  {
    seq(|vs|, i requires 0 <= i < |vs| => BananaStep(vs[i]))
  }

  /** The bananas that have not expired, in their order. */
  function Unexpired(vs: seq<BananaState>): (r: seq<BananaState>)
    ensures |r| <= |vs|
    ensures forall i :: 0 <= i < |r| ==> !r[i].expired
  {
    if vs == [] then []
    else Unexpired(vs[..|vs| - 1]) + (if vs[|vs| - 1].expired then [] else [vs[|vs| - 1]])
  }

  /** The filter keeps exactly the bananas that have not expired: every kept one is live and was
      in the list, and every live one of the list is kept. */
  lemma {:induction false} UnexpiredFacts(vs: seq<BananaState>)
    ensures |Unexpired(vs)| <= |vs|
    ensures forall i :: 0 <= i < |Unexpired(vs)| ==> !Unexpired(vs)[i].expired && Unexpired(vs)[i] in vs
    ensures forall v :: v in vs && !v.expired ==> v in Unexpired(vs)
  {
    if vs != [] {
      var init := vs[..|vs| - 1];
      UnexpiredFacts(init);
      assert vs == init + [vs[|vs| - 1]];
    }
  }

  /** The banana list after the monkey's own part of an update (thrown, advanced, pruned;
      untouched while dead or airborne). */
  function NextBananas(kind: Kind, g: MonkeyState, look: MonkeyLook, counter: int, vs: seq<BananaState>): (r: seq<BananaState>)
    ensures kind == Intelligent && !g.dead && g.landed ==> forall i :: 0 <= i < |r| ==> !r[i].expired
    ensures |r| <= |vs| + (if Fires(kind, g, counter) then 1 else 0)
    ensures kind == Normal || g.dead || !g.landed ==> r == vs
  {
    if kind == Intelligent && !g.dead && g.landed then
      Unexpired(StepAll(vs + (if Fires(kind, g, counter) then [Spawn(g, look)] else [])))
    else vs
  }

  /** After an update while alive and landed no expired banana remains and the list grew by at
      most the one thrown; otherwise the list is neither advanced nor pruned. */
  lemma NextBananasFacts(kind: Kind, g: MonkeyState, look: MonkeyLook, counter: int, vs: seq<BananaState>)
    ensures kind == Intelligent && !g.dead && g.landed ==>
              forall i :: 0 <= i < |NextBananas(kind, g, look, counter, vs)| ==> !NextBananas(kind, g, look, counter, vs)[i].expired
    ensures |NextBananas(kind, g, look, counter, vs)| <= |vs| + (if Fires(kind, g, counter) then 1 else 0)
    ensures kind == Normal || g.dead || !g.landed ==> NextBananas(kind, g, look, counter, vs) == vs
  {
    if kind == Intelligent && !g.dead && g.landed {
      UnexpiredFacts(StepAll(vs + (if Fires(kind, g, counter) then [Spawn(g, look)] else [])));
    }
  }

  /** The states of a list of banana objects. */
  ghost function Views(bs: seq<Banana>): (r: seq<BananaState>)
    reads bs
    ensures |r| == |bs| && forall i :: 0 <= i < |bs| ==> r[i] == bs[i].State()
  {
    seq(|bs|, i requires 0 <= i < |bs| reads bs => bs[i].State())
  }

  /** Distinct live banana objects of one size, all inside the owner's footprint. */
  ghost predicate BananasOk(bs: seq<Banana>, repr: set<Banana>, size: Size)
    reads bs
  {
    && Distinct(bs)
    && (forall i :: 0 <= i < |bs| ==> bs[i] in repr)
    && (forall i :: 0 <= i < |bs| ==> bs[i].Valid() && bs[i].size == size)
  }

  /** `applyGravity` on the monkey's fields: integrate, then the first-hit platform scan. */
  method GravityScan(s: MonkeyState, look: MonkeyLook, ps: seq<Platform>) returns (r: MonkeyState)
    ensures r == ApplyGravity(s, look, ps)
  {
    var vy := s.vy + Gravity;
    if vy > TerminalVelocity {
      vy := TerminalVelocity;
    }
    var ny := s.y + vy;
    var feet := Rect(s.x, ny + look.Height(), look.Width(), 1.0);
    var hit := FindFirstHit(feet, ps);
    var ld := hit.Some?;
    if hit.Some? {
      ny, vy := ps[hit.value].TopY() - look.Height(), 0.0;
    }
    r := s.(y := ny, vy := vy, landed := ld);
  }

  /** The distance between a platform's top and the monkey's bottom edge. */
  function Gap(p: Platform, bottom: real): (d: real)
    ensures d >= 0.0 && (d == p.TopY() - bottom || d == bottom - p.TopY())
  {
    if p.TopY() - bottom < 0.0 then bottom - p.TopY() else p.TopY() - bottom
  }

  /** `getPlatformUnderMonkey`: of the platforms meeting the feet, the one whose top is nearest
      the monkey's bottom; on a tie the earliest wins; none when no platform meets the feet. */
  method PlatformUnderMonkey(s: MonkeyState, look: MonkeyLook, ps: seq<Platform>) returns (best: Option<nat>)
    ensures best.None? <==> forall j :: 0 <= j < |ps| ==> !Intersects(Feet(s, look), ps[j].BoundingBox())
    ensures best.Some? ==> best.value < |ps| && Intersects(Feet(s, look), ps[best.value].BoundingBox())
    ensures best.Some? ==>
              forall j :: 0 <= j < |ps| && Intersects(Feet(s, look), ps[j].BoundingBox()) ==>
                Gap(ps[best.value], s.y + look.Height()) <= Gap(ps[j], s.y + look.Height())
    ensures best.Some? ==>
              forall j :: 0 <= j < best.value && Intersects(Feet(s, look), ps[j].BoundingBox()) ==>
                Gap(ps[j], s.y + look.Height()) > Gap(ps[best.value], s.y + look.Height())
  {
    best := None;
    var closest := 0.0;
    var bottom := s.y + look.Height();
    var i := 0;
    while i < |ps|
      invariant 0 <= i <= |ps|
      invariant best.None? <==> forall j :: 0 <= j < i ==> !Intersects(Feet(s, look), ps[j].BoundingBox())
      invariant best.Some? ==> best.value < i && Intersects(Feet(s, look), ps[best.value].BoundingBox())
      invariant best.Some? ==> closest == Gap(ps[best.value], bottom)
      invariant best.Some? ==>
                  forall j :: 0 <= j < i && Intersects(Feet(s, look), ps[j].BoundingBox()) ==>
                    closest <= Gap(ps[j], bottom)
      invariant best.Some? ==>
                  forall j :: 0 <= j < best.value && Intersects(Feet(s, look), ps[j].BoundingBox()) ==>
                    Gap(ps[j], bottom) > closest
    {
      var feet := Rect(s.x, bottom, look.Width(), 1.0);
      if Intersects(feet, ps[i].BoundingBox()) {
        var dy := Gap(ps[i], bottom);
        if best.None? || dy < closest {
          closest := dy;
          best := Some(i);
        }
      }
      i := i + 1;
    }
  }

  /** Whether `getPlatformUnderMonkey` finds a platform: exactly when one meets the feet. */
  method StandsOnPlatform(s: MonkeyState, look: MonkeyLook, ps: seq<Platform>) returns (below: bool)
    ensures below <==> FirstHit(Feet(s, look), ps).Some?
  {
    var best := PlatformUnderMonkey(s, look, ps);
    below := best.Some?;
  }

  /** `move` on the monkey's fields. */
  method WalkScan(s: MonkeyState, kind: Kind, look: MonkeyLook, route: seq<int>, ps: seq<Platform>) returns (r: MonkeyState)
    requires IndexOk(s, route)
    ensures r == Walk(s, kind, look, route, ps)
  {
    r := s;
    if |route| == 0 {
      return;
    }
    var step := WalkSpeed(kind);
    var dx := if s.movingRight then step else -step;
    var nextX := s.x + dx;
    var platformBelow := StandsOnPlatform(s, look, ps);
    if !s.landed || !platformBelow {
      return;
    }
    var edgeX := if s.movingRight then nextX + look.Width() else nextX;
    var edgeFeet := Rect(edgeX, s.y + look.Height(), 1.0, 1.0);
    assert nextX == NextX(s, kind) && edgeFeet == EdgeProbe(s, look, nextX);
    var edgeHit := FindFirstHit(edgeFeet, ps);
    var nextStepWillFall := edgeHit.None?;
    if nextStepWillFall {
      r := Turn(r, |route|);
      return;
    }
    var dist := if dx < 0.0 then -dx else dx;
    assert dist == WalkSpeed(kind);
    r := r.(x := nextX, segment := r.segment + dist);
    if r.segment >= route[r.index] as real {
      r := Turn(r, |route|);
    }
  }

  /** Whether a banana of `vs`, drawn at `size`, touches `target`. */
  predicate AnyHits(vs: seq<BananaState>, size: Size, target: Rect)
  {
    exists k :: 0 <= k < |vs| && Intersects(BananaBox(vs[k], size), target)
  }

  /** Whether any banana of `bs` touches `target`. */
  method AnyTouches(bs: seq<Banana>, size: Size, target: Rect) returns (hit: bool)
    requires forall k :: 0 <= k < |bs| ==> bs[k].size == size
    ensures hit <==> AnyHits(Views(bs), size, target)
  {
    hit := false;
    var i := 0;
    while i < |bs|
      invariant 0 <= i <= |bs|
      invariant hit <==> exists k :: 0 <= k < i && Intersects(BananaBox(bs[k].State(), size), target)
    {
      if Intersects(bs[i].BoundingBox(), target) {
        hit := true;
      }
      i := i + 1;
    }
  }

  /** The bananas of `bs` that have not expired, in order. */
  method KeepUnexpired(bs: seq<Banana>) returns (kept: seq<Banana>)
    requires Distinct(bs)
    ensures Distinct(kept)
    ensures forall k :: 0 <= k < |kept| ==> kept[k] in bs
    ensures Views(kept) == Unexpired(Views(bs))
  {
    kept := [];
    var i := 0;
    while i < |bs|
      invariant 0 <= i <= |bs|
      invariant Distinct(kept)
      invariant forall k :: 0 <= k < |kept| ==> kept[k] in bs[..i]
      invariant Views(kept) == Unexpired(Views(bs[..i]))
    {
      assert Views(bs[..i + 1])[..i] == Views(bs[..i]);
      if !bs[i].expired {
        DistinctOthers(bs, i);
        DistinctAppend(kept, bs[i]);
        kept := kept + [bs[i]];
      }
      i := i + 1;
    }
    assert bs[..i] == bs;
  }

  class Monkey {
    const kind: Kind
    const look: MonkeyLook
    const routeDistances: seq<int>
    const bananaSize: Size
    /** The monkey's position in the level's list: a proof device that makes the list's lack of
        repeats cheap to state. */
    ghost const slot: int
    var x: real
    var y: real
    var velocityY: real
    var landed: bool
    var dead: bool
    var movingRight: bool
    var currentRouteIndex: int
    var distanceMovedInCurrentSegment: real
    var frameCounter: int
    var bananas: seq<Banana>
    /** Every banana this monkey has thrown. */
    ghost var Thrown: set<Banana>

    ghost predicate Valid()
      reads this, Thrown
    {
      && look.Valid() && bananaSize.Valid()
      && 0 <= currentRouteIndex && (routeDistances != [] ==> currentRouteIndex < |routeDistances|)
      && 0 <= frameCounter < FireInterval
      && (kind == Normal ==> bananas == [] && frameCounter == 0)
      && (forall i :: 0 <= i < |bananas| ==> bananas[i] in Thrown)
      && (forall b :: b in Thrown ==> b.owner == slot)
      && BananasOk(bananas, Thrown, bananaSize)
    }

    function State(): MonkeyState
      reads this
    {
      MonkeyState(x, y, velocityY, landed, dead, movingRight, currentRouteIndex, distanceMovedInCurrentSegment)
    }

    /** Built from the parsed "x,y;direction;routes" entry. */
    constructor (x0: real, y0: real, right: bool, routeTokens: seq<int>, kind: Kind, look: MonkeyLook, bananaSize: Size,
                 ghost slot: int)
      requires look.Valid() && bananaSize.Valid()
      ensures Valid() && Thrown == {} && this.slot == slot
      ensures this.kind == kind && this.look == look && this.bananaSize == bananaSize
      ensures routeDistances == ParseRoute(routeTokens)
      ensures State() == MonkeyState(x0, y0, 0.0, false, false, right, 0, 0.0)
      ensures frameCounter == 0 && bananas == []
    {
      this.kind, this.look, this.bananaSize, this.slot := kind, look, bananaSize, slot;
      routeDistances := ParseRoute(routeTokens);
      x, y, velocityY := x0, y0, 0.0;
      landed, dead, movingRight := false, false, right;
      currentRouteIndex, distanceMovedInCurrentSegment := 0, 0.0;
      frameCounter, bananas := 0, [];
      Thrown := {};
    }

    function BoundingBox(): Rect
      reads this
    {
      MonkeyBox(State(), look)
    }

    /** One-way. */
    method Die()
      requires Valid()
      modifies this
      ensures Valid() && Thrown == old(Thrown)
      ensures State() == old(State()).(dead := true)
      ensures frameCounter == old(frameCounter) && bananas == old(bananas)
    {
      dead := true;
    }

    method ApplyGravityStep(ps: seq<Platform>)
      requires Valid()
      modifies this
      ensures Valid() && Thrown == old(Thrown)
      ensures State() == ApplyGravity(old(State()), look, ps)
      ensures frameCounter == old(frameCounter) && bananas == old(bananas)
    {
      var r := GravityScan(State(), look, ps);
      y, velocityY, landed := r.y, r.vy, r.landed;
    }

    method Move(ps: seq<Platform>)
      requires Valid()
      modifies this
      ensures Valid() && Thrown == old(Thrown)
      ensures State() == Walk(old(State()), kind, look, routeDistances, ps)
      ensures frameCounter == old(frameCounter) && bananas == old(bananas)
    {
      var r := WalkScan(State(), kind, look, routeDistances, ps);
      x, movingRight, currentRouteIndex, distanceMovedInCurrentSegment := r.x, r.movingRight, r.index, r.segment;
    }

    /** `update` of both variants. */
    method Update(ps: seq<Platform>)
      requires Valid()
      modifies this, Thrown
      ensures Valid() && old(Thrown) <= Thrown && fresh(Thrown - old(Thrown))
      ensures State() == MonkeyStep(old(State()), kind, look, routeDistances, ps)
      ensures frameCounter == NextCounter(kind, State(), old(frameCounter))
      ensures Views(bananas) == NextBananas(kind, State(), look, old(frameCounter), old(Views(bananas)))
      ensures forall i :: 0 <= i < |bananas| ==> bananas[i] in old(bananas) || fresh(bananas[i])
    {
      Patrol(ps);
      if kind == Intelligent && !dead && landed {
        FireAndPrune();
      }
    }

    /** `Monkey.update`: gravity, then the route while alive. */
    method Patrol(ps: seq<Platform>)
      requires Valid()
      modifies this
      ensures Valid() && Thrown == old(Thrown)
      ensures State() == MonkeyStep(old(State()), kind, look, routeDistances, ps)
      ensures frameCounter == old(frameCounter) && bananas == old(bananas)
      ensures Views(bananas) == old(Views(bananas))
    {
      ApplyGravityStep(ps);
      if !dead {
        Move(ps);
      }
    }

    /** The intelligent monkey's part of `update` while alive and landed: count, throw on the
        interval, advance every banana, drop the expired ones. */
    method FireAndPrune()
      requires Valid() && kind == Intelligent && !dead && landed
      modifies this, Thrown
      ensures Valid() && old(Thrown) <= Thrown && fresh(Thrown - old(Thrown))
      ensures State() == old(State())
      ensures frameCounter == NextCounter(kind, State(), old(frameCounter))
      ensures Views(bananas) == NextBananas(kind, State(), look, old(frameCounter), old(Views(bananas)))
      ensures forall i :: 0 <= i < |bananas| ==> bananas[i] in old(bananas) || fresh(bananas[i])
    {
      ghost var before := Views(bananas);
      ghost var fires := Fires(kind, State(), frameCounter);
      Tick();
      UpdateBananas();
      assert Views(bananas) == StepAll(before + (if fires then [Spawn(State(), look)] else []));
      RemoveExpired();
    }

    /** The fire counter: one more frame, and a throw when the interval is reached. */
    method Tick()
      requires Valid() && kind == Intelligent && !dead && landed
      modifies this
      ensures Valid() && old(Thrown) <= Thrown && fresh(Thrown - old(Thrown))
      ensures State() == old(State())
      ensures frameCounter == NextCounter(kind, State(), old(frameCounter))
      ensures Views(bananas) ==
                old(Views(bananas)) + (if Fires(kind, State(), old(frameCounter)) then [Spawn(State(), look)] else [])
      ensures forall i :: 0 <= i < |bananas| ==> bananas[i] in old(bananas) || fresh(bananas[i])
    {
      frameCounter := frameCounter + 1;
      if frameCounter >= FireInterval {
        frameCounter := 0;
        ShootBanana();
      }
    }

    method ShootBanana()
      requires Valid() && kind == Intelligent
      modifies this
      ensures Valid() && old(Thrown) <= Thrown && fresh(Thrown - old(Thrown))
      ensures State() == old(State()) && frameCounter == old(frameCounter)
      ensures |bananas| == |old(bananas)| + 1 && bananas[..|old(bananas)|] == old(bananas)
      ensures fresh(bananas[|old(bananas)|])
      ensures Views(bananas) == old(Views(bananas)) + [Spawn(State(), look)]
    {
      var bananaX := if movingRight then x + look.Width() - 5.0 else x - 5.0;
      var bananaY := y + look.Height() * 0.25;
      var b := new Banana(bananaX, bananaY, movingRight, bananaSize, slot);
      DistinctAppend(bananas, b);
      bananas := bananas + [b];
      Thrown := Thrown + {b};
    }

    /** `for (Banana b : bananas) b.update()`. */
    method UpdateBananas()
      requires Valid()
      modifies this, Thrown
      ensures Valid() && Thrown == old(Thrown)
      ensures State() == old(State()) && frameCounter == old(frameCounter) && bananas == old(bananas)
      ensures Views(bananas) == StepAll(old(Views(bananas)))
    {
      ghost var before := Views(bananas);
      var i := 0;
      while i < |bananas|
        invariant 0 <= i <= |bananas|
        invariant Valid() && Thrown == old(Thrown)
        invariant State() == old(State()) && frameCounter == old(frameCounter) && bananas == old(bananas)
        invariant forall j :: 0 <= j < i ==> bananas[j].State() == BananaStep(before[j])
        invariant forall j :: i <= j < |bananas| ==> bananas[j].State() == before[j]
      {
        DistinctOthers(bananas, i);
        bananas[i].Update();
        i := i + 1;
      }
    }

    /** `bananas.removeIf(Banana::hasExpired)`. */
    method RemoveExpired()
      requires Valid()
      modifies this
      ensures Valid() && Thrown == old(Thrown)
      ensures State() == old(State()) && frameCounter == old(frameCounter)
      ensures Views(bananas) == Unexpired(old(Views(bananas)))
      ensures forall i :: 0 <= i < |bananas| ==> bananas[i] in old(bananas)
    {
      bananas := KeepUnexpired(bananas);
    }

    /** The level's own pass over this monkey's bananas: advance each, drop the expired ones,
        and report whether one that is still flying touches `target`. */
    method SweepBananas(target: Rect) returns (hit: bool)
      requires Valid()
      modifies this, Thrown
      ensures Valid() && Thrown == old(Thrown)
      ensures State() == old(State()) && frameCounter == old(frameCounter)
      ensures Views(bananas) == Unexpired(StepAll(old(Views(bananas))))
      ensures hit <==> AnyHits(Views(bananas), bananaSize, target)
    {
      UpdateBananas();
      RemoveExpired();
      hit := AnyTouches(bananas, bananaSize, target);
    }
  }
}
