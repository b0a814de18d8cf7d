/**
 * The level screen: one frame of `update` runs every entity in a fixed order, resolves the
 * collisions between them, keeps the score and its counters, and raises the two independent
 * end flags. Scoring events and the end flags are written as transitions on a `Tally` of the
 * screen's counters; the class runs the same steps on the entity objects.
 */
module Level {
  import opened Geometry
  import opened Wrappers
  import opened Platforms
  import Physics
  import Ladders
  import Barrels
  import Donkeys
  import Monkeys
  import Bananas
  import Bullets
  import Hammers
  import Blasters
  import Player

  const BarrelPoints: int := 100
  const JumpPoints: int := 30
  const MonkeyPoints: int := 100
  const SecondPoints: int := 3
  const FramesPerSecond: int := 60

  // ---------------------------------------------------------------------------------------
  // Counters and formulas

  /** Every field of the screen that `update` changes besides the entities. */
  datatype Tally = Tally(frame: int, score: int, destroyedBarrels: int, jumpedBarrels: int,
                         destroyedMonkeys: int, finalScore: int, timeRemaining: int,
                         gameOver: bool, gameWon: bool)

  /** The points earned by the counted events. */
  function Earned(t: Tally): int
  {
    BarrelPoints * t.destroyedBarrels + JumpPoints * t.jumpedBarrels + MonkeyPoints * t.destroyedMonkeys
  }

  /** The running score is the starting score plus the points of every counted event. */
  predicate ScoreOk(t: Tally, startingScore: int)
  {
    && t.destroyedBarrels >= 0 && t.jumpedBarrels >= 0 && t.destroyedMonkeys >= 0
    && t.score == startingScore + Earned(t)
  }

  /** Between two moments of a frame nothing is lost: the score and the counters only grow and
      neither end flag is ever cleared. */
  predicate Grows(t: Tally, u: Tally)
  {
    && u.score >= t.score
    && u.destroyedBarrels >= t.destroyedBarrels && u.jumpedBarrels >= t.jumpedBarrels
    && u.destroyedMonkeys >= t.destroyedMonkeys
    && (t.gameOver ==> u.gameOver) && (t.gameWon ==> u.gameWon)
  }

  /** `u` follows `t` within a frame: nothing is lost, every point scored is counted, and the
      frame number stays. */
  predicate Accrues(t: Tally, u: Tally)
  {
    && Grows(t, u)
    && u.score - Earned(u) == t.score - Earned(t)
    && u.frame == t.frame
  }

  /** Whole seconds in `frames`, with Java's `/` on `int`, which truncates toward zero. */
  function SecondsIn(frames: int): (q: int)
    ensures frames >= 0 ==> 0 <= q && 60 * q <= frames < 60 * q + 60
    ensures frames < 0 ==> q <= 0 && 60 * q - 60 < frames <= 60 * q
  {
    if frames >= 0 then frames / FramesPerSecond else -((-frames) / FramesPerSecond)
  }

  /** `computeFinalScore`: nothing when the player died, otherwise the starting score and the
      points of every event plus three per second left. */
  function FinalScore(playerDied: bool, startingScore: int, t: Tally): (r: int)
    ensures playerDied ==> r == 0
    ensures !playerDied && ScoreOk(t, startingScore) ==> r == t.score + SecondPoints * t.timeRemaining
  {
    if playerDied then 0
    else startingScore + BarrelPoints * t.destroyedBarrels + JumpPoints * t.jumpedBarrels
         + SecondPoints * t.timeRemaining + MonkeyPoints * t.destroyedMonkeys
  }

  /** `checkingGameTime`. Once it holds the time shown is 0 or less; before, it is never negative. */
  predicate TimeUp(currFrame: int, maxFrames: int)
    ensures TimeUp(currFrame, maxFrames) ==> SecondsIn(maxFrames - currFrame) <= 0
    ensures !TimeUp(currFrame, maxFrames) ==> SecondsIn(maxFrames - currFrame) >= 0
  {
    currFrame >= maxFrames
  }

  /** `isLevelCompleted`: Mario touches the boss while holding a hammer, or touches the dead boss. */
  predicate LevelCompleted(marioBox: Rect, hasHammer: bool, donkeyBox: Rect, donkeyDead: bool)
  {
    Intersects(marioBox, donkeyBox) && (hasHammer || donkeyDead)
  }

  // ---------------------------------------------------------------------------------------
  // Scoring transitions

  /** One barrel against Mario: a live barrel he touches is destroyed for 100 points when he has a
      hammer and ends the game when he does not; a jump over it is worth 30 either way. */
  function AfterBarrel(t: Tally, touching: bool, hammer: bool, jumped: bool): (r: Tally)
    ensures Grows(t, r) && r.score - Earned(r) == t.score - Earned(t)
    ensures r.gameOver <==> t.gameOver || (touching && !hammer)
    ensures r.destroyedBarrels == t.destroyedBarrels + (if touching && hammer then 1 else 0)
    ensures r.jumpedBarrels == t.jumpedBarrels + (if jumped then 1 else 0)
    ensures r.(score := t.score, destroyedBarrels := t.destroyedBarrels, jumpedBarrels := t.jumpedBarrels,
               gameOver := t.gameOver) == t
  {
    var smashed := touching && hammer;
    t.(destroyedBarrels := t.destroyedBarrels + (if smashed then 1 else 0),
       jumpedBarrels := t.jumpedBarrels + (if jumped then 1 else 0),
       score := t.score + (if smashed then BarrelPoints else 0) + (if jumped then JumpPoints else 0),
       gameOver := t.gameOver || (touching && !hammer))
  }

  /** `n` monkeys killed, 100 points each. */
  function AfterKills(t: Tally, n: nat): (r: Tally)
    ensures Grows(t, r) && r.score - Earned(r) == t.score - Earned(t)
    ensures r.destroyedMonkeys == t.destroyedMonkeys + n && r.score == t.score + MonkeyPoints * n
    ensures r.(score := t.score, destroyedMonkeys := t.destroyedMonkeys) == t
  {
    t.(destroyedMonkeys := t.destroyedMonkeys + n, score := t.score + MonkeyPoints * n)
  }

  /** Mario against the monkeys: with a hammer every live monkey he touches dies for 100 points;
      without one, touching any live monkey ends the game. */
  function AfterMonkeyTouches(t: Tally, touched: nat, hammer: bool): (r: Tally)
    ensures Grows(t, r) && r.score - Earned(r) == t.score - Earned(t)
    ensures hammer ==> r == AfterKills(t, touched)
    ensures !hammer ==> r == t.(gameOver := t.gameOver || touched > 0)
  {
    if hammer then AfterKills(t, touched) else t.(gameOver := t.gameOver || touched > 0)
  }

  /** A bullet hit on the boss: when it leaves the boss dead the game is won and the final score is
      computed, from the time left as shown on the previous frame. */
  function AfterBossHit(t: Tally, bossKilled: bool, startingScore: int): (r: Tally)
    ensures Grows(t, r) && r.score - Earned(r) == t.score - Earned(t)
    ensures r.gameWon <==> t.gameWon || bossKilled
    ensures bossKilled && ScoreOk(t, startingScore) ==> r.finalScore == t.score + SecondPoints * t.timeRemaining
    ensures !bossKilled ==> r == t
  {
    if bossKilled then t.(gameWon := true, finalScore := FinalScore(false, startingScore, t)) else t
  }

  /** Mario reaching the boss: a win with a hammer or once the boss is dead, otherwise the end. */
  function AfterDonkeyTouch(t: Tally, reached: bool, hammer: bool, bossDead: bool): (r: Tally)
    ensures Grows(t, r) && r.score == t.score && r.finalScore == t.finalScore
    ensures r.gameWon <==> t.gameWon || (reached && (hammer || bossDead))
    ensures r.gameOver <==> t.gameOver || (reached && !hammer && !bossDead)
  {
    if !reached then t
    else if hammer || bossDead then t.(gameWon := true)
    else t.(gameOver := true)
  }

  /** The end of the frame: out of time means game over, and the time shown is refreshed. */
  function AfterClock(t: Tally, maxFrames: int): (r: Tally)
    ensures Grows(t, r) && r.score == t.score && r.finalScore == t.finalScore && r.frame == t.frame
    ensures r.gameOver <==> t.gameOver || TimeUp(t.frame, maxFrames)
    ensures r.timeRemaining == SecondsIn(maxFrames - t.frame)
  {
    t.(gameOver := t.gameOver || TimeUp(t.frame, maxFrames),
       timeRemaining := SecondsIn(maxFrames - t.frame))
  }

  /** The final score of a won level is the running score plus three points per second that was
      shown as left, and a death scores nothing. */
  lemma FinalScoreFromRunningScore(t: Tally, startingScore: int)
    requires ScoreOk(t, startingScore)
    ensures FinalScore(false, startingScore, t) == t.score + SecondPoints * t.timeRemaining
    ensures FinalScore(true, startingScore, t) == 0
  {
  }

  /** Within the time limit the time shown is the whole seconds left; once the limit has passed by
      less than a second it shows 0 rather than -1. */
  lemma TimeShown(maxFrames: int, currFrame: int)
    ensures currFrame <= maxFrames ==>
              SecondsIn(maxFrames - currFrame) == (maxFrames - currFrame) / FramesPerSecond
    ensures maxFrames < currFrame < maxFrames + FramesPerSecond ==>
              SecondsIn(maxFrames - currFrame) == 0
  {
  }

  // ---------------------------------------------------------------------------------------
  // What a frame reads of the entities

  /** The barrel after its own update and Mario's touch. */
  function BarrelOutcome(s: Barrels.BarrelState, size: Size, phys: Physics.Constants, ps: seq<Platform>,
                         m: Player.MarioState, art: Player.MarioArt): (r: Barrels.BarrelState)
    requires phys.Valid()
    ensures r.x == s.x
    ensures s.destroyed ==> r == s
    ensures r.destroyed <==> s.destroyed || (m.hasHammer && BarrelTouch(Barrels.BarrelStep(s, size, phys, ps), size, m, art))
  {
    var u := Barrels.BarrelStep(s, size, phys, ps);
    if BarrelTouch(u, size, m, art) && m.hasHammer then u.(destroyed := true) else u
  }

  /** `!barrel.isDestroyed() && mario.isTouchingBarrel(barrel)`. */
  predicate BarrelTouch(s: Barrels.BarrelState, size: Size, m: Player.MarioState, art: Player.MarioArt)
  {
    !s.destroyed && Intersects(Player.MarioBox(m, art), Barrels.BarrelBox(s, size))
  }

  /** The moving fields of each ladder, in list order. */
  ghost function LadderStates(ls: seq<Ladders.Ladder>): (r: seq<Ladders.LadderState>)
    reads ls
    ensures |r| == |ls| && forall i :: 0 <= i < |ls| ==> r[i] == ls[i].State()
  {
    seq(|ls|, i requires 0 <= i < |ls| reads ls => ls[i].State())
  }

  /** The first `upTo` ladders after their own update. */
  function LaddersStepped(ss: seq<Ladders.LadderState>, ls: seq<Ladders.Ladder>, ps: seq<Platform>, upTo: int)
    : (r: seq<Ladders.LadderState>)
    requires |ss| == |ls| && forall i :: 0 <= i < |ls| ==> ls[i].Valid()
    ensures |r| == |ss|
  {
    seq(|ss|, i requires 0 <= i < |ss| && ls[i].Valid() =>
      if i < upTo then Ladders.LadderStep(ss[i], ls[i].size, ls[i].phys, ps) else ss[i])
  }

  /** Stepping one more ladder changes that ladder alone. */
  lemma LaddersSteppedStep(ss: seq<Ladders.LadderState>, ls: seq<Ladders.Ladder>, ps: seq<Platform>, i: int)
    requires |ss| == |ls| && (forall j :: 0 <= j < |ls| ==> ls[j].Valid()) && 0 <= i < |ss|
    ensures LaddersStepped(ss, ls, ps, i + 1)
            == LaddersStepped(ss, ls, ps, i)[i := Ladders.LadderStep(ss[i], ls[i].size, ls[i].phys, ps)]
  {
  }

  /** The moving fields of each barrel, in list order. */
  ghost function BarrelStates(bs: seq<Barrels.Barrel>): (r: seq<Barrels.BarrelState>)
    reads bs
    ensures |r| == |bs| && forall i :: 0 <= i < |bs| ==> r[i] == bs[i].State()
  {
    seq(|bs|, i requires 0 <= i < |bs| reads bs => bs[i].State())
  }

  /** The first `upTo` barrels after their own update and Mario's touch. */
  function BarrelsResolved(ss: seq<Barrels.BarrelState>, bs: seq<Barrels.Barrel>, ps: seq<Platform>,
                           m: Player.MarioState, art: Player.MarioArt, upTo: int): (r: seq<Barrels.BarrelState>)
    requires |ss| == |bs| && forall i :: 0 <= i < |bs| ==> bs[i].Valid()
    ensures |r| == |ss|
  {
    seq(|ss|, i requires 0 <= i < |ss| && bs[i].Valid() =>
      if i < upTo then BarrelOutcome(ss[i], bs[i].size, bs[i].phys, ps, m, art) else ss[i])
  }

  /** Resolving one more barrel changes that barrel alone. */
  lemma BarrelsResolvedStep(ss: seq<Barrels.BarrelState>, bs: seq<Barrels.Barrel>, ps: seq<Platform>,
                            m: Player.MarioState, art: Player.MarioArt, i: int)
    requires |ss| == |bs| && (forall j :: 0 <= j < |bs| ==> bs[j].Valid()) && 0 <= i < |ss|
    ensures BarrelsResolved(ss, bs, ps, m, art, i + 1)
            == BarrelsResolved(ss, bs, ps, m, art, i)[i := BarrelOutcome(ss[i], bs[i].size, bs[i].phys, ps, m, art)]
  {
  }

  /** The counters after the first `upTo` barrels, each after its own update, have met Mario in
      state `m`: one `AfterBarrel` per barrel, in list order. */
  function BarrelsTally(t: Tally, ss: seq<Barrels.BarrelState>, bs: seq<Barrels.Barrel>, ps: seq<Platform>,
                        m: Player.MarioState, art: Player.MarioArt, gravity: real, upTo: int): (r: Tally)
    requires |ss| == |bs| && (forall i :: 0 <= i < |bs| ==> bs[i].phys.Valid()) && 0 <= upTo <= |ss| && gravity > 0.0
    ensures Grows(t, r) && r.score - Earned(r) == t.score - Earned(t)
    ensures r.(score := t.score, destroyedBarrels := t.destroyedBarrels, jumpedBarrels := t.jumpedBarrels,
               gameOver := t.gameOver) == t
    decreases upTo
  {
    if upTo == 0 then t
    else
      var i := upTo - 1;
      var s := Barrels.BarrelStep(ss[i], bs[i].size, bs[i].phys, ps);
      AfterBarrel(BarrelsTally(t, ss, bs, ps, m, art, gravity, i), BarrelTouch(s, bs[i].size, m, art), m.hasHammer,
                  Player.JumpOver(m, art, gravity, s.x, s.y, bs[i].size.h))
  }

  /** Over the first `upTo` barrels: at most one destroyed and one jumped per barrel, none
      destroyed without the hammer, and game over iff it was or one of them touches Mario while
      he has no hammer. */
  lemma {:induction false} BarrelsTallyFacts(t: Tally, ss: seq<Barrels.BarrelState>, bs: seq<Barrels.Barrel>, ps: seq<Platform>,
                                             m: Player.MarioState, art: Player.MarioArt, gravity: real, upTo: int)
    requires |ss| == |bs| && (forall i :: 0 <= i < |bs| ==> bs[i].phys.Valid()) && 0 <= upTo <= |ss| && gravity > 0.0
    ensures var r := BarrelsTally(t, ss, bs, ps, m, art, gravity, upTo);
            && r.destroyedBarrels - t.destroyedBarrels <= upTo && r.jumpedBarrels - t.jumpedBarrels <= upTo
            && (!m.hasHammer ==> r.destroyedBarrels == t.destroyedBarrels)
            && (r.gameOver <==>
                  || t.gameOver
                  || (!m.hasHammer && exists i :: 0 <= i < upTo && BarrelTouch(Barrels.BarrelStep(ss[i], bs[i].size, bs[i].phys, ps), bs[i].size, m, art)))
    decreases upTo
  {
    if upTo > 0 {
      BarrelsTallyFacts(t, ss, bs, ps, m, art, gravity, upTo - 1);
    }
  }

  /** Resolving one more barrel applies `AfterBarrel` once more. */
  lemma BarrelsTallyStep(t: Tally, ss: seq<Barrels.BarrelState>, bs: seq<Barrels.Barrel>, ps: seq<Platform>,
                         m: Player.MarioState, art: Player.MarioArt, gravity: real, i: int)
    requires |ss| == |bs| && (forall j :: 0 <= j < |bs| ==> bs[j].phys.Valid()) && 0 <= i < |ss| && gravity > 0.0
    ensures BarrelsTally(t, ss, bs, ps, m, art, gravity, i + 1)
            == AfterBarrel(BarrelsTally(t, ss, bs, ps, m, art, gravity, i),
                           BarrelTouch(Barrels.BarrelStep(ss[i], bs[i].size, bs[i].phys, ps), bs[i].size, m, art), m.hasHammer,
                           Player.JumpOver(m, art, gravity, Barrels.BarrelStep(ss[i], bs[i].size, bs[i].phys, ps).x,
                                           Barrels.BarrelStep(ss[i], bs[i].size, bs[i].phys, ps).y, bs[i].size.h))
  {
  }

  /** `box` touches a monkey of state `s` and look `look`, and that monkey is alive. */
  predicate Hits(s: Monkeys.MonkeyState, look: Monkeys.MonkeyLook, box: Rect)
  {
    !s.dead && Intersects(box, Monkeys.MonkeyBox(s, look))
  }

  /** What each monkey looks like, in list order; a monkey's look never changes. */
  function Looks(ms: seq<Monkeys.Monkey>): (r: seq<Monkeys.MonkeyLook>)
    ensures |r| == |ms| && forall i :: 0 <= i < |ms| ==> r[i] == ms[i].look
  {
    seq(|ms|, i requires 0 <= i < |ms| => ms[i].look)
  }

  /** How many of the first `upTo` monkeys `box` touches alive. */
  function Kills(ss: seq<Monkeys.MonkeyState>, looks: seq<Monkeys.MonkeyLook>, box: Rect, upTo: int): nat
    requires |ss| == |looks| && 0 <= upTo <= |ss|
  {
    if upTo == 0 then 0
    else Kills(ss, looks, box, upTo - 1) + (if Hits(ss[upTo - 1], looks[upTo - 1], box) then 1 else 0)
  }

  /** Passing over one more monkey adds one exactly when it is touched alive. */
  lemma KillsStep(ss: seq<Monkeys.MonkeyState>, looks: seq<Monkeys.MonkeyLook>, box: Rect, i: int)
    requires |ss| == |looks| && 0 <= i < |ss|
    ensures Kills(ss, looks, box, i + 1) == Kills(ss, looks, box, i) + if Hits(ss[i], looks[i], box) then 1 else 0
  {
  }

  /** The count is at most the number of monkeys passed over, and it is zero exactly when `box`
      touches none of them alive. */
  lemma {:induction false} KillsFacts(ss: seq<Monkeys.MonkeyState>, looks: seq<Monkeys.MonkeyLook>, box: Rect, upTo: int)
    requires |ss| == |looks| && 0 <= upTo <= |ss|
    ensures Kills(ss, looks, box, upTo) <= upTo
    ensures Kills(ss, looks, box, upTo) == 0 <==> forall i :: 0 <= i < upTo ==> !Hits(ss[i], looks[i], box)
  {
    if upTo > 0 {
      KillsFacts(ss, looks, box, upTo - 1);
    }
  }

  /** A monkey after `box` passes over it: when `lethal` and it is touched alive, it dies. */
  function Touch(s: Monkeys.MonkeyState, look: Monkeys.MonkeyLook, box: Rect, lethal: bool): Monkeys.MonkeyState
  {
    if lethal && Hits(s, look, box) then s.(dead := true) else s
  }

  /** The monkeys after `box` has passed over the first `upTo` of them: when `lethal`, each live
      one it touches is dead; nothing else changes. */
  function Touched(ss: seq<Monkeys.MonkeyState>, looks: seq<Monkeys.MonkeyLook>, box: Rect, lethal: bool, upTo: int)
    : (r: seq<Monkeys.MonkeyState>)
    requires |ss| == |looks|
    ensures |r| == |ss|
  {
    seq(|ss|, i requires 0 <= i < |ss| => if i < upTo then Touch(ss[i], looks[i], box, lethal) else ss[i])
  }

  /** Passing over one more monkey changes that monkey alone. */
  lemma TouchedStep(ss: seq<Monkeys.MonkeyState>, looks: seq<Monkeys.MonkeyLook>, box: Rect, lethal: bool, i: int)
    requires |ss| == |looks| && 0 <= i < |ss|
    ensures Touched(ss, looks, box, lethal, i + 1) == Touched(ss, looks, box, lethal, i)[i := Touch(ss[i], looks[i], box, lethal)]
  {
  }

  /** The first `upTo` monkeys after their own update. */
  function Stepped(ss: seq<Monkeys.MonkeyState>, ms: seq<Monkeys.Monkey>, ps: seq<Platform>, upTo: int)
    : (r: seq<Monkeys.MonkeyState>)
    requires |ss| == |ms| && forall i :: 0 <= i < |ss| ==> Monkeys.IndexOk(ss[i], ms[i].routeDistances)
    ensures |r| == |ss|
  {
    seq(|ss|, i requires 0 <= i < |ss| =>
      if i < upTo then Monkeys.MonkeyStep(ss[i], ms[i].kind, ms[i].look, ms[i].routeDistances, ps) else ss[i])
  }

  /** Each monkey's frame counter, in list order. */
  ghost function FrameCounters(ms: seq<Monkeys.Monkey>): (r: seq<int>)
    reads ms
    ensures |r| == |ms| && forall i :: 0 <= i < |ms| ==> r[i] == ms[i].frameCounter
  {
    seq(|ms|, i requires 0 <= i < |ms| reads ms => ms[i].frameCounter)
  }

  /** The states of each monkey's bananas in flight, in list order. */
  ghost function BananaViews(ms: seq<Monkeys.Monkey>, thrown: set<Bananas.Banana>): (r: seq<seq<Bananas.BananaState>>)
    requires MonkeysOk(ms, thrown)
    reads ms, thrown
    ensures |r| == |ms| && forall i :: 0 <= i < |ms| ==> r[i] == Monkeys.Views(ms[i].bananas)
  {
    seq(|ms|, i requires 0 <= i < |ms| && MonkeysOk(ms, thrown) reads ms, thrown => Monkeys.Views(ms[i].bananas))
  }

  /** Whether `m` is an intelligent monkey with a banana in flight that touches `box`. */
  ghost predicate Strikes(m: Monkeys.Monkey, box: Rect)
    reads m, m.bananas
  {
    && m.kind == Monkeys.Intelligent
    && Monkeys.AnyHits(Monkeys.Views(m.bananas), m.bananaSize, box)
  }

  /** A banana list after one more `update()` and the removal of the expired ones: every banana
      left was live one step earlier and has moved on by exactly one step. */
  lemma OneStepBack(vs: seq<Bananas.BananaState>)
    ensures forall w :: w in Monkeys.Unexpired(Monkeys.StepAll(vs)) ==>
              exists v :: v in vs && !v.expired && w == Bananas.BananaStep(v) && w.distance == v.distance + Bananas.Speed
  {
    Monkeys.UnexpiredFacts(Monkeys.StepAll(vs));
    forall w | w in Monkeys.Unexpired(Monkeys.StepAll(vs))
      ensures exists v :: v in vs && !v.expired && w == Bananas.BananaStep(v) && w.distance == v.distance + Bananas.Speed
    {
      var k :| 0 <= k < |vs| && Monkeys.StepAll(vs)[k] == w;
      assert vs[k] in vs;
    }
  }

  /** An intelligent monkey's bananas over one frame: its own update throws, advances and prunes
      them while it is alive and landed, and the screen's pass advances and prunes them again. So
      every banana left has moved two steps, 3.6 in all, from the list before the frame or from
      the throw; while the monkey is dead or airborne, one step. */
  lemma BananasPerFrame(g: Monkeys.MonkeyState, look: Monkeys.MonkeyLook, counter: int, vs: seq<Bananas.BananaState>)
    ensures var r := Monkeys.Unexpired(Monkeys.StepAll(Monkeys.NextBananas(Monkeys.Intelligent, g, look, counter, vs)));
            var launched := vs + (if Monkeys.Fires(Monkeys.Intelligent, g, counter) then [Monkeys.Spawn(g, look)] else []);
            !g.dead && g.landed ==>
              forall w :: w in r ==>
                exists v :: v in launched && !v.expired && w == Bananas.BananaStep(Bananas.BananaStep(v))
                            && w.distance == v.distance + 2.0 * Bananas.Speed
    ensures var r := Monkeys.Unexpired(Monkeys.StepAll(Monkeys.NextBananas(Monkeys.Intelligent, g, look, counter, vs)));
            g.dead || !g.landed ==>
              forall w :: w in r ==>
                exists v :: v in vs && !v.expired && w == Bananas.BananaStep(v) && w.distance == v.distance + Bananas.Speed
  {
    var launched := vs + (if Monkeys.Fires(Monkeys.Intelligent, g, counter) then [Monkeys.Spawn(g, look)] else []);
    if !g.dead && g.landed {
      var mid := Monkeys.Unexpired(Monkeys.StepAll(launched));
      OneStepBack(launched);
      OneStepBack(mid);
      forall w | w in Monkeys.Unexpired(Monkeys.StepAll(mid))
        ensures exists v :: v in launched && !v.expired && w == Bananas.BananaStep(Bananas.BananaStep(v))
                            && w.distance == v.distance + 2.0 * Bananas.Speed
      {
        var u :| u in mid && !u.expired && w == Bananas.BananaStep(u) && w.distance == u.distance + Bananas.Speed;
        var v :| v in launched && !v.expired && u == Bananas.BananaStep(v) && u.distance == v.distance + Bananas.Speed;
      }
    } else {
      OneStepBack(vs);
    }
  }

  /** The state-machine fields of each monkey, in list order. */
  ghost function MonkeyStates(ms: seq<Monkeys.Monkey>): (r: seq<Monkeys.MonkeyState>)
    reads ms
    ensures |r| == |ms| && forall i :: 0 <= i < |ms| ==> r[i] == ms[i].State()
  {
    seq(|ms|, i requires 0 <= i < |ms| reads ms => ms[i].State())
  }

  // ---------------------------------------------------------------------------------------
  // Well-formedness of the entity lists

  /** The monkeys: each in its own slot of the list and well formed, with banana footprints
      inside `thrown`. Every banana carries its thrower's slot, so two footprints never overlap. */
  ghost predicate MonkeysOk(ms: seq<Monkeys.Monkey>, thrown: set<Bananas.Banana>)
    reads ms, thrown
  {
    && (forall i :: 0 <= i < |ms| ==> ms[i].slot == i)
    && (forall i :: 0 <= i < |ms| ==> ms[i].Thrown <= thrown)
    && (forall i :: 0 <= i < |ms| ==> ms[i].Valid())
  }

  /** The bullets of `bs` that are not in `rm`, in their order. */
  function Keep(bs: seq<Bullets.Bullet>, rm: seq<Bullets.Bullet>): (r: seq<Bullets.Bullet>)
    ensures |r| <= |bs|
    ensures forall k :: 0 <= k < |r| ==> r[k] in bs && r[k] !in rm
    ensures forall k :: 0 <= k < |bs| && bs[k] !in rm ==> bs[k] in r
  {
    if bs == [] then []
    else
      assert bs == bs[..|bs| - 1] + [bs[|bs| - 1]];
      Keep(bs[..|bs| - 1], rm) + (if bs[|bs| - 1] in rm then [] else [bs[|bs| - 1]])
  }

  /** The bullets of `bs` that are not spent, in their order. */
  function Unspent(bs: seq<Bullets.Bullet>): (r: seq<Bullets.Bullet>)
    reads bs
    ensures forall k :: 0 <= k < |r| ==> r[k] in bs && !r[k].spent
    ensures forall k :: 0 <= k < |bs| && !bs[k].spent ==> bs[k] in r
  {
    if bs == [] then []
    else
      assert bs == bs[..|bs| - 1] + [bs[|bs| - 1]];
      Unspent(bs[..|bs| - 1]) + (if bs[|bs| - 1].spent then [] else [bs[|bs| - 1]])
  }

  /** Removing the list of the spent bullets keeps exactly the unspent ones, in order. */
  lemma {:induction false} KeepSpent(bs: seq<Bullets.Bullet>, rm: seq<Bullets.Bullet>)
    requires forall b :: b in bs ==> (b in rm <==> b.spent)
    ensures Keep(bs, rm) == Unspent(bs)
  {
    if bs != [] {
      KeepSpent(bs[..|bs| - 1], rm);
    }
  }

  /** The live bullets: distinct, well formed and unspent. */
  ghost predicate BulletsOk(bs: seq<Bullets.Bullet>)
    reads bs
  {
    Distinct(bs) && forall i :: 0 <= i < |bs| ==> bs[i].Valid() && !bs[i].spent
  }

  /** The barrels and ladders: distinct and well formed; the ladder image's size is static, so
      every ladder has the first one's size. */
  ghost predicate FallersOk(barrels: seq<Barrels.Barrel>, ladders: seq<Ladders.Ladder>)
  {
    && Distinct(barrels) && (forall i :: 0 <= i < |barrels| ==> barrels[i].Valid())
    && Distinct(ladders) && (forall i :: 0 <= i < |ladders| ==> ladders[i].Valid())
    && (forall i :: 0 <= i < |ladders| ==> ladders[i].size == ladders[0].size)
  }

  /** Mario and the pickups: Mario's weapon invariant holds and no blaster holds negative ammo. */
  ghost predicate ArmouryOk(mario: Player.Mario, hammers: seq<Hammers.Hammer>, blasters: seq<Blasters.Blaster>)
    reads mario, blasters
  {
    && mario.Valid() && Player.WeaponOk(mario.State())
    && Distinct(hammers) && Distinct(blasters)
    && (forall i :: 0 <= i < |blasters| ==> blasters[i].bullets >= 0)
  }

  // ---------------------------------------------------------------------------------------
  // The screen

  class GamePlayScreen {
    const maxFrames: int
    const startingScore: int
    const screenWidth: real
    const mario: Player.Mario
    const donkey: Donkeys.Donkey
    const platforms: seq<Platform>
    const ladders: seq<Ladders.Ladder>
    const barrels: seq<Barrels.Barrel>
    const hammers: seq<Hammers.Hammer>
    const blasters: seq<Blasters.Blaster>
    const monkeys: seq<Monkeys.Monkey>
    var bullets: seq<Bullets.Bullet>
    var currFrame: int
    var score: int
    var destroyedBarrels: int
    var jumpedBarrels: int
    var destroyedMonkeys: int
    var finalScore: int
    var timeRemaining: int
    var isGameOver: bool
    var isGameWon: bool
    /** A footprint holding every banana the monkeys have thrown. */
    ghost var thrown: set<Bananas.Banana>

    function Counters(): Tally
      reads this
    {
      Tally(currFrame, score, destroyedBarrels, jumpedBarrels, destroyedMonkeys, finalScore,
                  timeRemaining, isGameOver, isGameWon)
    }


    ghost predicate Valid()
      reads this, mario, donkey, blasters, bullets, monkeys, thrown
    {
      && ArmouryOk(mario, hammers, blasters)
      && donkey.Valid()
      && FallersOk(barrels, ladders)
      && MonkeysOk(monkeys, thrown)
      && BulletsOk(bullets)
      && currFrame >= 0
      && ScoreOk(Counters(), startingScore)
    }

    /** A fresh level: frame 0, the starting score, no bullets, neither flag raised. */
    constructor (maxFrames: int, startingScore: int, screenWidth: real, mario: Player.Mario,
                 donkey: Donkeys.Donkey, platforms: seq<Platform>, ladders: seq<Ladders.Ladder>,
                 barrels: seq<Barrels.Barrel>, hammers: seq<Hammers.Hammer>,
                 blasters: seq<Blasters.Blaster>, monkeys: seq<Monkeys.Monkey>, ghost footprint: set<Bananas.Banana>)
      requires ArmouryOk(mario, hammers, blasters) && donkey.Valid()
      requires FallersOk(barrels, ladders) && MonkeysOk(monkeys, footprint)
      ensures Valid() && bullets == []
      ensures this.mario == mario && this.donkey == donkey && this.platforms == platforms
      ensures this.ladders == ladders && this.barrels == barrels && this.hammers == hammers
      ensures this.blasters == blasters && this.monkeys == monkeys
      ensures this.maxFrames == maxFrames && this.startingScore == startingScore && this.screenWidth == screenWidth
      ensures Counters() == Tally(0, startingScore, 0, 0, 0, 0, 0, false, false)
    {
      this.maxFrames, this.startingScore, this.screenWidth := maxFrames, startingScore, screenWidth;
      this.mario, this.donkey, this.platforms := mario, donkey, platforms;
      this.ladders, this.barrels, this.hammers := ladders, barrels, hammers;
      this.blasters, this.monkeys, thrown := blasters, monkeys, footprint;
      bullets := [];
      currFrame, score := 0, startingScore;
      destroyedBarrels, jumpedBarrels, destroyedMonkeys := 0, 0, 0;
      finalScore, timeRemaining := 0, 0;
      isGameOver, isGameWon := false, false;
    }

    /** `isLevelCompleted`. */
    predicate IsLevelCompleted()
      reads this, mario, donkey
    {
      LevelCompleted(mario.BoundingBox(), mario.hasHammer, donkey.BoundingBox(), donkey.isDead)
    }

    /** `update`: one frame. Returns whether the level has ended. */
    method Update(input: Player.Input) returns (ended: bool)
      requires Valid()
      modifies this, mario, donkey, ladders, barrels, hammers, blasters, bullets, monkeys, thrown
      ensures Valid()
      ensures currFrame == old(currFrame) + 1
      ensures Grows(old(Counters()), Counters())
      ensures TimeUp(currFrame, maxFrames) ==> isGameOver
      ensures timeRemaining == SecondsIn(maxFrames - currFrame)
      ensures ended <==> isGameOver || isGameWon || IsLevelCompleted()
      ensures IsLevelCompleted() ==> isGameWon
      ensures Intersects(mario.BoundingBox(), donkey.BoundingBox()) && !mario.hasHammer && !donkey.isDead ==> isGameOver
    {
      currFrame := currFrame + 1;
      MoveAll(input);
      ResolveContacts();
      ended := isGameOver || isGameWon || IsLevelCompleted();
    }

    /** Steps 3 to 11: the world, then Mario. */
    method MoveAll(input: Player.Input)
      requires Valid()
      modifies this, mario, donkey, ladders, barrels, hammers, blasters, bullets, monkeys, thrown
      ensures Valid() && old(thrown) <= thrown
      ensures Grows(old(Counters()), Counters())
      ensures currFrame == old(currFrame) && timeRemaining == old(timeRemaining)
      ensures forall s {:trigger Player.MarioStep(s, mario.env, input, old(Player.HammerItems(hammers)), old(Player.BlasterItems(blasters)),
                                                  Player.LadderBoxes(ladders), platforms)} ::
                s == old(mario.State()) ==>
                var f := Player.MarioStep(s, mario.env, input, old(Player.HammerItems(hammers)), old(Player.BlasterItems(blasters)),
                                          Player.LadderBoxes(ladders), platforms);
                mario.State() == f.mario
    {
      ghost var s0, hs0, bs0 := mario.State(), Player.HammerItems(hammers), Player.BlasterItems(blasters);
      MoveWorld();
      assert mario.State() == s0 && Player.HammerItems(hammers) == hs0 && Player.BlasterItems(blasters) == bs0;
      MovePlayer(input);
    }

    /** Steps 3 to 10: the ladders and barrels, then the creatures and the bullets. */
    method MoveWorld()
      requires Valid()
      modifies this, ladders, barrels, donkey, monkeys, thrown, bullets
      ensures Valid() && old(thrown) <= thrown && fresh(thrown - old(thrown))
      ensures Grows(old(Counters()), Counters())
      ensures currFrame == old(currFrame) && timeRemaining == old(timeRemaining)
    {
      MoveFallers();
      MoveCreatures();
    }

    /** Steps 7 to 10: the boss, the monkeys and their bananas, then the bullets. */
    method MoveCreatures()
      requires Valid()
      modifies this, donkey, monkeys, thrown, bullets
      ensures Valid() && old(thrown) <= thrown && fresh(thrown - old(thrown))
      ensures Grows(old(Counters()), Counters())
      ensures currFrame == old(currFrame) && timeRemaining == old(timeRemaining)
    {
      donkey.Update(platforms);
      MoveMonkeys();
      ResolveBullets();
    }

    /** Steps 3 and 4: the ladders, then the barrels against Mario. */
    method MoveFallers()
      requires Valid()
      modifies this, ladders, barrels
      ensures Valid() && thrown == old(thrown) && bullets == old(bullets)
      ensures Grows(old(Counters()), Counters())
      ensures currFrame == old(currFrame) && timeRemaining == old(timeRemaining)
      ensures forall ss {:trigger LaddersStepped(ss, ladders, platforms, |ladders|)} ::
                ss == old(LadderStates(ladders)) ==> LadderStates(ladders) == LaddersStepped(ss, ladders, platforms, |ladders|)
      ensures forall ss {:trigger BarrelsResolved(ss, barrels, platforms, mario.State(), mario.env.art, |barrels|)} ::
                ss == old(BarrelStates(barrels)) ==>
                BarrelsResolved(ss, barrels, platforms, mario.State(), mario.env.art, |barrels|) == BarrelStates(barrels)
      ensures forall t, ss {:trigger BarrelsTally(t, ss, barrels, platforms, mario.State(), mario.env.art, mario.env.gravity, |barrels|)} ::
                t == old(Counters()) && ss == old(BarrelStates(barrels)) ==>
                Counters() == BarrelsTally(t, ss, barrels, platforms, mario.State(), mario.env.art, mario.env.gravity, |barrels|)
    {
      UpdateLadders();
      assert ArmouryOk(mario, hammers, blasters) && donkey.Valid() && MonkeysOk(monkeys, thrown) && BulletsOk(bullets);
      ResolveBarrels();
      assert ArmouryOk(mario, hammers, blasters) && donkey.Valid() && MonkeysOk(monkeys, thrown) && BulletsOk(bullets);
    }

    /** Steps 8 and 9: the monkeys, then their bananas against Mario. Every banana list goes
        through the monkey's own update and then the screen's pass. */
    method MoveMonkeys()
      requires Valid()
      modifies this, monkeys, thrown
      ensures Valid() && old(thrown) <= thrown && fresh(thrown - old(thrown)) && bullets == old(bullets)
      ensures Counters() == old(Counters()).(gameOver := isGameOver)
      ensures isGameOver <==> old(isGameOver) || exists i :: 0 <= i < |monkeys| && Strikes(monkeys[i], mario.BoundingBox())
      ensures forall ss {:trigger Stepped(ss, monkeys, platforms, |monkeys|)} ::
                ss == old(MonkeyStates(monkeys)) ==> MonkeyStates(monkeys) == Stepped(ss, monkeys, platforms, |monkeys|)
      ensures forall j :: 0 <= j < |monkeys| ==>
                && monkeys[j].frameCounter == Monkeys.NextCounter(monkeys[j].kind, monkeys[j].State(), old(monkeys[j].frameCounter))
                && Monkeys.Views(monkeys[j].bananas)
                   == Monkeys.Unexpired(Monkeys.StepAll(
                        Monkeys.NextBananas(monkeys[j].kind, monkeys[j].State(), monkeys[j].look, old(monkeys[j].frameCounter),
                                            old(Monkeys.Views(monkeys[j].bananas)))))
    {
      UpdateMonkeys();
      assert ArmouryOk(mario, hammers, blasters) && donkey.Valid() && BulletsOk(bullets);
      SweepBananas();
      assert ArmouryOk(mario, hammers, blasters) && donkey.Valid() && BulletsOk(bullets);
    }

    /** Step 11: Mario's own update; a shot joins the live bullets. */
    method MovePlayer(input: Player.Input)
      requires Valid()
      modifies this, mario, hammers, blasters
      ensures Valid() && Counters() == old(Counters()) && thrown == old(thrown)
      ensures Player.AtMostOneShot(old(bullets), bullets, mario.env.bulletArt)
      ensures forall s {:trigger Player.MarioStep(s, mario.env, input, old(Player.HammerItems(hammers)), old(Player.BlasterItems(blasters)),
                                                  Player.LadderBoxes(ladders), platforms)} ::
                s == old(mario.State()) ==>
                var f := Player.MarioStep(s, mario.env, input, old(Player.HammerItems(hammers)), old(Player.BlasterItems(blasters)),
                                          Player.LadderBoxes(ladders), platforms);
                mario.State() == f.mario && NewShot(old(bullets), bullets) == f.shot
    {
      var fired := MoveMario(mario, input, ladders, platforms, hammers, blasters, bullets);
      Adopt(fired);
    }

    /** The live bullets become `fired`. */
    method Adopt(fired: seq<Bullets.Bullet>)
      requires ArmouryOk(mario, hammers, blasters) && donkey.Valid() && FallersOk(barrels, ladders) && MonkeysOk(monkeys, thrown)
      requires BulletsOk(fired) && currFrame >= 0 && ScoreOk(Counters(), startingScore)
      modifies this
      ensures Valid() && bullets == fired && Counters() == old(Counters()) && thrown == old(thrown)
    {
      bullets := fired;
    }

    /** Steps 12 to 14: Mario against the monkeys and the boss, then the clock. */
    method ResolveContacts()
      requires Valid()
      modifies this, monkeys
      ensures Valid() && thrown == old(thrown)
      ensures Grows(old(Counters()), Counters()) && currFrame == old(currFrame)
      ensures isGameWon <==> old(isGameWon) || (Intersects(mario.BoundingBox(), donkey.BoundingBox()) && (mario.hasHammer || donkey.isDead))
      ensures Intersects(mario.BoundingBox(), donkey.BoundingBox()) && !mario.hasHammer && !donkey.isDead ==> isGameOver
      ensures TimeUp(currFrame, maxFrames) ==> isGameOver
      ensures timeRemaining == SecondsIn(maxFrames - currFrame)
      ensures forall ss {:trigger Touched(ss, Looks(monkeys), mario.BoundingBox(), mario.hasHammer, |monkeys|)} ::
                ss == old(MonkeyStates(monkeys)) ==>
                MonkeyStates(monkeys) == Touched(ss, Looks(monkeys), mario.BoundingBox(), mario.hasHammer, |monkeys|)
      ensures forall ss {:trigger Kills(ss, Looks(monkeys), mario.BoundingBox(), |monkeys|)} ::
                ss == old(MonkeyStates(monkeys)) ==>
                Counters()
                == AfterClock(AfterDonkeyTouch(AfterMonkeyTouches(old(Counters()), Kills(ss, Looks(monkeys), mario.BoundingBox(), |monkeys|),
                                                                  mario.hasHammer),
                                               Intersects(mario.BoundingBox(), donkey.BoundingBox()), mario.hasHammer, donkey.isDead),
                              maxFrames)
    {
      TouchMonkeys();
      assert ArmouryOk(mario, hammers, blasters) && donkey.Valid() && BulletsOk(bullets);
      TouchDonkey();
      Tick();
    }

    /** Step 13: Mario against the boss. */
    method TouchDonkey()
      requires Valid()
      modifies this
      ensures Valid() && thrown == old(thrown) && bullets == old(bullets)
      ensures Counters() == AfterDonkeyTouch(old(Counters()), Intersects(mario.BoundingBox(), donkey.BoundingBox()),
                                             mario.hasHammer, donkey.isDead)
    {
      var t := AfterDonkeyTouch(Counters(), Intersects(mario.BoundingBox(), donkey.BoundingBox()),
                                mario.hasHammer, donkey.isDead);
      isGameWon, isGameOver := t.gameWon, t.gameOver;
    }

    /** Step 14: `checkingGameTime` and the time shown. */
    method Tick()
      requires Valid()
      modifies this
      ensures Valid() && thrown == old(thrown) && bullets == old(bullets)
      ensures Counters() == AfterClock(old(Counters()), maxFrames)
    {
      var t := AfterClock(Counters(), maxFrames);
      isGameOver, timeRemaining := t.gameOver, t.timeRemaining;
    }

    /** Step 3: every ladder falls and settles. */
    method UpdateLadders()
      requires FallersOk(barrels, ladders)
      modifies ladders
      ensures forall ss {:trigger LaddersStepped(ss, ladders, platforms, |ladders|)} ::
                ss == old(LadderStates(ladders)) ==> LadderStates(ladders) == LaddersStepped(ss, ladders, platforms, |ladders|)
    {
      ghost var ss := LadderStates(ladders);
      var i := 0;
      while i < |ladders|
        invariant 0 <= i <= |ladders|
        invariant LadderStates(ladders) == LaddersStepped(ss, ladders, platforms, i)
      {
        assert LadderStates(ladders)[i] == ss[i];
        StepLadder(ladders, i, platforms);
        LaddersSteppedStep(ss, ladders, platforms, i);
        i := i + 1;
      }
    }

    /** Step 4: every barrel falls and settles, then meets Mario. */
    method ResolveBarrels()
      requires mario.Valid() && FallersOk(barrels, ladders)
      modifies this, barrels
      ensures bullets == old(bullets) && thrown == old(thrown)
      ensures Grows(old(Counters()), Counters()) && Counters().score - Earned(Counters()) == old(Counters().score - Earned(Counters()))
      ensures Counters().(score := 0, destroyedBarrels := 0, jumpedBarrels := 0, gameOver := false)
              == old(Counters()).(score := 0, destroyedBarrels := 0, jumpedBarrels := 0, gameOver := false)
      ensures forall ss {:trigger BarrelsResolved(ss, barrels, platforms, mario.State(), mario.env.art, |barrels|)} ::
                ss == old(BarrelStates(barrels)) ==>
                BarrelStates(barrels) == BarrelsResolved(ss, barrels, platforms, mario.State(), mario.env.art, |barrels|)
      ensures forall t, ss {:trigger BarrelsTally(t, ss, barrels, platforms, mario.State(), mario.env.art, mario.env.gravity, |barrels|)} ::
                t == old(Counters()) && ss == old(BarrelStates(barrels)) ==>
                Counters() == BarrelsTally(t, ss, barrels, platforms, mario.State(), mario.env.art, mario.env.gravity, |barrels|)
    {
      ghost var ss, t, m := BarrelStates(barrels), Counters(), mario.State();
      var i := 0;
      while i < |barrels|
        invariant 0 <= i <= |barrels| && mario.Valid() && mario.State() == m
        invariant bullets == old(bullets) && thrown == old(thrown)
        invariant Counters() == BarrelsTally(t, ss, barrels, platforms, m, mario.env.art, mario.env.gravity, i)
        invariant BarrelStates(barrels) == BarrelsResolved(ss, barrels, platforms, m, mario.env.art, i)
      {
        ResolveBarrelNext(i, t, ss, m);
        i := i + 1;
      }
    }

    /** One step of the barrel loop, against the counters and the barrels as the loop found them. */
    method ResolveBarrelNext(i: nat, ghost t: Tally, ghost ss: seq<Barrels.BarrelState>, ghost m: Player.MarioState)
      requires mario.Valid() && mario.State() == m && FallersOk(barrels, ladders) && i < |barrels| == |ss|
      requires Counters() == BarrelsTally(t, ss, barrels, platforms, m, mario.env.art, mario.env.gravity, i)
      requires BarrelStates(barrels) == BarrelsResolved(ss, barrels, platforms, m, mario.env.art, i)
      modifies this, barrels[i]
      ensures mario.State() == m && bullets == old(bullets) && thrown == old(thrown)
      ensures Counters() == BarrelsTally(t, ss, barrels, platforms, m, mario.env.art, mario.env.gravity, i + 1)
      ensures BarrelStates(barrels) == BarrelsResolved(ss, barrels, platforms, m, mario.env.art, i + 1)
    {
      assert BarrelStates(barrels)[i] == ss[i];
      ResolveBarrel(i);
      BarrelsResolvedStep(ss, barrels, platforms, m, mario.env.art, i);
      BarrelsTallyStep(t, ss, barrels, platforms, m, mario.env.art, mario.env.gravity, i);
    }

    /** The body of the barrel loop. */
    method ResolveBarrel(i: nat)
      requires mario.Valid() && i < |barrels| && FallersOk(barrels, ladders)
      modifies this, barrels[i]
      ensures bullets == old(bullets) && thrown == old(thrown)
      ensures var b := barrels[i];
              var s := Barrels.BarrelStep(old(b.State()), b.size, b.phys, platforms);
              var m := mario.State();
              && BarrelStates(barrels) == old(BarrelStates(barrels))[i := BarrelOutcome(old(b.State()), b.size, b.phys, platforms, m, mario.env.art)]
              && Counters() == AfterBarrel(old(Counters()), BarrelTouch(s, b.size, m, mario.env.art), m.hasHammer,
                                        Player.JumpOver(m, mario.env.art, mario.env.gravity, s.x, s.y, b.size.h))
    {
      var touching, jumped := StepBarrel(barrels, i, platforms, mario);
      ScoreBarrel(touching, jumped);
    }

    /** The scoring half of the barrel loop's body. */
    method ScoreBarrel(touching: bool, jumped: bool)
      modifies this
      ensures bullets == old(bullets) && thrown == old(thrown)
      ensures Counters() == AfterBarrel(old(Counters()), touching, mario.hasHammer, jumped)
    {
      var t := AfterBarrel(Counters(), touching, mario.hasHammer, jumped);
      destroyedBarrels, jumpedBarrels, score, isGameOver := t.destroyedBarrels, t.jumpedBarrels, t.score, t.gameOver;
    }

    /** Step 8: every monkey's own update. */
    method UpdateMonkeys()
      requires MonkeysOk(monkeys, thrown)
      modifies this, monkeys, thrown
      ensures MonkeysOk(monkeys, thrown) && old(thrown) <= thrown && fresh(thrown - old(thrown))
      ensures Counters() == old(Counters()) && bullets == old(bullets)
      ensures forall ss {:trigger Stepped(ss, monkeys, platforms, |monkeys|)} ::
                ss == old(MonkeyStates(monkeys)) ==> MonkeyStates(monkeys) == Stepped(ss, monkeys, platforms, |monkeys|)
      ensures forall j :: 0 <= j < |monkeys| ==>
                && monkeys[j].frameCounter == Monkeys.NextCounter(monkeys[j].kind, monkeys[j].State(), old(monkeys[j].frameCounter))
                && Monkeys.Views(monkeys[j].bananas)
                   == Monkeys.NextBananas(monkeys[j].kind, monkeys[j].State(), monkeys[j].look, old(monkeys[j].frameCounter),
                                          old(Monkeys.Views(monkeys[j].bananas)))
    {
      thrown := UpdateAll(monkeys, platforms, thrown);
    }

    /** Step 9: the screen's own pass over every intelligent monkey's bananas; a banana left in
        flight that touches Mario ends the game. */
    method SweepBananas()
      requires mario.Valid() && MonkeysOk(monkeys, thrown)
      modifies this, monkeys, thrown
      ensures MonkeysOk(monkeys, thrown) && thrown == old(thrown) && bullets == old(bullets)
      ensures MonkeyStates(monkeys) == old(MonkeyStates(monkeys))
      ensures forall j :: 0 <= j < |monkeys| ==>
                && monkeys[j].frameCounter == old(monkeys[j].frameCounter)
                && Monkeys.Views(monkeys[j].bananas) == Monkeys.Unexpired(Monkeys.StepAll(old(Monkeys.Views(monkeys[j].bananas))))
      ensures Counters() == old(Counters()).(gameOver := isGameOver)
      ensures isGameOver <==> old(isGameOver) || exists i :: 0 <= i < |monkeys| && Strikes(monkeys[i], mario.BoundingBox())
    {
      var hit := SweepAll(monkeys, mario.BoundingBox(), thrown);
      if hit {
        isGameOver := true;
      }
    }

    /** Step 10: every bullet moves and strikes; the spent ones are collected, then removed. */
    method ResolveBullets()
      requires donkey.Valid() && MonkeysOk(monkeys, thrown) && BulletsOk(bullets)
      modifies this, bullets, donkey, monkeys
      ensures donkey.Valid() && MonkeysOk(monkeys, thrown) && BulletsOk(bullets)
      ensures forall b :: b in bullets <==> b in old(bullets) && !b.spent
      ensures bullets == Unspent(old(bullets))
      ensures Grows(old(Counters()), Counters()) && Counters().score - Earned(Counters()) == old(Counters().score - Earned(Counters()))
      ensures Counters().frame == old(currFrame) && Counters().timeRemaining == old(timeRemaining)
      ensures isGameOver == old(isGameOver) && thrown == old(thrown)
    {
      var toRemove: seq<Bullets.Bullet> := [];
      var all := bullets;
      var k := 0;
      while k < |all|
        invariant 0 <= k <= |all| && bullets == all && thrown == old(thrown)
        invariant donkey.Valid() && MonkeysOk(monkeys, thrown)
        invariant forall j :: 0 <= j < |all| ==> all[j].Valid()
        invariant forall j :: k <= j < |all| ==> !all[j].spent
        invariant forall b :: b in toRemove <==> b in all[..k] && b.spent
        invariant Grows(old(Counters()), Counters()) && Counters().score - Earned(Counters()) == old(Counters().score - Earned(Counters()))
        invariant Counters().frame == old(currFrame) && Counters().timeRemaining == old(timeRemaining)
        invariant isGameOver == old(isGameOver)
      {
        toRemove := ResolveNext(all, k, toRemove);
        k := k + 1;
      }
      assert all[..k] == all;
      bullets := Prune(all, toRemove);
    }

    /** One step of `ResolveBullets`: the `k`th bullet moves and strikes, and joins `toRemove`
        when it is spent. */
    method ResolveNext(all: seq<Bullets.Bullet>, k: nat, toRemove: seq<Bullets.Bullet>) returns (toRemove': seq<Bullets.Bullet>)
      requires k < |all| && Distinct(all) && bullets == all && forall j :: 0 <= j < |all| ==> all[j].Valid()
      requires donkey.Valid() && MonkeysOk(monkeys, thrown)
      requires forall j :: k <= j < |all| ==> !all[j].spent
      requires forall b :: b in toRemove <==> b in all[..k] && b.spent
      modifies this, all[k], donkey, monkeys
      ensures bullets == all && thrown == old(thrown) && forall j :: 0 <= j < |all| ==> all[j].Valid()
      ensures donkey.Valid() && MonkeysOk(monkeys, thrown)
      ensures forall j :: k + 1 <= j < |all| ==> !all[j].spent
      ensures forall b :: b in toRemove' <==> b in all[..k + 1] && b.spent
      ensures Grows(old(Counters()), Counters()) && Counters().score - Earned(Counters()) == old(Counters().score - Earned(Counters()))
      ensures Counters().frame == old(currFrame) && Counters().timeRemaining == old(timeRemaining)
      ensures isGameOver == old(isGameOver)
    {
      DistinctOthers(all, k);
      ResolveBullet(all[k]);
      toRemove' := toRemove;
      if all[k].spent {
        toRemove' := toRemove + [all[k]];
      }
      assert all[..k + 1] == all[..k] + [all[k]];
    }

    /** The body of the bullet loop: move, then strike the monkeys and the boss. */
    method ResolveBullet(b: Bullets.Bullet)
      requires b.Valid() && donkey.Valid() && MonkeysOk(monkeys, thrown)
      modifies this, b, donkey, monkeys
      ensures b.Valid() && donkey.Valid() && MonkeysOk(monkeys, thrown)
      ensures bullets == old(bullets) && thrown == old(thrown)
      ensures Grows(old(Counters()), Counters()) && Counters().score - Earned(Counters()) == old(Counters().score - Earned(Counters()))
      ensures Counters().frame == old(currFrame) && Counters().timeRemaining == old(timeRemaining)
      ensures isGameOver == old(isGameOver)
    {
      b.Update(platforms, screenWidth);
      StrikeMonkeys(b);
      StrikeDonkey(b);
    }

    /** A bullet against every live monkey in turn: each one it touches dies for 100 points and
        marks the bullet spent; the loop does not stop at the first hit. */
    method StrikeMonkeys(b: Bullets.Bullet)
      requires b.Valid() && MonkeysOk(monkeys, thrown)
      modifies this, b, monkeys
      ensures b.Valid() && MonkeysOk(monkeys, thrown) && bullets == old(bullets) && thrown == old(thrown)
      ensures Accrues(old(Counters()), Counters()) && timeRemaining == old(timeRemaining) && isGameOver == old(isGameOver)
      ensures forall ss {:trigger Touched(ss, Looks(monkeys), old(b.BoundingBox()), true, |monkeys|)} ::
                ss == old(MonkeyStates(monkeys)) ==>
                MonkeyStates(monkeys) == Touched(ss, Looks(monkeys), old(b.BoundingBox()), true, |monkeys|)
      ensures forall ss {:trigger Kills(ss, Looks(monkeys), old(b.BoundingBox()), |monkeys|)} ::
                ss == old(MonkeyStates(monkeys)) ==>
                var n := Kills(ss, Looks(monkeys), old(b.BoundingBox()), |monkeys|);
                && Counters() == AfterKills(old(Counters()), n)
                && b.State() == old(b.State()).(spent := old(b.spent) || n > 0)
    {
      var n := Strike(monkeys, b, thrown);
      ScoreKills(n);
    }

    /** The scoring half of `StrikeMonkeys`. */
    method ScoreKills(n: nat)
      modifies this
      ensures bullets == old(bullets) && thrown == old(thrown)
      ensures Counters() == AfterKills(old(Counters()), n)
    {
      var t := AfterKills(Counters(), n);
      destroyedMonkeys, score := t.destroyedMonkeys, t.score;
    }

    /** A bullet against the live boss: one unit of damage, the bullet spent, and the game won
        with its final score when that leaves the boss dead. */
    method StrikeDonkey(b: Bullets.Bullet)
      requires b.Valid() && donkey.Valid()
      modifies this, b, donkey
      ensures b.Valid() && donkey.Valid() && bullets == old(bullets) && thrown == old(thrown)
      ensures var hit := !old(donkey.isDead) && Intersects(old(b.BoundingBox()), old(donkey.BoundingBox()));
              && donkey.State() == (if hit then Donkeys.Damage(old(donkey.State())) else old(donkey.State()))
              && b.State() == old(b.State()).(spent := old(b.spent) || hit)
              && Counters() == AfterBossHit(old(Counters()), hit && donkey.isDead, startingScore)
    {
      if !donkey.isDead && Intersects(b.BoundingBox(), donkey.BoundingBox()) {
        donkey.TakeDamage();
        b.MarkSpent();
        if donkey.isDead {
          isGameWon := true;
          ComputeFinalScore(false);
        }
      }
    }

    /** `computeFinalScore`. */
    method ComputeFinalScore(playerDied: bool)
      modifies this
      ensures Counters() == old(Counters()).(finalScore := FinalScore(playerDied, startingScore, old(Counters())))
      ensures bullets == old(bullets) && thrown == old(thrown)
    {
      if playerDied {
        finalScore := 0;
      } else {
        finalScore := startingScore + BarrelPoints * destroyedBarrels + JumpPoints * jumpedBarrels
                      + SecondPoints * timeRemaining + MonkeyPoints * destroyedMonkeys;
      }
    }

    /** Step 12: Mario against every live monkey: with a hammer each one he touches dies for 100
        points, without one touching any ends the game. */
    method TouchMonkeys()
      requires mario.Valid() && MonkeysOk(monkeys, thrown)
      modifies this, monkeys
      ensures MonkeysOk(monkeys, thrown) && bullets == old(bullets) && thrown == old(thrown)
      ensures Accrues(old(Counters()), Counters()) && timeRemaining == old(timeRemaining) && isGameWon == old(isGameWon)
      ensures forall ss {:trigger Touched(ss, Looks(monkeys), mario.BoundingBox(), mario.hasHammer, |monkeys|)} ::
                ss == old(MonkeyStates(monkeys)) ==>
                MonkeyStates(monkeys) == Touched(ss, Looks(monkeys), mario.BoundingBox(), mario.hasHammer, |monkeys|)
      ensures forall ss {:trigger Kills(ss, Looks(monkeys), mario.BoundingBox(), |monkeys|)} ::
                ss == old(MonkeyStates(monkeys)) ==>
                Counters() == AfterMonkeyTouches(old(Counters()), Kills(ss, Looks(monkeys), mario.BoundingBox(), |monkeys|), mario.hasHammer)
    {
      var n := TouchAll(monkeys, mario.BoundingBox(), mario.hasHammer, thrown);
      ScoreTouches(n);
    }

    /** The scoring half of `TouchMonkeys`. */
    method ScoreTouches(n: nat)
      modifies this
      ensures bullets == old(bullets) && thrown == old(thrown)
      ensures Counters() == AfterMonkeyTouches(old(Counters()), n, mario.hasHammer)
    {
      var t := AfterMonkeyTouches(Counters(), n, mario.hasHammer);
      destroyedMonkeys, score, isGameOver := t.destroyedMonkeys, t.score, t.gameOver;
    }
  }

  /** `ladder.update()` on the `i`th ladder of a list without repeats. */
  method StepLadder(ls: seq<Ladders.Ladder>, i: nat, ps: seq<Platform>)
    requires i < |ls| && Distinct(ls) && ls[i].Valid()
    modifies ls[i]
    ensures LadderStates(ls) == old(LadderStates(ls))[i := Ladders.LadderStep(old(ls[i].State()), ls[i].size, ls[i].phys, ps)]
  {
    DistinctOthers(ls, i);
    ls[i].Update(ps);
  }

  /** The `i`th barrel's own update and Mario's hammer on it: whether Mario touches it alive, and
      whether he jumps over it. */
  method StepBarrel(bs: seq<Barrels.Barrel>, i: nat, ps: seq<Platform>, mario: Player.Mario) returns (touching: bool, jumped: bool)
    requires i < |bs| && Distinct(bs) && bs[i].Valid() && mario.Valid()
    modifies bs[i]
    ensures var s := Barrels.BarrelStep(old(bs[i].State()), bs[i].size, bs[i].phys, ps);
            var m := mario.State();
            && BarrelStates(bs) == old(BarrelStates(bs))[i := BarrelOutcome(old(bs[i].State()), bs[i].size, bs[i].phys, ps, m, mario.env.art)]
            && touching == BarrelTouch(s, bs[i].size, m, mario.env.art)
            && jumped == Player.JumpOver(m, mario.env.art, mario.env.gravity, s.x, s.y, bs[i].size.h)
  {
    DistinctOthers(bs, i);
    var b := bs[i];
    b.Update(ps);
    touching := !b.isDestroyed && Intersects(mario.BoundingBox(), b.BoundingBox());
    jumped := Player.JumpOver(mario.State(), mario.env.art, mario.env.gravity, b.x, b.y, b.size.h);
    if touching && mario.hasHammer {
      b.Destroy();
    }
  }

  /** Mario's update as the level sees it, on values: from Mario's state `s` and the pickups
      `hs` and `bs` as they were, Mario ends in `s'`, the shot fired is `shot`, and the pickups
      end as `hs'` and `bs'`. */
  ghost predicate MarioMoved(s: Player.MarioState, env: Player.MarioEnv, input: Player.Input, hs: seq<Player.HammerItem>,
                             bs: seq<Player.BlasterItem>, lbs: seq<Rect>, ps: seq<Platform>, s': Player.MarioState,
                             shot: Option<Bullets.BulletState>, hs': seq<Player.HammerItem>, bs': seq<Player.BlasterItem>)
  {
    var f := Player.MarioStep(s, env, input, hs, bs, lbs, ps);
    && s' == f.mario && shot == f.shot
    && hs' == Player.HammersAfter(Player.MoveHorizontally(s, input), env.art, hs, |hs|)
    && bs' == Player.BlastersAfter(Player.HammerPass(Player.MoveHorizontally(s, input), env.art, hs), env.art, bs, |bs|)
  }

  /** The state of the bullet `after` holds beyond `before`, if it holds one more. */
  ghost function NewShot(before: seq<Bullets.Bullet>, after: seq<Bullets.Bullet>): Option<Bullets.BulletState>
    reads after
  {
    if |after| == |before| + 1 then Some(after[|before|].State()) else None
  }

  /** Mario's own update, with what the level keeps about Mario, the pickups and the bullets. */
  method MoveMario(mario: Player.Mario, input: Player.Input, ladders: seq<Ladders.Ladder>, ps: seq<Platform>,
                   hammers: seq<Hammers.Hammer>, blasters: seq<Blasters.Blaster>, bullets: seq<Bullets.Bullet>)
    returns (fired: seq<Bullets.Bullet>)
    requires ArmouryOk(mario, hammers, blasters) && BulletsOk(bullets)
    modifies mario, hammers, blasters
    ensures ArmouryOk(mario, hammers, blasters) && BulletsOk(fired)
    ensures Player.AtMostOneShot(bullets, fired, mario.env.bulletArt)
    ensures |bullets| <= |fired| && forall k :: |bullets| <= k < |fired| ==> fresh(fired[k])
    ensures forall s {:trigger Player.MarioStep(s, mario.env, input, old(Player.HammerItems(hammers)), old(Player.BlasterItems(blasters)),
                                                Player.LadderBoxes(ladders), ps)} ::
              s == old(mario.State()) ==>
              MarioMoved(s, mario.env, input, old(Player.HammerItems(hammers)), old(Player.BlasterItems(blasters)),
                         Player.LadderBoxes(ladders), ps, mario.State(), NewShot(bullets, fired),
                         Player.HammerItems(hammers), Player.BlasterItems(blasters))
  {
    ghost var f := Player.MarioStep(mario.State(), mario.env, input, Player.HammerItems(hammers), Player.BlasterItems(blasters),
                                    Player.LadderBoxes(ladders), ps);
    fired := mario.Update(input, ladders, ps, hammers, blasters, bullets);
    if fired != bullets {
      assert fired == bullets + [fired[|bullets|]];
      DistinctAppend(bullets, fired[|bullets|]);
    }
  }

  /** `bullets.removeAll(toRemove)` once `rm` lists exactly the spent bullets of `bs`: what is
      left are the unspent bullets, in order. */
  method Prune(bs: seq<Bullets.Bullet>, rm: seq<Bullets.Bullet>) returns (r: seq<Bullets.Bullet>)
    requires Distinct(bs) && forall j :: 0 <= j < |bs| ==> bs[j].Valid()
    requires forall b :: b in rm <==> b in bs && b.spent
    ensures r == Unspent(bs) && BulletsOk(r)
    ensures forall b :: b in r <==> b in bs && !b.spent
  {
    r := RemoveAll(bs, rm);
    KeepSpent(bs, rm);
  }

  /** `bullets.removeAll(toRemove)`: the bullets not in `rm`, in order. */
  method RemoveAll(bs: seq<Bullets.Bullet>, rm: seq<Bullets.Bullet>) returns (r: seq<Bullets.Bullet>)
    requires Distinct(bs)
    ensures Distinct(r)
    ensures r == Keep(bs, rm)
  {
    r := [];
    var i := 0;
    while i < |bs|
      invariant 0 <= i <= |bs|
      invariant Distinct(r)
      invariant r == Keep(bs[..i], rm)
    {
      assert bs[..i + 1] == bs[..i] + [bs[i]];
      assert bs[..i + 1][..i] == bs[..i];
      if bs[i] !in rm {
        DistinctOthers(bs, i);
        DistinctAppend(r, bs[i]);
        r := r + [bs[i]];
      }
      i := i + 1;
    }
    assert bs[..i] == bs;
  }

  // ---------------------------------------------------------------------------------------
  // The passes over the monkeys

  /** Every monkey's own update, in list order; the footprint grows by new bananas only. */
  method UpdateAll(ms: seq<Monkeys.Monkey>, ps: seq<Platform>, ghost thrown: set<Bananas.Banana>)
    returns (ghost grown: set<Bananas.Banana>)
    requires MonkeysOk(ms, thrown)
    modifies ms, thrown
    ensures MonkeysOk(ms, grown) && thrown <= grown && fresh(grown - thrown)
    ensures MonkeyStates(ms) == Stepped(old(MonkeyStates(ms)), ms, ps, |ms|)
    ensures forall j :: 0 <= j < |ms| ==>
              && ms[j].frameCounter == Monkeys.NextCounter(ms[j].kind, ms[j].State(), old(ms[j].frameCounter))
              && Monkeys.Views(ms[j].bananas)
                 == Monkeys.NextBananas(ms[j].kind, ms[j].State(), ms[j].look, old(ms[j].frameCounter), old(Monkeys.Views(ms[j].bananas)))
  {
    ghost var ss, cs, vs := MonkeyStates(ms), FrameCounters(ms), BananaViews(ms, thrown);
    grown := thrown;
    var i := 0;
    while i < |ms|
      invariant 0 <= i <= |ms|
      invariant MonkeysOk(ms, grown) && thrown <= grown && fresh(grown - thrown)
      invariant |ss| == |ms| && forall j :: 0 <= j < |ss| ==> Monkeys.IndexOk(ss[j], ms[j].routeDistances)
      invariant MonkeyStates(ms) == Stepped(ss, ms, ps, i)
      invariant |cs| == |vs| == |ms| && forall j :: 0 <= j < |cs| ==> 0 <= cs[j] < Monkeys.FireInterval
      invariant forall j :: 0 <= j < i ==>
                  && ms[j].frameCounter == Monkeys.NextCounter(ms[j].kind, ms[j].State(), cs[j])
                  && Monkeys.Views(ms[j].bananas) == Monkeys.NextBananas(ms[j].kind, ms[j].State(), ms[j].look, cs[j], vs[j])
      invariant forall j :: i <= j < |ms| ==> ms[j].frameCounter == cs[j] && Monkeys.Views(ms[j].bananas) == vs[j]
    {
      grown := UpdateNext(ms, i, ps, grown, ss, cs, vs);
      i := i + 1;
    }
  }

  /** One step of `UpdateAll`: the `i`th monkey's own update. */
  method UpdateNext(ms: seq<Monkeys.Monkey>, i: nat, ps: seq<Platform>, ghost thrown: set<Bananas.Banana>,
                    ghost ss: seq<Monkeys.MonkeyState>, ghost cs: seq<int>, ghost vs: seq<seq<Bananas.BananaState>>)
    returns (ghost grown: set<Bananas.Banana>)
    requires i < |ms| == |cs| == |vs| == |ss| && MonkeysOk(ms, thrown)
    requires forall j :: 0 <= j < |ss| ==> Monkeys.IndexOk(ss[j], ms[j].routeDistances)
    requires MonkeyStates(ms) == Stepped(ss, ms, ps, i)
    requires forall j :: 0 <= j < |cs| ==> 0 <= cs[j] < Monkeys.FireInterval
    requires forall j :: 0 <= j < i ==>
               && ms[j].frameCounter == Monkeys.NextCounter(ms[j].kind, ms[j].State(), cs[j])
               && Monkeys.Views(ms[j].bananas) == Monkeys.NextBananas(ms[j].kind, ms[j].State(), ms[j].look, cs[j], vs[j])
    requires forall j :: i <= j < |ms| ==> ms[j].frameCounter == cs[j] && Monkeys.Views(ms[j].bananas) == vs[j]
    modifies ms[i], ms[i].Thrown
    ensures MonkeysOk(ms, grown) && thrown <= grown && fresh(grown - thrown)
    ensures MonkeyStates(ms) == Stepped(ss, ms, ps, i + 1)
    ensures forall j :: 0 <= j < i + 1 ==>
              && ms[j].frameCounter == Monkeys.NextCounter(ms[j].kind, ms[j].State(), cs[j])
              && Monkeys.Views(ms[j].bananas) == Monkeys.NextBananas(ms[j].kind, ms[j].State(), ms[j].look, cs[j], vs[j])
    ensures forall j :: i + 1 <= j < |ms| ==> ms[j].frameCounter == cs[j] && Monkeys.Views(ms[j].bananas) == vs[j]
  {
    grown := UpdateOne(ms, i, ps, thrown);
    assert MonkeyStates(ms) == Stepped(ss, ms, ps, i + 1);
  }

  /** `monkeys.get(i).update(platforms)`. */
  method UpdateOne(ms: seq<Monkeys.Monkey>, i: nat, ps: seq<Platform>, ghost thrown: set<Bananas.Banana>)
    returns (ghost grown: set<Bananas.Banana>)
    requires i < |ms| && MonkeysOk(ms, thrown)
    modifies ms[i], ms[i].Thrown
    ensures MonkeysOk(ms, grown) && thrown <= grown && fresh(grown - thrown)
    ensures MonkeyStates(ms) == old(MonkeyStates(ms))[i := Monkeys.MonkeyStep(old(ms[i].State()), ms[i].kind, ms[i].look,
                                                                              ms[i].routeDistances, ps)]
    ensures ms[i].frameCounter == Monkeys.NextCounter(ms[i].kind, ms[i].State(), old(ms[i].frameCounter))
    ensures Monkeys.Views(ms[i].bananas)
            == Monkeys.NextBananas(ms[i].kind, ms[i].State(), ms[i].look, old(ms[i].frameCounter), old(Monkeys.Views(ms[i].bananas)))
    ensures forall j :: 0 <= j < |ms| && j != i ==>
              ms[j].frameCounter == old(ms[j].frameCounter) && Monkeys.Views(ms[j].bananas) == old(Monkeys.Views(ms[j].bananas))
  {
    ms[i].Update(ps);
    grown := thrown + ms[i].Thrown;
  }

  /** Every intelligent monkey's bananas advanced, pruned and tested against `box`, in list
      order; `hit` says whether one left in flight touches it. */
  method SweepAll(ms: seq<Monkeys.Monkey>, box: Rect, ghost thrown: set<Bananas.Banana>) returns (hit: bool)
    requires MonkeysOk(ms, thrown)
    modifies ms, thrown
    ensures MonkeysOk(ms, thrown) && MonkeyStates(ms) == old(MonkeyStates(ms))
    ensures forall j :: 0 <= j < |ms| ==>
              && ms[j].frameCounter == old(ms[j].frameCounter)
              && Monkeys.Views(ms[j].bananas) == Monkeys.Unexpired(Monkeys.StepAll(old(Monkeys.Views(ms[j].bananas))))
    ensures hit <==> exists i :: 0 <= i < |ms| && Strikes(ms[i], box)
  {
    ghost var ss, cs, vs := MonkeyStates(ms), FrameCounters(ms), BananaViews(ms, thrown);
    hit := false;
    var i := 0;
    while i < |ms|
      invariant 0 <= i <= |ms| && |ss| == |cs| == |vs| == |ms|
      invariant MonkeysOk(ms, thrown) && MonkeyStates(ms) == ss
      invariant forall j :: 0 <= j < |ms| ==> ms[j].frameCounter == cs[j]
      invariant forall j :: 0 <= j < i ==> Monkeys.Views(ms[j].bananas) == Monkeys.Unexpired(Monkeys.StepAll(vs[j]))
      invariant forall j :: i <= j < |ms| ==> Monkeys.Views(ms[j].bananas) == vs[j]
      invariant hit <==> exists j :: 0 <= j < i && Strikes(ms[j], box)
    {
      hit := SweepNext(ms, i, box, thrown, hit, ss, cs, vs);
      i := i + 1;
    }
  }

  /** One step of `SweepAll`: the `i`th monkey's banana pass, `hit` so far carried along. */
  method SweepNext(ms: seq<Monkeys.Monkey>, i: nat, box: Rect, ghost thrown: set<Bananas.Banana>, hit: bool,
                   ghost ss: seq<Monkeys.MonkeyState>, ghost cs: seq<int>, ghost vs: seq<seq<Bananas.BananaState>>)
    returns (hit': bool)
    requires i < |ms| == |ss| == |cs| == |vs| && MonkeysOk(ms, thrown) && MonkeyStates(ms) == ss
    requires forall j :: 0 <= j < |ms| ==> ms[j].frameCounter == cs[j]
    requires forall j :: 0 <= j < i ==> Monkeys.Views(ms[j].bananas) == Monkeys.Unexpired(Monkeys.StepAll(vs[j]))
    requires forall j :: i <= j < |ms| ==> Monkeys.Views(ms[j].bananas) == vs[j]
    requires hit <==> exists j :: 0 <= j < i && Strikes(ms[j], box)
    modifies ms[i], ms[i].Thrown
    ensures MonkeysOk(ms, thrown) && MonkeyStates(ms) == ss
    ensures forall j :: 0 <= j < |ms| ==> ms[j].frameCounter == cs[j]
    ensures forall j :: 0 <= j < i + 1 ==> Monkeys.Views(ms[j].bananas) == Monkeys.Unexpired(Monkeys.StepAll(vs[j]))
    ensures forall j :: i + 1 <= j < |ms| ==> Monkeys.Views(ms[j].bananas) == vs[j]
    ensures hit' <==> exists j :: 0 <= j < i + 1 && Strikes(ms[j], box)
  {
    var touched := SweepOne(ms, i, box, thrown);
    hit' := hit || touched;
  }

  /** The banana pass on the i-th monkey, when it is intelligent: its bananas advance and the
      expired ones are dropped. */
  method SweepOne(ms: seq<Monkeys.Monkey>, i: nat, box: Rect, ghost thrown: set<Bananas.Banana>) returns (hit: bool)
    requires i < |ms| && MonkeysOk(ms, thrown)
    modifies ms[i], ms[i].Thrown
    ensures MonkeysOk(ms, thrown) && MonkeyStates(ms) == old(MonkeyStates(ms))
    ensures hit == Strikes(ms[i], box)
    ensures Monkeys.Views(ms[i].bananas) == Monkeys.Unexpired(Monkeys.StepAll(old(Monkeys.Views(ms[i].bananas))))
    ensures forall j :: 0 <= j < |ms| ==> ms[j].frameCounter == old(ms[j].frameCounter)
    ensures forall j :: 0 <= j < |ms| && j != i ==> Monkeys.Views(ms[j].bananas) == old(Monkeys.Views(ms[j].bananas))
    ensures forall j :: 0 <= j < |ms| && j != i ==> Strikes(ms[j], box) == old(Strikes(ms[j], box))
  {
    hit := false;
    if ms[i].kind == Monkeys.Intelligent {
      hit := ms[i].SweepBananas(box);
    } else {
      assert Monkeys.StepAll([]) == [];
    }
  }

  /** A bullet against every monkey: how many it kills, and the bullet spent when that is any. */
  method Strike(ms: seq<Monkeys.Monkey>, b: Bullets.Bullet, ghost thrown: set<Bananas.Banana>) returns (n: nat)
    requires b.Valid() && MonkeysOk(ms, thrown)
    modifies ms, b
    ensures b.Valid() && MonkeysOk(ms, thrown)
    ensures forall ss {:trigger Touched(ss, Looks(ms), old(b.BoundingBox()), true, |ms|)} ::
              ss == old(MonkeyStates(ms)) ==> MonkeyStates(ms) == Touched(ss, Looks(ms), old(b.BoundingBox()), true, |ms|)
    ensures forall ss {:trigger Kills(ss, Looks(ms), old(b.BoundingBox()), |ms|)} ::
              ss == old(MonkeyStates(ms)) ==> n == Kills(ss, Looks(ms), old(b.BoundingBox()), |ms|)
    ensures b.State() == old(b.State()).(spent := old(b.spent) || n > 0)
  {
    n := TouchAll(ms, b.BoundingBox(), true, thrown);
    b.SpendIf(n > 0);
  }

  /** `box` against every live monkey in turn: returns how many it touches, and when `lethal`
      each of those dies. */
  method TouchAll(ms: seq<Monkeys.Monkey>, box: Rect, lethal: bool, ghost thrown: set<Bananas.Banana>) returns (n: nat)
    requires MonkeysOk(ms, thrown)
    modifies ms
    ensures MonkeysOk(ms, thrown)
    ensures forall ss {:trigger Touched(ss, Looks(ms), box, lethal, |ms|)} ::
              ss == old(MonkeyStates(ms)) ==> MonkeyStates(ms) == Touched(ss, Looks(ms), box, lethal, |ms|)
    ensures forall ss {:trigger Kills(ss, Looks(ms), box, |ms|)} ::
              ss == old(MonkeyStates(ms)) ==> n == Kills(ss, Looks(ms), box, |ms|)
  {
    ghost var ss := MonkeyStates(ms);
    ghost var looks := Looks(ms);
    n := 0;
    var i := 0;
    while i < |ms|
      invariant 0 <= i <= |ms|
      invariant MonkeysOk(ms, thrown)
      invariant MonkeyStates(ms) == Touched(ss, looks, box, lethal, i)
      invariant forall ss' {:trigger Kills(ss', looks, box, i)} :: ss' == ss ==> n == Kills(ss', looks, box, i)
    {
      n := TouchNext(ms, i, box, lethal, thrown, ss, looks, n);
      i := i + 1;
    }
  }

  /** One step of `TouchAll`: the `i`th monkey is passed over and counted. */
  method TouchNext(ms: seq<Monkeys.Monkey>, i: nat, box: Rect, lethal: bool, ghost thrown: set<Bananas.Banana>,
                   ghost ss: seq<Monkeys.MonkeyState>, ghost looks: seq<Monkeys.MonkeyLook>, n: nat)
    returns (n': nat)
    requires i < |ms| == |ss| == |looks| && looks[i] == ms[i].look && MonkeysOk(ms, thrown)
    requires MonkeyStates(ms) == Touched(ss, looks, box, lethal, i) && n == Kills(ss, looks, box, i)
    modifies ms[i]
    ensures MonkeysOk(ms, thrown)
    ensures MonkeyStates(ms) == Touched(ss, looks, box, lethal, i + 1) && n' == Kills(ss, looks, box, i + 1)
  {
    assert MonkeyStates(ms)[i] == ss[i];
    var hit := TouchOne(ms, i, box, lethal, thrown, ss[i]);
    n' := n + if hit then 1 else 0;
    TouchedStep(ss, looks, box, lethal, i);
    KillsStep(ss, looks, box, i);
  }

  /** `box` against the `i`th monkey: whether it touches it alive, and when `lethal` that
      monkey then dies. */
  method TouchOne(ms: seq<Monkeys.Monkey>, i: nat, box: Rect, lethal: bool, ghost thrown: set<Bananas.Banana>,
                  ghost s: Monkeys.MonkeyState)
    returns (hit: bool)
    requires i < |ms| && MonkeysOk(ms, thrown) && ms[i].State() == s
    modifies ms[i]
    ensures MonkeysOk(ms, thrown)
    ensures hit == Hits(s, ms[i].look, box)
    ensures MonkeyStates(ms) == old(MonkeyStates(ms))[i := Touch(s, ms[i].look, box, lethal)]
  {
    hit := !ms[i].dead && Intersects(box, ms[i].BoundingBox());
    if hit && lethal {
      KillOne(ms, i, thrown);
    }
  }

  /** `monkey.die()` on the i-th monkey. */
  method KillOne(ms: seq<Monkeys.Monkey>, i: nat, ghost thrown: set<Bananas.Banana>)
    requires i < |ms| && MonkeysOk(ms, thrown)
    modifies ms[i]
    ensures MonkeysOk(ms, thrown)
    ensures MonkeyStates(ms) == old(MonkeyStates(ms))[i := old(ms[i].State()).(dead := true)]
  {
    ms[i].Die();
  }
}
