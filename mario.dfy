/**
 * The player. Mario is centre-based: (x, y) is the centre of the current image,
 * and the collision box is that image's size centred there. The source keeps the
 * width and height in static fields that `updateSprite` refreshes and the
 * constructor seeds from the initial (hammer, facing right) image, so they always
 * equal the current image's size; here they are read off the current sprite.
 *
 * One frame (`update`) runs: horizontal move, hammer pickups, blaster pickups,
 * sprite refresh, ladders, gravity, vertical move, landing, jump and bottom clamp,
 * firing, screen clamp. Each step is a function on `MarioState`; the class runs
 * them in place, each method proved equal to its step.
 */
module Player {
  import opened Geometry
  import opened Wrappers
  import opened Physics
  import opened Platforms
  import opened Hammers
  import opened Blasters
  import opened Bullets
  import opened Ladders

  const JumpStrength: real := -5.0
  const MoveSpeed: real := 3.5
  const ClimbSpeed: real := 2.0

  /** Which of the three image pairs is shown. */
  datatype Look = Plain | WithHammer | WithBlaster

  /** The current image: a look and a direction. */
  datatype Sprite = Sprite(look: Look, right: bool)

  /** The sizes of Mario's six images. */
  datatype MarioArt = MarioArt(
    plainLeft: Size, plainRight: Size,
    hammerLeft: Size, hammerRight: Size,
    blasterLeft: Size, blasterRight: Size)
  {
    predicate Valid()
    {
      && plainLeft.Valid() && plainRight.Valid()
      && hammerLeft.Valid() && hammerRight.Valid()
      && blasterLeft.Valid() && blasterRight.Valid()
    }

    function SizeOf(sp: Sprite): (r: Size)
      ensures Valid() ==> r.Valid()
    {
      match sp.look
      case Plain => if sp.right then plainRight else plainLeft
      case WithHammer => if sp.right then hammerRight else hammerLeft
      case WithBlaster => if sp.right then blasterRight else blasterLeft
    }
  }

  /** What Mario's update needs besides its own fields: the images, the two values of the
      physics constants class it uses, the window size and the bullet images. */
  datatype MarioEnv = MarioEnv(art: MarioArt, gravity: real, terminal: real,
                               screenWidth: real, screenHeight: real, bulletArt: BulletArt)
  {
    predicate Valid()
    {
      art.Valid() && bulletArt.Valid() && gravity > 0.0 && terminal > 0.0
      && screenWidth > 0.0 && screenHeight > 0.0
    }
  }

  /** The keyboard for one frame: keys held down, and keys pressed this frame. */
  datatype Input = Input(leftHeld: bool, rightHeld: bool, upHeld: bool, downHeld: bool,
                         spacePressed: bool, sPressed: bool)

  /** Every field of Mario that an update changes. */
  datatype MarioState = MarioState(
    x: real, y: real, vy: real, jumping: bool,
    hasHammer: bool, hasBlaster: bool, bulletCount: int,
    facingRight: bool, sprite: Sprite)

  function Width(s: MarioState, art: MarioArt): real { art.SizeOf(s.sprite).w }
  function Height(s: MarioState, art: MarioArt): real { art.SizeOf(s.sprite).h }

  /** The bottom edge, `y + height / 2`. */
  function Bottom(s: MarioState, art: MarioArt): real { s.y + Height(s, art) / 2.0 }

  /** `getBoundingBox`. */
  function MarioBox(s: MarioState, art: MarioArt): (r: Rect)
    ensures r.Bottom() == Bottom(s, art) && r.left + Width(s, art) / 2.0 == s.x
  {
    CentredAt(s.x, s.y, Width(s, art), Height(s, art))
  }

  /** The weapon invariant: never both weapons, never negative ammo, no ammo without a blaster. */
  predicate WeaponOk(s: MarioState)
  {
    !(s.hasHammer && s.hasBlaster) && s.bulletCount >= 0 && (!s.hasBlaster ==> s.bulletCount == 0)
  }

  // ---------------------------------------------------------------------------------------
  // Horizontal movement and the sprite

  /** `handleHorizontalMovement`: LEFT wins over RIGHT; the direction follows the key. */
  function MoveHorizontally(s: MarioState, input: Input): (r: MarioState)
    ensures input.leftHeld ==> r == s.(x := s.x - MoveSpeed, facingRight := false)
    ensures !input.leftHeld && input.rightHeld ==> r == s.(x := s.x + MoveSpeed, facingRight := true)
    ensures !input.leftHeld && !input.rightHeld ==> r == s
  {
    if input.leftHeld then s.(x := s.x - MoveSpeed, facingRight := false)
    else if input.rightHeld then s.(x := s.x + MoveSpeed, facingRight := true)
    else s
  }

  /** The image `updateSprite` selects: the hammer look wins over the blaster look. */
  function SpriteFor(s: MarioState): (sp: Sprite)
    ensures sp.right == s.facingRight
    ensures sp.look == WithHammer <==> s.hasHammer
    ensures sp.look == WithBlaster <==> !s.hasHammer && s.hasBlaster
    ensures sp.look == Plain <==> !s.hasHammer && !s.hasBlaster
  {
    Sprite(if s.hasHammer then WithHammer else if s.hasBlaster then WithBlaster else Plain, s.facingRight)
  }

  /** `updateSprite`: switch the image and move `y` so that the bottom edge stays where it was. */
  function Resprite(s: MarioState, art: MarioArt): (r: MarioState)
    ensures r.sprite == SpriteFor(s)
    ensures Bottom(r, art) == Bottom(s, art)
    ensures r == s.(sprite := r.sprite, y := r.y)
  {
    var sp := SpriteFor(s);
    var oldBottom := s.y + art.SizeOf(s.sprite).h / 2.0;
    var newBottom := s.y + art.SizeOf(sp).h / 2.0;
    s.(sprite := sp, y := s.y - (newBottom - oldBottom))
  }

  /** Refreshing the sprite twice is refreshing it once. */
  lemma RespriteIdempotent(s: MarioState, art: MarioArt)
    ensures Resprite(Resprite(s, art), art) == Resprite(s, art)
  {
    var r := Resprite(s, art);
    assert SpriteFor(r) == r.sprite;
  }

  // ---------------------------------------------------------------------------------------
  // Weapons

  /** What a hammer shows Mario: its box and whether it is collected. */
  datatype HammerItem = HammerItem(box: Rect, collected: bool)

  /** What a blaster shows Mario: its box, whether it is collected and its ammo. */
  datatype BlasterItem = BlasterItem(box: Rect, collected: bool, ammo: int)

  predicate TouchesHammer(s: MarioState, art: MarioArt, h: HammerItem)
  {
    !h.collected && Intersects(MarioBox(s, art), h.box)
  }

  predicate TouchesBlaster(s: MarioState, art: MarioArt, b: BlasterItem)
  {
    !b.collected && Intersects(MarioBox(s, art), b.box)
  }

  /** `collectHammer`: an uncollected hammer in reach arms Mario with it and takes the blaster
      and its ammo away. */
  function HammerCollected(s: MarioState, art: MarioArt, h: HammerItem): (r: MarioState)
    ensures !TouchesHammer(s, art, h) ==> r == s
    ensures TouchesHammer(s, art, h) ==>
              && r.hasHammer && !r.hasBlaster
              && r.bulletCount == (if s.hasBlaster then 0 else s.bulletCount)
              && r.sprite == Sprite(WithHammer, s.facingRight)
              && Bottom(r, art) == Bottom(s, art)
              && r.x == s.x && r.vy == s.vy && r.jumping == s.jumping && r.facingRight == s.facingRight
  {
    if TouchesHammer(s, art, h) then
      var armed := s.(hasHammer := true);
      var dropped := if armed.hasBlaster then armed.(hasBlaster := false, bulletCount := 0) else armed;
      Resprite(dropped, art)
    else s
  }

  /** `pickUpBlaster`: drop the hammer (and with it the ammo count), hold a blaster and add the ammo. */
  function BlasterPickedUp(s: MarioState, art: MarioArt, ammo: int): (r: MarioState)
    ensures !r.hasHammer && r.hasBlaster
    ensures r.bulletCount == (if s.hasHammer then 0 else s.bulletCount) + ammo
    ensures r.sprite == Sprite(WithBlaster, s.facingRight)
    ensures Bottom(r, art) == Bottom(s, art)
    ensures r.x == s.x && r.vy == s.vy && r.jumping == s.jumping && r.facingRight == s.facingRight
  {
    var unarmed := if s.hasHammer then s.(hasHammer := false, bulletCount := 0) else s;
    Resprite(unarmed.(hasBlaster := true, bulletCount := unarmed.bulletCount + ammo), art)
  }

  /** `collectBlaster`: an uncollected blaster in reach replaces the hammer; the ammo accumulates. */
  function BlasterCollected(s: MarioState, art: MarioArt, b: BlasterItem): (r: MarioState)
    ensures !TouchesBlaster(s, art, b) ==> r == s
    ensures TouchesBlaster(s, art, b) ==>
              && !r.hasHammer && r.hasBlaster
              && r.bulletCount == s.bulletCount + b.ammo
              && r.sprite == Sprite(WithBlaster, s.facingRight)
              && Bottom(r, art) == Bottom(s, art)
              && r.x == s.x && r.vy == s.vy && r.jumping == s.jumping && r.facingRight == s.facingRight
  {
    if TouchesBlaster(s, art, b) then
      var unarmed := if s.hasHammer then s.(hasHammer := false) else s;
      Resprite(BlasterPickedUp(unarmed.(hasBlaster := true), art, b.ammo), art)
    else s
  }

  /** Collecting every hammer of the level in list order. */
  function HammerPass(s: MarioState, art: MarioArt, hs: seq<HammerItem>): (r: MarioState)
    ensures r == s || (r.hasHammer && !r.hasBlaster)
  {
    if hs == [] then s else HammerCollected(HammerPass(s, art, hs[..|hs| - 1]), art, hs[|hs| - 1])
  }

  /** Collecting every blaster of the level in list order. */
  function BlasterPass(s: MarioState, art: MarioArt, bs: seq<BlasterItem>): (r: MarioState)
    ensures r == s || (!r.hasHammer && r.hasBlaster)
  {
    if bs == [] then s else BlasterCollected(BlasterPass(s, art, bs[..|bs| - 1]), art, bs[|bs| - 1])
  }

  /** One hammer after Mario, in state `s`, passes it: once Mario touches it, it is collected
      and reports the off-screen box. */
  function HammerAfter(s: MarioState, art: MarioArt, h: HammerItem): HammerItem
  {
    if TouchesHammer(s, art, h) then HammerItem(OffScreen, true) else h
  }

  /** The hammers after Mario, starting from `s`, has passed over the first `upTo` of them:
      each one is met by Mario as the hammers before it have left him. */
  function HammersAfter(s: MarioState, art: MarioArt, hs: seq<HammerItem>, upTo: int): (r: seq<HammerItem>)
    ensures |r| == |hs|
  {
    seq(|hs|, i requires 0 <= i < |hs| => if i < upTo then HammerAfter(HammerPass(s, art, hs[..i]), art, hs[i]) else hs[i])
  }

  /** Passing over one more hammer changes that hammer alone. */
  lemma HammersAfterStep(s: MarioState, art: MarioArt, hs: seq<HammerItem>, i: int)
    requires 0 <= i < |hs|
    ensures HammersAfter(s, art, hs, i + 1) == HammersAfter(s, art, hs, i)[i := HammerAfter(HammerPass(s, art, hs[..i]), art, hs[i])]
  {
  }

  /** One blaster after Mario, in state `s`, passes it: collected once Mario touches it. */
  function BlasterAfter(s: MarioState, art: MarioArt, b: BlasterItem): BlasterItem
  {
    b.(collected := b.collected || TouchesBlaster(s, art, b))
  }

  /** The blasters after Mario, starting from `s`, has passed over the first `upTo` of them. */
  function BlastersAfter(s: MarioState, art: MarioArt, bs: seq<BlasterItem>, upTo: int): (r: seq<BlasterItem>)
    ensures |r| == |bs| && forall i :: 0 <= i < |bs| ==> r[i].ammo == bs[i].ammo
  {
    seq(|bs|, i requires 0 <= i < |bs| => if i < upTo then BlasterAfter(BlasterPass(s, art, bs[..i]), art, bs[i]) else bs[i])
  }

  /** Passing over one more blaster changes that blaster alone. */
  lemma BlastersAfterStep(s: MarioState, art: MarioArt, bs: seq<BlasterItem>, i: int)
    requires 0 <= i < |bs|
    ensures BlastersAfter(s, art, bs, i + 1) == BlastersAfter(s, art, bs, i)[i := BlasterAfter(BlasterPass(s, art, bs[..i]), art, bs[i])]
  {
  }

  /** `consumeBullet`: one round less while a blaster with ammo is held; the blaster goes with
      the last round. */
  function BulletConsumed(s: MarioState, art: MarioArt): (r: MarioState)
    ensures !(s.hasBlaster && s.bulletCount > 0) ==> r == s
    ensures s.hasBlaster && s.bulletCount > 0 ==>
              && r.bulletCount == s.bulletCount - 1
              && (r.hasBlaster <==> r.bulletCount != 0)
              && r.hasHammer == s.hasHammer && r.x == s.x && Bottom(r, art) == Bottom(s, art)
  {
    if s.hasBlaster && s.bulletCount > 0 then
      var fewer := s.(bulletCount := s.bulletCount - 1);
      if fewer.bulletCount == 0 then Resprite(fewer.(hasBlaster := false), art) else fewer
    else s
  }

  /** Every pickup and every shot keeps the weapon invariant (given non-negative ammo). */
  lemma WeaponStepsKeepInvariant(s: MarioState, art: MarioArt, h: HammerItem, b: BlasterItem)
    requires WeaponOk(s) && b.ammo >= 0
    ensures WeaponOk(HammerCollected(s, art, h))
    ensures TouchesHammer(s, art, h) ==> HammerCollected(s, art, h).bulletCount == 0
    ensures WeaponOk(BlasterCollected(s, art, b))
    ensures WeaponOk(BulletConsumed(s, art))
    ensures WeaponOk(BlasterPickedUp(s, art, b.ammo))
  {
  }

  /** The hammer pass keeps the weapon invariant. */
  lemma {:induction false} HammerPassKeepsInvariant(s: MarioState, art: MarioArt, hs: seq<HammerItem>)
    requires WeaponOk(s)
    ensures WeaponOk(HammerPass(s, art, hs))
  {
    if hs != [] {
      HammerPassKeepsInvariant(s, art, hs[..|hs| - 1]);
      WeaponStepsKeepInvariant(HammerPass(s, art, hs[..|hs| - 1]), art, hs[|hs| - 1], BlasterItem(OffScreen, true, 0));
    }
  }

  /** The blaster pass keeps the weapon invariant when no blaster has negative ammo. */
  lemma {:induction false} BlasterPassKeepsInvariant(s: MarioState, art: MarioArt, bs: seq<BlasterItem>)
    requires WeaponOk(s)
    requires forall i :: 0 <= i < |bs| ==> bs[i].ammo >= 0
    ensures WeaponOk(BlasterPass(s, art, bs))
  {
    if bs != [] {
      BlasterPassKeepsInvariant(s, art, bs[..|bs| - 1]);
      WeaponStepsKeepInvariant(BlasterPass(s, art, bs[..|bs| - 1]), art, HammerItem(OffScreen, true), bs[|bs| - 1]);
    }
  }

  /** Pickups never move Mario sideways or change his speed, direction or jump. */
  lemma {:induction false} HammerPassKeepsMotion(s: MarioState, art: MarioArt, hs: seq<HammerItem>)
    ensures var r := HammerPass(s, art, hs);
            r.x == s.x && r.vy == s.vy && r.jumping == s.jumping && r.facingRight == s.facingRight
  {
    if hs != [] {
      HammerPassKeepsMotion(s, art, hs[..|hs| - 1]);
    }
  }

  /** As above, for blasters. */
  lemma {:induction false} BlasterPassKeepsMotion(s: MarioState, art: MarioArt, bs: seq<BlasterItem>)
    ensures var r := BlasterPass(s, art, bs);
            r.x == s.x && r.vy == s.vy && r.jumping == s.jumping && r.facingRight == s.facingRight
  {
    if bs != [] {
      BlasterPassKeepsMotion(s, art, bs[..|bs| - 1]);
    }
  }

  // ---------------------------------------------------------------------------------------
  // Ladders

  /** Mario's x lies strictly between the ladder's sides. The source's `marioRight - width / 2`
      is Mario's x. */
  predicate Within(s: MarioState, lb: Rect)
  {
    lb.left < s.x && s.x < lb.Right()
  }

  /** The DOWN key on a ladder Mario stands on: step down while the step stays on the ladder;
      stop at its bottom; close a remaining gap shorter than a step. `marioBottom` is the bottom
      as it was before this ladder was handled. */
  function Descend(s: MarioState, h: real, marioBottom: real, lb: Rect): (r: MarioState)
    ensures r == s || r == s.(y := r.y, vy := 0.0)
  {
    var nextY := s.y + ClimbSpeed;
    var nextBottom := nextY + h / 2.0;
    if marioBottom > lb.top && nextBottom <= lb.Bottom() then s.(y := nextY, vy := 0.0)
    else if marioBottom == lb.Bottom() then s.(vy := 0.0)
    else if lb.Bottom() - marioBottom < ClimbSpeed then s.(y := s.y + lb.Bottom() - marioBottom, vy := 0.0)
    else s
  }

  /** Mario touches the ladder and is within its sides: no key stops him, UP climbs, DOWN
      descends (after UP when both are held). */
  function Climb(s: MarioState, art: MarioArt, input: Input, lb: Rect): (r: MarioState)
    ensures r == s.(y := r.y, vy := r.vy)
    ensures r.vy == s.vy || r.vy == 0.0
    ensures !input.upHeld && !input.downHeld ==> r == s.(vy := 0.0)
    ensures input.upHeld && !input.downHeld ==> r == s.(y := s.y - ClimbSpeed, vy := 0.0)
  {
    var marioBottom := s.y + Height(s, art) / 2.0;
    var still := if !input.upHeld && !input.downHeld then s.(vy := 0.0) else s;
    var up := if input.upHeld then still.(y := still.y - ClimbSpeed, vy := 0.0) else still;
    if input.downHeld then Descend(up, Height(s, art), marioBottom, lb) else up
  }

  /** `handleLadders` for one ladder whose box is `lb`; also says whether Mario is on it. The two
      last cases need Mario's bottom exactly on the ladder's top or bottom while the boxes do not
      meet, which the closed intersection test rules out; they are kept as written. */
  function ClimbAt(s: MarioState, art: MarioArt, input: Input, lb: Rect): (r: (MarioState, bool))
    ensures r.1 <==> Intersects(MarioBox(s, art), lb) && Within(s, lb)
    ensures !r.1 && !input.downHeld ==> r.0 == s
  {
    var marioBottom := s.y + Height(s, art) / 2.0;
    if Intersects(MarioBox(s, art), lb) then
      if Within(s, lb) then (Climb(s, art, input, lb), true) else (s, false)
    else if marioBottom == lb.top && input.downHeld && Within(s, lb) then (s.(y := s.y + ClimbSpeed, vy := 0.0), false)
    else if marioBottom == lb.Bottom() && input.downHeld && Within(s, lb) then (s.(vy := 0.0), false)
    else (s, false)
  }

  /** All ladders in order (no early exit): Mario is on a ladder if he is on any of them. */
  function LadderPass(s: MarioState, art: MarioArt, input: Input, lbs: seq<Rect>): (r: (MarioState, bool))
    ensures !r.1 && !input.downHeld ==> r.0 == s
  {
    if lbs == [] then (s, false)
    else
      var before := LadderPass(s, art, input, lbs[..|lbs| - 1]);
      var here := ClimbAt(before.0, art, input, lbs[|lbs| - 1]);
      (here.0, before.1 || here.1)
  }

  /** One ladder changes only `y` and `vy`, and `vy` only to 0; with neither UP nor DOWN held it
      never moves Mario, and standing on it zeroes the velocity. */
  lemma ClimbAtFacts(s: MarioState, art: MarioArt, input: Input, lb: Rect)
    ensures var r := ClimbAt(s, art, input, lb).0;
            r == s.(y := r.y, vy := r.vy) && (r.vy == s.vy || r.vy == 0.0)
    ensures !input.upHeld && !input.downHeld ==> ClimbAt(s, art, input, lb).0.y == s.y
    ensures !input.upHeld && !input.downHeld && ClimbAt(s, art, input, lb).1 ==> ClimbAt(s, art, input, lb).0.vy == 0.0
    ensures input.upHeld && !input.downHeld && ClimbAt(s, art, input, lb).1 ==>
              ClimbAt(s, art, input, lb).0 == s.(y := s.y - ClimbSpeed, vy := 0.0)
  {
  }

  /** Over all ladders: only `y` and `vy` change; with no vertical key held Mario does not move,
      and if he is on some ladder his velocity is 0 (so no sliding). */
  lemma {:induction false} LadderPassFacts(s: MarioState, art: MarioArt, input: Input, lbs: seq<Rect>)
    ensures var r := LadderPass(s, art, input, lbs).0;
            r == s.(y := r.y, vy := r.vy) && (r.vy == s.vy || r.vy == 0.0)
    ensures !input.upHeld && !input.downHeld ==> LadderPass(s, art, input, lbs).0.y == s.y
    ensures !input.upHeld && !input.downHeld && LadderPass(s, art, input, lbs).1 ==>
              LadderPass(s, art, input, lbs).0.vy == 0.0
  {
    if lbs != [] {
      var before := LadderPass(s, art, input, lbs[..|lbs| - 1]);
      LadderPassFacts(s, art, input, lbs[..|lbs| - 1]);
      ClimbAtFacts(before.0, art, input, lbs[|lbs| - 1]);
    }
  }

  // ---------------------------------------------------------------------------------------
  // Gravity, landing, jumping and the screen

  /** Steps 6 and 7 of `update`: gravity and the terminal cap unless on a ladder, then the move. */
  function Fall(s: MarioState, env: MarioEnv, onLadder: bool): (r: MarioState)
    ensures !onLadder ==> r.vy == Cap(s.vy + env.gravity, env.terminal)
    ensures onLadder ==> r.vy == s.vy
    ensures r.y == s.y + r.vy && r == s.(y := r.y, vy := r.vy)
  {
    var v := if onLadder then s.vy else Cap(s.vy + env.gravity, env.terminal);
    s.(vy := v, y := s.y + v)
  }

  /** A platform Mario may land on: the boxes meet and his bottom is above the platform's top,
      or below it by no more than this frame's fall. */
  predicate LandsOn(box: Rect, vy: real, p: Platform)
  {
    Intersects(box, p.BoundingBox()) && box.Bottom() <= p.BoundingBox().top + vy
  }

  /** The first platform in list order Mario may land on. */
  function FirstLanding(box: Rect, vy: real, ps: seq<Platform>): (r: Option<nat>)
    ensures r.Some? ==> r.value < |ps| && LandsOn(box, vy, ps[r.value])
    ensures r.Some? ==> forall j :: 0 <= j < r.value ==> !LandsOn(box, vy, ps[j])
    ensures r.None? <==> forall j :: 0 <= j < |ps| ==> !LandsOn(box, vy, ps[j])
  {
    if ps == [] then None
    else if LandsOn(box, vy, ps[0]) then Some(0)
    else
      match FirstLanding(box, vy, ps[1..])
      case None => None
      case Some(k) => Some(k + 1)
  }

  /** A scan that has passed `i` non-landings and meets a landing stops at the first landing. */
  lemma FirstLandingAt(box: Rect, vy: real, ps: seq<Platform>, i: nat)
    requires i < |ps| && LandsOn(box, vy, ps[i])
    requires forall j :: 0 <= j < i ==> !LandsOn(box, vy, ps[j])
    ensures FirstLanding(box, vy, ps) == Some(i)
  {
  }

  /** `handlePlatforms`: only while not moving up, snap onto the first platform Mario may land
      on; the flag says whether he landed. */
  function Landing(s: MarioState, art: MarioArt, ps: seq<Platform>): (r: (MarioState, bool))
    ensures r.1 <==> s.vy >= 0.0 && FirstLanding(MarioBox(s, art), s.vy, ps).Some?
    ensures !r.1 ==> r.0 == s
    ensures r.1 ==>
              && Bottom(r.0, art) == ps[FirstLanding(MarioBox(s, art), s.vy, ps).value].TopY()
              && r.0.vy == 0.0 && !r.0.jumping
              && r.0 == s.(y := r.0.y, vy := 0.0, jumping := false)
  {
    if s.vy >= 0.0 then
      match FirstLanding(MarioBox(s, art), s.vy, ps)
      case None => (s, false)
      case Some(k) => (s.(y := ps[k].BoundingBox().top - Height(s, art) / 2.0, vy := 0.0, jumping := false), true)
    else (s, false)
  }

  /** The bottom-of-screen clamp shared by `handleJumping` and `enforceBoundaries`. */
  function ClampBottom(s: MarioState, art: MarioArt, screenHeight: real): (r: MarioState)
    ensures Bottom(r, art) <= screenHeight
    ensures Bottom(s, art) <= screenHeight ==> r == s
    ensures Bottom(s, art) > screenHeight ==>
              r == s.(y := r.y, vy := 0.0, jumping := false) && Bottom(r, art) == screenHeight
  {
    if s.y + Height(s, art) / 2.0 > screenHeight then
      s.(y := screenHeight - Height(s, art) / 2.0, vy := 0.0, jumping := false)
    else s
  }

  /** `handleJumping`: a jump starts only when Mario landed this frame and SPACE was pressed. */
  function Jumped(s: MarioState, art: MarioArt, onPlatform: bool, wantsToJump: bool, screenHeight: real): (r: MarioState)
    ensures Bottom(r, art) <= screenHeight
    ensures onPlatform && wantsToJump && Bottom(s, art) <= screenHeight ==>
              r == s.(vy := JumpStrength, jumping := true)
    ensures !(onPlatform && wantsToJump) ==> r == ClampBottom(s, art, screenHeight)
  {
    ClampBottom(if onPlatform && wantsToJump then s.(vy := JumpStrength, jumping := true) else s, art, screenHeight)
  }

  /** `enforceBoundaries`: x into [halfW, screenWidth - halfW] (the right bound wins when the screen
      is narrower than Mario) and the bottom onto the screen. */
  function Bounded(s: MarioState, art: MarioArt, screenWidth: real, screenHeight: real): (r: MarioState)
    ensures r.x <= screenWidth - Width(s, art) / 2.0
    ensures screenWidth >= Width(s, art) ==> Width(s, art) / 2.0 <= r.x
    ensures Bottom(r, art) <= screenHeight
    ensures Width(s, art) / 2.0 <= s.x <= screenWidth - Width(s, art) / 2.0 && Bottom(s, art) <= screenHeight ==> r == s
    ensures r.sprite == s.sprite && r.hasHammer == s.hasHammer && r.hasBlaster == s.hasBlaster
    ensures r.bulletCount == s.bulletCount && r.facingRight == s.facingRight
  {
    var halfW := Width(s, art) / 2.0;
    var x1 := if s.x < halfW then halfW else s.x;
    var maxX := screenWidth - halfW;
    var x2 := if x1 > maxX then maxX else x1;
    ClampBottom(s.(x := x2), art, screenHeight)
  }

  /** The condition of step 10: S pressed while holding a blaster with ammo. */
  predicate FireCondition(s: MarioState, input: Input)
  {
    input.sPressed && s.hasBlaster && s.bulletCount > 0
  }

  /** `jumpOver`, literally: jumping, within one unit of the barrel horizontally, above it, and with
      the bottom no higher than the barrel's bottom less the jump apex `25 / (2 g)` less half Mario. */
  predicate JumpOver(s: MarioState, art: MarioArt, gravity: real, barrelX: real, barrelY: real, barrelHeight: real)
    requires gravity > 0.0
    ensures JumpOver(s, art, gravity, barrelX, barrelY, barrelHeight) ==>
              s.jumping && s.y < barrelY && barrelX - 1.0 <= s.x <= barrelX + 1.0
  {
    var h := Height(s, art);
    && s.jumping
    && (if s.x - barrelX < 0.0 then barrelX - s.x else s.x - barrelX) <= 1.0
    && s.y < barrelY
    && s.y + h / 2.0 >= barrelY + barrelHeight / 2.0 - (JumpStrength * JumpStrength) / (2.0 * gravity) - h / 2.0
  }

  // ---------------------------------------------------------------------------------------
  // The whole frame

  /** The outcome of one update: the new state, and the bullet fired, if any. */
  datatype Frame = Frame(mario: MarioState, shot: Option<BulletState>)

  /** Steps 1 to 3: move, both pickup passes, sprite refresh. */
  function Armed(s: MarioState, art: MarioArt, input: Input, hs: seq<HammerItem>, bs: seq<BlasterItem>): (r: MarioState)
    ensures r.sprite == SpriteFor(r)
    ensures var m := MoveHorizontally(s, input);
            r.x == m.x && r.vy == m.vy && r.jumping == m.jumping && r.facingRight == m.facingRight
  {
    var m := MoveHorizontally(s, input);
    HammerPassKeepsMotion(m, art, hs);
    BlasterPassKeepsMotion(HammerPass(m, art, hs), art, bs);
    Resprite(BlasterPass(HammerPass(m, art, hs), art, bs), art)
  }

  /** Steps 6 to 9, after the ladders: gravity, move, landing and the jump. */
  function Airborne(s: MarioState, env: MarioEnv, input: Input, onLadder: bool, ps: seq<Platform>): (r: MarioState)
    ensures r.hasHammer == s.hasHammer && r.hasBlaster == s.hasBlaster && r.bulletCount == s.bulletCount
    ensures r.facingRight == s.facingRight && r.sprite == s.sprite
  {
    var landing := Landing(Fall(s, env, onLadder), env.art, ps);
    Jumped(landing.0, env.art, landing.1, input.spacePressed, env.screenHeight)
  }

  /** Steps 10 and 11: fire when S is pressed with a loaded blaster, then clamp to the screen. */
  function FireAndClamp(s: MarioState, env: MarioEnv, input: Input): (f: Frame)
    ensures f.shot.Some? <==> FireCondition(s, input)
    ensures f.shot.Some? ==> f.shot.value == Fired(s.x, s.y, s.facingRight) && f.mario.bulletCount == s.bulletCount - 1
    ensures f.shot.None? ==> f.mario.bulletCount == s.bulletCount
    ensures WeaponOk(s) ==> WeaponOk(f.mario)
    ensures Bottom(f.mario, env.art) <= env.screenHeight
    ensures f.mario.x <= env.screenWidth - Width(f.mario, env.art) / 2.0
    ensures env.screenWidth >= Width(f.mario, env.art) ==> Width(f.mario, env.art) / 2.0 <= f.mario.x
  {
    var fires := FireCondition(s, input);
    var fired := if fires then BulletConsumed(s, env.art) else s;
    Frame(Bounded(fired, env.art, env.screenWidth, env.screenHeight),
          if fires then Some(Fired(s.x, s.y, s.facingRight)) else None)
  }

  /** Steps 4 to 9: the ladders, then gravity, landing and the jump. */
  function Travelled(s: MarioState, env: MarioEnv, input: Input, lbs: seq<Rect>, ps: seq<Platform>): (r: MarioState)
    ensures r.hasHammer == s.hasHammer && r.hasBlaster == s.hasBlaster && r.bulletCount == s.bulletCount
    ensures r.facingRight == s.facingRight && r.sprite == s.sprite
  {
    var ladder := LadderPass(s, env.art, input, lbs);
    LadderPassFacts(s, env.art, input, lbs);
    Airborne(ladder.0, env, input, ladder.1, ps)
  }

  /** `Mario.update` as a function of the state, the input and what Mario sees of the level. */
  function MarioStep(s: MarioState, env: MarioEnv, input: Input, hs: seq<HammerItem>, bs: seq<BlasterItem>,
                     lbs: seq<Rect>, ps: seq<Platform>): (f: Frame)
    ensures var a := Armed(s, env.art, input, hs, bs);
            && (f.shot.Some? <==> FireCondition(a, input))
            && f.mario.bulletCount == (if f.shot.Some? then a.bulletCount - 1 else a.bulletCount)
            && f.mario.hasHammer == a.hasHammer
    ensures f.shot.Some? ==> f.shot.value.Valid() && !f.shot.value.spent && f.shot.value.distance == 0.0
    ensures Bottom(f.mario, env.art) <= env.screenHeight
    ensures f.mario.x <= env.screenWidth - Width(f.mario, env.art) / 2.0
  {
    FireAndClamp(Travelled(Armed(s, env.art, input, hs, bs), env, input, lbs, ps), env, input)
  }

  lemma MarioStepKeepsWeapons(s: MarioState, env: MarioEnv, input: Input, hs: seq<HammerItem>, bs: seq<BlasterItem>,
                              lbs: seq<Rect>, ps: seq<Platform>)
    requires env.Valid()
    ensures WeaponOk(s) && (forall i :: 0 <= i < |bs| ==> bs[i].ammo >= 0) ==> WeaponOk(MarioStep(s, env, input, hs, bs, lbs, ps).mario)
  {
    if WeaponOk(s) && forall i :: 0 <= i < |bs| ==> bs[i].ammo >= 0 {
      MarioStepFacts(s, env, input, hs, bs, lbs, ps);
    }
  }

  /** After a frame the weapon invariant still holds (given non-negative ammo everywhere) and
      Mario is on the screen. */
  lemma MarioStepFacts(s: MarioState, env: MarioEnv, input: Input, hs: seq<HammerItem>, bs: seq<BlasterItem>,
                       lbs: seq<Rect>, ps: seq<Platform>)
    requires env.Valid() && WeaponOk(s)
    requires forall i :: 0 <= i < |bs| ==> bs[i].ammo >= 0
    ensures var f := MarioStep(s, env, input, hs, bs, lbs, ps);
            && WeaponOk(f.mario)
            && Bottom(f.mario, env.art) <= env.screenHeight
            && f.mario.x <= env.screenWidth - Width(f.mario, env.art) / 2.0
  {
    var m := MoveHorizontally(s, input);
    HammerPassKeepsInvariant(m, env.art, hs);
    BlasterPassKeepsInvariant(HammerPass(m, env.art, hs), env.art, bs);
  }

  // ---------------------------------------------------------------------------------------
  // The class

  function HammerItems(hs: seq<Hammer>): (r: seq<HammerItem>)
    reads hs
    ensures |r| == |hs| && forall i :: 0 <= i < |hs| ==> r[i] == HammerItem(hs[i].BoundingBox(), hs[i].isCollected)
  {
    seq(|hs|, i requires 0 <= i < |hs| reads hs => HammerItem(hs[i].BoundingBox(), hs[i].isCollected))
  }

  function BlasterItems(bs: seq<Blaster>): (r: seq<BlasterItem>)
    reads bs
    ensures |r| == |bs| && forall i :: 0 <= i < |bs| ==> r[i] == BlasterItem(bs[i].BoundingBox(), bs[i].collected, bs[i].bullets)
  {
    seq(|bs|, i requires 0 <= i < |bs| reads bs => BlasterItem(bs[i].BoundingBox(), bs[i].collected, bs[i].bullets))
  }

  function LadderBoxes(ls: seq<Ladder>): (r: seq<Rect>)
    reads ls
    ensures |r| == |ls| && forall i :: 0 <= i < |ls| ==> r[i] == ls[i].BoundingBox()
  {
    seq(|ls|, i requires 0 <= i < |ls| reads ls => ls[i].BoundingBox())
  }

  class Mario {
    const env: MarioEnv
    var x: real
    var y: real
    var velocityY: real
    var isJumping: bool
    var hasHammer: bool
    var hasBlaster: bool
    var bulletCount: int
    var isFacingRight: bool
    var sprite: Sprite

    ghost predicate Valid()
      reads this
    {
      env.Valid()
    }

    function State(): MarioState
      reads this
    {
      MarioState(x, y, velocityY, isJumping, hasHammer, hasBlaster, bulletCount, isFacingRight, sprite)
    }

    /** At the level's start position, at rest, unarmed, facing right, showing the hammer image. */
    constructor (x0: real, y0: real, env: MarioEnv)
      requires env.Valid()
      ensures Valid() && this.env == env
      ensures State() == MarioState(x0, y0, 0.0, false, false, false, 0, true, Sprite(WithHammer, true))
      ensures WeaponOk(State())
    {
      this.env := env;
      x, y, velocityY, isJumping := x0, y0, 0.0, false;
      hasHammer, hasBlaster, bulletCount := false, false, 0;
      isFacingRight, sprite := true, Sprite(WithHammer, true);
    }

    function BoundingBox(): (r: Rect)
      reads this
      ensures r.Bottom() == y + env.art.SizeOf(sprite).h / 2.0
      ensures r.left + env.art.SizeOf(sprite).w / 2.0 == x
    {
      MarioBox(State(), env.art)
    }

    method HandleHorizontalMovement(input: Input)
      modifies this
      ensures State() == MoveHorizontally(old(State()), input)
    {
      if input.leftHeld {
        x := x - MoveSpeed;
        isFacingRight := false;
      } else if input.rightHeld {
        x := x + MoveSpeed;
        isFacingRight := true;
      }
    }

    method UpdateSprite()
      modifies this
      ensures State() == Resprite(old(State()), env.art)
    {
      var oldBottom := y + env.art.SizeOf(sprite).h / 2.0;
      if hasHammer {
        sprite := Sprite(WithHammer, isFacingRight);
      } else if hasBlaster {
        sprite := Sprite(WithBlaster, isFacingRight);
      } else {
        sprite := Sprite(Plain, isFacingRight);
      }
      var newBottom := y + env.art.SizeOf(sprite).h / 2.0;
      y := y - (newBottom - oldBottom);
    }

    method CollectHammer(h: Hammer)
      modifies this, h
      ensures State() == HammerCollected(old(State()), env.art, old(HammerItem(h.BoundingBox(), h.isCollected)))
      ensures h.isCollected == (old(h.isCollected) || TouchesHammer(old(State()), env.art, old(HammerItem(h.BoundingBox(), h.isCollected))))
    {
      if !h.isCollected && Intersects(BoundingBox(), h.BoundingBox()) {
        hasHammer := true;
        if hasBlaster {
          hasBlaster := false;
          bulletCount := 0;
        }
        h.Collect();
        UpdateSprite();
      }
    }

    method PickUpBlaster(ammo: int)
      modifies this
      ensures State() == BlasterPickedUp(old(State()), env.art, ammo)
    {
      if hasHammer {
        hasHammer := false;
        bulletCount := 0;
      }
      hasBlaster := true;
      bulletCount := bulletCount + ammo;
      UpdateSprite();
    }

    method CollectBlaster(b: Blaster)
      modifies this, b
      ensures State() == BlasterCollected(old(State()), env.art, old(BlasterItem(b.BoundingBox(), b.collected, b.bullets)))
      ensures b.collected == (old(b.collected) || TouchesBlaster(old(State()), env.art, old(BlasterItem(b.BoundingBox(), b.collected, b.bullets))))
      ensures b.bullets == old(b.bullets)
    {
      if !b.collected && Intersects(BoundingBox(), b.BoundingBox()) {
        if hasHammer {
          hasHammer := false;
        }
        hasBlaster := true;
        PickUpBlaster(b.GetAmmo());
        b.Collect();
        UpdateSprite();
      }
    }

    /** The body of the hammer loop, on the `i`th hammer of a list without repeats. */
    method CollectHammerAt(hammers: seq<Hammer>, i: nat)
      requires i < |hammers| && Distinct(hammers)
      modifies this, hammers[i]
      ensures State() == HammerCollected(old(State()), env.art, old(HammerItems(hammers))[i])
      ensures HammerItems(hammers) == old(HammerItems(hammers))[i := HammerAfter(old(State()), env.art, old(HammerItems(hammers))[i])]
    {
      DistinctOthers(hammers, i);
      CollectHammer(hammers[i]);
    }

    /** Step 2, hammers: every hammer in list order. */
    method CollectHammers(hammers: seq<Hammer>)
      requires Distinct(hammers)
      modifies this, hammers
      ensures State() == HammerPass(old(State()), env.art, old(HammerItems(hammers)))
      ensures HammerItems(hammers) == HammersAfter(old(State()), env.art, old(HammerItems(hammers)), |hammers|)
    {
      ghost var s0 := State();
      ghost var items := HammerItems(hammers);
      var i := 0;
      while i < |hammers|
        invariant 0 <= i <= |hammers|
        invariant State() == HammerPass(s0, env.art, items[..i])
        invariant HammerItems(hammers) == HammersAfter(s0, env.art, items, i)
      {
        assert items[..i + 1][..i] == items[..i];
        assert HammerItems(hammers)[i] == items[i];
        CollectHammerAt(hammers, i);
        HammersAfterStep(s0, env.art, items, i);
        i := i + 1;
      }
      assert items[..i] == items;
    }

    /** The body of the blaster loop, on the `i`th blaster of a list without repeats. */
    method CollectBlasterAt(blasters: seq<Blaster>, i: nat)
      requires i < |blasters| && Distinct(blasters)
      modifies this, blasters[i]
      ensures State() == BlasterCollected(old(State()), env.art, old(BlasterItems(blasters))[i])
      ensures BlasterItems(blasters) == old(BlasterItems(blasters))[i := BlasterAfter(old(State()), env.art, old(BlasterItems(blasters))[i])]
    {
      DistinctOthers(blasters, i);
      CollectBlaster(blasters[i]);
    }

    /** Step 2, blasters: every blaster in list order. */
    method CollectBlasters(blasters: seq<Blaster>)
      requires Distinct(blasters)
      modifies this, blasters
      ensures State() == BlasterPass(old(State()), env.art, old(BlasterItems(blasters)))
      ensures BlasterItems(blasters) == BlastersAfter(old(State()), env.art, old(BlasterItems(blasters)), |blasters|)
    {
      ghost var s0 := State();
      ghost var items := BlasterItems(blasters);
      var i := 0;
      while i < |blasters|
        invariant 0 <= i <= |blasters|
        invariant State() == BlasterPass(s0, env.art, items[..i])
        invariant BlasterItems(blasters) == BlastersAfter(s0, env.art, items, i)
      {
        assert items[..i + 1][..i] == items[..i];
        assert BlasterItems(blasters)[i] == items[i];
        CollectBlasterAt(blasters, i);
        BlastersAfterStep(s0, env.art, items, i);
        i := i + 1;
      }
      assert items[..i] == items;
    }

    /** `handleLadders`: every ladder in order; returns whether Mario is on one. */
    method HandleLadders(input: Input, ladders: seq<Ladder>) returns (isOnLadder: bool)
      modifies this
      ensures (State(), isOnLadder) == LadderPass(old(State()), env.art, input, LadderBoxes(ladders))
    {
      ghost var s0 := State();
      ghost var boxes := LadderBoxes(ladders);
      isOnLadder := false;
      var i := 0;
      while i < |ladders|
        invariant 0 <= i <= |ladders|
        invariant (State(), isOnLadder) == LadderPass(s0, env.art, input, boxes[..i])
      {
        assert boxes[..i + 1][..i] == boxes[..i];
        var onThis := ClimbLadder(input, ladders[i]);
        isOnLadder := isOnLadder || onThis;
        i := i + 1;
      }
      assert boxes[..i] == boxes;
    }

    /** The body of the ladder loop for one ladder. */
    method ClimbLadder(input: Input, ladder: Ladder) returns (onLadder: bool)
      modifies this
      ensures (State(), onLadder) == ClimbAt(old(State()), env.art, input, ladder.BoundingBox())
    {
      var lb := ladder.BoundingBox();
      var marioBottom := y + env.art.SizeOf(sprite).h / 2.0;
      var within := lb.left < x && x < lb.Right();
      onLadder := false;
      if Intersects(BoundingBox(), lb) {
        if within {
          onLadder := true;
          ClimbOn(input, lb);
        }
      } else if marioBottom == lb.top && input.downHeld && within {
        y := y + ClimbSpeed;
        velocityY := 0.0;
      } else if marioBottom == lb.Bottom() && input.downHeld && within {
        velocityY := 0.0;
      }
    }

    /** The keys while Mario is on the ladder with box `lb`. */
    method ClimbOn(input: Input, lb: Rect)
      modifies this
      ensures State() == Climb(old(State()), env.art, input, lb)
    {
      var h := env.art.SizeOf(sprite).h;
      var marioBottom := y + h / 2.0;
      if !input.upHeld && !input.downHeld {
        velocityY := 0.0;
      }
      if input.upHeld {
        y := y - ClimbSpeed;
        velocityY := 0.0;
      }
      if input.downHeld {
        var nextY := y + ClimbSpeed;
        var nextBottom := nextY + h / 2.0;
        if marioBottom > lb.top && nextBottom <= lb.Bottom() {
          y := nextY;
          velocityY := 0.0;
        } else if marioBottom == lb.Bottom() {
          velocityY := 0.0;
        } else if lb.Bottom() - marioBottom < ClimbSpeed {
          y := y + lb.Bottom() - marioBottom;
          velocityY := 0.0;
        }
      }
    }

    /** Steps 6 and 7. */
    method ApplyGravity(onLadder: bool)
      modifies this
      ensures State() == Fall(old(State()), env, onLadder)
    {
      if !onLadder {
        velocityY := velocityY + env.gravity;
        velocityY := if env.terminal < velocityY then env.terminal else velocityY;
      }
      y := y + velocityY;
    }

    /** `handlePlatforms`. */
    method HandlePlatforms(ps: seq<Platform>) returns (onPlatform: bool)
      modifies this
      ensures (State(), onPlatform) == Landing(old(State()), env.art, ps)
    {
      onPlatform := false;
      if velocityY >= 0.0 {
        var hit := FindLanding(BoundingBox(), velocityY, ps);
        if hit.Some? {
          y := ps[hit.value].BoundingBox().top - env.art.SizeOf(sprite).h / 2.0;
          velocityY := 0.0;
          isJumping := false;
          onPlatform := true;
        }
      }
    }

    /** `handleJumping`. */
    method HandleJumping(onPlatform: bool, wantsToJump: bool)
      modifies this
      ensures State() == Jumped(old(State()), env.art, onPlatform, wantsToJump, env.screenHeight)
    {
      if onPlatform && wantsToJump {
        velocityY := JumpStrength;
        isJumping := true;
      }
      var bottomOfMario := y + env.art.SizeOf(sprite).h / 2.0;
      if bottomOfMario > env.screenHeight {
        y := env.screenHeight - env.art.SizeOf(sprite).h / 2.0;
        velocityY := 0.0;
        isJumping := false;
      }
    }

    method ConsumeBullet()
      modifies this
      ensures State() == BulletConsumed(old(State()), env.art)
    {
      if hasBlaster && bulletCount > 0 {
        bulletCount := bulletCount - 1;
        if bulletCount == 0 {
          hasBlaster := false;
          UpdateSprite();
        }
      }
    }

    method EnforceBoundaries()
      modifies this
      ensures State() == Bounded(old(State()), env.art, env.screenWidth, env.screenHeight)
    {
      var halfW := env.art.SizeOf(sprite).w / 2.0;
      if x < halfW {
        x := halfW;
      }
      var maxX := env.screenWidth - halfW;
      if x > maxX {
        x := maxX;
      }
      var bottomOfMario := y + env.art.SizeOf(sprite).h / 2.0;
      if bottomOfMario > env.screenHeight {
        y := env.screenHeight - env.art.SizeOf(sprite).h / 2.0;
        velocityY := 0.0;
        isJumping := false;
      }
    }

    /** `update`: one frame. A bullet fired this frame is appended to the level's list. */
    method Update(input: Input, ladders: seq<Ladder>, ps: seq<Platform>,
                  hammers: seq<Hammer>, blasters: seq<Blaster>, bullets: seq<Bullet>)
      returns (bullets': seq<Bullet>)
      requires Valid() && Distinct(hammers) && Distinct(blasters)
      modifies this, hammers, blasters
      ensures Valid()
      ensures AtMostOneShot(bullets, bullets', env.bulletArt)
      ensures forall k :: |bullets| <= k < |bullets'| ==> fresh(bullets'[k])
      ensures forall i :: 0 <= i < |blasters| ==> blasters[i].bullets == old(blasters[i].bullets)
      ensures WeaponOk(old(State())) && (forall i :: 0 <= i < |blasters| ==> old(blasters[i].bullets) >= 0) ==>
                WeaponOk(State())
      ensures forall s {:trigger MarioStep(s, env, input, old(HammerItems(hammers)), old(BlasterItems(blasters)), LadderBoxes(ladders), ps)} ::
              s == old(State()) ==>
              var f := MarioStep(s, env, input, old(HammerItems(hammers)), old(BlasterItems(blasters)),
                                 LadderBoxes(ladders), ps);
              && State() == f.mario
              && (f.shot.None? ==> bullets' == bullets)
              && (f.shot.Some? ==>
                    && |bullets'| == |bullets| + 1 && bullets'[..|bullets|] == bullets
                    && fresh(bullets'[|bullets|]) && bullets'[|bullets|].Valid()
                    && bullets'[|bullets|].art == env.bulletArt
                    && bullets'[|bullets|].State() == f.shot.value)
              && HammerItems(hammers) == HammersAfter(MoveHorizontally(s, input), env.art, old(HammerItems(hammers)), |hammers|)
              && BlasterItems(blasters)
                 == BlastersAfter(HammerPass(MoveHorizontally(s, input), env.art, old(HammerItems(hammers))), env.art,
                                  old(BlasterItems(blasters)), |blasters|)
    {
      ghost var s0, hs, bs := State(), HammerItems(hammers), BlasterItems(blasters);
      PickUp(input, hammers, blasters);
      bullets' := Advance(input, ladders, ps, bullets);
      MarioStepKeepsWeapons(s0, env, input, hs, bs, LadderBoxes(ladders), ps);
    }

    /** Steps 1 to 3: move, collect hammers and blasters in list order, refresh the sprite. */
    method PickUp(input: Input, hammers: seq<Hammer>, blasters: seq<Blaster>)
      requires Distinct(hammers) && Distinct(blasters)
      modifies this, hammers, blasters
      ensures State() == Armed(old(State()), env.art, input, old(HammerItems(hammers)), old(BlasterItems(blasters)))
      ensures var moved := MoveHorizontally(old(State()), input);
              && HammerItems(hammers) == HammersAfter(moved, env.art, old(HammerItems(hammers)), |hammers|)
              && BlasterItems(blasters)
                 == BlastersAfter(HammerPass(moved, env.art, old(HammerItems(hammers))), env.art, old(BlasterItems(blasters)), |blasters|)
    {
      HandleHorizontalMovement(input);
      CollectWeapons(hammers, blasters);
      UpdateSprite();
    }

    /** Step 2: the hammers, then the blasters, each in list order. */
    method CollectWeapons(hammers: seq<Hammer>, blasters: seq<Blaster>)
      requires Distinct(hammers) && Distinct(blasters)
      modifies this, hammers, blasters
      ensures State() == BlasterPass(HammerPass(old(State()), env.art, old(HammerItems(hammers))), env.art, old(BlasterItems(blasters)))
      ensures HammerItems(hammers) == HammersAfter(old(State()), env.art, old(HammerItems(hammers)), |hammers|)
      ensures BlasterItems(blasters)
              == BlastersAfter(HammerPass(old(State()), env.art, old(HammerItems(hammers))), env.art, old(BlasterItems(blasters)), |blasters|)
    {
      CollectHammers(hammers);
      CollectBlasters(blasters);
    }

    /** Steps 4 to 11: ladders, gravity, platforms, jump, then fire and clamp. */
    method Advance(input: Input, ladders: seq<Ladder>, ps: seq<Platform>, bullets: seq<Bullet>) returns (bullets': seq<Bullet>)
      requires Valid()
      modifies this
      ensures var f := FireAndClamp(Travelled(old(State()), env, input, LadderBoxes(ladders), ps), env, input);
              && State() == f.mario
              && (f.shot.None? ==> bullets' == bullets)
              && (f.shot.Some? ==>
                    && |bullets'| == |bullets| + 1 && bullets'[..|bullets|] == bullets
                    && fresh(bullets'[|bullets|]) && bullets'[|bullets|].Valid()
                    && bullets'[|bullets|].art == env.bulletArt
                    && bullets'[|bullets|].State() == f.shot.value)
      ensures AtMostOneShot(bullets, bullets', env.bulletArt)
      ensures forall k :: |bullets| <= k < |bullets'| ==> fresh(bullets'[k])
    {
      Travel(input, ladders, ps);
      bullets' := FireAndClampStep(input, bullets);
    }

    /** Steps 4 to 9. */
    method Travel(input: Input, ladders: seq<Ladder>, ps: seq<Platform>)
      modifies this
      ensures State() == Travelled(old(State()), env, input, LadderBoxes(ladders), ps)
    {
      var isOnLadder := HandleLadders(input, ladders);
      FallLandJump(input, isOnLadder, ps);
    }

    /** Steps 5 to 9: gravity, move, landing, jump. */
    method FallLandJump(input: Input, isOnLadder: bool, ps: seq<Platform>)
      modifies this
      ensures State() == Airborne(old(State()), env, input, isOnLadder, ps)
    {
      var wantsToJump := input.spacePressed;
      ApplyGravity(isOnLadder);
      var onPlatform := HandlePlatforms(ps);
      HandleJumping(onPlatform, wantsToJump);
    }

    /** Steps 10 and 11. */
    method FireAndClampStep(input: Input, bullets: seq<Bullet>) returns (bullets': seq<Bullet>)
      requires Valid()
      modifies this
      ensures var f := FireAndClamp(old(State()), env, input);
              && State() == f.mario
              && (f.shot.None? ==> bullets' == bullets)
              && (f.shot.Some? ==>
                    && |bullets'| == |bullets| + 1 && bullets'[..|bullets|] == bullets
                    && fresh(bullets'[|bullets|]) && bullets'[|bullets|].Valid()
                    && bullets'[|bullets|].art == env.bulletArt
                    && bullets'[|bullets|].State() == f.shot.value)
      ensures AtMostOneShot(bullets, bullets', env.bulletArt)
      ensures forall k :: |bullets| <= k < |bullets'| ==> fresh(bullets'[k])
    {
      bullets' := bullets;
      if input.sPressed && hasBlaster && bulletCount > 0 {
        var b := new Bullet(x, y, isFacingRight, env.bulletArt);
        bullets' := bullets + [b];
        ConsumeBullet();
      }
      EnforceBoundaries();
    }
  }

  /** `bullets'` is `bullets`, possibly with one live bullet of image `art` after them. */
  ghost predicate AtMostOneShot(bullets: seq<Bullet>, bullets': seq<Bullet>, art: BulletArt)
    reads bullets'
  {
    || bullets' == bullets
    || (&& |bullets'| == |bullets| + 1 && bullets'[..|bullets|] == bullets
        && bullets'[|bullets|].Valid() && !bullets'[|bullets|].spent && bullets'[|bullets|].art == art)
  }

  /** The landing scan of `handlePlatforms`: the first platform Mario may land on. */
  method FindLanding(box: Rect, vy: real, ps: seq<Platform>) returns (r: Option<nat>)
    ensures r == FirstLanding(box, vy, ps)
  {
    var i := 0;
    while i < |ps|
      invariant 0 <= i <= |ps|
      invariant forall j :: 0 <= j < i ==> !LandsOn(box, vy, ps[j])
    {
      if Intersects(box, ps[i].BoundingBox()) && box.Bottom() <= ps[i].BoundingBox().top + vy {
        FirstLandingAt(box, vy, ps, i);
        return Some(i);
      }
      i := i + 1;
    }
    return None;
  }
}
