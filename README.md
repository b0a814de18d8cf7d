# Shadow Donkey Kong: the per-frame simulation, in Dafny

This project models one frame of the level screen of a Donkey Kong clone written in Java on
the Bagel library. It covers the player (Mario), the boss (Donkey Kong), barrels, ladders,
platforms, hammers, blasters, bullets, the two kinds of monkeys and their bananas. It then
proves what the game's rules promise about them.

Modules, one per entity:

| file | module | content |
|---|---|---|
| `geometry.dfy` | `Geometry` | rectangles, the intersection test, centred boxes, the off-screen box |
| `physics.dfy` | `Physics` | the gravity and terminal-velocity constants (parameters), the velocity cap |
| `platform.dfy` | `Platforms`, `Falling` | platforms, the first-hit platform scan, the shared falling-body update |
| `ladder.dfy`, `barrel.dfy`, `donkey.dfy` | `Ladders`, `Barrels`, `Donkeys` | the falling entities |
| `bullet.dfy`, `banana.dfy` | `Bullets`, `Bananas` | the projectiles |
| `pickups.dfy` | `Hammers`, `Blasters` | the collectible weapons |
| `monkey.dfy` | `Monkeys` | the patrol state machine, the intelligent monkey's fire counter and banana list |
| `mario.dfy` | `Player` | Mario's update: movement, pickups, sprite, ladders, gravity, landing, jump, firing, screen clamp |
| `gameplay.dfy` | `Level` | `GamePlayScreen.update`: entity order, collisions, score counters, end flags, final score |
| `wrappers.dfy` | `Wrappers` | `Option` and a `Distinct` predicate for lists of objects |

Each entity follows the same pattern:

- a value datatype (`BarrelState`, `MonkeyState`, `MarioState`, ...) holds every field the
  source changes;
- a pure step function on that value (`BarrelStep`, `Walk`, `Landing`, ...) states what one
  call of the Java method does, and its `ensures` and lemmas state the rules;
- a class keeps the source's mutable fields. Its methods run the same loops as the source
  (with `break` where the source breaks), and each is proved to leave `State()` equal to the
  step function of the old state.

The level screen is a class over the entity objects. It also holds the counters `currFrame`,
`score`, `destroyedBarrels`, `jumpedBarrels`, `destroyedMonkeys`, `finalScore`,
`timeRemaining`, `isGameOver` and `isGameWon`. The scoring events are transitions on a
`Tally` value of those counters. The level's invariant says:

- the running score is always the starting score plus 100 per destroyed barrel, 30 per
  jumped barrel and 100 per killed monkey;
- Mario never holds both weapons and never has negative ammo;
- every live bullet is unspent;
- every ladder has the same size;
- every monkey and banana object is well formed, and no object is shared between two lists.

Code and documentation disagree in a few places; the model follows the code:

- A blaster's bounding box does not change when it is collected, although its doc comment
  says it moves off screen (Blaster.java:44-49). Callers test `collected` first.
- A collected hammer does report the off-screen box (Hammer.java:45-48).
- `computeFinalScore` runs only when a bullet kills the boss (GamePlayScreen.java:283-286). It
  reads `timeRemaining` as the previous frame's `displayInfo` left it, because this frame's
  `displayInfo` runs later (GamePlayScreen.java:328, 344-348).
- The bananas of an intelligent monkey are advanced twice per frame: once by the monkey's own
  update (IntelligentMonkey.java:52-53), and once by the screen's banana pass
  (GamePlayScreen.java:244).
- Both monkey variants walk at 0.5 per frame. The base class's 1.0 (Monkey.java:25) is never
  used.
- Mario's ladder tests on exact equality of the bottom edge (Mario.java:244, 252, 256) are
  modelled literally. With the closed intersection test used here, the two outer branches
  (252 and 256) need boxes that touch without intersecting, so they can never fire.

Conventions:

- Positions are `real`.
- Mario, barrels, ladders, the boss, platforms, hammers and bullets are centre-based.
- Monkeys, bananas and blasters use `(x, y)` as the top-left corner.
- Rectangles intersect when they share any point, edges included.
- Java's `int` division in `(MAX_FRAMES - currFrame) / 60` truncates toward zero, and
  `SecondsIn` writes that out for negative values.

## Model

| member | source | states |
|---|---|---|
| `Geometry.CentredAt` | Ladder.java:86-93 | the box has the given size and its centre is exactly (cx, cy) |
| `Physics.Cap` | Barrel.java:52-54 | the capped velocity is at most the terminal velocity and at most the input, and equals one of them |
| `Physics.CapAbsorbs` | Ladder.java:54-59 | capping, adding a positive gravity and capping again equals capping once: a body at terminal velocity stays there |
| `Platforms.Platform.TopY` | Platform.java:59-61 | the top is half the height above the centre |
| `Platforms.Platform.BoundingBox` | Platform.java:87-94 | the centred box, whose top is `TopY()` and bottom is the centre plus half the height |
| `Platforms.FirstHit` | Ladder.java:65-75 | the index returned is the first platform in array order whose box meets the given box; none exactly when no platform meets it |
| `Platforms.FirstHitAt` | Barrel.java:58-65 | a scan that has passed `i` misses and meets a hit at `i` has found the first hit |
| `Platforms.FindFirstHit` | Donkey.java:47-54 | the `for ... if intersects ... break` loop returns exactly the first hit |
| `Falling.Integrate` | Ladder.java:54-62 | velocity is the capped sum of velocity and gravity, and the body moves by that capped velocity |
| `Falling.IntegrateThenCap` | Donkey.java:40-44 | the boss moves by the uncapped velocity; only the stored velocity is capped |
| `Falling.Settle` | Ladder.java:65-75 | no platform met: unchanged; otherwise at rest with its bottom edge on the first platform's top |
| `Falling.FallStep` | Ladder.java:52-79 | one frame of a capped falling body: it either moved by exactly `Integrate` (no platform met) or came to rest with velocity 0 |
| `Falling.FallStepFacts` | Ladder.java:52-79 | after a frame the velocity is at most terminal; without a hit the body moved by exactly the capped velocity; with one it rests on the first platform it met |
| `Falling.FallScan` | Barrel.java:51-65 | the imperative integrate-and-scan code equals the falling-body step |
| `Falling.SettleScan` | Donkey.java:47-54 | the imperative platform scan equals `Settle` |
| `Falling.GainedIsProduct` | Barrel.java:51 | n frames of gravity add n times the gravity |
| `Falling.FreeFallGained` | Barrel.java:51-55 | from rest with nothing below, the velocity after n frames is the capped sum of n frames of gravity |
| `Falling.FreeFallVelocity` | Ladder.java:54-59 | from rest with nothing below, the velocity after n frames is min(n times gravity, terminal) |
| `Falling.FreeFallMonotone` | Ladder.java:54-59 | below the terminal velocity a falling body speeds up strictly; at terminal it stays there |
| `Ladders.LadderStep` | Ladder.java:52-79 | x never changes and velocity is at most terminal; without a hit y grows by exactly the capped velocity; with a hit the bottom rests on the first platform's top at velocity 0 |
| `Ladders.Ladder.constructor` | Ladder.java:26-36 | a ladder starts at its configured position at rest |
| `Ladders.Ladder.BoundingBox` | Ladder.java:86-93 | the box is the ladder image's size, centred on (x, y) |
| `Ladders.Ladder.Update` | Ladder.java:52-79 | the fields after `update` are `LadderStep` of the fields before |
| `Barrels.BarrelStep` | Barrel.java:48-70 | a destroyed barrel does not change; x and the destroyed flag never change; otherwise the capped fall and the first-platform landing |
| `Barrels.BarrelBox` | Barrel.java:89-99 | destroyed: the degenerate (-1000, -1000, 0, 0); otherwise the image's size centred on (x, y) |
| `Barrels.Barrel.constructor` | Barrel.java:23-38 | a barrel starts live, at rest, at its configured position |
| `Barrels.Barrel.Update` | Barrel.java:48-70 | the fields after `update` are `BarrelStep` of the fields before |
| `Barrels.Barrel.Destroy` | Barrel.java:104-107 | sets the destroyed flag and changes nothing else |
| `Donkeys.DonkeyStep` | Donkey.java:38-58 | x, health and dead are kept; y advances by the uncapped velocity; velocity is at most terminal afterwards; the first platform met stops it with its bottom on that platform's top |
| `Donkeys.Damage` | Donkey.java:97-104 | one point of health is lost while health is positive; dead becomes true exactly when health reaches 0; health stays in [0, 5]; a dead boss is unchanged |
| `Donkeys.DamageN` | Donkey.java:97-104 | any number of hits keeps health in [0, 5] with dead exactly at 0 |
| `Donkeys.DamageCount` | Donkey.java:97-104 | from full health, n hits leave max(5 - n, 0), and the boss is dead exactly when n >= 5 |
| `Donkeys.Donkey.constructor` | Donkey.java:14-16 | the boss starts with health 5, alive, at rest |
| `Donkeys.Donkey.BoundingBox` | Donkey.java:84-91 | the box is the boss image's size, centred on (x, y) |
| `Donkeys.Donkey.Update` | Donkey.java:38-58 | the fields after `update` are `DonkeyStep` of the fields before, and the health invariant holds |
| `Donkeys.Donkey.TakeDamage` | Donkey.java:97-104 | the fields after `takeDamage` are `Damage` of the fields before |
| `Bullets.Fired` | Bullet.java:27-31 | a new bullet is unspent and has travelled 0 |
| `Bullets.BulletBox` | Bullet.java:74-99 | the box of the image for the bullet's direction: that image's size, centred on (x, y) |
| `Bullets.HitsAnyPlatform` | Bullet.java:55-61 | some platform meets the box exactly when the first-hit scan finds one |
| `Bullets.BulletStep` | Bullet.java:42-62 | a spent bullet does not change; y and direction never change; a live one moves by exactly 3.8 either way and its distance grows by 3.8; it is spent iff distance > 300, x < 0, x > screen width, or its box meets a platform; expiry by range happens with distance in (300, 303.8] |
| `Bullets.Bullet.constructor` | Bullet.java:27-31 | the state is `Fired(startX, startY, movingRight)` |
| `Bullets.Bullet.Update` | Bullet.java:42-62 | the loop with `break` leaves the fields equal to `BulletStep` of the old ones |
| `Bullets.Bullet.MarkSpent` | Bullet.java:90-92 | sets spent and nothing else, so a second call changes nothing |
| `Bullets.Bullet.SpendIf` | GamePlayScreen.java:270-275 | marks the bullet spent when it hit, otherwise leaves it unchanged; never clears the flag |
| `Bananas.Thrown` | Banana.java:27-31 | a new banana is live and has travelled 0 |
| `Bananas.BananaBox` | Banana.java:71-73 | the image's box with its top-left corner at (x, y) |
| `Bananas.BananaStep` | Banana.java:36-46 | an expired banana does not change; y and direction never change; a live one moves by exactly 1.8 and its distance grows by 1.8; it expires iff distance >= 300, so at expiry distance is in [300, 301.8) |
| `Bananas.Banana.constructor` | Banana.java:27-31 | the state is `Thrown(x, y, movingRight)` |
| `Bananas.Banana.Update` | Banana.java:36-46 | the fields after `update` are `BananaStep` of the fields before |
| `Bananas.Banana.Expire` | Banana.java:79-81 | sets expired and nothing else |
| `Hammers.HammerBox` | Hammer.java:45-55 | collected: the degenerate off-screen box; otherwise centred on (x, y) with the image's size |
| `Hammers.Hammer.constructor` | Hammer.java:26-35 | a hammer starts uncollected at its configured position |
| `Hammers.Hammer.Collect` | Hammer.java:70-72 | the collected flag is set |
| `Blasters.BlasterBox` | Blaster.java:47-49 | the image's box with its top-left corner at (x, y), whether or not the blaster is collected |
| `Blasters.Blaster.constructor` | Blaster.java:14-15 | a blaster starts uncollected with 5 rounds |
| `Blasters.Blaster.Collect` | Blaster.java:62-64 | the collected flag is set and the ammo is kept |
| `Blasters.Blaster.SetBullets` | Blaster.java:70-72 | the ammo becomes exactly the given value, the flag is kept |
| `Monkeys.WalkSpeed` | NormalMonkey.java:7-25 | both variants walk at 0.5 |
| `Monkeys.MonkeyBox` | Monkey.java:180-183 | the current image's box, of that image's size, centred on the centre of the monkey's frame (x + width/2, y + height/2) |
| `Monkeys.NextX` | Monkey.java:111-113 | a step leads to x + 0.5 facing right and x - 0.5 facing left |
| `Monkeys.Turn` | Monkey.java:140-154 | the end of a segment or an edge: position, velocity, landed and dead kept; the distance reset to 0; the index advanced modulo the route size, so it stays in range and grows by one unless it wraps; the direction flipped |
| `Monkeys.ParseRoute` | Monkey.java:54-62 | no tokens gives the single default distance 30; otherwise the route is the tokens; never empty |
| `Monkeys.Fallen` | Monkey.java:82-88 | landed is reset; velocity becomes min(velocity + 0.4, 5.0), and y moves by it |
| `Monkeys.ApplyGravity` | Monkey.java:81-101 | x, direction, route index and segment are kept; no platform under the feet: only the fall; otherwise landed, velocity 0, and the bottom on the first such platform's top |
| `Monkeys.Walk` | Monkey.java:108-156 | the route index stays in range; y, velocity, landed and dead never change |
| `Monkeys.WalkRules` | Monkey.java:108-156 | no change without a route, in the air, or with no platform under the feet; an edge turn keeps x, resets the distance, advances the index mod the route size and flips direction; a step moves x by exactly 0.5 and adds 0.5; reaching the target ends the segment the same way |
| `Monkeys.MonkeyStep` | Monkey.java:68-75 | the route index stays valid and the dead flag is kept |
| `Monkeys.DeadMonkeyOnlyFalls` | Monkey.java:68-75 | a dead monkey's update is gravity alone; it never moves horizontally and stays dead |
| `Monkeys.NextCounter` | IntelligentMonkey.java:43-49 | the counter counts only for a live, landed intelligent monkey; it wraps to 0 exactly on reaching 300, so it stays in [0, 299] |
| `Monkeys.Fires` | IntelligentMonkey.java:43-48 | for a counter in [0, 299] the update throws exactly when the monkey is intelligent, alive and landed and its counter wraps to 0 |
| `Monkeys.Spawn` | IntelligentMonkey.java:65-69 | a thrown banana starts at (x + width - 5 or x - 5, y + height/4), live and in the monkey's direction |
| `Monkeys.StepAll` | IntelligentMonkey.java:52-55 | every banana is advanced by exactly one `update`, in order |
| `Monkeys.Unexpired` | IntelligentMonkey.java:58 | `removeIf(hasExpired)` on values: never longer than the list, and no banana kept is expired |
| `Monkeys.NextBananas` | IntelligentMonkey.java:43-59 | the monkey's own part of a frame: alive and landed (intelligent), no expired banana is left and at most the one thrown is added; a normal, dead or airborne monkey's list is unchanged |
| `Monkeys.UnexpiredFacts` | IntelligentMonkey.java:58 | `removeIf(hasExpired)` keeps exactly the live bananas, all from the list, in order |
| `Monkeys.NextBananasFacts` | IntelligentMonkey.java:39-60 | after a live, landed update no expired banana remains and at most one was added; a dead or airborne monkey's list is untouched; a normal monkey's list stays as it is |
| `Monkeys.GravityScan` | Monkey.java:81-101 | the imperative `applyGravity` equals `ApplyGravity` |
| `Monkeys.Gap` | Monkey.java:212 | the absolute difference between the platform's top and the monkey's bottom |
| `Monkeys.PlatformUnderMonkey` | Monkey.java:205-220 | none exactly when no platform meets the feet; otherwise one that meets them and has the least gap, with any earlier one strictly farther, so the earliest of equals wins |
| `Monkeys.StandsOnPlatform` | Monkey.java:115-120 | a platform is underneath exactly when one meets the feet |
| `Monkeys.WalkScan` | Monkey.java:108-156 | the imperative `move`, with both platform loops, equals `Walk` |
| `Monkeys.AnyTouches` | GamePlayScreen.java:253-256 | true exactly when some banana of the list touches the target |
| `Monkeys.KeepUnexpired` | IntelligentMonkey.java:58 | the kept objects are the live ones of the list, in order, without repeats |
| `Monkeys.Monkey.constructor` | Monkey.java:37-51 | a monkey starts in the air at rest with route index 0, the parsed route, no bananas and counter 0 |
| `Monkeys.Monkey.Die` | Monkey.java:195-197 | sets dead and nothing else |
| `Monkeys.Monkey.ApplyGravityStep` | Monkey.java:81-101 | the fields after `applyGravity` are `ApplyGravity` of the fields before |
| `Monkeys.Monkey.Move` | Monkey.java:108-156 | the fields after `move` are `Walk` of the fields before |
| `Monkeys.Monkey.Update` | IntelligentMonkey.java:39-60 | the state is `MonkeyStep`, the counter is `NextCounter`, and the banana list is `NextBananas`: thrown, advanced and pruned only while alive and landed |
| `Monkeys.Monkey.Patrol` | NormalMonkey.java:30-33 | `Monkey.update`: gravity, then `move` while alive; the bananas and counter are untouched |
| `Monkeys.Monkey.FireAndPrune` | IntelligentMonkey.java:43-59 | count, throw on the 300th frame, advance every banana, drop the expired ones |
| `Monkeys.Monkey.Tick` | IntelligentMonkey.java:44-49 | the counter grows by one, and on reaching 300 resets and adds exactly one banana |
| `Monkeys.Monkey.ShootBanana` | IntelligentMonkey.java:65-69 | exactly one new banana, `Spawn` of the monkey, is appended |
| `Monkeys.Monkey.UpdateBananas` | IntelligentMonkey.java:52-55 | every banana of the list is advanced once, and the list itself is kept |
| `Monkeys.Monkey.RemoveExpired` | IntelligentMonkey.java:58 | the list becomes its live bananas, in order |
| `Monkeys.Monkey.SweepBananas` | GamePlayScreen.java:241-257 | the screen's pass: every banana is advanced again and the expired ones removed; the result says whether a remaining one touches the target |
| `Player.MarioBox` | Mario.java:90-97 | Mario's box is centred on x and its bottom is `y + height/2` |
| `Player.MoveHorizontally` | Mario.java:264-272 | LEFT moves by -3.5 and faces left, taking priority over RIGHT; RIGHT moves by +3.5 and faces right; otherwise no change |
| `Player.SpriteFor` | Mario.java:370-377 | the hammer image when holding a hammer; else the blaster image when holding a blaster; else the plain image; in the facing direction |
| `Player.Resprite` | Mario.java:364-387 | the image becomes `SpriteFor` and y moves so the bottom edge is unchanged; nothing else changes |
| `Player.RespriteIdempotent` | Mario.java:364-387 | refreshing the sprite twice equals refreshing once |
| `Player.HammerCollected` | Mario.java:277-290 | touching an uncollected hammer gives hammer, no blaster, ammo 0 if a blaster was held, the hammer image and the same bottom edge; otherwise nothing changes |
| `Player.BlasterPickedUp` | Mario.java:458-466 | `pickUpBlaster`: no hammer, a blaster, the ammo added (`+=`) to what was held (0 after a hammer), the blaster image |
| `Player.BlasterCollected` | Mario.java:292-304 | touching an uncollected blaster drops the hammer, gives a blaster and adds its ammo to the count; otherwise nothing changes |
| `Player.HammerPass` | Mario.java:116-118 | the hammer loop in list order: Mario is as he was, or he holds a hammer and no blaster |
| `Player.BlasterPass` | Mario.java:119-121 | the blaster loop in list order: Mario is as he was, or he holds a blaster and no hammer |
| `Player.BulletConsumed` | Mario.java:468-476 | one round less only while a blaster with ammo is held; the blaster is dropped exactly when the count reaches 0 |
| `Player.WeaponStepsKeepInvariant` | Mario.java:277-304 | every pickup and shot keeps: never both weapons, ammo >= 0, no ammo without a blaster |
| `Player.HammerPassKeepsInvariant` | Mario.java:116-118 | the hammer loop keeps the weapon invariant |
| `Player.BlasterPassKeepsInvariant` | Mario.java:119-121 | the blaster loop keeps the weapon invariant when no blaster has negative ammo |
| `Player.HammerPassKeepsMotion` | Mario.java:116-118 | the hammer loop never changes x, velocity, jumping or direction |
| `Player.BlasterPassKeepsMotion` | Mario.java:119-121 | the blaster loop never changes x, velocity, jumping or direction |
| `Player.Descend` | Mario.java:237-250 | the DOWN key either leaves Mario unchanged or sets y and zeroes the velocity |
| `Player.Climb` | Mario.java:225-250 | only y and velocity change; no vertical key zeroes the velocity without moving; UP alone climbs by 2 and zeroes the velocity |
| `Player.ClimbAt` | Mario.java:212-258 | one ladder: Mario is on it exactly when the boxes meet and he is within its width; off it and without DOWN nothing changes |
| `Player.ClimbAtFacts` | Mario.java:212-258 | one ladder changes only y and velocity, and velocity only to 0; without vertical keys Mario does not move, and standing on the ladder zeroes the velocity |
| `Player.LadderPass` | Mario.java:210-261 | every ladder, no early exit: on none of them and without DOWN, nothing changes |
| `Player.LadderPassFacts` | Mario.java:210-261 | over all ladders: only y and velocity change; without vertical keys Mario does not move; if on any ladder, velocity is 0 |
| `Player.Fall` | Mario.java:132-139 | off a ladder the velocity becomes min(terminal, velocity + gravity); on one it is kept; y moves by the velocity |
| `Player.FirstLanding` | Mario.java:174-194 | the first platform in order that Mario's box meets with his bottom at most `top + velocity`; none exactly when there is no such platform |
| `Player.FirstLandingAt` | Mario.java:175-192 | a scan that has passed `i` non-landings and meets a landing has found the first |
| `Player.Landing` | Mario.java:169-197 | Mario lands iff velocity >= 0 and some platform qualifies; landing puts his bottom on the first one's top, velocity 0, not jumping; otherwise nothing changes |
| `Player.ClampBottom` | Mario.java:345-356 | afterwards the bottom is on screen; if it was below the screen it is put exactly on the bottom edge, at rest and not jumping |
| `Player.Jumped` | Mario.java:312-324 | a jump (velocity -5, jumping) starts only when Mario landed this frame and SPACE was pressed; the bottom then stays on screen |
| `Player.Bounded` | Mario.java:330-357 | afterwards x <= screenWidth - halfW, halfW <= x when the screen is at least as wide as Mario, and the bottom is on screen; weapons, sprite and direction are kept |
| `Player.FireAndClamp` | Mario.java:147-154 | a bullet `Bullet(x, y, facing)` is fired iff S was pressed with a loaded blaster, and then the count drops by exactly one; otherwise it is kept; the weapon invariant and the screen bounds hold |
| `Player.JumpOver` | Mario.java:450-456 | a jump-over needs Mario jumping, above the barrel and within one unit of it horizontally |
| `Player.Armed` | Mario.java:112-124 | steps 1 to 3: the image is `SpriteFor` the result; x, velocity, jumping and direction are those the horizontal move left |
| `Player.Travelled` | Mario.java:126-145 | steps 4 to 9 (ladders, gravity, landing, jump) never change the weapons, the ammo, the direction or the image |
| `Player.Airborne` | Mario.java:129-145 | gravity, landing and jumping never change the weapons, the ammo, the direction or the image |
| `Player.MarioStep` | Mario.java:109-158 | a whole `update` on values: a shot is fired iff the armed state meets the fire condition, the ammo then drops by exactly one, the hammer flag is the armed one, the shot is a live bullet at distance 0, the bottom is on screen and x is within the right edge |
| `Player.MarioStepKeepsWeapons` | Mario.java:109-158 | a whole `update` keeps the weapon invariant when no blaster has negative ammo |
| `Player.MarioStepFacts` | Mario.java:109-158 | after a whole `update` the weapon invariant holds, the bottom is on screen and x is at most screenWidth - halfW |
| `Player.Mario.constructor` | Mario.java:48-65 | Mario starts at rest, unarmed, facing right, showing the hammer image |
| `Player.Mario.BoundingBox` | Mario.java:90-97 | the box is centred on x and its bottom is y plus half the current image's height |
| `Player.Mario.HandleHorizontalMovement` | Mario.java:264-272 | the fields become `MoveHorizontally` of the old ones |
| `Player.Mario.UpdateSprite` | Mario.java:364-387 | the fields become `Resprite` of the old ones |
| `Player.Mario.CollectHammer` | Mario.java:277-290 | Mario becomes `HammerCollected`, and the hammer becomes collected exactly when Mario touched it |
| `Player.Mario.PickUpBlaster` | Mario.java:458-466 | the fields become `BlasterPickedUp` of the old ones |
| `Player.Mario.CollectBlaster` | Mario.java:292-304 | Mario becomes `BlasterCollected`; the blaster becomes collected exactly when touched, and its ammo is kept |
| `Player.Mario.CollectHammerAt` | Mario.java:116-118 | the loop body changes Mario and the `i`th hammer alone |
| `Player.Mario.CollectHammers` | Mario.java:116-118 | the loop is the hammer pass in list order, each hammer meeting Mario as the earlier ones left him |
| `Player.Mario.CollectBlasterAt` | Mario.java:119-121 | the loop body changes Mario and the `i`th blaster alone |
| `Player.Mario.CollectBlasters` | Mario.java:119-121 | the loop is the blaster pass in list order |
| `Player.Mario.HandleLadders` | Mario.java:210-261 | the loop over every ladder (no early exit) equals `LadderPass`, and returns whether Mario is on one |
| `Player.Mario.ClimbLadder` | Mario.java:212-258 | the body of the ladder loop equals `ClimbAt` |
| `Player.Mario.ClimbOn` | Mario.java:225-250 | the keys on a ladder equal `Climb` |
| `Player.Mario.ApplyGravity` | Mario.java:132-139 | the fields become `Fall` of the old ones |
| `Player.Mario.HandlePlatforms` | Mario.java:169-197 | the fields and the result become `Landing` of the old fields |
| `Player.Mario.HandleJumping` | Mario.java:312-324 | the fields become `Jumped` of the old ones |
| `Player.Mario.ConsumeBullet` | Mario.java:468-476 | the fields become `BulletConsumed` of the old ones |
| `Player.Mario.EnforceBoundaries` | Mario.java:330-357 | the fields become `Bounded` of the old ones |
| `Player.Mario.Update` | Mario.java:109-158 | `update` equals `MarioStep`: at most one new live bullet is appended, exactly when one is fired; the hammers and blasters end as the passes leave them; blaster ammo is kept; the weapon invariant is kept |
| `Player.Mario.PickUp` | Mario.java:112-124 | steps 1 to 3 equal `Armed`, and the pickups end as the passes leave them |
| `Player.Mario.CollectWeapons` | Mario.java:115-121 | the hammer loop, then the blaster loop |
| `Player.Mario.Advance` | Mario.java:126-154 | steps 4 to 11 equal `Travelled` then `FireAndClamp`, with the fired bullet appended |
| `Player.Mario.Travel` | Mario.java:126-145 | steps 4 to 9 equal `Travelled` |
| `Player.Mario.FallLandJump` | Mario.java:129-145 | gravity, landing and the jump equal `Airborne` |
| `Player.Mario.FireAndClampStep` | Mario.java:147-154 | firing and the screen clamp equal `FireAndClamp`, and the new bullet is fresh, live and has the bullet images |
| `Player.FindLanding` | Mario.java:174-194 | the landing loop with `break` returns exactly `FirstLanding` |
| `Level.SecondsIn` | GamePlayScreen.java:344 | Java `int` division by 60: the whole seconds in a non-negative count, truncated toward zero for a negative one |
| `Level.FinalScore` | GamePlayScreen.java:407-417 | 0 when the player died; otherwise the running score plus 3 per second left |
| `Level.TimeUp` | GamePlayScreen.java:380-382 | `checkingGameTime`: once `currFrame >= MAX_FRAMES` the time shown is 0 or less; before that it is never negative |
| `Level.LevelCompleted` | GamePlayScreen.java:373-375 | Mario's box meets the boss's and he holds a hammer or the boss is dead; `GamePlayScreen.Update` proves such a frame ends won |
| `Level.AfterBarrel` | GamePlayScreen.java:197-210 | a live touched barrel with a hammer: +1 destroyed, +100; without one: game over; a jump-over: +1 jumped, +30, independently; nothing else changes |
| `Level.AfterKills` | GamePlayScreen.java:270-275 | n kills add n to the monkey counter and 100n to the score |
| `Level.AfterMonkeyTouches` | GamePlayScreen.java:302-312 | with a hammer the monkeys touched are kills; without one any touch sets game over |
| `Level.AfterBossHit` | GamePlayScreen.java:279-287 | killing the boss sets won and the final score from the running score and the previous frame's time; otherwise nothing changes |
| `Level.AfterDonkeyTouch` | GamePlayScreen.java:315-321 | reaching the boss: won iff a hammer is held or the boss is dead, otherwise game over; neither flag is ever cleared |
| `Level.AfterClock` | GamePlayScreen.java:323-348 | game over once `currFrame >= MAX_FRAMES`; the time shown becomes `(MAX_FRAMES - currFrame) / 60` |
| `Level.FinalScoreFromRunningScore` | GamePlayScreen.java:407-417 | the final score formula equals the running score plus 3 per second left, and 0 on death |
| `Level.TimeShown` | GamePlayScreen.java:344-348 | within the limit the time shown is the whole seconds left; just past it, 0 rather than -1 |
| `Level.BarrelOutcome` | GamePlayScreen.java:194-205 | x is kept; a destroyed barrel stays as it is; it ends destroyed iff it was, or Mario with a hammer touches it after its update |
| `Level.BarrelTouch` | GamePlayScreen.java:197 | a live barrel, after its update, whose box meets Mario's (`isTouchingBarrel`, Mario.java:428-431); `BarrelOutcome` and `AfterBarrel` act on it |
| `Level.BarrelsTally` | GamePlayScreen.java:193-213 | the counters after the barrel loop, one `AfterBarrel` per barrel in list order: they only grow, every point is counted, and nothing but the score, the two barrel counters and game over changes |
| `Level.BarrelsTallyFacts` | GamePlayScreen.java:194-210 | over the loop at most one barrel destroyed and one jumped per barrel, none destroyed without the hammer, and game over iff it was or some barrel touches Mario while he has no hammer |
| `Level.KillsFacts` | GamePlayScreen.java:269-276 | the kill count is at most the number of monkeys, and 0 exactly when no live monkey is touched |
| `Level.OneStepBack` | GamePlayScreen.java:241-251 | after one more `update` and the removal of the expired bananas, every banana left was live before and moved exactly one step, 1.8 further |
| `Level.BananasPerFrame` | IntelligentMonkey.java:43-59 | with the screen's pass (GamePlayScreen.java:238-259): every banana of a live, landed intelligent monkey left after a frame has moved two steps, 3.6 further, from the list before the frame or from the throw; a dead or airborne monkey's have moved one step |
| `Level.Keep` | GamePlayScreen.java:294-295 | what `removeAll` keeps: every bullet kept is in the list and not removed, and every bullet of the list that is not removed is kept, in order |
| `Level.Unspent` | GamePlayScreen.java:289-295 | every bullet kept is in the list and unspent, and every unspent one of the list is kept, in order |
| `Level.KeepSpent` | GamePlayScreen.java:289-295 | removing a list that holds exactly the spent bullets keeps `Unspent` of the list: the exact surviving sequence, order included |
| `Level.GamePlayScreen.constructor` | GamePlayScreen.java:32-62 | a new level is at frame 0 with the starting score, no bullets, and neither flag raised |
| `Level.GamePlayScreen.IsLevelCompleted` | GamePlayScreen.java:373-375 | `isLevelCompleted` on the current boxes and flags; `Update` proves it implies `isGameWon` |
| `Level.GamePlayScreen.Update` | GamePlayScreen.java:177-335 | the level invariant is kept; `currFrame` grows by exactly 1; the score and counters never fall and neither flag is cleared; out of time means game over; a completed level is won; reaching the live boss without a hammer is game over; the time shown is refreshed; the result is `isGameOver \|\| isGameWon \|\| isLevelCompleted()` |
| `Level.GamePlayScreen.MoveAll` | GamePlayScreen.java:188-299 | steps 3 to 11 keep the invariant, the frame and the time shown, and lose nothing; Mario becomes `MarioStep` of his state at the start of the frame, against the pickups as they were then |
| `Level.GamePlayScreen.MoveWorld` | GamePlayScreen.java:188-295 | steps 3 to 10 keep the invariant, the frame and the time shown, and lose nothing |
| `Level.GamePlayScreen.MoveCreatures` | GamePlayScreen.java:229-295 | the boss, the monkeys and the bullets keep the invariant, the frame and the time shown, and lose nothing |
| `Level.GamePlayScreen.MoveFallers` | GamePlayScreen.java:188-213 | every ladder becomes `LadderStep` of itself, every barrel `BarrelOutcome`, and the counters become `BarrelsTally` of the old ones: one `AfterBarrel` per barrel; bullets and bananas are untouched |
| `Level.GamePlayScreen.MoveMonkeys` | GamePlayScreen.java:233-259 | every monkey becomes `MonkeyStep` of itself; each fire counter becomes `NextCounter` of the old one; each banana list goes through the monkey's own update (`NextBananas`) and then the screen's pass (`Unexpired(StepAll(...))`), so it is advanced twice; game over iff it was or a banana left in flight touches Mario; no other counter changes |
| `Level.GamePlayScreen.MovePlayer` | GamePlayScreen.java:298-299 | Mario becomes `MarioStep` of his state, the bullet fired (if any) is `MarioStep`'s shot, the old bullets stay as a prefix with at most that one appended; no counter changes |
| `Level.GamePlayScreen.ResolveContacts` | GamePlayScreen.java:301-325 | the monkeys become `Touched` by Mario's box (lethal with a hammer); the counters become `AfterClock(AfterDonkeyTouch(AfterMonkeyTouches(...)))` of the old ones, with the kill count `Kills`; won iff it was or Mario reaches the boss with a hammer or once the boss is dead; reaching the live boss unarmed or running out of time is game over; the time shown is refreshed |
| `Level.GamePlayScreen.TouchDonkey` | GamePlayScreen.java:314-321 | the counters become `AfterDonkeyTouch` of the old ones |
| `Level.GamePlayScreen.Tick` | GamePlayScreen.java:323-348 | the counters become `AfterClock` of the old ones |
| `Level.GamePlayScreen.UpdateLadders` | GamePlayScreen.java:188-191 | every ladder becomes `LadderStep` of itself, in order |
| `Level.GamePlayScreen.ResolveBarrels` | GamePlayScreen.java:193-213 | every barrel becomes `BarrelOutcome` of itself, and the counters become `BarrelsTally` of the old ones: one `AfterBarrel` per barrel in list order; only the score, the two barrel counters and game over change, and every point scored is counted |
| `Level.GamePlayScreen.ResolveBarrel` | GamePlayScreen.java:195-210 | one barrel: its update, Mario's touch and jump-over, and `AfterBarrel` on the counters |
| `Level.GamePlayScreen.ScoreBarrel` | GamePlayScreen.java:197-210 | the counters become `AfterBarrel` of the old ones |
| `Level.GamePlayScreen.UpdateMonkeys` | GamePlayScreen.java:233-236 | every monkey becomes `MonkeyStep` of itself; each fire counter becomes `NextCounter` and each banana list `NextBananas` of the old ones; the counters do not change |
| `Level.GamePlayScreen.SweepBananas` | GamePlayScreen.java:238-259 | each banana list becomes `Unexpired(StepAll(...))` of the old one, the second advance of the frame; no monkey's own state or counter changes; game over iff it was, or a banana left in flight after the pass touches Mario |
| `Level.GamePlayScreen.ResolveBullets` | GamePlayScreen.java:262-295 | afterwards the list is `Unspent` of the old one: exactly the old bullets that are not spent, in their order; game over is untouched; every point scored is counted |
| `Level.GamePlayScreen.ResolveBullet` | GamePlayScreen.java:264-287 | one bullet's move, monkey hits and boss hit keep the invariant and count every point |
| `Level.GamePlayScreen.StrikeMonkeys` | GamePlayScreen.java:268-276 | every live monkey the bullet touches dies (no `break`, so several can), 100 points each, and the bullet is spent iff it was or it killed one |
| `Level.GamePlayScreen.ScoreKills` | GamePlayScreen.java:272-273 | the counters become `AfterKills` of the old ones |
| `Level.GamePlayScreen.StrikeDonkey` | GamePlayScreen.java:278-287 | a bullet touching the live boss deals one `Damage` and is spent; if that kills the boss the level is won with its final score; otherwise nothing changes |
| `Level.GamePlayScreen.ComputeFinalScore` | GamePlayScreen.java:407-417 | only `finalScore` changes, to `FinalScore` of the counters |
| `Level.GamePlayScreen.TouchMonkeys` | GamePlayScreen.java:301-312 | with a hammer every live monkey Mario touches dies for 100 points; without one, touching any sets game over; won is untouched |
| `Level.GamePlayScreen.ScoreTouches` | GamePlayScreen.java:304-310 | the counters become `AfterMonkeyTouches` of the old ones |
| `Level.StepLadder` | GamePlayScreen.java:189-191 | the `i`th ladder becomes `LadderStep` of itself, and no other ladder changes |
| `Level.StepBarrel` | GamePlayScreen.java:194-199 | the `i`th barrel becomes `BarrelOutcome`, and the results say whether Mario touched it alive and whether he jumped over it |
| `Level.MoveMario` | GamePlayScreen.java:299 | Mario's update on the level's lists: Mario and the pickups end as `MarioStep` and the two passes say, the weapon invariant holds, and the bullets are the old ones as a prefix with at most the one shot, fresh and live, appended |
| `Level.RemoveAll` | GamePlayScreen.java:294-295 | `removeAll`: the result is `Keep`, the bullets not collected for removal in their order, without repeats |
| `Level.Prune` | GamePlayScreen.java:289-295 | with `rm` holding exactly the spent bullets, the result is `Unspent` of the list, distinct, well formed and live |
| `Level.UpdateAll` | GamePlayScreen.java:234-236 | every monkey, in order, becomes `MonkeyStep` of itself, its counter `NextCounter` and its banana list `NextBananas` of the old ones |
| `Level.UpdateOne` | GamePlayScreen.java:235 | the `i`th monkey becomes `MonkeyStep`, its counter `NextCounter` and its banana list `NextBananas` of its old state; no other monkey, counter or list changes |
| `Level.SweepAll` | GamePlayScreen.java:239-259 | every banana list becomes `Unexpired(StepAll(...))` of the old one (a normal monkey has none); no monkey's own state or counter changes; the result says whether a banana of an intelligent monkey left in flight touches the box |
| `Level.SweepOne` | GamePlayScreen.java:240-257 | an intelligent monkey's bananas are advanced and pruned; a normal monkey is skipped |
| `Level.Strike` | GamePlayScreen.java:269-276 | returns how many live monkeys the bullet touches; each of them dies; the bullet is spent when that is any |
| `Level.TouchAll` | GamePlayScreen.java:302-312 | returns how many live monkeys the box touches; when lethal each of them dies, and nothing else changes |
| `Level.TouchOne` | GamePlayScreen.java:303-305 | whether the box touches the `i`th monkey alive; when lethal that monkey then dies |
| `Level.KillOne` | GamePlayScreen.java:305 | `die()` on the `i`th monkey changes that monkey's dead flag alone |

## Left out

- **Drawing and output.** Drawing, fonts, the background, `displayCombatInfo` and every
  `System.out.println` are side effects with no bearing on the state.
- **The other screens and the window.** `HomeScreen`, `GameEndScreen`, `ShadowDonkeyKong`
  and the window lifecycle are not part of this model. The screen width and height are
  parameters, and `startingScore` is a parameter of the level.
- **Property parsing.** `IOUtils` and every constructor's property and string parsing (for
  example GamePlayScreen.java:107-170 and Mario.java:48-65) are left out. Positions come in
  as parsed reals, and a monkey's route comes in as a parsed token list.
- **`parseRoute` tokens.** `parseRoute` keeps only its "no tokens gives [30]" fallback. Java's
  `split` and `parseInt` behaviour on malformed text is not modelled.
- **Physics constants.** The `Physics` class is not part of this model. Its eight constants
  are parameters, each assumed positive.
- **Image sizes.** Image sizes are positive real parameters.
- **Input.** Keyboard input is a record of the keys held and pressed this frame.
- **Rectangle intersection.** The Bagel `Rectangle.intersects` test is not part of this
  model. A closed intersection (touching edges count) is used everywhere.
- **Number formats.** Floating point is modelled as `real`, so IEEE-754 rounding is left out,
  and no step count that depends on double rounding is proved. Java `int` overflow of the
  score and counters is left out; they are unbounded integers.
- **Negative ammo.** `Blaster.setBullets` may store negative ammo. The level's invariant
  requires every blaster's ammo to be non-negative, and Mario's weapon invariant depends on
  it.
- **`jumpOver`.** It is encoded literally as `Player.JumpOver`, and no trajectory theorem is
  proved about it.
- **`Barrel.getBarrelImage` and the getters.** Plain field reads are the fields themselves.
- **Proof-only state.** The ghost fields `Monkey.slot`, `Banana.owner`, `Monkey.Thrown` and
  `GamePlayScreen.thrown` exist only to state that no banana object is shared. They have no
  counterpart in the source.
- Level.GamePlayScreen.Update: its own contract states the frame counter, the level
  invariant, the counters' growth, the time limit, the boss-touch outcomes and the result. It
  does not restate the per-entity equations; those are stated on the methods it calls: the
  barrels and their counters on `MoveFallers`, the monkeys, counters, bananas and banana game
  over on `MoveMonkeys`, the bullets on `ResolveBullets`, `StrikeMonkeys` and `StrikeDonkey`,
  Mario on `MovePlayer` and `MoveAll`, and the contact scoring on `ResolveContacts`. They are
  not carried up, which keeps the frame proofs of these glue methods small.
- Level.GamePlayScreen.MoveAll: it states Mario's new state and the invariant; the world's
  equations are on `MoveFallers`, `MoveMonkeys` and `ResolveBullets`, and the counters are
  stated here only as growing, for the same reason.
- Level.GamePlayScreen.MoveWorld: it states the invariant, the frame, the time shown and the
  counters' growth; the equations for the ladders, barrels, monkeys, bananas and bullets are
  on `MoveFallers`, `MoveMonkeys` and `ResolveBullets`.
- Level.GamePlayScreen.MoveCreatures: it states the invariant and the counters' growth. The
  per-entity equations are on `Donkeys.Donkey.Update`, `MoveMonkeys` and `ResolveBullets`.
- Level.GamePlayScreen.ResolveBullets: it states which bullets remain, in order, and that
  every point is counted. The monkey and boss equations are stated per bullet on
  `StrikeMonkeys` and `StrikeDonkey`.
- Level.GamePlayScreen.ResolveBullet: the per-bullet equations are on `Bullets.Bullet.Update`,
  `StrikeMonkeys` and `StrikeDonkey`.
- Level.SweepOne: the order in which a banana is removed relative to the touch test within
  one iteration is merged: the model removes the expired bananas first, then tests the rest.
  Expired bananas are never tested in the source either, so the result is the same.
