/**
 * The boss (Donkey Kong): a falling body that moves by its uncapped velocity
 * and caps it afterwards, with five points of health.
 */
module Donkeys {
  import opened Geometry
  import opened Physics
  import opened Platforms
  import opened Falling

  const MaxHealth: int := 5

  /** Every field of the boss; `x` is final. */
  datatype DonkeyState = DonkeyState(x: real, y: real, vy: real, health: int, dead: bool) {
    /** Health stays in [0, 5] and the dead flag is set exactly at 0. */
    predicate Valid() { 0 <= health <= MaxHealth && (dead <==> health == 0) }
  }

  /** One call of `update`: move by the uncapped velocity, cap it, rest on the first intersecting platform. */
  function DonkeyStep(s: DonkeyState, size: Size, phys: Constants, ps: seq<Platform>): (r: DonkeyState)
    requires phys.Valid()
    ensures r.x == s.x && r.health == s.health && r.dead == s.dead
    ensures r.vy <= phys.donkeyTerminal
    ensures var moved := s.y + s.vy + phys.donkeyGravity;
            var hit := FirstHit(CentredAt(s.x, moved, size.w, size.h), ps);
            && (hit.None? ==> r.y == moved && r.vy == Cap(s.vy + phys.donkeyGravity, phys.donkeyTerminal))
            && (hit.Some? ==> r.y + size.h / 2.0 == ps[hit.value].TopY() && r.vy == 0.0)
  {
    var m := Settle(IntegrateThenCap(Motion(s.y, s.vy), phys.donkeyGravity, phys.donkeyTerminal),
                    s.x, size.w, size.h, ps);
    s.(y := m.y, vy := m.vy)
  }

  /** `takeDamage`: one point less while health is positive, dead exactly when it reaches 0. */
  function Damage(s: DonkeyState): (r: DonkeyState)
    requires s.Valid()
    ensures r.Valid()
    ensures r.x == s.x && r.y == s.y && r.vy == s.vy
    ensures s.health > 0 ==> r.health == s.health - 1
    ensures s.dead ==> r == s
    ensures r.dead <==> (s.dead || s.health == 1)
  {
    if s.health > 0 then
      var h := s.health - 1;
      s.(health := h, dead := if h == 0 then true else s.dead)
    else s
  }

  /** n hits in a row. */
  function DamageN(s: DonkeyState, n: nat): (r: DonkeyState)
    requires s.Valid()
    ensures r.Valid()
  {
    if n == 0 then s else Damage(DamageN(s, n - 1))
  }

  /** From full health, n hits leave max(5 - n, 0) health, so exactly five hits kill;
      health never increases. */
  lemma {:induction false} DamageCount(s: DonkeyState, n: nat)
    requires s.Valid() && s.health == MaxHealth
    ensures DamageN(s, n).health == if n < MaxHealth then MaxHealth - n else 0
    ensures DamageN(s, n).dead <==> n >= MaxHealth
  {
    if n > 0 {
      DamageCount(s, n - 1);
    }
  }

  class Donkey {
    const x: real
    const size: Size
    const phys: Constants
    var y: real
    var velocityY: real
    var health: int
    var isDead: bool

    ghost predicate Valid()
      reads this
    {
      size.Valid() && phys.Valid() && State().Valid()
    }

    function State(): DonkeyState
      reads this
    {
      DonkeyState(x, y, velocityY, health, isDead)
    }

    constructor (x0: real, y0: real, size: Size, phys: Constants)
      requires size.Valid() && phys.Valid()
      ensures Valid() && this.size == size && this.phys == phys
      ensures State() == DonkeyState(x0, y0, 0.0, MaxHealth, false)
    {
      x, y, velocityY, health, isDead := x0, y0, 0.0, MaxHealth, false;
      this.size, this.phys := size, phys;
    }

    /** The box centred on (x, y) with the boss image's size. */
    function BoundingBox(): (r: Rect)
      reads this
      ensures r.left + size.w / 2.0 == x && r.top + size.h / 2.0 == y
      ensures r.width == size.w && r.height == size.h
    {
      CentredAt(x, y, size.w, size.h)
    }

    method Update(ps: seq<Platform>)
      requires Valid()
      modifies this
      ensures Valid()
      ensures State() == DonkeyStep(old(State()), size, phys, ps)
    {
      var vy := velocityY + phys.donkeyGravity;
      var ny := y + vy;
      if vy > phys.donkeyTerminal {
        vy := phys.donkeyTerminal;
      }
      var r := SettleScan(Motion(ny, vy), x, size.w, size.h, ps);
      y, velocityY := r.y, r.vy;
    }

    method TakeDamage()
      requires Valid()
      modifies this
      ensures Valid()
      ensures State() == Damage(old(State()))
    {
      if health > 0 {
        health := health - 1;
        if health == 0 {
          isDead := true;
        }
      }
    }
  }
}
