/**
 * Damageable (Assets/Scripts/Damageable.cs): integer hit points and a death flag,
 * changed by Restart, Die and Damage.  The events the object raises are kept in
 * order in a trace, so that "raised once" and "raised in this order" can be stated.
 */
module Vitals {

  /** The values of a Damageable's fields maxHP, currentHP and isDead. */
  datatype Health = Health(maxHP: int, currentHP: int, isDead: bool)

  /**
   * The events a Damageable raises: OnDead, carrying the value isDead had when it was
   * raised, and LiquidatedObject.OnLiquidation.
   */
  datatype Signal = Dead(deadWhenRaised: bool) | Liquidation

  const MIN_INT32: int := -0x8000_0000
  const MAX_INT32: int := 0x7fff_ffff

  predicate IsInt32(x: int) { MIN_INT32 <= x <= MAX_INT32 }

  /** C#'s unchecked 32-bit arithmetic: the result is taken modulo 2^32 into [MIN_INT32, MAX_INT32]. */
  function Wrap32(x: int): (r: int)
    ensures IsInt32(r)
    ensures IsInt32(x) ==> r == x
    ensures (r - x) % 0x1_0000_0000 == 0
  {
    (x - MIN_INT32) % 0x1_0000_0000 + MIN_INT32
  }

  /** `currentHP -= damage` on two 32-bit ints. */
  function Sub32(a: int, b: int): (r: int) { Wrap32(a - b) }

  /** The state Restart leaves: alive, at full health. */
  function Restarted(h: Health): (r: Health) {
    Health(h.maxHP, h.maxHP, false)
  }

  /** The state Damage(d) leaves, Die included. */
  function Damaged(h: Health, d: int): (r: Health) {
    if h.isDead then h
    else
      var hp := Sub32(h.currentHP, d);
      Health(h.maxHP, hp, hp <= 0)
  }

  /** The events Damage(d) raises. */
  function DamageSignals(h: Health, d: int): (r: seq<Signal>) {
    if !h.isDead && Sub32(h.currentHP, d) <= 0 then [Dead(true), Liquidation] else []
  }

  /** The state after a series of Damage calls. */
  function DamagedBy(h: Health, ds: seq<int>): (r: Health)
    decreases |ds|
  {
    if ds == [] then h else DamagedBy(Damaged(h, ds[0]), ds[1..])
  }

  /** The events raised by a series of Damage calls, in order. */
  function SignalsOf(h: Health, ds: seq<int>): (r: seq<Signal>)
    decreases |ds|
  {
    if ds == [] then [] else DamageSignals(h, ds[0]) + SignalsOf(Damaged(h, ds[0]), ds[1..])
  }

  /** How many times OnDead was raised. */
  function Deaths(s: seq<Signal>): (n: nat) { multiset(s)[Dead(true)] + multiset(s)[Dead(false)] }

  lemma RestartIdempotent(h: Health)
    ensures Restarted(Restarted(h)) == Restarted(h)
    ensures !Restarted(h).isDead && Restarted(h).currentHP == Restarted(h).maxHP == h.maxHP
  {
  }

  lemma DamageWhenDeadChangesNothing(h: Health, d: int)
    requires h.isDead
    ensures Damaged(h, d) == h && DamageSignals(h, d) == []
  {
  }

  lemma DamageLowersHitPoints(h: Health, d: int)
    requires !h.isDead && IsInt32(h.currentHP - d)
    ensures Damaged(h, d).currentHP == h.currentHP - d
    ensures Damaged(h, d).maxHP == h.maxHP
  {
  }

  lemma DiesExactlyWhenHitPointsRunOut(h: Health, d: int)
    requires !h.isDead
    ensures Damaged(h, d).isDead <==> Damaged(h, d).currentHP <= 0
    ensures Damaged(h, d).isDead <==> DamageSignals(h, d) == [Dead(true), Liquidation]
    ensures !Damaged(h, d).isDead <==> DamageSignals(h, d) == []
  {
  }

  /** Once dead, an object stays dead however much more damage it takes. */
  lemma {:induction false} DeathIsFinal(h: Health, ds: seq<int>)
    requires h.isDead
    ensures DamagedBy(h, ds) == h && SignalsOf(h, ds) == []
    decreases |ds|
  {
    if ds != [] {
      DeathIsFinal(Damaged(h, ds[0]), ds[1..]);
    }
  }

  /**
   * Between two Restarts OnDead is raised at most once: never if the object starts dead,
   * and exactly once if it ends dead having started alive.
   */
  lemma {:induction false} OnDeadAtMostOnce(h: Health, ds: seq<int>)
    ensures Deaths(SignalsOf(h, ds)) == if !h.isDead && DamagedBy(h, ds).isDead then 1 else 0
    decreases |ds|
  {
    if ds != [] {
      var h' := Damaged(h, ds[0]);
      OnDeadAtMostOnce(h', ds[1..]);
      if h'.isDead {
        DeathIsFinal(h', ds[1..]);
      }
      assert SignalsOf(h, ds) == DamageSignals(h, ds[0]) + SignalsOf(h', ds[1..]);
    }
  }

  /** One Damageable object. */
  class Damageable {
    var maxHP: int
    var currentHP: int
    var isDead: bool
    /** The events this object has raised, in order. */
    var raised: seq<Signal>

    function Fields(): (h: Health)
      reads this
    {
      Health(maxHP, currentHP, isDead)
    }

    /** OnAwake: alive at full health. */
    constructor (maxHP: int)
      ensures Fields() == Health(maxHP, maxHP, false) && raised == []
    {
      this.maxHP := maxHP;
      currentHP := maxHP;
      isDead := false;
      raised := [];
    }

    /** Damageable.Restart overrides LiquidatedObject.Restart without calling it: no OnRestart. */
    method Restart()
      modifies this
      ensures Fields() == Restarted(old(Fields()))
      ensures raised == old(raised)
    {
      isDead := false;
      currentHP := maxHP;
    }

    /** isDead is set first, then OnDead is raised (seeing isDead), then Liquidate raises OnLiquidation. */
    method Die()
      modifies this
      ensures isDead && maxHP == old(maxHP) && currentHP == old(currentHP)
      ensures raised == old(raised) + [Dead(true), Liquidation]
    {
      isDead := true;
      raised := raised + [Dead(isDead)];
      raised := raised + [Liquidation];
    }

    method Damage(damage: int)
      modifies this
      ensures Fields() == Damaged(old(Fields()), damage)
      ensures raised == old(raised) + DamageSignals(old(Fields()), damage)
    {
      if !isDead {
        currentHP := Sub32(currentHP, damage);
        if currentHP <= 0 {
          Die();
        }
      }
    }
  }
}
