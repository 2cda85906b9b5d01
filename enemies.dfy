/**
 * Enemy (Assets/Scripts/Enemy.cs).  Every Enemy object is named by a handle; the
 * Roster holds the fields of all of them, and for each enemy the list of enemies
 * whose OnTargetDead handler is subscribed to its OnDead event, in subscription order.
 */
module Enemies {
  import opened Wrappers
  import opened Vitals

  type Handle = nat

  /** The status of an enemy's attackTask. The default UniTask reports Succeeded. */
  datatype TaskStatus = Pending | Succeeded | Canceled

  /** The serialized fields of a prefab: its archetype key, maxHP and damage. */
  datatype Template = Template(key: int, maxHP: int, damage: int)

  /**
   * One Enemy object: its Damageable fields, its damage, its archetype key, its target,
   * the status of its attackTask and whether its latest CancellationTokenSource was cancelled.
   */
  datatype Enemy = Enemy(health: Health, damage: int, key: int, target: Option<Handle>,
                         task: TaskStatus, cancelled: bool)

  /** What one call of Update does. */
  datatype Tick = Idle | StartAttack | Chase

  /** The enemies and the OnTargetDead subscriptions on each one's OnDead event. */
  datatype Links = Links(enemies: map<Handle, Enemy>, watchers: map<Handle, seq<Handle>>)

  /** A freshly instantiated copy of a prefab (OnAwake: alive at full health). */
  function Instance(t: Template): (e: Enemy)
    ensures !e.health.isDead && e.target.None? && e.task != Pending
  {
    Enemy(Health(t.maxHP, t.maxHP, false), t.damage, t.key, None, Succeeded, false)
  }

  /** `list -= handler`: C# removes the last occurrence of the handler from the invocation list. */
  function RemoveLast(s: seq<Handle>, x: Handle): (r: seq<Handle>)
  {
    if s == [] then []
    else if s[|s| - 1] == x then s[..|s| - 1]
    else RemoveLast(s[..|s| - 1], x) + [s[|s| - 1]]
  }

  lemma {:induction false} RemoveLastRemovesOne(s: seq<Handle>, x: Handle)
    ensures multiset(RemoveLast(s, x)) == multiset(s) - multiset{x}
  {
    if s != [] {
      var init, last := s[..|s| - 1], s[|s| - 1];
      assert s == init + [last];
      if last != x {
        RemoveLastRemovesOne(init, x);
      }
    }
  }

  /** Every target is an enemy, and every enemy has a subscription list. */
  ghost predicate Closed(L: Links)
  {
    && L.enemies.Keys == L.watchers.Keys
    && forall a | a in L.enemies && L.enemies[a].target.Some? :: L.enemies[a].target.value in L.enemies
  }

  /** Each enemy's OnTargetDead is subscribed exactly once to its target's OnDead, and nowhere else. */
  ghost predicate Subscribed(L: Links)
  {
    forall b, a | b in L.watchers ::
      multiset(L.watchers[b])[a] == if a in L.enemies && L.enemies[a].target == Some(b) then 1 else 0
  }

  /** Targets are never the enemy itself and are held both ways. */
  ghost predicate Mutual(L: Links)
  {
    forall a | a in L.enemies && L.enemies[a].target.Some? ::
      && L.enemies[a].target.value != a
      && L.enemies[a].target.value in L.enemies
      && L.enemies[L.enemies[a].target.value].target == Some(a)
  }

  /** A dead enemy holds no target. */
  ghost predicate Disengaged(L: Links)
  {
    forall a | a in L.enemies && L.enemies[a].health.isDead :: L.enemies[a].target.None?
  }

  /** An attack that is running and not cancelled belongs to an enemy with a target. */
  ghost predicate Armed(L: Links)
  {
    forall a | a in L.enemies && L.enemies[a].task == Pending && !L.enemies[a].cancelled ::
      L.enemies[a].target.Some?
  }

  /** The pairing invariant the arena keeps between calls. */
  ghost predicate Paired(L: Links)
  {
    Closed(L) && Subscribed(L) && Mutual(L) && Disengaged(L) && Armed(L)
  }

  /** Only targets and cancellation flags differ: hit points, death, key, damage and tasks are kept. */
  ghost predicate SameBodies(before: map<Handle, Enemy>, after: map<Handle, Enemy>)
  {
    && after.Keys == before.Keys
    && forall h | h in before ::
         && after[h].health == before[h].health && after[h].key == before[h].key
         && after[h].damage == before[h].damage && after[h].task == before[h].task
  }

  /** RemoveTarget: cancel the attack, unsubscribe from the target's OnDead, forget the target. */
  function Detached(L: Links, a: Handle): (r: Links)
    requires Closed(L) && a in L.enemies
    ensures Closed(r) && r.enemies.Keys == L.enemies.Keys && r.enemies[a].target.None?
    ensures SameBodies(L.enemies, r.enemies)
    ensures forall b | b in L.enemies && b != a :: r.enemies[b] == L.enemies[b]
  {
    var e := L.enemies[a];
    if e.target.None? then L
    else
      var t := e.target.value;
      Links(L.enemies[a := e.(target := None, cancelled := true)],
            L.watchers[t := RemoveLast(L.watchers[t], a)])
  }

  /** TrySetTarget with a non-null enemy: drop the old target, take t, subscribe to t's OnDead. */
  function Attached(L: Links, a: Handle, t: Handle): (r: Links)
    requires Closed(L) && a in L.enemies && t in L.enemies
    ensures Closed(r) && r.enemies.Keys == L.enemies.Keys
    ensures SameBodies(L.enemies, r.enemies)
  {
    var M := Detached(L, a);
    Links(M.enemies[a := M.enemies[a].(target := Some(t))], M.watchers[t := M.watchers[t] + [a]])
  }

  /** Enemy.Restart: the target is forgotten without unsubscribing, then Damageable.Restart. */
  function RestartedEnemy(e: Enemy): (r: Enemy)
  {
    e.(target := None, health := Restarted(e.health))
  }

  /** The decision Update takes, given whether the enemy is near its target. */
  function Decide(e: Enemy, nearTarget: bool): (tick: Tick)
  {
    if e.target.None? || e.health.isDead then Idle
    else if nearTarget && (e.task == Succeeded || e.task == Canceled) then StartAttack
    else Chase
  }

  /** Update starts an attack only when no attack is running and the target is in reach. */
  lemma UpdateStartsOnlyIdleAttacks(e: Enemy, nearTarget: bool)
    ensures Decide(e, nearTarget) == StartAttack <==>
              e.target.Some? && !e.health.isDead && nearTarget && e.task != Pending
    ensures Decide(e, nearTarget) == Idle <==> e.target.None? || e.health.isDead
  {
  }

  /** Dropping a's subscription to its target t keeps every count exact. */
  lemma {:induction false} DropSubscription(L: Links, a: Handle, t: Handle)
    requires Closed(L) && Subscribed(L) && a in L.enemies && L.enemies[a].target == Some(t)
    ensures Subscribed(Links(L.enemies[a := L.enemies[a].(target := None, cancelled := true)],
                             L.watchers[t := RemoveLast(L.watchers[t], a)]))
  {
    var R := Links(L.enemies[a := L.enemies[a].(target := None, cancelled := true)],
                   L.watchers[t := RemoveLast(L.watchers[t], a)]);
    assert multiset(R.watchers[t]) == multiset(L.watchers[t]) - multiset{a} by {
      RemoveLastRemovesOne(L.watchers[t], a);
    }
    forall b, x | b in R.watchers
      ensures multiset(R.watchers[b])[x] ==
              if x in R.enemies && R.enemies[x].target == Some(b) then 1 else 0
    {
      assert (x in L.enemies && L.enemies[x].target == Some(b) && x != a) <==>
             x in R.enemies && R.enemies[x].target == Some(b);
    }
  }

  /** Subscribing a targetless a to t's OnDead keeps every count exact. */
  lemma {:induction false} AddSubscription(M: Links, a: Handle, t: Handle)
    requires Closed(M) && Subscribed(M) && a in M.enemies && t in M.enemies && M.enemies[a].target.None?
    ensures Subscribed(Links(M.enemies[a := M.enemies[a].(target := Some(t))], M.watchers[t := M.watchers[t] + [a]]))
  {
    var R := Links(M.enemies[a := M.enemies[a].(target := Some(t))], M.watchers[t := M.watchers[t] + [a]]);
    assert multiset(R.watchers[t]) == multiset(M.watchers[t]) + multiset{a};
    forall b, x | b in R.watchers
      ensures multiset(R.watchers[b])[x] ==
              if x in R.enemies && R.enemies[x].target == Some(b) then 1 else 0
    {
      assert (x in M.enemies && M.enemies[x].target == Some(b)) || (x == a && b == t) <==>
             x in R.enemies && R.enemies[x].target == Some(b);
    }
  }

  /** RemoveTarget drops exactly the one subscription the enemy held, and is idempotent. */
  lemma {:induction false} DetachUnsubscribes(L: Links, a: Handle)
    requires Closed(L) && Subscribed(L) && a in L.enemies
    ensures Subscribed(Detached(L, a))
    ensures Detached(Detached(L, a), a) == Detached(L, a)
    ensures forall b | b in L.enemies && b != a :: Detached(L, a).enemies[b] == L.enemies[b]
  {
    if L.enemies[a].target.Some? {
      DropSubscription(L, a, L.enemies[a].target.value);
    }
  }

  /** TrySetTarget(t) leaves the enemy subscribed exactly once to t and to nothing else. */
  lemma {:induction false} AttachSubscribesOnce(L: Links, a: Handle, t: Handle)
    requires Closed(L) && Subscribed(L) && a in L.enemies && t in L.enemies
    ensures Subscribed(Attached(L, a, t))
    ensures Attached(L, a, t).enemies[a].target == Some(t)
    ensures multiset(Attached(L, a, t).watchers[t])[a] == 1
    ensures forall b | b in L.enemies && b != a :: Attached(L, a, t).enemies[b] == L.enemies[b]
  {
    DetachUnsubscribes(L, a);
    AddSubscription(Detached(L, a), a, t);
  }

  /** Under the invariant an enemy's OnDead carries exactly its partner's handler, or nothing. */
  lemma {:induction false} WatchersArePartner(L: Links, v: Handle)
    requires Paired(L) && v in L.enemies
    ensures L.enemies[v].target.None? ==> L.watchers[v] == []
    ensures L.enemies[v].target.Some? ==> L.watchers[v] == [L.enemies[v].target.value]
  {
    var s := L.watchers[v];
    var m := multiset(s);
    if L.enemies[v].target.None? {
      forall x ensures m[x] == 0 {
        assert x in L.enemies && L.enemies[x].target == Some(v) ==> false;
      }
      assert m == multiset{};
    } else {
      var w := L.enemies[v].target.value;
      forall x ensures m[x] == multiset{w}[x] {
        if x in L.enemies && L.enemies[x].target == Some(v) {
          assert x == w;
        }
      }
      assert m == multiset{w};
      assert |s| == 1;
      assert s[0] in m;
    }
  }

  /**
   * Pairing two distinct live targetless enemies keeps the invariant, makes them target
   * each other, and changes no other enemy.
   */
  lemma {:induction false} PairingKeepsPaired(L: Links, p: Handle, c: Handle)
    requires Paired(L) && p in L.enemies && c in L.enemies && p != c
    requires !L.enemies[p].health.isDead && L.enemies[p].target.None?
    requires !L.enemies[c].health.isDead && L.enemies[c].target.None?
    ensures Paired(Attached(Attached(L, p, c), c, p))
    ensures Attached(Attached(L, p, c), c, p).enemies[p].target == Some(c)
    ensures Attached(Attached(L, p, c), c, p).enemies[c].target == Some(p)
    ensures Attached(Attached(L, p, c), c, p).enemies[p] == L.enemies[p].(target := Some(c))
    ensures Attached(Attached(L, p, c), c, p).enemies[c] == L.enemies[c].(target := Some(p))
    ensures forall b | b in L.enemies && b != p && b != c ::
              Attached(Attached(L, p, c), c, p).enemies[b] == L.enemies[b]
  {
    AttachSubscribesOnce(L, p, c);
    var M := Attached(L, p, c);
    AttachSubscribesOnce(M, c, p);
    var R := Attached(M, c, p);
    assert R.enemies[p] == L.enemies[p].(target := Some(c));
    assert R.enemies[c] == L.enemies[c].(target := Some(p));
    PartnersStayMutual(L, R.enemies, p, c);
  }

  /** Two live targetless enemies that now target each other, all else kept: Mutual, Disengaged, Armed hold. */
  lemma {:induction false} PartnersStayMutual(L: Links, after: map<Handle, Enemy>, p: Handle, c: Handle)
    requires Paired(L) && p in L.enemies && c in L.enemies && p != c
    requires !L.enemies[p].health.isDead && L.enemies[p].target.None?
    requires !L.enemies[c].health.isDead && L.enemies[c].target.None?
    requires after.Keys == L.enemies.Keys
    requires after[p] == L.enemies[p].(target := Some(c)) && after[c] == L.enemies[c].(target := Some(p))
    requires forall b | b in L.enemies && b != p && b != c :: after[b] == L.enemies[b]
    ensures var R := L.(enemies := after); Mutual(R) && Disengaged(R) && Armed(R)
  {
    forall a | a in after && after[a].target.Some? && a != p && a != c
      ensures after[after[a].target.value].target == Some(a)
    {
      var t := after[a].target.value;
      assert t != p && t != c;
    }
  }

  /**
   * The first half of the death cascade of v: v drops its target, is marked dead, and its
   * partner (if any) drops v.  Afterwards the invariant holds again and nothing watches v.
   */
  function Bereaved(L: Links, v: Handle): (r: Links)
    requires Closed(L) && v in L.enemies
    ensures Closed(r) && r.enemies.Keys == L.enemies.Keys
  {
    var partner := L.enemies[v].target;
    var D := Killed(Detached(L, v), v);
    if partner.Some? then Detached(D, partner.value) else D
  }

  /** The `isDead = true` step of Die. */
  function Killed(L: Links, v: Handle): (r: Links)
    requires v in L.enemies
    ensures r.watchers == L.watchers && r.enemies.Keys == L.enemies.Keys
    ensures forall x | x in L.enemies :: r.enemies[x].target == L.enemies[x].target
    ensures r.enemies[v].health.isDead
  {
    L.(enemies := L.enemies[v := L.enemies[v].(health := L.enemies[v].health.(isDead := true))])
  }

  /** Marking an enemy dead changes no target, so no subscription changes meaning. */
  lemma MarkingDeadKeepsSubscribed(M: Links, v: Handle)
    requires Subscribed(M) && v in M.enemies
    ensures Subscribed(Killed(M, v))
  {
    var D := Killed(M, v);
    forall b, x | b in D.watchers
      ensures multiset(D.watchers[b])[x] ==
              if x in D.enemies && D.enemies[x].target == Some(b) then 1 else 0
    {
      assert x in M.enemies && M.enemies[x].target == Some(b) <==>
             x in D.enemies && D.enemies[x].target == Some(b);
    }
  }

  /** The subscriptions after the first half of the death cascade: nothing watches v. */
  lemma {:induction false} DeathUnsubscribesAll(L: Links, v: Handle)
    requires Paired(L) && v in L.enemies && !L.enemies[v].health.isDead
    ensures Subscribed(Bereaved(L, v)) && Bereaved(L, v).watchers[v] == []
  {
    var partner := L.enemies[v].target;
    WatchersArePartner(L, v);
    DetachUnsubscribes(L, v);
    var M := Detached(L, v);
    MarkingDeadKeepsSubscribed(M, v);
    var D := Killed(M, v);
    if partner.Some? {
      var w := partner.value;
      assert D.watchers[v] == [w] && D.enemies[w].target == Some(v);
      DetachUnsubscribes(D, w);
      assert RemoveLast([w], w) == [];
    }
  }

  /** Which enemies the first half of the death cascade changes, and how. */
  lemma {:induction false} DeathTouchesPair(L: Links, v: Handle)
    requires Paired(L) && v in L.enemies && !L.enemies[v].health.isDead
    ensures Bereaved(L, v).enemies[v].health.isDead && Bereaved(L, v).enemies[v].target.None?
    ensures Bereaved(L, v).enemies[v].cancelled == (L.enemies[v].cancelled || L.enemies[v].target.Some?)
    ensures Bereaved(L, v).enemies[v].task == L.enemies[v].task
    ensures forall b | b in L.enemies && b != v && L.enemies[v].target != Some(b) ::
              Bereaved(L, v).enemies[b] == L.enemies[b]
    ensures L.enemies[v].target.Some? ==>
              var w := L.enemies[v].target.value;
              Bereaved(L, v).enemies[w] == L.enemies[w].(target := None, cancelled := true)
  {
    var partner := L.enemies[v].target;
    var D := Killed(Detached(L, v), v);
    if partner.Some? {
      var w := partner.value;
      assert D.enemies[w] == L.enemies[w];
      assert D.enemies[w].target == Some(v);
    }
  }

  /** Targets after v died and its partner let go of it are still mutual, live and armed. */
  lemma {:induction false} SurvivorsStayMutual(L: Links, R: Links, v: Handle)
    requires Paired(L) && v in L.enemies && !L.enemies[v].health.isDead
    requires R.enemies.Keys == L.enemies.Keys
    requires R.enemies[v].health.isDead && R.enemies[v].target.None?
    requires R.enemies[v].cancelled == (L.enemies[v].cancelled || L.enemies[v].target.Some?)
    requires R.enemies[v].task == L.enemies[v].task
    requires forall b | b in L.enemies && b != v && L.enemies[v].target != Some(b) :: R.enemies[b] == L.enemies[b]
    requires L.enemies[v].target.Some? ==>
               var w := L.enemies[v].target.value;
               R.enemies[w] == L.enemies[w].(target := None, cancelled := true)
    ensures Mutual(R)
  {
    var partner := L.enemies[v].target;
    forall a | a in R.enemies && R.enemies[a].target.Some?
      ensures R.enemies[a].target.value != a && R.enemies[a].target.value in R.enemies
      ensures R.enemies[R.enemies[a].target.value].target == Some(a)
    {
      assert a != v && partner != Some(a);
      var t := L.enemies[a].target.value;
      assert t != v;
      assert partner != Some(t);
    }
  }
  lemma {:induction false} SurvivorsStayDisarmed(L: Links, R: Links, v: Handle)
    requires Paired(L) && v in L.enemies && !L.enemies[v].health.isDead
    requires R.enemies.Keys == L.enemies.Keys
    requires R.enemies[v].health.isDead && R.enemies[v].target.None?
    requires R.enemies[v].cancelled == (L.enemies[v].cancelled || L.enemies[v].target.Some?)
    requires R.enemies[v].task == L.enemies[v].task
    requires forall b | b in L.enemies && b != v && L.enemies[v].target != Some(b) :: R.enemies[b] == L.enemies[b]
    requires L.enemies[v].target.Some? ==>
               var w := L.enemies[v].target.value;
               R.enemies[w] == L.enemies[w].(target := None, cancelled := true)
    ensures Disengaged(R) && Armed(R)
  {
    forall a | a in R.enemies && a != v
      ensures R.enemies[a].health.isDead ==> R.enemies[a].target.None?
      ensures R.enemies[a].task == Pending && !R.enemies[a].cancelled ==> R.enemies[a].target.Some?
    {
      if L.enemies[v].target != Some(a) {
        assert R.enemies[a] == L.enemies[a];
      }
    }
  }


  lemma {:induction false} DeathKeepsPaired(L: Links, v: Handle)
    requires Paired(L) && v in L.enemies && !L.enemies[v].health.isDead
    ensures Paired(Bereaved(L, v))
    ensures Bereaved(L, v).enemies[v].health.isDead && Bereaved(L, v).watchers[v] == []
  {
    DeathUnsubscribesAll(L, v);
    DeathTouchesPair(L, v);
    SurvivorsStayMutual(L, Bereaved(L, v), v);
    SurvivorsStayDisarmed(L, Bereaved(L, v), v);
  }

  /** Restarting a targetless enemy (a dead one is) brings it back alive and unpaired, keeping the invariant. */
  lemma {:induction false} RestartKeepsPaired(L: Links, a: Handle)
    requires Paired(L) && a in L.enemies && L.enemies[a].target.None?
    ensures Paired(L.(enemies := L.enemies[a := RestartedEnemy(L.enemies[a])]))
  {
    var R := L.(enemies := L.enemies[a := RestartedEnemy(L.enemies[a])]);
    forall b, x | b in R.watchers
      ensures multiset(R.watchers[b])[x] ==
              if x in R.enemies && R.enemies[x].target == Some(b) then 1 else 0
    {
      assert x in L.enemies && L.enemies[x].target == Some(b) <==>
             x in R.enemies && R.enemies[x].target == Some(b);
    }
  }

  /** A new object with no target and no subscribers joins without breaking the invariant. */
  lemma {:induction false} AdmittingKeepsPaired(L: Links, h: Handle, e: Enemy)
    requires Paired(L) && h !in L.enemies && e.target.None? && e.task != Pending
    ensures Paired(Links(L.enemies[h := e], L.watchers[h := []]))
  {
    StrangersAreUntargeted(L, h);
    AdmittingKeepsSubscribed(L, h, e);
    AdmittingKeepsMutual(L, h, e);
  }

  lemma {:induction false} AdmittingKeepsMutual(L: Links, h: Handle, e: Enemy)
    requires Paired(L) && h !in L.enemies && e.target.None? && e.task != Pending
    ensures var R := Links(L.enemies[h := e], L.watchers[h := []]);
            Closed(R) && Mutual(R) && Disengaged(R) && Armed(R)
  {
  }

  /** A handle that is no enemy has no subscription list and is nobody's target. */
  lemma StrangersAreUntargeted(L: Links, h: Handle)
    requires Closed(L) && h !in L.enemies
    ensures h !in L.watchers && forall a | a in L.enemies :: L.enemies[a].target != Some(h)
  {
  }

  lemma {:induction false} AdmittingKeepsSubscribed(L: Links, h: Handle, e: Enemy)
    requires Subscribed(L) && h !in L.enemies && h !in L.watchers && e.target.None?
    requires forall a | a in L.enemies :: L.enemies[a].target != Some(h)
    ensures Subscribed(Links(L.enemies[h := e], L.watchers[h := []]))
  {
    var R := Links(L.enemies[h := e], L.watchers[h := []]);
    forall b, x | b in R.watchers
      ensures multiset(R.watchers[b])[x] ==
              if x in R.enemies && R.enemies[x].target == Some(b) then 1 else 0
    {
      assert (x in L.enemies && L.enemies[x].target == Some(b)) <==>
             x in R.enemies && R.enemies[x].target == Some(b);
    }
  }



  /** All enemies' state, with the methods of Enemy that change only enemies. */
  class Roster {
    var enemies: map<Handle, Enemy>
    var watchers: map<Handle, seq<Handle>>
    /** The enemies whose GameObject is active. */
    var shown: set<Handle>
    /** The handle the next instantiated object gets. */
    var next: nat

    function State(): (l: Links)
      reads this
    {
      Links(enemies, watchers)
    }

    ghost predicate Valid()
      reads this
    {
      Closed(State()) && forall h | h in enemies :: h < next
    }

    constructor ()
      ensures Valid() && enemies == map[] && watchers == map[] && shown == {}
    {
      enemies, watchers, shown, next := map[], map[], {}, 0;
    }

    function HasTarget(a: Handle): (b: bool)
      reads this
      requires a in enemies
      ensures b <==> enemies[a].target.Some?
    {
      enemies[a].target.Some?
    }

    /** The distance test against agent.stoppingDistance is the caller's `near`. */
    function IsNearTarget(a: Handle, near: (Handle, Handle) -> bool): (b: bool)
      reads this
      requires a in enemies
      ensures !HasTarget(a) ==> !b
      ensures HasTarget(a) ==> (b <==> near(a, enemies[a].target.value))
    {
      match enemies[a].target
      case None => false
      case Some(t) => near(a, t)
    }

    /** container.InstantiatePrefabForComponent: a new object copied from the prefab. */
    method Instantiate(t: Template) returns (h: Handle)
      requires Valid()
      modifies this
      ensures Valid() && h !in old(enemies)
      ensures enemies == old(enemies)[h := Instance(t)] && watchers == old(watchers)[h := []]
      ensures shown == old(shown) + {h}
    {
      h := next;
      enemies := enemies[h := Instance(t)];
      watchers := watchers[h := []];
      shown := shown + {h};
      next := next + 1;
    }

    /** gameObject.SetActive(visible). */
    method SetActive(a: Handle, visible: bool)
      modifies this
      ensures enemies == old(enemies) && watchers == old(watchers) && next == old(next)
      ensures shown == if visible then old(shown) + {a} else old(shown) - {a}
    {
      shown := if visible then shown + {a} else shown - {a};
    }

    method Restart(a: Handle)
      requires Valid() && a in enemies
      modifies this
      ensures Valid() && enemies == old(enemies)[a := RestartedEnemy(old(enemies[a]))]
      ensures watchers == old(watchers) && shown == old(shown) && next == old(next)
    {
      enemies := enemies[a := enemies[a].(target := None)];
      var h := enemies[a].health;
      enemies := enemies[a := enemies[a].(health := h.(isDead := false, currentHP := h.maxHP))];
    }

    method RemoveTarget(a: Handle)
      requires Valid() && a in enemies
      modifies this
      ensures Valid() && State() == Detached(old(State()), a)
      ensures shown == old(shown) && next == old(next)
    {
      if HasTarget(a) {
        var t := enemies[a].target.value;
        enemies := enemies[a := enemies[a].(cancelled := true)];
        watchers := watchers[t := RemoveLast(watchers[t], a)];
        enemies := enemies[a := enemies[a].(target := None)];
      }
    }

    method TrySetTarget(a: Handle, e: Option<Handle>) returns (ok: bool)
      requires Valid() && a in enemies && (e.Some? ==> e.value in enemies)
      modifies this
      ensures Valid() && ok == e.Some?
      ensures State() == if e.Some? then Attached(old(State()), a, e.value) else old(State())
      ensures shown == old(shown) && next == old(next)
    {
      if e.None? {
        return false;
      }
      RemoveTarget(a);
      var t := e.value;
      enemies := enemies[a := enemies[a].(target := Some(t))];
      watchers := watchers[t := watchers[t] + [a]];
      ok := true;
    }

    /** The `currentHP -= damage` step of Damageable.Damage; Die is the arena's. */
    method Hurt(a: Handle, damage: int) returns (dies: bool)
      requires Valid() && a in enemies && !enemies[a].health.isDead
      modifies this
      ensures Valid() && watchers == old(watchers) && shown == old(shown) && next == old(next)
      ensures var h := old(enemies[a].health);
              enemies == old(enemies)[a := old(enemies[a]).(health := h.(currentHP := Sub32(h.currentHP, damage)))]
      ensures dies <==> Damaged(old(enemies[a].health), damage).isDead
    {
      var h := enemies[a].health;
      enemies := enemies[a := enemies[a].(health := h.(currentHP := Sub32(h.currentHP, damage)))];
      dies := enemies[a].health.currentHP <= 0;
    }

    /** The `isDead = true` step of Damageable.Die. */
    method MarkDead(a: Handle)
      requires Valid() && a in enemies
      modifies this
      ensures Valid() && watchers == old(watchers) && shown == old(shown) && next == old(next)
      ensures enemies == old(enemies)[a := old(enemies[a]).(health := old(enemies[a]).health.(isDead := true))]
    {
      enemies := enemies[a := enemies[a].(health := enemies[a].health.(isDead := true))];
    }

    /**
     * Update: nothing when targetless or dead; a new attack (a fresh token source and a
     * running task) when near the target and no attack is running; otherwise the agent
     * is sent toward the target, which changes no modelled state.
     */
    method Update(a: Handle, near: (Handle, Handle) -> bool) returns (tick: Tick)
      requires Valid() && a in enemies
      modifies this
      ensures Valid() && watchers == old(watchers) && shown == old(shown) && next == old(next)
      ensures tick == Decide(old(enemies[a]), old(IsNearTarget(a, near)))
      ensures enemies == if tick == StartAttack
                         then old(enemies)[a := old(enemies[a]).(task := Pending, cancelled := false)]
                         else old(enemies)
    {
      if enemies[a].target.None? || enemies[a].health.isDead {
        return Idle;
      }
      if IsNearTarget(a, near) && (enemies[a].task == Succeeded || enemies[a].task == Canceled) {
        enemies := enemies[a := enemies[a].(task := Pending, cancelled := false)];
        tick := StartAttack;
      } else {
        tick := Chase;
      }
    }

    /** The attackTask finishes with the given status. */
    method Settle(a: Handle, status: TaskStatus)
      requires Valid() && a in enemies && status != Pending
      modifies this
      ensures Valid() && watchers == old(watchers) && shown == old(shown) && next == old(next)
      ensures enemies == old(enemies)[a := old(enemies[a]).(task := status)]
    {
      enemies := enemies[a := enemies[a].(task := status)];
    }
  }

  /** Subscribed reads only the subscriptions and the targets. */
  lemma {:induction false} TargetsDecideSubscribed(L: Links, R: Links)
    requires Subscribed(L) && R.watchers == L.watchers && R.enemies.Keys == L.enemies.Keys
    requires forall h | h in L.enemies :: R.enemies[h].target == L.enemies[h].target
    ensures Subscribed(R)
  {
    forall b, x | b in R.watchers
      ensures multiset(R.watchers[b])[x] ==
              if x in R.enemies && R.enemies[x].target == Some(b) then 1 else 0
    {
      assert x in L.enemies && L.enemies[x].target == Some(b) <==>
             x in R.enemies && R.enemies[x].target == Some(b);
    }
  }

  /** Paired reads nothing of an enemy but its target, death, task and cancellation flag. */
  lemma {:induction false} LinksDecidePaired(L: Links, R: Links)
    requires Paired(L) && R.watchers == L.watchers && R.enemies.Keys == L.enemies.Keys
    requires forall h | h in L.enemies ::
               && R.enemies[h].target == L.enemies[h].target
               && R.enemies[h].health.isDead == L.enemies[h].health.isDead
               && R.enemies[h].task == L.enemies[h].task && R.enemies[h].cancelled == L.enemies[h].cancelled
    ensures Paired(R)
  {
    TargetsDecideSubscribed(L, R);
  }


  /** Hit points outside death leave the pairing invariant alone. */
  lemma HurtKeepsPaired(L: Links, a: Handle, hp: int)
    requires Paired(L) && a in L.enemies
    ensures Paired(L.(enemies := L.enemies[a := L.enemies[a].(health := L.enemies[a].health.(currentHP := hp))]))
  {
    LinksDecidePaired(L, L.(enemies := L.enemies[a := L.enemies[a].(health := L.enemies[a].health.(currentHP := hp))]));
  }

  /** Starting an attack keeps the pairing invariant. */
  lemma UpdateKeepsPaired(L: Links, a: Handle, nearTarget: bool)
    requires Paired(L) && a in L.enemies && Decide(L.enemies[a], nearTarget) == StartAttack
    ensures Paired(L.(enemies := L.enemies[a := L.enemies[a].(task := Pending, cancelled := false)]))
  {
    var R := L.(enemies := L.enemies[a := L.enemies[a].(task := Pending, cancelled := false)]);
    TargetsDecideSubscribed(L, R);
  }

  /** A finished attack (Succeeded or Canceled) leaves nothing for Armed to demand. */
  lemma SettleKeepsPaired(L: Links, a: Handle, status: TaskStatus)
    requires Paired(L) && a in L.enemies && status != Pending
    ensures Paired(L.(enemies := L.enemies[a := L.enemies[a].(task := status)]))
  {
    var R := L.(enemies := L.enemies[a := L.enemies[a].(task := status)]);
    TargetsDecideSubscribed(L, R);
  }
}
