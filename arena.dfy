/**
 * ArenaManager (Assets/Scripts/ArenaManager.cs) together with the parts of Enemy and
 * Damageable that raise events into it.  The C# events become explicit calls made in
 * subscription order; the manager owns the roster of enemies and the pool.
 */
module Arena {
  import opened Wrappers
  import opened Vitals
  import opened Enemies
  import opened Pooling
  import opened Matching

  predicate NoDuplicates(s: seq<Handle>)
  {
    forall i, j | 0 <= i < j < |s| :: s[i] != s[j]
  }

  /** HashSet.Remove, in iteration order: x leaves and the others keep their order. */
  function Without(s: seq<Handle>, x: Handle): (r: seq<Handle>)
    ensures forall h :: h in r <==> h in s && h != x
    ensures NoDuplicates(s) ==> NoDuplicates(r)
  {
    if s == [] then []
    else if s[0] == x then Without(s[1..], x)
    else
      var t := Without(s[1..], x);
      assert NoDuplicates(s) ==> NoDuplicates(s[1..]) && s[0] !in t;
      [s[0]] + t
  }

  /** HashSet.Add, in iteration order: a new element goes last. */
  function Added(s: seq<Handle>, x: Handle): (r: seq<Handle>)
    ensures forall h :: h in r <==> h in s || h == x
    ensures NoDuplicates(s) ==> NoDuplicates(r)
  {
    if x in s then s else s + [x]
  }

  /** The active enemies, once each, are exactly the live ones. */
  ghost predicate Live(active: seq<Handle>, enemies: map<Handle, Enemy>)
  {
    && NoDuplicates(active)
    && forall h :: h in active <==> h in enemies && !enemies[h].health.isDead
  }

  lemma BodiesKeepLive(active: seq<Handle>, before: map<Handle, Enemy>, after: map<Handle, Enemy>)
    requires Live(active, before) && SameBodies(before, after)
    ensures Live(active, after)
  {
  }

  /**
   * Each key's free stack holds, once each, exactly the dead enemies of that key, and every
   * enemy's key has a pool.
   */
  ghost predicate Stacked(pools: map<int, seq<Handle>>, enemies: map<Handle, Enemy>)
  {
    && (forall h | h in enemies :: enemies[h].key in pools)
    && (forall k | k in pools :: NoDuplicates(pools[k]))
    && (forall k, h | k in pools && h in pools[k] :: h in enemies && enemies[h].key == k)
    && (forall h | h in enemies :: enemies[h].health.isDead <==> h in pools[enemies[h].key])
  }

  /** Every enemy carries the one OnLiquidation handler Create attached: release into its own key's pool. */
  ghost predicate Hooked(hooks: map<Handle, seq<int>>, enemies: map<Handle, Enemy>)
  {
    hooks.Keys == enemies.Keys && forall h | h in enemies :: hooks[h] == [enemies[h].key]
  }

  /** after is before with v dead: the same enemies and keys, and every other enemy's health kept. */
  ghost predicate Fallen(before: map<Handle, Enemy>, after: map<Handle, Enemy>, v: Handle)
  {
    && v in before && after.Keys == before.Keys
    && after[v].health == before[v].health.(isDead := true)
    && forall b | b in before ::
         after[b].key == before[b].key && (b != v ==> after[b].health == before[b].health)
  }

  /** after is before with v hit for damage: the same enemies and keys, and every other enemy's health kept. */
  ghost predicate Struck(before: map<Handle, Enemy>, after: map<Handle, Enemy>, v: Handle, damage: int)
  {
    && v in before && after.Keys == before.Keys
    && after[v].health == Damaged(before[v].health, damage)
    && forall b | b in before ::
         after[b].key == before[b].key && (b != v ==> after[b].health == before[b].health)
  }

  /** The hit points of v after the `currentHP -= damage` step, before any death. */
  function Scratched(enemies: map<Handle, Enemy>, v: Handle, damage: int): (r: map<Handle, Enemy>)
    requires v in enemies
    ensures r.Keys == enemies.Keys
  {
    var h := enemies[v].health;
    enemies[v := enemies[v].(health := h.(currentHP := Sub32(h.currentHP, damage)))]
  }

  /** A blow is the scratch, followed by the death when the hit points ran out. */
  lemma {:induction false} BlowIsStruck(before: map<Handle, Enemy>, after: map<Handle, Enemy>, v: Handle, damage: int)
    requires v in before && !before[v].health.isDead
    requires var mid := Scratched(before, v, damage);
             if Damaged(before[v].health, damage).isDead then Fallen(mid, after, v) else after == mid
    ensures Struck(before, after, v, damage)
  {
  }

  /**
   * What pool.Get(prefab) hands to Spawn, from the free stacks, prefab registry and
   * enemies before it: the key is registered if it was not; a fresh instance of the
   * registered prefab exactly when the key's free stack is missing or empty, and otherwise
   * the top of that stack, popped; the enemy's record is then the Restart of the instance
   * or of the released enemy.
   */
  ghost predicate Drawn(prefab: Template, pools: map<int, seq<Handle>>, prefabs: map<int, Template>,
                        enemies: map<Handle, Enemy>, enemy: Handle,
                        pools2: map<int, seq<Handle>>, prefabs2: map<int, Template>, record: Enemy)
  {
    && prefabs2 == (if prefab.key in prefabs then prefabs else prefabs[prefab.key := prefab])
    && (enemy !in enemies <==> prefab.key !in pools || pools[prefab.key] == [])
    && (enemy !in enemies ==>
          && pools2 == pools[prefab.key := []]
          && record == RestartedEnemy(Instance(prefabs2[prefab.key])))
    && (enemy in enemies ==>
          var free := pools[prefab.key];
          && enemy == free[|free| - 1]
          && pools2 == pools[prefab.key := free[..|free| - 1]]
          && record == RestartedEnemy(enemies[enemy]))
  }

  /** An enemy after its own Die: dead, targetless, and its attack cancelled if it had a target. */
  function Slain(e: Enemy): (r: Enemy)
    ensures r.health.isDead && r.target.None?
    ensures r.health.currentHP == e.health.currentHP && r.key == e.key && r.task == e.task
  {
    e.(health := e.health.(isDead := true), target := None, cancelled := e.cancelled || e.target.Some?)
  }

  /**
   * The death step of Die (RemoveTarget, then isDead) makes v Slain and leaves every other
   * enemy's health and every key.
   */
  lemma {:induction false} KillingIsFallen(L: Links, v: Handle)
    requires Closed(L) && v in L.enemies && !L.enemies[v].health.isDead
    ensures Fallen(L.enemies, Killed(Detached(L, v), v).enemies, v)
    ensures Killed(Detached(L, v), v).enemies[v] == Slain(L.enemies[v])
  {
    var D := Detached(L, v);
    var K := Killed(D, v);
    assert K.enemies[v].health == L.enemies[v].health.(isDead := true);
    forall b | b in L.enemies
      ensures K.enemies[b].key == L.enemies[b].key && (b != v ==> K.enemies[b].health == L.enemies[b].health)
    {
      assert D.enemies[b].key == L.enemies[b].key && D.enemies[b].health == L.enemies[b].health;
    }
  }

  /** Removing the fallen enemy from the active set keeps it exactly the living enemies. */
  lemma {:induction false} FallKeepsLive(active: seq<Handle>, before: map<Handle, Enemy>,
                                         after: map<Handle, Enemy>, v: Handle)
    requires Live(active, before) && Fallen(before, after, v)
    ensures Live(Without(active, v), after)
  {
    var r := Without(active, v);
    forall h ensures h in r <==> h in after && !after[h].health.isDead {
      if h in after && h != v {
        assert after[h].health == before[h].health;
      }
    }
  }

  /**
   * What Spawn leaves, told against the arena before the spawn: the admission changed only
   * the spawned enemy (M), and the matching only it and its opponent (F).
   */
  lemma {:induction false} SpawnOutcome(A: seq<Handle>, E: map<Handle, Enemy>, M: map<Handle, Enemy>,
                                        F: map<Handle, Enemy>, v: Handle, opponent: Option<Handle>, key: int,
                                        path: (Handle, Handle) -> Option<seq<Point>>, dist: (Point, Point) -> real)
    requires Live(A, E) && v !in A && v in M && M == E[v := M[v]]
    requires M[v].key == key && M[v].health == Restarted(M[v].health)
    requires F.Keys == M.Keys && F[v].health == M[v].health && F[v].key == M[v].key && F[v].target == opponent
    requires opponent.None? <==> forall j | 0 <= j < |A + [v]| :: !Reachable(M, v, (A + [v])[j], path)
    requires opponent.Some? ==>
               var c := opponent.value;
               && Chosen(A + [v], M, v, path, dist, c)
               && c in M && F[c] == M[c].(target := Some(v))
    requires forall b | b in M && b != v && opponent != Some(b) :: F[b] == M[b]
    ensures F.Keys == E.Keys + {v} && F[v].key == key && F[v].health == Restarted(F[v].health)
    ensures opponent.None? <==> forall j | 0 <= j < |A| :: !Reachable(E, v, A[j], path)
    ensures opponent.Some? ==>
              var c := opponent.value;
              && Chosen(A, E, v, path, dist, c)
              && c in E && F[c] == E[c].(target := Some(v))
    ensures forall b | b in E && b != v && opponent != Some(b) :: F[b] == E[b]
  {
    SelfIsNoCandidate(A, E, M, v, path, dist);
    if opponent.Some? {
      ChosenIsNearest(A, E, v, path, dist, opponent.value);
    }
  }

  /**
   * What the death of v leaves for the other enemies, told against the links L before it:
   * v's partner w, if it has one, has dropped v (its attack cancelled) and been re-matched
   * over active, and opponent is the enemy it now targets, the nearest reachable free one,
   * first among equals, or none exactly when no active enemy is reachable; apart from v, w
   * and that opponent, no enemy changed.
   */
  ghost predicate Mourned(L: Links, v: Handle, after: map<Handle, Enemy>, active: seq<Handle>,
                          path: (Handle, Handle) -> Option<seq<Point>>, dist: (Point, Point) -> real,
                          opponent: Option<Handle>)
    requires Closed(L) && v in L.enemies
  {
    && after.Keys == L.enemies.Keys
    && (L.enemies[v].target.None? ==> opponent.None?)
    && (L.enemies[v].target.Some? ==>
          var w := L.enemies[v].target.value;
          && after[w] == L.enemies[w].(target := opponent, cancelled := true)
          && (opponent.None? <==> forall j | 0 <= j < |active| :: !Reachable(L.enemies, w, active[j], path))
          && (opponent.Some? ==>
                var c := opponent.value;
                && Chosen(active, L.enemies, w, path, dist, c)
                && c in L.enemies && after[c] == L.enemies[c].(target := Some(w))))
    && forall b | b in L.enemies && b != v && L.enemies[v].target != Some(b) && opponent != Some(b) ::
         after[b] == L.enemies[b]
  }

  /** With no partner, the death of v touches nobody else and re-matches nobody. */
  lemma {:induction false} LoneDeathMourned(L: Links, v: Handle, active: seq<Handle>,
                                            path: (Handle, Handle) -> Option<seq<Point>>, dist: (Point, Point) -> real)
    requires Paired(L) && v in L.enemies && !L.enemies[v].health.isDead && L.enemies[v].target.None?
    ensures Mourned(L, v, Killed(Detached(L, v), v).enemies, active, path, dist, None)
  {
    DeathTouchesPair(L, v);
  }

  /**
   * The partner's OnTargetDead, told against the links after the first half of the death
   * cascade, is Mourned told against the links before the death: v is no candidate either
   * way (alive and targeting its partner before, dead after).
   */
  lemma {:induction false} PartnerMourns(L: Links, v: Handle, after: map<Handle, Enemy>, active: seq<Handle>,
                                         path: (Handle, Handle) -> Option<seq<Point>>, dist: (Point, Point) -> real,
                                         opponent: Option<Handle>)
    requires Paired(L) && v in L.enemies && !L.enemies[v].health.isDead && L.enemies[v].target.Some?
    requires var w := L.enemies[v].target.value;
             var B := Bereaved(L, v).enemies;
             && after.Keys == B.Keys && after[w] == B[w].(target := opponent)
             && (opponent.None? <==> forall j | 0 <= j < |active| :: !Reachable(B, w, active[j], path))
             && (opponent.Some? ==>
                   && Chosen(active, B, w, path, dist, opponent.value)
                   && after[opponent.value] == B[opponent.value].(target := Some(w)))
             && forall b | b in B && b != w && opponent != Some(b) :: after[b] == B[b]
    ensures Mourned(L, v, after, active, path, dist, opponent)
  {
    DeathTouchesPair(L, v);
    var w := L.enemies[v].target.value;
    BereavedReach(L, v, active, path, dist);
    if opponent.Some? {
      ChosenIsNearest(active, Bereaved(L, v).enemies, w, path, dist, opponent.value);
    }
  }

  /** The partner w of v reaches the same enemies before and after the death of v. */
  lemma {:induction false} BereavedReach(L: Links, v: Handle, active: seq<Handle>,
                                         path: (Handle, Handle) -> Option<seq<Point>>, dist: (Point, Point) -> real)
    requires Paired(L) && v in L.enemies && !L.enemies[v].health.isDead && L.enemies[v].target.Some?
    ensures var w := L.enemies[v].target.value;
            var B := Bereaved(L, v).enemies;
            && ((forall j | 0 <= j < |active| :: !Reachable(B, w, active[j], path)) <==>
                (forall j | 0 <= j < |active| :: !Reachable(L.enemies, w, active[j], path)))
            && forall c :: Chosen(active, B, w, path, dist, c) <==> Chosen(active, L.enemies, w, path, dist, c)
  {
    DeathTouchesPair(L, v);
    var w := L.enemies[v].target.value;
    var B := Bereaved(L, v).enemies;
    forall t
      ensures Reachable(B, w, t, path) <==> Reachable(L.enemies, w, t, path)
    {
      if t != v && t != w && t in L.enemies {
        assert B[t] == L.enemies[t];
      }
    }
    SameReach(active, L.enemies, B, w, path, dist);
  }

  /**
   * Mourned told against the links just after the `currentHP -= damage` step is Mourned
   * told against the links before it: the scratch changes only v's hit points, and v,
   * alive and targeting its partner either way, is no candidate for anyone.
   */
  lemma {:induction false} ScratchKeepsMourned(L: Links, v: Handle, damage: int, after: map<Handle, Enemy>,
                                               active: seq<Handle>, path: (Handle, Handle) -> Option<seq<Point>>,
                                               dist: (Point, Point) -> real, opponent: Option<Handle>)
    requires Paired(L) && v in L.enemies && !L.enemies[v].health.isDead
    requires Closed(Links(Scratched(L.enemies, v, damage), L.watchers))
    requires Mourned(Links(Scratched(L.enemies, v, damage), L.watchers), v, after, active, path, dist, opponent)
    ensures Mourned(L, v, after, active, path, dist, opponent)
  {
    var M := Scratched(L.enemies, v, damage);
    if L.enemies[v].target.Some? {
      var w := L.enemies[v].target.value;
      forall t
        ensures Reachable(M, w, t, path) <==> Reachable(L.enemies, w, t, path)
      {
        if t != v && t in L.enemies {
          assert M[t] == L.enemies[t];
        }
      }
      SameReach(active, L.enemies, M, w, path, dist);
    }
  }

  /**
   * The outcome of Enemy.Damage(damage) on v, from links L, active list A, shown set S and
   * pools P to R, A2, S2 and P2, with opponent the enemy v's partner was re-matched with.
   * A dead enemy ignores the blow; a survivor only loses hit points; a killed enemy is
   * Slain with its remaining hit points, its partner is Mourned, it leaves the active list
   * and the screen, and it is pushed onto the pool of its own prefab.
   */
  ghost predicate Blow(L: Links, A: seq<Handle>, S: set<Handle>, P: map<int, seq<Handle>>,
                       v: Handle, damage: int,
                       path: (Handle, Handle) -> Option<seq<Point>>, dist: (Point, Point) -> real,
                       R: Links, A2: seq<Handle>, S2: set<Handle>, P2: map<int, seq<Handle>>,
                       opponent: Option<Handle>)
    requires Closed(L) && v in L.enemies
  {
    var e := L.enemies[v];
    if e.health.isDead then
      R == L && A2 == A && S2 == S && P2 == P && opponent.None?
    else if !Damaged(e.health, damage).isDead then
      && R == Links(Scratched(L.enemies, v, damage), L.watchers)
      && A2 == A && S2 == S && P2 == P && opponent.None?
    else
      && Mourned(L, v, R.enemies, A2, path, dist, opponent)
      && R.enemies[v] == Slain(Scratched(L.enemies, v, damage)[v])
      && A2 == Without(A, v) && v !in S2
      && e.key in P && P2 == P[e.key := P[e.key] + [v]]
  }

  /** No blow starts or ends an attack task. */
  lemma {:induction false} BlowKeepsTasks(L: Links, A: seq<Handle>, S: set<Handle>, P: map<int, seq<Handle>>,
                                          v: Handle, damage: int,
                                          path: (Handle, Handle) -> Option<seq<Point>>, dist: (Point, Point) -> real,
                                          R: Links, A2: seq<Handle>, S2: set<Handle>, P2: map<int, seq<Handle>>,
                                          opponent: Option<Handle>)
    requires Closed(L) && v in L.enemies
    requires Blow(L, A, S, P, v, damage, path, dist, R, A2, S2, P2, opponent)
    ensures R.enemies.Keys == L.enemies.Keys
    ensures forall b | b in L.enemies :: R.enemies[b].task == L.enemies[b].task
  {
    var e := L.enemies[v];
    if !e.health.isDead && Damaged(e.health, damage).isDead {
      forall b | b in L.enemies
        ensures R.enemies[b].task == L.enemies[b].task
      {
        if b != v && L.enemies[v].target != Some(b) && opponent != Some(b) {
          assert R.enemies[b] == L.enemies[b];
        }
      }
    }
  }

  /** Ending a task that was pending and putting it back to pending restores the enemies. */
  lemma SettleUndone(before: map<Handle, Enemy>, settled: map<Handle, Enemy>, a: Handle, status: TaskStatus)
    requires a in before && before[a].task == Pending
    requires settled == before[a := before[a].(task := status)]
    ensures settled[a := settled[a].(task := Pending)] == before
  {
    assert settled[a := settled[a].(task := Pending)][a] == before[a];
  }

  /** The end of the attacker's task touches no health and no key. */
  lemma StruckThenSettled(before: map<Handle, Enemy>, after: map<Handle, Enemy>, v: Handle, damage: int,
                          a: Handle, status: TaskStatus)
    requires Struck(before, after, v, damage) && a in after
    ensures Struck(before, after[a := after[a].(task := status)], v, damage)
  {
  }

  lemma FallenThenSameBodies(before: map<Handle, Enemy>, mid: map<Handle, Enemy>, after: map<Handle, Enemy>,
                             v: Handle)
    requires Fallen(before, mid, v) && SameBodies(mid, after)
    ensures Fallen(before, after, v)
  {
  }

  lemma FallKeepsHooked(hooks: map<Handle, seq<int>>, before: map<Handle, Enemy>, after: map<Handle, Enemy>,
                        v: Handle)
    requires Hooked(hooks, before) && Fallen(before, after, v)
    ensures Hooked(hooks, after)
  {
  }

  /** Hit points alone changed: every enemy keeps its death flag and its key. */
  ghost predicate SameFates(before: map<Handle, Enemy>, after: map<Handle, Enemy>)
  {
    && after.Keys == before.Keys
    && forall h | h in before ::
         after[h].health.isDead == before[h].health.isDead && after[h].key == before[h].key
  }

  lemma HurtKeepsFates(enemies: map<Handle, Enemy>, a: Handle, hp: int)
    requires a in enemies
    ensures SameFates(enemies, enemies[a := enemies[a].(health := enemies[a].health.(currentHP := hp))])
  {
  }

  /** The `currentHP -= damage` step on a live enemy keeps the state consistent. */
  lemma {:induction false} ScratchIsConsistent(active: seq<Handle>, wired: set<Handle>, L: Links, shown: set<Handle>,
                                               hooks: map<Handle, seq<int>>, pools: map<int, seq<Handle>>,
                                               v: Handle, damage: int)
    requires Consistent(active, wired, L, shown, hooks, pools) && v in L.enemies
    ensures Consistent(active, wired, Links(Scratched(L.enemies, v, damage), L.watchers), shown, hooks, pools)
  {
    var h := L.enemies[v].health;
    HurtKeepsPaired(L, v, Sub32(h.currentHP, damage));
    HurtKeepsFates(L.enemies, v, Sub32(h.currentHP, damage));
  }

  /** Only targets, tasks and hit points changed, and the pairing still holds: the arena is still consistent. */
  lemma FatesKeepConsistent(active: seq<Handle>, wired: set<Handle>, L: Links, R: Links, shown: set<Handle>,
                            hooks: map<Handle, seq<int>>, pools: map<int, seq<Handle>>)
    requires Consistent(active, wired, L, shown, hooks, pools) && Paired(R) && SameFates(L.enemies, R.enemies)
    ensures Consistent(active, wired, R, shown, hooks, pools)
  {
    FatesKeepLive(active, L.enemies, R.enemies);
    FatesKeepPooled(hooks, pools, L.enemies, R.enemies);
  }

  lemma FatesKeepLive(active: seq<Handle>, before: map<Handle, Enemy>, after: map<Handle, Enemy>)
    requires Live(active, before) && SameFates(before, after)
    ensures Live(active, after)
  {
  }

  lemma FatesKeepPooled(hooks: map<Handle, seq<int>>, pools: map<int, seq<Handle>>,
                        before: map<Handle, Enemy>, after: map<Handle, Enemy>)
    requires Hooked(hooks, before) && Stacked(pools, before) && SameFates(before, after)
    ensures Hooked(hooks, after) && Stacked(pools, after)
  {
  }

  /** A death followed by the release into its own pool keeps each free stack exactly the dead. */
  lemma {:induction false} DeathKeepsStacked(pools: map<int, seq<Handle>>, before: map<Handle, Enemy>,
                                             after: map<Handle, Enemy>, v: Handle)
    requires Stacked(pools, before) && Fallen(before, after, v) && !before[v].health.isDead
    ensures var k := before[v].key; Stacked(pools[k := pools[k] + [v]], after)
  {
    var k := before[v].key;
    var P := pools[k := pools[k] + [v]];
    assert v !in pools[k];
    forall j | j in P
      ensures NoDuplicates(P[j])
    {
      if j == k {
        var s := pools[k] + [v];
        forall a, b | 0 <= a < b < |s|
          ensures s[a] != s[b]
        {
          if b == |s| - 1 {
            assert s[a] in pools[k];
          }
        }
      }
    }
  }

  /** Reusing the top of a free stack revives it: the rest of the stack stays exactly the dead. */
  lemma {:induction false} ReuseKeepsStacked(pools: map<int, seq<Handle>>, before: map<Handle, Enemy>,
                                             after: map<Handle, Enemy>, k: int)
    requires Stacked(pools, before) && k in pools && pools[k] != []
    requires var v := pools[k][|pools[k]| - 1];
             && after.Keys == before.Keys && !after[v].health.isDead && after[v].key == before[v].key
             && forall b | b in before && b != v ::
                  after[b].health.isDead == before[b].health.isDead && after[b].key == before[b].key
    ensures Stacked(pools[k := pools[k][..|pools[k]| - 1]], after)
  {
    var s := pools[k];
    var v := s[|s| - 1];
    var rest := s[..|s| - 1];
    assert s == rest + [v];
    assert v !in rest by {
      forall i | 0 <= i < |rest|
        ensures rest[i] != v
      {
        assert rest[i] == s[i];
      }
    }
  }

  /** A new object admitted alive, with its key's stack empty, keeps each free stack exactly the dead. */
  lemma {:induction false} CreationKeepsStacked(pools: map<int, seq<Handle>>, before: map<Handle, Enemy>,
                                                v: Handle, e: Enemy)
    requires Stacked(pools, before) && v !in before && !e.health.isDead
    requires e.key !in pools || pools[e.key] == []
    ensures Stacked(pools[e.key := []], before[v := e])
  {
  }

  /**
   * The arena's invariant over its state as values: every enemy is wired; the links are
   * paired; the active enemies are the live ones and the shown ones; every enemy's one
   * OnLiquidation handler releases into its own key's pool; the free stacks hold the dead.
   */
  ghost predicate Consistent(active: seq<Handle>, wired: set<Handle>, L: Links, shown: set<Handle>,
                             hooks: map<Handle, seq<int>>, pools: map<int, seq<Handle>>)
  {
    && wired == L.enemies.Keys && Paired(L) && Live(active, L.enemies)
    && (forall h :: h in shown <==> h in active)
    && Hooked(hooks, L.enemies) && Stacked(pools, L.enemies)
  }

  /** Bringing in v alive, when it was not alive before, adds it once to the active set. */
  lemma {:induction false} AdmissionKeepsLive(active: seq<Handle>, before: map<Handle, Enemy>,
                                              after: map<Handle, Enemy>, v: Handle)
    requires Live(active, before) && (v in before ==> before[v].health.isDead)
    requires after.Keys == before.Keys + {v} && !after[v].health.isDead
    requires forall b | b in before && b != v :: after[b].health.isDead == before[b].health.isDead
    ensures v !in active && Live(active + [v], after)
  {
  }

  /**
   * Taking the top v of a non-empty free stack and restarting it leaves a state that is
   * consistent once v is active and shown.
   */
  lemma {:induction false} ReuseIsConsistent(active: seq<Handle>, wired: set<Handle>, L: Links, shown: set<Handle>,
                                             hooks: map<Handle, seq<int>>, pools: map<int, seq<Handle>>, k: int)
    requires Consistent(active, wired, L, shown, hooks, pools) && k in pools && pools[k] != []
    ensures var v := pools[k][|pools[k]| - 1];
            && v in L.enemies && L.enemies[v].health.isDead && L.enemies[v].key == k
            && v !in active && v !in shown
            && Consistent(active + [v], wired, Links(L.enemies[v := RestartedEnemy(L.enemies[v])], L.watchers),
                          shown + {v}, hooks, pools[k := pools[k][..|pools[k]| - 1]])
  {
    var v := pools[k][|pools[k]| - 1];
    var E := L.enemies[v := RestartedEnemy(L.enemies[v])];
    RestartKeepsPaired(L, v);
    ReuseKeepsStacked(pools, L.enemies, E, k);
    AdmissionKeepsLive(active, L.enemies, E, v);
  }

  /**
   * Instantiating v from a prefab of key k, when k's free stack is empty or missing,
   * leaves a state that is consistent once v is wired, active and shown.
   */
  lemma {:induction false} CreationIsConsistent(active: seq<Handle>, wired: set<Handle>, L: Links, shown: set<Handle>,
                                                hooks: map<Handle, seq<int>>, pools: map<int, seq<Handle>>,
                                                v: Handle, e: Enemy, k: int)
    requires Consistent(active, wired, L, shown, hooks, pools)
    requires v !in L.enemies && !e.health.isDead && e.target.None? && e.task != Pending && e.key == k
    requires k !in pools || pools[k] == []
    ensures v !in active && v !in shown
    ensures Consistent(active + [v], wired + {v}, Links(L.enemies[v := e], L.watchers[v := []]), (shown - {v}) + {v},
                       hooks[v := HooksOf(hooks, v) + [k]], pools[k := []])
  {
    AdmittingKeepsPaired(L, v, e);
    CreationKeepsStacked(pools, L.enemies, v, e);
    CreationKeepsHooked(hooks, L.enemies, v, e);
    AdmissionKeepsLive(active, L.enemies, L.enemies[v := e], v);
    assert forall h :: h in (shown - {v}) + {v} <==> h in active + [v];
  }

  lemma {:induction false} CreationKeepsHooked(hooks: map<Handle, seq<int>>, before: map<Handle, Enemy>,
                                               v: Handle, e: Enemy)
    requires Hooked(hooks, before) && v !in before
    ensures Hooked(hooks[v := HooksOf(hooks, v) + [e.key]], before[v := e])
  {
  }

  class ArenaManager {
    /** The HashSet activeEnemies, in its iteration order. */
    var activeEnemies: seq<Handle>
    /** The enemies Append has wired: OnWin to SetNewParticipant, OnDead to RemoveParticipant. */
    var wired: set<Handle>
    const roster: Roster
    const pool: LiquidatedObjectPool

    /** The active enemies are exactly the live ones, and every enemy is wired. */
    ghost predicate Tracked()
      reads this, roster
    {
      wired == roster.enemies.Keys && Live(activeEnemies, roster.enemies)
    }

    ghost predicate Engaged()
      reads this, roster
    {
      roster.Valid() && Paired(roster.State()) && Tracked()
    }

    ghost predicate Valid()
      reads this, roster, pool
    {
      && roster.Valid() && pool.Valid()
      && Consistent(activeEnemies, wired, roster.State(), roster.shown, pool.hooks, pool.pools)
    }

    /** An arena with an empty scene (Awake finds no enemies) and an empty pool. */
    constructor ()
      ensures Valid() && activeEnemies == [] && fresh(roster) && fresh(pool)
    {
      activeEnemies := [];
      wired := {};
      roster := new Roster();
      pool := new LiquidatedObjectPool();
    }

    method Append(obj: Handle)
      modifies this
      ensures wired == old(wired) + {obj} && activeEnemies == old(activeEnemies)
    {
      wired := wired + {obj};
    }

    method RemoveParticipant(participant: Handle)
      modifies this
      ensures activeEnemies == Without(old(activeEnemies), participant) && wired == old(wired)
    {
      activeEnemies := Without(activeEnemies, participant);
    }

    /** The two TrySetTarget calls that close SetNewParticipant: participant and opponent target each other. */
    method Pair(participant: Handle, opponent: Handle)
      requires Engaged() && participant in roster.enemies && opponent in roster.enemies
      requires participant != opponent
      requires !roster.enemies[participant].health.isDead && roster.enemies[participant].target.None?
      requires !roster.enemies[opponent].health.isDead && roster.enemies[opponent].target.None?
      modifies roster
      ensures Engaged() && SameBodies(old(roster.enemies), roster.enemies)
      ensures roster.shown == old(roster.shown) && roster.next == old(roster.next)
      ensures roster.State() == Attached(Attached(old(roster.State()), participant, opponent), opponent, participant)
      ensures roster.enemies[participant] == old(roster.enemies[participant]).(target := Some(opponent))
      ensures roster.enemies[opponent] == old(roster.enemies[opponent]).(target := Some(participant))
      ensures forall b | b in old(roster.enemies) && b != participant && b != opponent ::
                roster.enemies[b] == old(roster.enemies[b])
    {
      ghost var L := roster.State();
      PairingKeepsPaired(L, participant, opponent);
      var _ := roster.TrySetTarget(participant, Some(opponent));
      ghost var M := roster.State();
      var _ := roster.TrySetTarget(opponent, Some(participant));
      assert SameBodies(L.enemies, roster.enemies) by {
        assert SameBodies(L.enemies, M.enemies) && SameBodies(M.enemies, roster.enemies);
      }
      BodiesKeepLive(activeEnemies, L.enemies, roster.enemies);
    }

    /**
     * Pair participant with the nearest reachable candidate, if any (the result names it;
     * the C# method returns nothing).
     */
    method SetNewParticipant(participant: Handle, path: (Handle, Handle) -> Option<seq<Point>>,
                             dist: (Point, Point) -> real)
      returns (opponent: Option<Handle>)
      requires Engaged() && participant in roster.enemies
      requires !roster.enemies[participant].health.isDead && roster.enemies[participant].target.None?
      modifies roster
      ensures Engaged() && SameBodies(old(roster.enemies), roster.enemies)
      ensures roster.shown == old(roster.shown) && roster.next == old(roster.next)
      ensures opponent.None? <==>
                forall j | 0 <= j < |activeEnemies| :: !Reachable(old(roster.enemies), participant, activeEnemies[j], path)
      ensures opponent.None? ==> roster.State() == old(roster.State())
      ensures opponent.Some? ==>
                && Reachable(old(roster.enemies), participant, opponent.value, path)
                && Chosen(activeEnemies, old(roster.enemies), participant, path, dist, opponent.value)
      ensures opponent.Some? ==>
                var c := opponent.value;
                && roster.State() == Attached(Attached(old(roster.State()), participant, c), c, participant)
                && roster.enemies[participant] == old(roster.enemies[participant]).(target := Some(c))
                && roster.enemies[c] == old(roster.enemies[c]).(target := Some(participant))
      ensures forall b | b in old(roster.enemies) && b != participant && opponent != Some(b) ::
                roster.enemies[b] == old(roster.enemies[b])
    {
      opponent := ChooseOpponent(activeEnemies, roster.enemies, participant, path, dist);
      if opponent.Some? {
        ChosenIsNearest(activeEnemies, roster.enemies, participant, path, dist, opponent.value);
        Pair(participant, opponent.value);
      }
    }

    /** OnTargetDead: drop the dead target, then raise OnWin, which Append wired to SetNewParticipant. */
    method OnTargetDead(survivor: Handle, path: (Handle, Handle) -> Option<seq<Point>>,
                        dist: (Point, Point) -> real)
      returns (opponent: Option<Handle>)
      requires roster.Valid() && Tracked() && survivor in roster.enemies
      requires !roster.enemies[survivor].health.isDead
      requires Paired(Detached(roster.State(), survivor))
      modifies roster
      ensures Engaged() && SameBodies(old(roster.enemies), roster.enemies)
      ensures roster.shown == old(roster.shown) && roster.next == old(roster.next)
      ensures roster.enemies[survivor].target == opponent
      ensures opponent.Some? ==>
                && opponent.value in activeEnemies
                && roster.enemies[opponent.value].target == Some(survivor)
      ensures var D := Detached(old(roster.State()), survivor).enemies;
              && roster.enemies[survivor] == D[survivor].(target := opponent)
              && (opponent.None? <==>
                    forall j | 0 <= j < |activeEnemies| :: !Reachable(D, survivor, activeEnemies[j], path))
              && (opponent.Some? ==>
                    && Reachable(D, survivor, opponent.value, path)
                    && Chosen(activeEnemies, D, survivor, path, dist, opponent.value)
                    && roster.enemies[opponent.value] == D[opponent.value].(target := Some(survivor)))
      ensures forall b | b in old(roster.enemies) && b != survivor && opponent != Some(b) ::
                roster.enemies[b] == old(roster.enemies[b])
    {
      roster.RemoveTarget(survivor);
      opponent := SetNewParticipant(survivor, path, dist);
    }

    /**
     * The first steps of the death of v: RemoveTarget, isDead, then the first OnDead
     * handler, RemoveParticipant, which Append attached when v was created.
     */
    method Fall(v: Handle)
      requires Valid() && v in roster.enemies && !roster.enemies[v].health.isDead
      modifies this, roster
      ensures roster.Valid() && Tracked()
      ensures roster.State() == Killed(Detached(old(roster.State()), v), v)
      ensures Fallen(old(roster.enemies), roster.enemies, v)
      ensures activeEnemies == Without(old(activeEnemies), v)
      ensures roster.shown == old(roster.shown) && roster.next == old(roster.next)
    {
      ghost var L := roster.State();
      ghost var A := activeEnemies;
      roster.RemoveTarget(v);
      roster.MarkDead(v);
      RemoveParticipant(v);
      KillingIsFallen(L, v);
      FallKeepsLive(A, L.enemies, roster.enemies, v);
    }

    /**
     * The rest of OnDead for v, fallen from the links L: the OnTargetDead of every enemy
     * targeting v, that is of v's partner if it has one.
     */
    method Mourn(v: Handle, ghost L: Links, path: (Handle, Handle) -> Option<seq<Point>>,
                 dist: (Point, Point) -> real)
      returns (opponent: Option<Handle>)
      requires roster.Valid() && Tracked() && Paired(L) && v in L.enemies && !L.enemies[v].health.isDead
      requires roster.State() == Killed(Detached(L, v), v)
      modifies roster
      ensures Engaged() && SameBodies(old(roster.enemies), roster.enemies)
      ensures roster.enemies[v] == old(roster.enemies[v])
      ensures roster.shown == old(roster.shown) && roster.next == old(roster.next)
      ensures Mourned(L, v, roster.enemies, activeEnemies, path, dist, opponent)
    {
      WatchersArePartner(L, v);
      DeathKeepsPaired(L, v);
      DeathTouchesPair(L, v);
      var waiting := roster.watchers[v];
      if waiting != [] {
        assert Detached(roster.State(), waiting[0]) == Bereaved(L, v);
        opponent := OnTargetDead(waiting[0], path, dist);
        PartnerMourns(L, v, roster.enemies, activeEnemies, path, dist, opponent);
      } else {
        opponent := None;
        LoneDeathMourned(L, v, activeEnemies, path, dist);
      }
    }

    /**
     * Enemy.Die then Damageable.Die: v drops its target and is marked dead, OnDead runs
     * RemoveParticipant and then the OnTargetDead of the enemies targeting v (the invariant
     * allows only v's partner), and Liquidate releases v into its pool.
     */
    method Die(v: Handle, path: (Handle, Handle) -> Option<seq<Point>>, dist: (Point, Point) -> real)
      returns (opponent: Option<Handle>)
      requires Valid() && v in roster.enemies && !roster.enemies[v].health.isDead
      modifies this, roster, pool
      ensures Valid()
      ensures Fallen(old(roster.enemies), roster.enemies, v) && roster.enemies[v] == Slain(old(roster.enemies[v]))
      ensures Mourned(old(roster.State()), v, roster.enemies, activeEnemies, path, dist, opponent)
      ensures activeEnemies == Without(old(activeEnemies), v) && v !in roster.shown
      ensures var k := old(roster.enemies[v].key);
              pool.pools == old(pool.pools)[k := old(pool.pools[k]) + [v]]
      ensures pool.created == old(pool.created) && pool.prefabs == old(pool.prefabs)
    {
      assert pool != roster as object && this != roster as object && this != pool as object;
      ghost var L := roster.State();
      Fall(v);
      ghost var E := roster.enemies;
      KillingIsFallen(L, v);
      opponent := Mourn(v, L, path, dist);
      FallenThenSameBodies(L.enemies, E, roster.enemies, v);
      FallKeepsHooked(pool.hooks, L.enemies, roster.enemies, v);
      DeathKeepsStacked(pool.pools, L.enemies, roster.enemies, v);
      Bury(v);
    }

    /** Liquidate for v, dead and out of the active set: its one handler releases it into its own pool. */
    method Bury(v: Handle)
      requires Engaged() && pool.Valid() && Hooked(pool.hooks, roster.enemies) && v in roster.enemies
      requires var k := roster.enemies[v].key;
               k in pool.pools && Stacked(pool.pools[k := pool.pools[k] + [v]], roster.enemies)
      requires forall h :: h in roster.shown <==> h in activeEnemies || h == v
      modifies roster, pool
      ensures Valid() && roster.State() == old(roster.State()) && v !in roster.shown
      ensures var k := roster.enemies[v].key; pool.pools == old(pool.pools)[k := old(pool.pools[k]) + [v]]
      ensures pool.created == old(pool.created) && pool.prefabs == old(pool.prefabs)
    {
      ReleasedIntoOwnPool(pool.pools, roster.enemies[v].key, v);
      pool.Liquidate(v, roster);
    }

    /** The `currentHP -= damage` step of Damageable.Damage on a live enemy. */
    method Wound(v: Handle, damage: int) returns (dies: bool)
      requires Valid() && v in roster.enemies && !roster.enemies[v].health.isDead
      modifies roster
      ensures Valid() && roster.shown == old(roster.shown) && roster.watchers == old(roster.watchers)
      ensures roster.enemies == Scratched(old(roster.enemies), v, damage)
      ensures dies <==> Damaged(old(roster.enemies[v].health), damage).isDead
    {
      ScratchIsConsistent(activeEnemies, wired, roster.State(), roster.shown, pool.hooks, pool.pools, v, damage);
      dies := roster.Hurt(v, damage);
    }

    /** Valid once v, a live, restarted and targetless enemy, is made active and shown. */
    ghost predicate Taken(v: Handle)
      reads this, roster, pool
    {
      && roster.Valid() && pool.Valid()
      && v in roster.enemies && v !in activeEnemies && v !in roster.shown
      && !roster.enemies[v].health.isDead && roster.enemies[v].target.None?
      && roster.enemies[v].health == Restarted(roster.enemies[v].health)
      && Consistent(activeEnemies + [v], wired, roster.State(), roster.shown + {v}, pool.hooks, pool.pools)
    }

    /** pool.Get made v, a new object (and Append wired it): the state is Taken(v). */
    lemma CreatedIsTaken(v: Handle, key: int, active: seq<Handle>, wired0: set<Handle>, L: Links,
                         shown: set<Handle>, hooks: map<Handle, seq<int>>, pools: map<int, seq<Handle>>)
      requires Consistent(active, wired0, L, shown, hooks, pools)
      requires roster.Valid() && pool.Valid() && activeEnemies == active && wired == wired0 + {v}
      requires v !in L.enemies && (key !in pools || pools[key] == []) && key in pool.prefabs
      requires roster.enemies == L.enemies[v := RestartedEnemy(Instance(pool.prefabs[key]))]
      requires roster.watchers == L.watchers[v := []] && roster.shown == shown - {v}
      requires pool.hooks == hooks[v := HooksOf(hooks, v) + [key]] && pool.pools == pools[key := []]
      ensures Taken(v) && roster.enemies[v].key == key
    {
      CreationIsConsistent(active, wired0, L, shown, hooks, pools, v, RestartedEnemy(Instance(pool.prefabs[key])), key);
    }

    /** pool.Get reused v, the top of key's free stack: the state is Taken(v). */
    lemma ReusedIsTaken(v: Handle, key: int, active: seq<Handle>, L: Links,
                        shown: set<Handle>, hooks: map<Handle, seq<int>>, pools: map<int, seq<Handle>>)
      requires Consistent(active, wired, L, shown, hooks, pools)
      requires roster.Valid() && pool.Valid() && activeEnemies == active
      requires key in pools && pools[key] != [] && v == pools[key][|pools[key]| - 1]
      requires roster.enemies == L.enemies[v := RestartedEnemy(L.enemies[v])]
      requires roster.watchers == L.watchers && roster.shown == shown
      requires pool.hooks == hooks && pool.pools == pools[key := pools[key][..|pools[key]| - 1]]
      ensures Taken(v) && v in L.enemies && roster.enemies[v].key == key
    {
      ReuseIsConsistent(active, wired, L, shown, hooks, pools, key);
    }

    /**
     * pool.Get for Spawn: a released object of the prefab's key when its free stack has
     * one, else a new instance (whose createFunc raises OnLiquidatedObjectCreated, and so
     * Append), restarted either way.
     */
    method Take(prefab: Template) returns (enemy: Handle)
      requires Valid()
      modifies this, roster, pool
      ensures Taken(enemy) && activeEnemies == old(activeEnemies)
      ensures roster.enemies[enemy].key == prefab.key
      ensures roster.enemies == old(roster.enemies)[enemy := roster.enemies[enemy]]
      ensures pool.created == if enemy in old(roster.enemies) then old(pool.created) else old(pool.created) + [enemy]
      ensures enemy in old(roster.enemies) ==>
                && prefab.key in old(pool.pools) && old(pool.pools[prefab.key]) != []
                && enemy == old(pool.pools[prefab.key])[|old(pool.pools[prefab.key])| - 1]
      ensures Drawn(prefab, old(pool.pools), old(pool.prefabs), old(roster.enemies), enemy,
                    pool.pools, pool.prefabs, roster.enemies[enemy])
    {
      assert pool != roster as object && this != roster as object && this != pool as object;
      ghost var L := roster.State();
      ghost var P := pool.pools;
      ghost var H := pool.hooks;
      ghost var S := roster.shown;
      var isNew;
      enemy, isNew := pool.Get(prefab, roster);
      if isNew {
        Append(enemy);
        CreatedIsTaken(enemy, prefab.key, activeEnemies, old(wired), L, S, H, P);
      } else {
        ReusedIsTaken(enemy, prefab.key, activeEnemies, L, S, H, P);
      }
    }

    /** Admit's last steps (Restart, the add to activeEnemies, SetActive) complete what Taken promised. */
    lemma AdmittedIsValid(v: Handle, A: seq<Handle>, L: Links, S: set<Handle>,
                          H: map<Handle, seq<int>>, P: map<int, seq<Handle>>)
      requires roster.Valid() && pool.Valid()
      requires Consistent(A + [v], wired, L, S + {v}, H, P)
      requires roster.State() == L && roster.shown == S + {v} && activeEnemies == A + [v]
      requires pool.hooks == H && pool.pools == P
      ensures Valid()
    {
    }

    /** The rest of Spawn's admission: Restart, the add to activeEnemies, then SetActive(true). */
    method Show(v: Handle)
      requires Taken(v)
      modifies this, roster
      ensures Valid() && activeEnemies == old(activeEnemies) + [v]
      ensures roster.enemies == old(roster.enemies)
    {
      ghost var L := roster.State();
      ghost var A := activeEnemies;
      ghost var S := roster.shown;
      ghost var H := pool.hooks;
      ghost var P := pool.pools;
      RestartIdempotent(L.enemies[v].health);
      roster.Restart(v);
      assert roster.enemies == L.enemies;
      activeEnemies := Added(activeEnemies, v);
      roster.SetActive(v, true);
      AdmittedIsValid(v, A, L, S, H, P);
    }

    /**
     * The part of Spawn before the matching: pool.Get, Restart (again: the object is
     * already restarted), the Add to the active set and SetActive(true).
     */
    method Admit(prefab: Template) returns (enemy: Handle)
      requires Valid()
      modifies this, roster, pool
      ensures Valid()
      ensures activeEnemies == old(activeEnemies) + [enemy] && enemy !in old(activeEnemies)
      ensures roster.enemies == old(roster.enemies)[enemy := roster.enemies[enemy]]
      ensures roster.enemies[enemy].key == prefab.key && roster.enemies[enemy].target.None?
      ensures roster.enemies[enemy].health == Restarted(roster.enemies[enemy].health)
      ensures pool.created == if enemy in old(roster.enemies) then old(pool.created) else old(pool.created) + [enemy]
      ensures enemy in old(roster.enemies) ==>
                && prefab.key in old(pool.pools) && old(pool.pools[prefab.key]) != []
                && enemy == old(pool.pools[prefab.key])[|old(pool.pools[prefab.key])| - 1]
      ensures Drawn(prefab, old(pool.pools), old(pool.prefabs), old(roster.enemies), enemy,
                    pool.pools, pool.prefabs, roster.enemies[enemy])
    {
      assert pool != roster as object && this != roster as object && this != pool as object;
      enemy := Take(prefab);
      Show(enemy);
    }

    /** After SetNewParticipant only targets and subscriptions changed, so the arena is still consistent. */
    lemma MatchedIsValid(A: seq<Handle>, W: set<Handle>, L: Links, S: set<Handle>,
                         H: map<Handle, seq<int>>, P: map<int, seq<Handle>>)
      requires Engaged() && pool.Valid() && Consistent(A, W, L, S, H, P)
      requires SameBodies(L.enemies, roster.enemies)
      requires activeEnemies == A && roster.shown == S && pool.hooks == H && pool.pools == P
      ensures Valid()
    {
      assert SameFates(L.enemies, roster.enemies);
      FatesKeepConsistent(A, W, L, roster.State(), S, H, P);
    }

    /** SetNewParticipant on a consistent arena, as Spawn calls it: the arena stays consistent. */
    method Match(participant: Handle, path: (Handle, Handle) -> Option<seq<Point>>, dist: (Point, Point) -> real)
      returns (opponent: Option<Handle>)
      requires Valid() && participant in roster.enemies
      requires !roster.enemies[participant].health.isDead && roster.enemies[participant].target.None?
      modifies roster
      ensures Valid() && roster.enemies.Keys == old(roster.enemies).Keys
      ensures roster.enemies[participant] == old(roster.enemies[participant]).(target := opponent)
      ensures opponent.None? <==>
                forall j | 0 <= j < |activeEnemies| :: !Reachable(old(roster.enemies), participant, activeEnemies[j], path)
      ensures opponent.Some? ==>
                var c := opponent.value;
                && Chosen(activeEnemies, old(roster.enemies), participant, path, dist, c)
                && c in old(roster.enemies) && roster.enemies[c] == old(roster.enemies[c]).(target := Some(participant))
      ensures forall b | b in old(roster.enemies) && b != participant && opponent != Some(b) ::
                roster.enemies[b] == old(roster.enemies[b])
    {
      ghost var L := roster.State();
      ghost var S := roster.shown;
      ghost var H := pool.hooks;
      ghost var P := pool.pools;
      assert Consistent(activeEnemies, wired, L, S, H, P);
      assert pool != roster as object;
      opponent := SetNewParticipant(participant, path, dist);
      MatchedIsValid(activeEnemies, wired, L, S, H, P);
    }

    /**
     * Spawn: take an enemy from the pool (Get), Restart it, add it to activeEnemies, show it,
     * then match it with the nearest reachable enemy already in the arena.
     */
    method Spawn(prefab: Template, path: (Handle, Handle) -> Option<seq<Point>>, dist: (Point, Point) -> real)
      returns (enemy: Handle, opponent: Option<Handle>)
      requires Valid()
      modifies this, roster, pool
      ensures Valid()
      ensures activeEnemies == old(activeEnemies) + [enemy] && enemy !in old(activeEnemies)
      ensures roster.enemies.Keys == old(roster.enemies).Keys + {enemy} && roster.enemies[enemy].key == prefab.key
      ensures roster.enemies[enemy].health == Restarted(roster.enemies[enemy].health)
      ensures roster.enemies[enemy].target == opponent
      ensures opponent.None? <==>
                forall j | 0 <= j < |old(activeEnemies)| ::
                  !Reachable(old(roster.enemies), enemy, old(activeEnemies)[j], path)
      ensures opponent.Some? ==>
                var c := opponent.value;
                && Chosen(old(activeEnemies), old(roster.enemies), enemy, path, dist, c)
                && c in old(roster.enemies) && roster.enemies[c] == old(roster.enemies[c]).(target := Some(enemy))
      ensures forall b | b in old(roster.enemies) && b != enemy && opponent != Some(b) ::
                roster.enemies[b] == old(roster.enemies[b])
      ensures Drawn(prefab, old(pool.pools), old(pool.prefabs), old(roster.enemies), enemy,
                    pool.pools, pool.prefabs, roster.enemies[enemy].(target := None))
      ensures pool.created == if enemy in old(roster.enemies) then old(pool.created) else old(pool.created) + [enemy]
    {
      assert pool != roster as object && this != roster as object && this != pool as object;
      ghost var A := activeEnemies;
      ghost var E := roster.enemies;
      enemy := Admit(prefab);
      ghost var M := roster.enemies;
      opponent := Match(enemy, path, dist);
      SpawnOutcome(A, E, M, roster.enemies, enemy, opponent, prefab.key, path, dist);
    }

    /** Enemy.Damage, that is Damageable.Damage with Enemy's Die. */
    method Damage(v: Handle, damage: int, path: (Handle, Handle) -> Option<seq<Point>>,
                  dist: (Point, Point) -> real)
      returns (opponent: Option<Handle>)
      requires Valid() && v in roster.enemies
      modifies this, roster, pool
      ensures Valid()
      ensures Struck(old(roster.enemies), roster.enemies, v, damage)
      ensures old(roster.enemies[v].health.isDead) ==>
                && roster.State() == old(roster.State()) && activeEnemies == old(activeEnemies)
                && pool.pools == old(pool.pools)
      ensures !old(roster.enemies[v].health.isDead) && roster.enemies[v].health.isDead ==>
                && activeEnemies == Without(old(activeEnemies), v) && v !in roster.shown
                && var k := old(roster.enemies[v].key);
                   pool.pools == old(pool.pools)[k := old(pool.pools[k]) + [v]]
      ensures Blow(old(roster.State()), old(activeEnemies), old(roster.shown), old(pool.pools), v, damage, path, dist,
                   roster.State(), activeEnemies, roster.shown, pool.pools, opponent)
      ensures pool.created == old(pool.created) && pool.prefabs == old(pool.prefabs)
    {
      assert pool != roster as object && this != roster as object && this != pool as object;
      ghost var L := roster.State();
      opponent := None;
      if !roster.enemies[v].health.isDead {
        var dies := Wound(v, damage);
        if dies {
          opponent := Die(v, path, dist);
          ScratchKeepsMourned(L, v, damage, roster.enemies, activeEnemies, path, dist, opponent);
        }
        BlowIsStruck(L.enemies, roster.enemies, v, damage);
      }
    }

    /** One frame of Enemy.Update for a, on a consistent arena. */
    method UpdateEnemy(a: Handle, near: (Handle, Handle) -> bool) returns (tick: Tick)
      requires Valid() && a in roster.enemies
      modifies roster
      ensures Valid() && roster.shown == old(roster.shown) && roster.watchers == old(roster.watchers)
      ensures tick == Decide(old(roster.enemies[a]), old(roster.IsNearTarget(a, near)))
      ensures roster.enemies == if tick == StartAttack
                                then old(roster.enemies)[a := old(roster.enemies[a]).(task := Pending, cancelled := false)]
                                else old(roster.enemies)
    {
      ghost var L := roster.State();
      tick := roster.Update(a, near);
      if tick == StartAttack {
        UpdateKeepsPaired(L, a, roster.IsNearTarget(a, near));
        assert SameFates(L.enemies, roster.enemies);
        FatesKeepConsistent(activeEnemies, wired, L, roster.State(), roster.shown, pool.hooks, pool.pools);
      }
    }

    /** The attack task of a comes to an end with the given status. */
    method Finish(a: Handle, status: TaskStatus)
      requires Valid() && a in roster.enemies && status != Pending
      modifies roster
      ensures Valid() && roster.shown == old(roster.shown) && roster.watchers == old(roster.watchers)
      ensures roster.enemies == old(roster.enemies)[a := old(roster.enemies[a]).(task := status)]
    {
      ghost var L := roster.State();
      SettleKeepsPaired(L, a, status);
      roster.Settle(a, status);
      assert SameFates(L.enemies, roster.enemies);
      FatesKeepConsistent(activeEnemies, wired, L, roster.State(), roster.shown, pool.hooks, pool.pools);
    }

    /**
     * The end of the delay in AttackCoroutine of a.  A cancelled token ends the task as
     * Canceled; otherwise the target is damaged when a is alive and near it, and the task
     * ends as Succeeded.  The result says whether the blow was struck.
     */
    method ResolveAttack(a: Handle, near: (Handle, Handle) -> bool, path: (Handle, Handle) -> Option<seq<Point>>,
                         dist: (Point, Point) -> real)
      returns (hit: bool, opponent: Option<Handle>)
      requires Valid() && a in roster.enemies && roster.enemies[a].task == Pending
      modifies this, roster, pool
      ensures Valid() && a in roster.enemies
      ensures pool.created == old(pool.created) && pool.prefabs == old(pool.prefabs)
      ensures hit <==> !old(roster.enemies[a].cancelled) && !old(roster.enemies[a].health.isDead)
                       && old(roster.IsNearTarget(a, near))
      ensures roster.enemies[a].task == if old(roster.enemies[a].cancelled) then Canceled else Succeeded
      ensures !hit ==>
                && roster.enemies == old(roster.enemies)[a := old(roster.enemies[a]).(task := roster.enemies[a].task)]
                && roster.watchers == old(roster.watchers) && activeEnemies == old(activeEnemies)
                && roster.shown == old(roster.shown) && pool.pools == old(pool.pools) && opponent.None?
      ensures hit ==>
                var t := old(roster.enemies[a].target.value);
                && Struck(old(roster.enemies), roster.enemies, t, old(roster.enemies[a].damage))
                && Blow(old(roster.State()), old(activeEnemies), old(roster.shown), old(pool.pools),
                        t, old(roster.enemies[a].damage), path, dist,
                        Links(roster.enemies[a := roster.enemies[a].(task := Pending)], roster.watchers),
                        activeEnemies, roster.shown, pool.pools, opponent)
    {
      assert pool != roster as object && this != roster as object;
      opponent := None;
      if roster.enemies[a].cancelled {
        Finish(a, Canceled);
        return false, None;
      }
      hit := !roster.enemies[a].health.isDead && roster.IsNearTarget(a, near);
      if hit {
        opponent := Strike(a, path, dist);
      } else {
        Finish(a, Succeeded);
      }
    }

    /** The hit of ResolveAttack: a damages its target, then its task ends as Succeeded. */
    method Strike(a: Handle, path: (Handle, Handle) -> Option<seq<Point>>, dist: (Point, Point) -> real)
      returns (opponent: Option<Handle>)
      requires Valid() && a in roster.enemies && roster.enemies[a].task == Pending
      requires roster.enemies[a].target.Some?
      modifies this, roster, pool
      ensures Valid() && a in roster.enemies && roster.enemies[a].task == Succeeded
      ensures pool.created == old(pool.created) && pool.prefabs == old(pool.prefabs)
      ensures var t := old(roster.enemies[a].target.value);
              && Struck(old(roster.enemies), roster.enemies, t, old(roster.enemies[a].damage))
              && Blow(old(roster.State()), old(activeEnemies), old(roster.shown), old(pool.pools),
                      t, old(roster.enemies[a].damage), path, dist,
                      Links(roster.enemies[a := roster.enemies[a].(task := Pending)], roster.watchers),
                      activeEnemies, roster.shown, pool.pools, opponent)
    {
      assert pool != roster as object && this != roster as object && this != pool as object;
      var t := roster.enemies[a].target.value;
      ghost var L := roster.State();
      ghost var A := activeEnemies;
      ghost var S := roster.shown;
      ghost var P := pool.pools;
      opponent := Damage(t, roster.enemies[a].damage, path, dist);
      ghost var R := roster.State();
      BlowKeepsTasks(L, A, S, P, t, L.enemies[a].damage, path, dist, R, activeEnemies, roster.shown, pool.pools, opponent);
      StruckThenSettled(L.enemies, R.enemies, t, L.enemies[a].damage, a, Succeeded);
      Finish(a, Succeeded);
      SettleUndone(R.enemies, roster.enemies, a, Succeeded);
    }
  }
}
