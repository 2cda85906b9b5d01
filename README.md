# ArenaSample: a verified model of the arena's entity lifecycle

ArenaSample is a small Unity arena in C#. Enemies spawn from a keyed object pool and pick
the nearest free opponent. They attack it on a timer, and a dead enemy goes back to the
pool while its partner looks for a new opponent. This Dafny project models that lifecycle
in four parts:

- `health.dfy` (module `Vitals`): `Damageable`'s integer hit points and death flag. It
  covers `Restart`, `Damage` (with C#'s unchecked 32-bit subtraction) and `Die`. A trace
  `raised` records the events each object raises, in order.
- `enemies.dfy` (module `Enemies`): each `Enemy` is a handle into a `Roster` object. The
  roster holds every enemy's fields and, for each enemy, the OnTargetDead handlers
  subscribed to its OnDead event, in subscription order. C#'s `-=` removes the last
  occurrence of a handler, and the model does the same. The attack task is an abstract
  status (Pending, Succeeded, Canceled) plus the cancellation flag of its token source.
  The pairing invariant `Paired` holds five facts:
  - every enemy is subscribed exactly once to its target's OnDead, and nowhere else;
  - targets are held both ways;
  - the dead hold no target;
  - a running, uncancelled attack has a target;
  - every target is an enemy.
- `pool.dfy` (module `Pooling`): `LiquidatedObjectPool`. Each archetype key has a free
  stack (Unity's `ObjectPool` reduced to a stack) and a registered prefab. Each object's
  OnLiquidation handlers are recorded, and so is the log of OnLiquidatedObjectCreated.
- `matching.dfy` (module `Matching`): `PathLength` and the argmin scan of
  `SetNewParticipant`. The NavMesh is a parameter `path(from, to)` that returns no path or
  a list of corners. `Vector3.Distance` is a parameter `dist` over real coordinates.
- `arena.dfy` (module `Arena`): `ArenaManager`, which owns the roster and the pool. C#
  events become explicit calls made in subscription order. When an enemy dies, the
  cascade runs in this order:
  1. the enemy drops its target;
  2. `isDead` is set;
  3. `RemoveParticipant` runs;
  4. the partner's `OnTargetDead` runs, which is `RemoveTarget` and then re-matching through `OnWin`;
  5. `Liquidate` releases the dead enemy into its own key's pool.

  The invariant `Consistent` holds six facts:
  - every enemy is wired by `Append`;
  - the links are `Paired`;
  - the active set is exactly the live enemies, each listed once;
  - the shown objects are the active ones;
  - every enemy carries exactly one liquidation hook, into its own key's pool;
  - each key's free stack holds exactly the dead enemies of that key.

  The operations the game calls keep `Consistent`: the constructor, `Spawn`, `Damage`,
  `Die`, `UpdateEnemy` and `ResolveAttack`. Four of their parts take a consistent arena
  and keep it consistent: `Admit`, `Match`, `Wound` and `Finish`, and so does `Strike`.
  The other methods are steps, each proved against its own pre- and post-state:
  - `Take` starts from a consistent arena and ends in `Taken`: the enemy it yields is
    restarted and targetless but not yet active or shown.
  - `Show` starts from `Taken` and restores `Consistent`.
  - `Bury` starts with the dead enemy still shown and restores `Consistent`.
  - `Append`, `RemoveParticipant`, `Pair`, `SetNewParticipant`, `OnTargetDead`, `Fall` and
    `Mourn` run inside the death cascade or the spawn. `Consistent` is broken while they run,
    since a dead enemy may still be active or its partner may still target it.
    `SetNewParticipant` and `Pair` keep the pairing invariant (`Engaged`), and
    `OnTargetDead` and `Mourn` restore it.

`activeEnemies` is a sequence, so the iteration order of the scan, and with it the
tie-break, is fixed: `Add` appends and `Remove` closes the gap.

## Model

| member | source | states |
|---|---|---|
| Vitals.Wrap32 | Assets/Scripts/Damageable.cs:42 | The result is a 32-bit int, congruent to the input modulo 2^32, and equal to it when the input already fits. |
| Vitals.RestartIdempotent | Assets/Scripts/Damageable.cs:19-23 | Restart leaves the object alive at maxHP whatever the prior state, so restarting twice is restarting once. |
| Vitals.DamageWhenDeadChangesNothing | Assets/Scripts/Damageable.cs:41-46 | Damage on a dead object changes no field and raises no event. |
| Vitals.DamageLowersHitPoints | Assets/Scripts/Damageable.cs:42 | On a live object, when no overflow occurs, currentHP drops by exactly the damage and maxHP is kept. |
| Vitals.DiesExactlyWhenHitPointsRunOut | Assets/Scripts/Damageable.cs:43-45 | A live object is dead after Damage if and only if its new currentHP is at most 0, and it raises OnDead then OnLiquidation exactly then, and nothing otherwise. |
| Vitals.DeathIsFinal | Assets/Scripts/Damageable.cs:39-47 | Once dead, no series of Damage calls changes the object or raises anything. |
| Vitals.OnDeadAtMostOnce | Assets/Scripts/Damageable.cs:34-45 | Over any series of Damage calls between Restarts, OnDead is raised once if the object went from alive to dead, and otherwise never. |
| Vitals.Damageable.constructor | Assets/Scripts/Damageable.cs:25-30 | OnAwake leaves the object alive at full health, having raised nothing. |
| Vitals.Damageable.Restart | Assets/Scripts/Damageable.cs:19-23 | The fields become alive at maxHP. No event is raised, so OnRestart of LiquidatedObject.cs:29-32 is never raised for a damageable. |
| Vitals.Damageable.Die | Assets/Scripts/Damageable.cs:32-37 | isDead is set, then OnDead is raised, then OnLiquidation, in that order. Hit points are kept. |
| Vitals.Damageable.Damage | Assets/Scripts/Damageable.cs:39-47 | The new fields are the Damaged state of the old ones, and the events raised are exactly those of the death, if any. |
| Enemies.Instance | Assets/Scripts/Damageable.cs:25-30 | A freshly instantiated enemy is alive, has no target and has no running attack. |
| Enemies.RemoveLastRemovesOne | Assets/Scripts/Enemy.cs:141 | `-=` removes one occurrence of the handler and nothing else, counted as multisets. |
| Enemies.Detached | Assets/Scripts/Enemy.cs:136-144 | RemoveTarget leaves the enemy targetless, changes no other enemy and no health, task or key, and keeps every target an enemy. |
| Enemies.Attached | Assets/Scripts/Enemy.cs:128-133 | TrySetTarget with a non-null enemy keeps every target an enemy and changes no health, task or key. |
| Enemies.DetachUnsubscribes | Assets/Scripts/Enemy.cs:136-144 | Every handler stays subscribed exactly where its enemy targets. RemoveTarget is idempotent and leaves every other enemy unchanged. |
| Enemies.AttachSubscribesOnce | Assets/Scripts/Enemy.cs:122-134 | After TrySetTarget(t), the enemy targets t, is subscribed exactly once to t's OnDead and nowhere else, and every other enemy is unchanged. |
| Enemies.WatchersArePartner | Assets/Scripts/Enemy.cs:122-144 | Under the pairing invariant, an enemy's OnDead carries exactly its partner's handler, or nothing when it has no partner. |
| Enemies.PairingKeepsPaired | Assets/Scripts/ArenaManager.cs:102-106 | The two TrySetTarget calls on two live free enemies pair them both ways, keep the invariant and change no one else. |
| Enemies.DeathUnsubscribesAll | Assets/Scripts/Enemy.cs:104-114 | After the dying enemy drops its target and the partner drops the dead one, nobody is subscribed to the dead enemy's OnDead. |
| Enemies.DeathTouchesPair | Assets/Scripts/Enemy.cs:104-114 | The first half of the death cascade changes only the dead enemy and its partner. The dead one is marked dead, targetless and cancelled if it was attacking. The partner becomes targetless. |
| Enemies.DeathKeepsPaired | Assets/Scripts/Enemy.cs:104-114 | The death cascade, up to the re-matching, keeps the pairing invariant and leaves the dead enemy unwatched. |
| Enemies.RestartKeepsPaired | Assets/Scripts/Enemy.cs:116-120 | Restarting a targetless enemy keeps the invariant, although Restart does not unsubscribe. |
| Enemies.AdmittingKeepsPaired | Assets/Scripts/LiquidatedObjectPool.cs:71-72 | A newly instantiated enemy, with no target and no subscribers, joins without breaking the invariant. |
| Enemies.UpdateStartsOnlyIdleAttacks | Assets/Scripts/Enemy.cs:58-79 | Update starts an attack exactly when the enemy has a target, is alive, is near the target and has no running attack. It does nothing exactly when the enemy is targetless or dead. |
| Enemies.HurtKeepsPaired | Assets/Scripts/Damageable.cs:42 | Losing hit points leaves the pairing invariant alone. |
| Enemies.UpdateKeepsPaired | Assets/Scripts/Enemy.cs:72-73 | Starting an attack keeps the pairing invariant. |
| Enemies.SettleKeepsPaired | Assets/Scripts/Enemy.cs:81-88 | An attack that ends, Succeeded or Canceled, keeps the pairing invariant. |
| Enemies.Roster.constructor | Assets/Scripts/ArenaManager.cs:47 | The scene starts with no enemies. |
| Enemies.Roster.HasTarget | Assets/Scripts/Enemy.cs:34 | True exactly when the enemy has a target. |
| Enemies.Roster.IsNearTarget | Assets/Scripts/Enemy.cs:36-48 | False without a target. With one, it is the nearness test against that target. |
| Enemies.Roster.Instantiate | Assets/Scripts/LiquidatedObjectPool.cs:71 | A new enemy with a fresh handle is copied from the prefab. It has no subscribers and no other object changes. |
| Enemies.Roster.SetActive | Assets/Scripts/LiquidatedObjectPool.cs:72 | Only the object's visibility changes. |
| Enemies.Roster.Restart | Assets/Scripts/Enemy.cs:116-120 | The target is forgotten and health is restarted. The subscriptions are left as they were. |
| Enemies.Roster.RemoveTarget | Assets/Scripts/Enemy.cs:136-144 | The new links are the Detached ones: cancel, unsubscribe, forget. |
| Enemies.Roster.TrySetTarget | Assets/Scripts/Enemy.cs:122-134 | Returns true exactly for a non-null enemy. The links then become Attached, and otherwise they are unchanged. |
| Enemies.Roster.Hurt | Assets/Scripts/Damageable.cs:41-43 | currentHP takes the 32-bit wrapped difference, and the result says whether the object must die. |
| Enemies.Roster.MarkDead | Assets/Scripts/Damageable.cs:34 | Only the enemy's death flag changes. |
| Enemies.Roster.Update | Assets/Scripts/Enemy.cs:58-79 | The decision is Decide on the old state. Only a started attack changes state: a fresh, uncancelled, running task. |
| Enemies.Roster.Settle | Assets/Scripts/Enemy.cs:81-88 | Only the attack task's status changes. |
| Pooling.ReleasedIntoOwnPool | Assets/Scripts/LiquidatedObjectPool.cs:73-75 | An object carrying the one hook Create attaches is pushed on top of its own key's free stack, and on no other stack. |
| Pooling.LiquidatedObjectPool.constructor | Assets/Scripts/LiquidatedObjectPool.cs:20-25 | The pool starts with no pools and no prefabs. |
| Pooling.LiquidatedObjectPool.RegistratePrefab | Assets/Scripts/LiquidatedObjectPool.cs:51-65 | A new key gets its prefab and an empty pool together. A duplicate key throws and leaves the pool unchanged whenever the two dictionaries agree, so their key sets stay equal. |
| Pooling.LiquidatedObjectPool.Create | Assets/Scripts/LiquidatedObjectPool.cs:67-84 | Returns null, with no notification and no change, exactly when no prefab is registered for the id. Otherwise it returns a new hidden instance of that prefab, hooked to release into the id's pool, and logged once as created. |
| Pooling.LiquidatedObjectPool.Get | Assets/Scripts/LiquidatedObjectPool.cs:27-37 | An unregistered key is registered first. Get creates a new object exactly when the key's free stack is empty: that object is logged once as created. Otherwise it pops the top of the stack without logging. Either way the object is restarted. |
| Pooling.LiquidatedObjectPool.Release | Assets/Scripts/LiquidatedObjectPool.cs:60-62 | actionOnRelease hides the object, which is then pushed on the key's free stack. |
| Pooling.LiquidatedObjectPool.Liquidate | Assets/Scripts/LiquidatedObject.cs:24-27 | Every attached OnLiquidation handler releases the object into its pool, in order. |
| Pooling.LiquidatedObjectPool.RegistrateObject | Assets/Scripts/LiquidatedObjectPool.cs:39-49 | A pool exists for the object's key afterwards, registered with the object if it was missing. The object's liquidation is hooked to that pool. |
| Matching.RouteLengthNonNegative | Assets/Scripts/ArenaManager.cs:109-125 | With non-negative distances, a path's length is non-negative. |
| Matching.PathLength | Assets/Scripts/ArenaManager.cs:109-125 | The loop computes the sum of the distances between consecutive corners, which is 0 for fewer than two corners. |
| Matching.ChooseOpponent | Assets/Scripts/ArenaManager.cs:75-100 | Returns none exactly when no active entry is a reachable candidate. Otherwise it returns the entry with the shortest path, the first in iteration order among equals. |
| Matching.ChosenIsNearest | Assets/Scripts/ArenaManager.cs:79-97 | The chosen opponent is active, is not the participant, is alive, is untargeted, has a path, and has a path no longer than any other reachable candidate's. |
| Matching.BestIsUnique | Assets/Scripts/ArenaManager.cs:91-93 | The strict comparison breaks ties: at most one entry is the best. |
| Matching.SelfIsNoCandidate | Assets/Scripts/ArenaManager.cs:25-27 | Adding the spawned enemy to the active set before matching it changes nothing: it is never its own candidate. |
| Arena.Without | Assets/Scripts/ArenaManager.cs:69 | HashSet.Remove: exactly that element leaves, and no duplicates appear. |
| Arena.Added | Assets/Scripts/ArenaManager.cs:25 | HashSet.Add: exactly that element joins, and no duplicates appear. |
| Arena.BlowIsStruck | Assets/Scripts/Damageable.cs:39-47 | Subtracting the hit points, then dying if they ran out, is the Damaged state for the victim. Every other enemy's health and every key is kept. |
| Arena.DeathKeepsStacked | Assets/Scripts/LiquidatedObjectPool.cs:73-75 | A death followed by the release into the dead enemy's own pool keeps each free stack exactly the dead of its key. |
| Arena.ReuseIsConsistent | Assets/Scripts/LiquidatedObjectPool.cs:34-35 | The top of a non-empty free stack is a dead enemy of that key. Restarting it and activating it keeps the arena consistent. |
| Arena.CreationIsConsistent | Assets/Scripts/LiquidatedObjectPool.cs:67-77 | A new instance, wired by the created event and then activated, keeps the arena consistent. |
| Arena.ArenaManager.constructor | Assets/Scripts/ArenaManager.cs:45-58 | An empty scene gives an empty, consistent arena. |
| Arena.ArenaManager.Append | Assets/Scripts/ArenaManager.cs:60-64 | The enemy is wired. The active set is unchanged. |
| Arena.ArenaManager.RemoveParticipant | Assets/Scripts/ArenaManager.cs:66-71 | Only that enemy leaves the active set, and nothing else changes. |
| Arena.ArenaManager.Pair | Assets/Scripts/ArenaManager.cs:102-106 | The two enemies end up targeting each other, the pairing invariant holds, and no one else changes. |
| Arena.ArenaManager.SetNewParticipant | Assets/Scripts/ArenaManager.cs:73-107 | Returns none exactly when no active enemy is a reachable candidate, and then no target changes. Otherwise the nearest candidate, first among equals, is paired both ways with the participant, and every other enemy is unchanged. |
| Arena.ArenaManager.OnTargetDead | Assets/Scripts/Enemy.cs:104-108 | The survivor drops its target, with its attack cancelled, and then re-matches over the state after dropping it. The result is none exactly when no active enemy is reachable. Otherwise it is the chosen candidate, whose record changes only in now targeting the survivor. Every other enemy is unchanged. |
| Arena.ArenaManager.Fall | Assets/Scripts/Enemy.cs:110-114 | RemoveTarget, isDead and RemoveParticipant: the enemy is dead and no longer active, and every other health is kept. |
| Arena.ArenaManager.Mourn | Assets/Scripts/Damageable.cs:35 | This is the rest of OnDead, the partner's OnTargetDead. The result is Mourned against the links before the death: the partner drops the dead enemy, has its attack cancelled and is re-matched. Its new opponent is the nearest reachable free active enemy, first among equals, or none exactly when no active enemy is reachable. Only that opponent's target changes, and no other enemy changes. The pairing invariant is restored, and the dead enemy is left as it was. |
| Arena.ArenaManager.Die | Assets/Scripts/Enemy.cs:110-114 | The enemy is Slain: dead and targetless, its hit points and task kept, and its attack cancelled if it had a target. It is out of the active set, hidden, and pushed onto its own key's free stack. Its partner is Mourned, and the result is the partner's new opponent. The arena stays consistent. |
| Arena.ArenaManager.Bury | Assets/Scripts/Damageable.cs:36 | Liquidate pushes the dead enemy onto its own key's free stack and hides it. |
| Arena.ArenaManager.Wound | Assets/Scripts/Damageable.cs:41-43 | Only the victim's hit points change, and the result says whether it dies. |
| Arena.ArenaManager.Take | Assets/Scripts/ArenaManager.cs:19 | The result is Drawn, as Get states it. The prefab's key is registered if it was new. The enemy is a fresh instance of the registered prefab exactly when the key's free stack is missing or empty. Otherwise it is the old top of that stack, which is popped. Its record is the Restart of the instance or of the released enemy, so the damage, task and cancellation flag of a reused enemy are kept. It is logged as created exactly when it is new, and no other enemy changes. |
| Arena.ArenaManager.Show | Assets/Scripts/ArenaManager.cs:22-26 | Restart, the add to the active set and SetActive(true) make the arena consistent with the new enemy active. |
| Arena.ArenaManager.Admit | Assets/Scripts/ArenaManager.cs:19-26 | The enemy from Get joins the active set once and the arena is consistent. Its record, the free stacks and the prefab registry are Drawn as for Take. It is logged as created exactly when it is new, and no other enemy changes. |
| Arena.ArenaManager.Match | Assets/Scripts/ArenaManager.cs:27 | SetNewParticipant on the spawned enemy keeps the arena consistent. The spawned enemy's record changes only in its target, which is the result. The result is none exactly when no active enemy is reachable, and otherwise the Chosen one, which now targets the spawned enemy. Every other enemy is unchanged. |
| Arena.ArenaManager.Spawn | Assets/Scripts/ArenaManager.cs:17-29 | The spawned enemy is active. Apart from its target, its record, the free stacks and the prefab registry are Drawn as for Take, and the created log gains it exactly when it is new. It is paired with the nearest reachable free enemy that was active before the spawn, first among equals, or with no one exactly when none is reachable. No other enemy changes. |
| Arena.ArenaManager.Damage | Assets/Scripts/Enemy.cs:90-94 | The victim's health becomes the Damaged state and no other health changes. The whole outcome is stated by Blow. On a dead enemy nothing changes. When the victim survives, only its hit points change, and the active set, the shown set and the pools are kept. A killing blow makes the victim Slain and Mourns its partner, returning the partner's new opponent. The victim leaves the active set and the screen and is pushed onto its own pool. The pool's created log and prefab registry never change. |
| Arena.ArenaManager.UpdateEnemy | Assets/Scripts/Enemy.cs:58-79 | One Update frame on a consistent arena. The decision is Decide on the old state, and only a started attack changes state. |
| Arena.ArenaManager.Finish | Assets/Scripts/Enemy.cs:81-88 | The attack task ends with the given status, and the arena stays consistent. |
| Arena.ArenaManager.ResolveAttack | Assets/Scripts/Enemy.cs:81-88 | The blow lands exactly when the token was not cancelled, the attacker is alive and it is near its target. The task ends Canceled if cancelled and Succeeded otherwise. A missed blow changes nothing else: enemies, watchers, active set, shown set and pools are kept, and there is no re-match. A hit is the full Blow of Damage on the target with the attacker's damage, once the attacker's task is read back as pending. The pool's created log and prefab registry never change. |
| Arena.ArenaManager.Strike | Assets/Scripts/Enemy.cs:84-86 | The hit branch of the attack: the target takes the Blow of the attacker's damage, and then the attacker's task ends as Succeeded. The pool's created log and prefab registry are kept. |
| Arena.Slain | Assets/Scripts/Enemy.cs:110-114 | An enemy after its own Die is dead and targetless, with its hit points, key and task kept. |
| Arena.KillingIsFallen | Assets/Scripts/Enemy.cs:110-113 | RemoveTarget then isDead leaves every other health and every key, and leaves the dying enemy Slain. |
| Arena.LoneDeathMourned | Assets/Scripts/Enemy.cs:110-114 | An enemy with no target has no partner subscribed to it, so its death re-matches nobody and touches no other enemy. |
| Arena.PartnerMourns | Assets/Scripts/Enemy.cs:104-108 | The partner's OnTargetDead, told against the links after the first half of the death, is Mourned against the links before it. The dead enemy is no candidate either way. |
| Arena.BereavedReach | Assets/Scripts/ArenaManager.cs:77-106 | The partner reaches the same candidates before and after the death of its target, so it gets the same none-or-chosen outcome. |
| Arena.ScratchKeepsMourned | Assets/Scripts/Damageable.cs:42-44 | The `currentHP -= damage` step does not change who the partner can reach, so Mourned after the scratch is Mourned before it. |
| Arena.BlowKeepsTasks | Assets/Scripts/Enemy.cs:90-94 | No blow starts or ends an attack task, and no blow adds or removes an enemy. |
| Matching.SameReach | Assets/Scripts/ArenaManager.cs:77-106 | Two states in which the participant reaches the same enemies give the same none-or-chosen outcome of the scan. |

## Left out

- The NavMesh, `Vector3` and float arithmetic. `NavMesh.CalculatePath` is the parameter `path`, `Vector3.Distance` is the parameter `dist`, and coordinates and lengths are exact reals rather than IEEE floats.
- `agent.stoppingDistance` and the positions. `IsNearTarget`'s distance test is the parameter `near`.
- `Random.Range` and the transforms. The spawn point does not enter the model.
- Animation, Animator, `OnCollisionEnter` and `NavMeshAgent.SetDestination`. The chase branch of `Update` changes no modelled state.
- The timing of `AttackCoroutine`: `UniTask.Delay` and the concurrency of the task. The end of the delay is the environment step `Arena.ArenaManager.ResolveAttack`, which may come at any point while the task is Pending.
- `Awake` with `FindObjectsOfType`, `Construct`, the injection container, `Application.Quit` and the pool's finalizer. The arena starts from an empty scene, and the created event is wired to `Append` from the start.
- Unity's `ObjectPool` beyond a free stack: `maxSize`, the collection check and the destroy callbacks.
- `Pooling.LiquidatedObjectPool.RegistrateObject` is modelled on the pool alone. Only `Awake` calls it, so the arena does not use it.
- `Vitals.Damageable` is modelled standalone with its event trace. The arena keeps the same fields as values in the roster and uses the same `Damaged` and `Restarted` functions.
- `Arena.ArenaManager.Spawn`: the `enemy != null` test is not modelled. `Get` always yields an enemy, because the prefab is registered before `Create` is reached and the prefab is an `Enemy`.
- `Arena.ArenaManager.Take` calls `Append` after `Get` returns. In C#, `Append` runs inside `Create`, before `Get`'s `Restart`. The two commute, since `Append` touches only the wiring.
- `Arena.ArenaManager.Mourn` runs only the partner's `OnTargetDead`. The pairing invariant proves that no other handler is subscribed to a dying enemy's OnDead. The snapshot semantics of a C# delegate list, where handlers removed during the invocation still run, therefore never matter.
- `Arena.ArenaManager.SetNewParticipant` orders `activeEnemies` as insertion order, with removals closing the gap. .NET's `HashSet` may refill a freed slot, so among equally short paths the C# program may pick a different enemy than the model does.
- `Vitals.DamageLowersHitPoints` holds only when `currentHP - damage` fits in 32 bits. Otherwise `currentHP` wraps, and `Vitals.Wrap32` states how.
- `Pooling.LiquidatedObjectPool.RegistratePrefab`: the log line for a duplicate key is not modelled. The duplicate path itself is modelled as a throw (`ok` false). `Get` and `RegistrateObject` never reach it.
- `Arena.ArenaManager.Damage` states the watcher lists after a killing blow only through `Valid`. Under `Paired`, each enemy's watchers are exactly its partner, so the enemies fix them.
- The `Debug.Log` in the missing-prefab branch of `Pooling.LiquidatedObjectPool.Create` is console output. That branch is modelled as returning `None` with no state change.
