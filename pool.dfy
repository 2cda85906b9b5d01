/**
 * LiquidatedObjectPool (Assets/Scripts/LiquidatedObjectPool.cs): one ObjectPool per
 * archetype key plus the prefab each key was registered with.  Unity's ObjectPool is
 * modelled as a free stack: Get pops the top or calls createFunc when empty, Release
 * runs actionOnRelease and pushes.  The pooled objects are enemies of the Roster.
 */
module Pooling {
  import opened Wrappers
  import opened Enemies

  /** The OnLiquidation handlers attached to an object: the keys of the pools they release into. */
  function HooksOf(hooks: map<Handle, seq<int>>, obj: Handle): (ks: seq<int>)
  {
    if obj in hooks then hooks[obj] else []
  }

  /** The free stacks after obj was released into the pools of ks, in that order. */
  function ReleasedInto(pools: map<int, seq<Handle>>, ks: seq<int>, obj: Handle): (r: map<int, seq<Handle>>)
    requires forall k | k in ks :: k in pools
    ensures r.Keys == pools.Keys
    decreases |ks|
  {
    if ks == [] then pools
    else
      var before := ReleasedInto(pools, ks[..|ks| - 1], obj);
      var k := ks[|ks| - 1];
      before[k := before[k] + [obj]]
  }

  /** An object with the one handler Create attaches goes back onto its own key's stack, on top. */
  lemma ReleasedIntoOwnPool(pools: map<int, seq<Handle>>, k: int, obj: Handle)
    requires k in pools
    ensures ReleasedInto(pools, [k], obj) == pools[k := pools[k] + [obj]]
  {
    assert [k][..0] == [];
  }

  class LiquidatedObjectPool {
    /** The free stack of each key's ObjectPool, top at the end. */
    var pools: map<int, seq<Handle>>
    var prefabs: map<int, Template>
    /** For each object, its OnLiquidation handlers, by the key of the pool each releases into. */
    var hooks: map<Handle, seq<int>>
    /** The objects OnLiquidatedObjectCreated was raised for, in order. */
    var created: seq<Handle>

    ghost predicate Valid()
      reads this
    {
      && pools.Keys == prefabs.Keys
      && (forall k | k in prefabs :: prefabs[k].key == k)
      && (forall h, k | h in hooks && k in hooks[h] :: k in pools)
    }

    constructor ()
      ensures Valid() && pools == map[] && prefabs == map[] && hooks == map[] && created == []
    {
      pools, prefabs, hooks, created := map[], map[], map[], [];
    }

    /**
     * The "already registered" message is logged but does not skip the two Adds, so a
     * duplicate key throws at prefabs.Add (nothing changed) or, with only the pool
     * missing, at pools.Add after the prefab was stored.  `ok` is false when it throws.
     */
    method RegistratePrefab(prefab: Template) returns (ok: bool)
      modifies this
      ensures ok <==> prefab.key !in old(prefabs) && prefab.key !in old(pools)
      ensures prefabs == if prefab.key in old(prefabs) then old(prefabs)
                         else old(prefabs)[prefab.key := prefab]
      ensures pools == if ok then old(pools)[prefab.key := []] else old(pools)
      ensures hooks == old(hooks) && created == old(created)
      ensures old(Valid()) ==> Valid()
      ensures old(Valid()) ==> (ok <==> prefab.key !in old(pools))
    {
      var key := prefab.key;
      if key in prefabs {
        return false;
      }
      prefabs := prefabs[key := prefab];
      if key in pools {
        return false;
      }
      pools := pools[key := []];
      ok := true;
    }

    /**
     * The createFunc of a key's pool: instantiate the registered prefab, deactivate it,
     * hook its liquidation to this key's pool and raise OnLiquidatedObjectCreated.
     * With no prefab for the id: null, and nothing happens.
     */
    method Create(id: int, roster: Roster) returns (obj: Option<Handle>)
      requires roster.Valid()
      modifies this, roster
      ensures roster.Valid() && pools == old(pools) && prefabs == old(prefabs)
      ensures obj.None? <==> id !in prefabs
      ensures obj.None? ==>
                && hooks == old(hooks) && created == old(created)
                && roster.enemies == old(roster.enemies) && roster.watchers == old(roster.watchers)
                && roster.shown == old(roster.shown) && roster.next == old(roster.next)
      ensures obj.Some? ==>
                var h := obj.value;
                && h !in old(roster.enemies)
                && roster.enemies == old(roster.enemies)[h := Instance(prefabs[id])]
                && roster.watchers == old(roster.watchers)[h := []]
                && roster.shown == old(roster.shown) - {h}
                && hooks == old(hooks)[h := HooksOf(old(hooks), h) + [id]]
                && created == old(created) + [h]
      ensures old(Valid()) ==> Valid()
    {
      if id !in prefabs {
        return None;
      }
      var h := roster.Instantiate(prefabs[id]);
      roster.SetActive(h, false);
      hooks := hooks[h := HooksOf(hooks, h) + [id]];
      created := created + [h];
      obj := Some(h);
    }

    /**
     * Get(prefab): register the prefab's key if it is new, take an object from that key's
     * pool (creating one when the free stack is empty) and Restart it.
     */
    method Get(prefab: Template, roster: Roster) returns (obj: Handle, isNew: bool)
      requires Valid() && roster.Valid()
      requires forall k, h | k in pools && h in pools[k] :: h in roster.enemies
      modifies this, roster
      ensures Valid() && roster.Valid()
      ensures prefab.key in pools && obj in roster.enemies
      ensures prefabs == if prefab.key in old(prefabs) then old(prefabs)
                         else old(prefabs)[prefab.key := prefab]
      ensures isNew <==> prefab.key !in old(pools) || old(pools[prefab.key]) == []
      ensures isNew ==>
                && obj !in old(roster.enemies)
                && pools == old(pools)[prefab.key := []]
                && roster.enemies == old(roster.enemies)[obj := RestartedEnemy(Instance(prefabs[prefab.key]))]
                && roster.watchers == old(roster.watchers)[obj := []]
                && roster.shown == old(roster.shown) - {obj}
                && hooks == old(hooks)[obj := HooksOf(old(hooks), obj) + [prefab.key]]
                && created == old(created) + [obj]
      ensures !isNew ==>
                var free := old(pools[prefab.key]);
                && obj == free[|free| - 1]
                && pools == old(pools)[prefab.key := free[..|free| - 1]]
                && roster.enemies == old(roster.enemies)[obj := RestartedEnemy(old(roster.enemies[obj]))]
                && roster.watchers == old(roster.watchers) && roster.shown == old(roster.shown)
                && hooks == old(hooks) && created == old(created)
    {
      var key := prefab.key;
      if key !in pools {
        var ok := RegistratePrefab(prefab);
      }
      var free := pools[key];
      if free == [] {
        var made := Create(key, roster);
        obj, isNew := made.value, true;
      } else {
        obj := free[|free| - 1];
        pools := pools[key := free[..|free| - 1]];
        isNew := false;
      }
      roster.Restart(obj);
    }

    /** ObjectPool.Release: actionOnRelease deactivates the object, then it is pushed. */
    method Release(key: int, obj: Handle, roster: Roster)
      requires key in pools
      modifies this, roster
      ensures pools == old(pools)[key := old(pools[key]) + [obj]]
      ensures prefabs == old(prefabs) && hooks == old(hooks) && created == old(created)
      ensures roster.shown == old(roster.shown) - {obj}
      ensures roster.enemies == old(roster.enemies) && roster.watchers == old(roster.watchers)
      ensures roster.next == old(roster.next)
    {
      roster.SetActive(obj, false);
      pools := pools[key := pools[key] + [obj]];
    }

    /** Liquidate raises OnLiquidation: every attached handler releases obj, in order. */
    method Liquidate(obj: Handle, roster: Roster)
      requires Valid()
      modifies this, roster
      ensures Valid()
      ensures pools == ReleasedInto(old(pools), HooksOf(old(hooks), obj), obj)
      ensures prefabs == old(prefabs) && hooks == old(hooks) && created == old(created)
      ensures roster.shown == if HooksOf(old(hooks), obj) == [] then old(roster.shown)
                              else old(roster.shown) - {obj}
      ensures roster.enemies == old(roster.enemies) && roster.watchers == old(roster.watchers)
      ensures roster.next == old(roster.next)
    {
      var handlers := HooksOf(hooks, obj);
      for i := 0 to |handlers|
        invariant Valid() && prefabs == old(prefabs) && hooks == old(hooks) && created == old(created)
        invariant pools == ReleasedInto(old(pools), handlers[..i], obj)
        invariant roster.shown == if i == 0 then old(roster.shown) else old(roster.shown) - {obj}
        invariant roster.enemies == old(roster.enemies) && roster.watchers == old(roster.watchers)
        invariant roster.next == old(roster.next)
      {
        Release(handlers[i], obj, roster);
        assert handlers[..i + 1][..i] == handlers[..i];
      }
      assert handlers[..|handlers|] == handlers;
    }

    /**
     * RegistrateObject: make sure the object's key has a pool (the object itself serving
     * as the prefab) and hook its liquidation to release into that pool.
     */
    method RegistrateObject(obj: Handle, self: Template)
      requires Valid()
      modifies this
      ensures Valid() && self.key in pools
      ensures prefabs == if self.key in old(prefabs) then old(prefabs) else old(prefabs)[self.key := self]
      ensures pools == if self.key in old(pools) then old(pools) else old(pools)[self.key := []]
      ensures hooks == old(hooks)[obj := HooksOf(old(hooks), obj) + [self.key]]
      ensures created == old(created)
    {
      var key := self.key;
      if key !in pools {
        var ok := RegistratePrefab(self);
      }
      hooks := hooks[obj := HooksOf(hooks, obj) + [key]];
    }
  }
}
