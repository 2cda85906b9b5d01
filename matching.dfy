/**
 * The opponent search of ArenaManager (Assets/Scripts/ArenaManager.cs): PathLength
 * and the scan of SetNewParticipant.  NavMesh.CalculatePath is the parameter `path`
 * (None when no path is found) and Vector3.Distance the parameter `dist`.
 */
module Matching {
  import opened Wrappers
  import opened Enemies

  /** A path corner (a Vector3, with exact reals for its float coordinates). */
  datatype Point = Point(x: real, y: real, z: real)

  ghost predicate NonNegative(dist: (Point, Point) -> real)
  {
    forall p, q :: dist(p, q) >= 0.0
  }

  /** The length of a path: the distances between consecutive corners, summed. */
  function RouteLength(corners: seq<Point>, dist: (Point, Point) -> real): (length: real)
    decreases |corners|
  {
    if |corners| < 2 then 0.0
    else RouteLength(corners[..|corners| - 1], dist) + dist(corners[|corners| - 2], corners[|corners| - 1])
  }

  lemma {:induction false} RouteLengthNonNegative(corners: seq<Point>, dist: (Point, Point) -> real)
    requires NonNegative(dist)
    ensures RouteLength(corners, dist) >= 0.0
    decreases |corners|
  {
    if |corners| >= 2 {
      RouteLengthNonNegative(corners[..|corners| - 1], dist);
    }
  }

  /** Extending a path by one corner adds the distance to that corner. */
  lemma RouteLengthExtend(corners: seq<Point>, q: Point, dist: (Point, Point) -> real)
    requires |corners| >= 1
    ensures RouteLength(corners + [q], dist) == RouteLength(corners, dist) + dist(corners[|corners| - 1], q)
  {
    var s := corners + [q];
    assert s[..|s| - 1] == corners;
    assert s[|s| - 2] == corners[|corners| - 1] && s[|s| - 1] == q;
  }

  /** The loop of ArenaManager.PathLength. */
  method PathLength(corners: seq<Point>, dist: (Point, Point) -> real) returns (length: real)
    ensures length == RouteLength(corners, dist)
    ensures |corners| < 2 ==> length == 0.0
  {
    if |corners| < 2 {
      return 0.0;
    }
    var previousCorner := corners[0];
    var lengthSoFar := 0.0;
    var i := 1;
    while i < |corners|
      invariant 1 <= i <= |corners|
      invariant previousCorner == corners[i - 1]
      invariant lengthSoFar == RouteLength(corners[..i], dist)
    {
      var currentCorner := corners[i];
      assert corners[..i + 1] == corners[..i] + [currentCorner];
      RouteLengthExtend(corners[..i], currentCorner, dist);
      lengthSoFar := lengthSoFar + dist(previousCorner, currentCorner);
      previousCorner := currentCorner;
      i := i + 1;
    }
    assert corners[..i] == corners;
    return lengthSoFar;
  }

  /**
   * t is considered for p: another enemy, alive and without a target.  (Every handle in
   * activeEnemies is an enemy; `t in enemies` only makes the lookups well-formed.)
   */
  predicate Candidate(enemies: map<Handle, Enemy>, p: Handle, t: Handle)
  {
    t != p && t in enemies && !enemies[t].health.isDead && enemies[t].target.None?
  }

  /** A candidate to which a path was found. */
  predicate Reachable(enemies: map<Handle, Enemy>, p: Handle, t: Handle,
                      path: (Handle, Handle) -> Option<seq<Point>>)
  {
    Candidate(enemies, p, t) && path(p, t).Some?
  }

  function Cost(p: Handle, t: Handle, path: (Handle, Handle) -> Option<seq<Point>>,
                dist: (Point, Point) -> real): (length: real)
    requires path(p, t).Some?
  {
    RouteLength(path(p, t).value, dist)
  }

  /**
   * Among the first n entries of active, entry k is a reachable candidate with the
   * shortest path, and every earlier reachable candidate is strictly longer.
   */
  ghost predicate LeadsUpTo(active: seq<Handle>, n: nat, enemies: map<Handle, Enemy>, p: Handle,
                            path: (Handle, Handle) -> Option<seq<Point>>,
                            dist: (Point, Point) -> real, k: nat)
    requires n <= |active|
  {
    && k < n
    && Reachable(enemies, p, active[k], path)
    && (forall j | 0 <= j < n && Reachable(enemies, p, active[j], path) ::
          Cost(p, active[k], path, dist) <= Cost(p, active[j], path, dist))
    && (forall j | 0 <= j < k && Reachable(enemies, p, active[j], path) ::
          Cost(p, active[k], path, dist) < Cost(p, active[j], path, dist))
  }

  /** The entry SetNewParticipant settles on: shortest path, first in iteration order among equals. */
  ghost predicate Best(active: seq<Handle>, enemies: map<Handle, Enemy>, p: Handle,
                       path: (Handle, Handle) -> Option<seq<Point>>,
                       dist: (Point, Point) -> real, k: nat)
  {
    LeadsUpTo(active, |active|, enemies, p, path, dist, k)
  }

  /** c is the opponent SetNewParticipant settles on for p. */
  ghost predicate Chosen(active: seq<Handle>, enemies: map<Handle, Enemy>, p: Handle,
                         path: (Handle, Handle) -> Option<seq<Point>>,
                         dist: (Point, Point) -> real, c: Handle)
  {
    exists k: nat | k < |active| :: Best(active, enemies, p, path, dist, k) && active[k] == c
  }

  /** The chosen opponent is an active, reachable candidate with no longer path than any other. */
  lemma ChosenIsNearest(active: seq<Handle>, enemies: map<Handle, Enemy>, p: Handle,
                        path: (Handle, Handle) -> Option<seq<Point>>, dist: (Point, Point) -> real,
                        c: Handle)
    requires Chosen(active, enemies, p, path, dist, c)
    ensures c in active && Reachable(enemies, p, c, path)
    ensures forall t | t in active && Reachable(enemies, p, t, path) ::
              Cost(p, c, path, dist) <= Cost(p, t, path, dist)
  {
    var k: nat :| k < |active| && Best(active, enemies, p, path, dist, k) && active[k] == c;
    forall t | t in active && Reachable(enemies, p, t, path)
      ensures Cost(p, c, path, dist) <= Cost(p, t, path, dist)
    {
      var j :| 0 <= j < |active| && active[j] == t;
    }
  }

  /**
   * The participant itself at the end of active is never a candidate: when every other entry
   * reads the same in both maps, the search over active + [p] finds what the search over
   * active finds.
   */
  lemma {:induction false} SelfIsNoCandidate(active: seq<Handle>, before: map<Handle, Enemy>,
                                             after: map<Handle, Enemy>, p: Handle,
                                             path: (Handle, Handle) -> Option<seq<Point>>,
                                             dist: (Point, Point) -> real)
    requires forall t | t in active && t != p :: t in before && t in after && after[t] == before[t]
    ensures (forall j | 0 <= j < |active + [p]| :: !Reachable(after, p, (active + [p])[j], path)) <==>
            (forall j | 0 <= j < |active| :: !Reachable(before, p, active[j], path))
    ensures forall c :: Chosen(active + [p], after, p, path, dist, c) ==> Chosen(active, before, p, path, dist, c)
  {
    var s := active + [p];
    assert forall j | 0 <= j < |s| :: Reachable(after, p, s[j], path) <==> j < |active| && Reachable(before, p, active[j], path);
    forall c | Chosen(s, after, p, path, dist, c)
      ensures Chosen(active, before, p, path, dist, c)
    {
      var k: nat :| k < |s| && Best(s, after, p, path, dist, k) && s[k] == c;
      assert Best(active, before, p, path, dist, k);
    }
  }

  /**
   * The search depends on the enemies only through which of them are reachable candidates:
   * two rosters that agree on that lead to the same outcome.
   */
  lemma {:induction false} SameReach(active: seq<Handle>, before: map<Handle, Enemy>, after: map<Handle, Enemy>,
                                     p: Handle, path: (Handle, Handle) -> Option<seq<Point>>,
                                     dist: (Point, Point) -> real)
    requires forall t :: Reachable(after, p, t, path) <==> Reachable(before, p, t, path)
    ensures (forall j | 0 <= j < |active| :: !Reachable(after, p, active[j], path)) <==>
            (forall j | 0 <= j < |active| :: !Reachable(before, p, active[j], path))
    ensures forall c :: Chosen(active, after, p, path, dist, c) <==> Chosen(active, before, p, path, dist, c)
  {
    forall c
      ensures Chosen(active, after, p, path, dist, c) <==> Chosen(active, before, p, path, dist, c)
    {
      if Chosen(active, after, p, path, dist, c) {
        var k: nat :| k < |active| && Best(active, after, p, path, dist, k) && active[k] == c;
        assert Best(active, before, p, path, dist, k);
      }
      if Chosen(active, before, p, path, dist, c) {
        var k: nat :| k < |active| && Best(active, before, p, path, dist, k) && active[k] == c;
        assert Best(active, after, p, path, dist, k);
      }
    }
  }

  /** Ties are broken: at most one entry is the best. */
  lemma BestIsUnique(active: seq<Handle>, enemies: map<Handle, Enemy>, p: Handle,
                     path: (Handle, Handle) -> Option<seq<Point>>, dist: (Point, Point) -> real,
                     k1: nat, k2: nat)
    requires Best(active, enemies, p, path, dist, k1) && Best(active, enemies, p, path, dist, k2)
    ensures k1 == k2
  {
  }

  /**
   * The foreach of SetNewParticipant: keep the first reachable candidate, and replace it
   * only by one whose path is strictly shorter.
   */
  method ChooseOpponent(active: seq<Handle>, enemies: map<Handle, Enemy>, p: Handle,
                        path: (Handle, Handle) -> Option<seq<Point>>, dist: (Point, Point) -> real)
    returns (choice: Option<Handle>)
    ensures choice.None? <==> forall j | 0 <= j < |active| :: !Reachable(enemies, p, active[j], path)
    ensures choice.Some? ==> Chosen(active, enemies, p, path, dist, choice.value)
  {
    choice := None;
    var savedPath: seq<Point> := [];
    ghost var k: nat := 0;
    for i := 0 to |active|
      invariant choice.None? <==> forall j | 0 <= j < i :: !Reachable(enemies, p, active[j], path)
      invariant choice.Some? ==>
                  && LeadsUpTo(active, i, enemies, p, path, dist, k)
                  && active[k] == choice.value && path(p, active[k]) == Some(savedPath)
    {
      var target := active[i];
      if target != p && target in enemies && !enemies[target].health.isDead && enemies[target].target.None? {
        var route := path(p, target);
        if route.Some? {
          if choice.None? {
            choice, savedPath, k := Some(target), route.value, i;
          } else {
            var length := PathLength(route.value, dist);
            var savedLength := PathLength(savedPath, dist);
            if length < savedLength {
              choice, savedPath, k := Some(target), route.value, i;
            }
          }
        }
      }
    }
  }
}
