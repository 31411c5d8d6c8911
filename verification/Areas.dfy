/**
  The area hierarchy and who may be where (area.service.ts, area-authorization.service.ts).

  The schema lets `parent_area_id` form any graph, cycles included; only `create` adds rows.
*/
module Areas {
  import opened Basics

  /** The area table: each area's parent, if it has one. */
  type Parents = map<Id, Option<Id>>

  /** wristband_category_area_permission; a missing bound does not limit. */
  datatype Grant = Grant(category: Id, area: Id, validFrom: Option<int>, validUntil: Option<int>)

  function ParentOf(parents: Parents, a: Id): Option<Id> {
    if a in parents then parents[a] else None
  }

  /** `n` steps up from `a`, if there are that many. */
  function Climb(parents: Parents, a: Id, n: nat): Option<Id> {
    if n == 0 then Some(a)
    else match Climb(parents, a, n - 1)
         case Some(b) => ParentOf(parents, b)
         case None => None
  }

  ghost predicate IsAncestorOrSelf(parents: Parents, a: Id, b: Id) {
    exists n: nat :: Climb(parents, a, n) == Some(b)
  }

  predicate IsValidAt(g: Grant, at: int) {
    !(g.validFrom.Some? && at < g.validFrom.value) && !(g.validUntil.Some? && at > g.validUntil.value)
  }

  // ---------------------------------------------------------------------------
  // Walking up
  // ---------------------------------------------------------------------------

  /** Once a step up lands inside a set that is closed under parents, it never leaves it. */
  lemma {:induction false} ClimbStaysInside(parents: Parents, a: Id, inside: set<Id>, from: nat, n: nat)
    requires from <= n
    requires Climb(parents, a, from).Some? ==> Climb(parents, a, from).value in inside
    requires forall b :: b in inside && ParentOf(parents, b).Some? ==> ParentOf(parents, b).value in inside
    ensures Climb(parents, a, n).Some? ==> Climb(parents, a, n).value in inside
    decreases n
  {
    if from < n {
      ClimbStaysInside(parents, a, inside, from, n - 1);
    }
  }

  class AreaAuthorizationService {
    const parents: Parents
    const grants: set<Grant>

    constructor (parents: Parents, grants: set<Grant>)
      ensures this.parents == parents && this.grants == grants
    {
      this.parents, this.grants := parents, grants;
    }

    /** Terminates on every parent map and visits exactly the area and its ancestors. */
    method ResolveAreaAndAncestors(area: Id) returns (visited: set<Id>)
      ensures forall b: Id :: b in visited <==> IsAncestorOrSelf(parents, area, b)
    {
      visited := {};
      var currentId := Some(area);
      ghost var steps: nat := 0;
      ghost var reachable := {area} + parents.Keys + (set a | a in parents && parents[a].Some? :: parents[a].value);
      while currentId.Some? && currentId.value !in visited
        invariant currentId == Climb(parents, area, steps)
        invariant forall b :: b in visited ==> IsAncestorOrSelf(parents, area, b)
        invariant forall b :: b in visited && ParentOf(parents, b).Some? ==>
                    ParentOf(parents, b).value in visited || ParentOf(parents, b) == currentId
        invariant visited <= reachable && (currentId.Some? ==> currentId.value in reachable)
        invariant area in visited || (steps == 0 && visited == {})
        decreases |reachable - visited|
      {
        ghost var before := reachable - visited;
        visited := visited + {currentId.value};
        assert reachable - visited == before - {currentId.value};
        currentId := if currentId.value in parents then parents[currentId.value] else None;
        steps := steps + 1;
      }
      forall b: Id | IsAncestorOrSelf(parents, area, b) ensures b in visited {
        var n: nat :| Climb(parents, area, n) == Some(b);
        ClimbStaysInside(parents, area, visited, 0, n);
      }
    }

    method IsAuthorized(category: Option<Id>, area: Id, at: int) returns (authorized: bool)
      ensures authorized == Authorized(parents, grants, category, area, at)
      ensures authorized <==>
                category.Some? &&
                exists g :: g in grants && g.category == category.value && IsAncestorOrSelf(parents, area, g.area)
                            && (g.validFrom.None? || g.validFrom.value <= at) && (g.validUntil.None? || at <= g.validUntil.value)
    {
      if category.None? {
        return false;
      }
      var ids := ResolveAreaAndAncestors(area);
      assert IsAncestorOrSelf(parents, area, area) by { assert Climb(parents, area, 0) == Some(area); }
      var permissions := set g | g in grants && g.category == category.value && g.area in ids;
      return exists g :: g in permissions && IsValidAt(g, at);
    }
  }

  /** Some area on the way up, the area itself included, is granted to the category now. */
  ghost predicate Authorized(parents: Parents, grants: set<Grant>, category: Option<Id>, area: Id, at: int) {
    category.Some? &&
    exists g :: g in grants && g.category == category.value && IsAncestorOrSelf(parents, area, g.area) && IsValidAt(g, at)
  }

  lemma {:induction false} ClimbComposes(parents: Parents, a: Id, b: Id, m: nat, n: nat)
    requires Climb(parents, a, m) == Some(b)
    ensures Climb(parents, a, m + n) == Climb(parents, b, n)
    decreases n
  {
    if n > 0 {
      ClimbComposes(parents, a, b, m, n - 1);
    }
  }

  /** An authorisation is inherited by everything nested below, at any depth. */
  lemma {:induction false} AuthorizationIsInherited(parents: Parents, grants: set<Grant>, category: Option<Id>, above: Id, below: Id, at: int)
    requires IsAncestorOrSelf(parents, below, above) && Authorized(parents, grants, category, above, at)
    ensures Authorized(parents, grants, category, below, at)
  {
    var g :| g in grants && g.category == category.value && IsAncestorOrSelf(parents, above, g.area) && IsValidAt(g, at);
    var m: nat :| Climb(parents, below, m) == Some(above);
    var n: nat :| Climb(parents, above, n) == Some(g.area);
    ClimbComposes(parents, below, above, m, n);
    assert Climb(parents, below, m + n) == Some(g.area);
  }

  /** Outside the bounds of every matching grant nobody of the category is authorised, in the
      area or in anything nested below it that reaches no other grant. */
  lemma {:induction false} LapsedGrantsAdmitNobody(parents: Parents, grants: set<Grant>, category: Option<Id>, area: Id, at: int)
    requires forall g :: g in grants && category == Some(g.category) && IsAncestorOrSelf(parents, area, g.area) ==>
               (g.validUntil.Some? && g.validUntil.value < at) || (g.validFrom.Some? && at < g.validFrom.value)
    ensures !Authorized(parents, grants, category, area, at)
  {
  }

  /** Once every grant of a category has run out, and before any of them begins, nobody of it is
      authorised anywhere. */
  lemma {:induction false} GrantsOnlyInTheirTime(parents: Parents, grants: set<Grant>, category: Id, at: int)
    requires (forall g :: g in grants && g.category == category ==> g.validUntil.Some? && g.validUntil.value < at)
             || (forall g :: g in grants && g.category == category ==> g.validFrom.Some? && at < g.validFrom.value)
    ensures forall area: Id :: !Authorized(parents, grants, Some(category), area, at)
  {
    forall area: Id ensures !Authorized(parents, grants, Some(category), area, at) {
      LapsedGrantsAdmitNobody(parents, grants, Some(category), area, at);
    }
  }

  /** An unbounded grant admits its category, at any time, to its area and all nested below it. */
  lemma {:induction false} UnboundedGrantAdmits(parents: Parents, grants: set<Grant>, category: Id, granted: Id, area: Id, at: int)
    requires Grant(category, granted, None, None) in grants && IsAncestorOrSelf(parents, area, granted)
    ensures Authorized(parents, grants, Some(category), area, at)
  {
    assert IsValidAt(Grant(category, granted, None, None), at);
  }

  /** The ancestors-or-self of an area are the least set that holds the area and every parent of
      its members. */
  lemma {:induction false} AncestorsAreTheLeastClosedSet(parents: Parents, area: Id, inside: set<Id>, b: Id)
    ensures IsAncestorOrSelf(parents, area, area)
    ensures IsAncestorOrSelf(parents, area, b) && b in parents && parents[b].Some? ==>
              IsAncestorOrSelf(parents, area, parents[b].value)
    ensures (area in inside && (forall a :: a in inside && a in parents && parents[a].Some? ==> parents[a].value in inside)
             && IsAncestorOrSelf(parents, area, b)) ==> b in inside
  {
    assert Climb(parents, area, 0) == Some(area);
    if IsAncestorOrSelf(parents, area, b) {
      var n: nat :| Climb(parents, area, n) == Some(b);
      assert Climb(parents, area, n + 1) == ParentOf(parents, b);
      if area in inside && forall a :: a in inside && a in parents && parents[a].Some? ==> parents[a].value in inside {
        ClimbStaysInside(parents, area, inside, 0, n);
      }
    }
  }

  // ---------------------------------------------------------------------------
  // Building the hierarchy
  // ---------------------------------------------------------------------------

  datatype AreaError = ParentNotFound

  function Created(parents: Parents, id: Id, parent: Option<Id>): Result<Parents, AreaError> {
    if parent.Some? && parent.value !in parents then Err(ParentNotFound) else Ok(parents[id := parent])
  }

  class AreaService {
    var parents: Parents

    constructor ()
      ensures parents == map[]
    {
      parents := map[];
    }

    /** `id` is the generated key, which no row has yet. */
    method Create(id: Id, parent: Option<Id>) returns (r: Result<Id, AreaError>)
      requires id !in parents
      modifies this
      ensures match r
              case Ok(created) => created == id && Created(old(parents), id, parent) == Ok(parents)
              case Err(e) => Created(old(parents), id, parent) == Err(e) && parents == old(parents)
      ensures r.Ok? <==> (parent.Some? ==> parent.value in old(parents))
      ensures r.Ok? ==> parents.Keys == old(parents).Keys + {id} && parents[id] == parent
      ensures forall other :: other in old(parents) ==> other in parents && parents[other] == old(parents)[other]
    {
      if parent.Some? && parent.value !in parents {
        return Err(ParentNotFound);
      }
      parents := parents[id := parent];
      return Ok(id);
    }
  }

  datatype Creation = Creation(id: Id, parent: Option<Id>)

  /** Any series of creations; a failing one, or one whose key is taken, changes nothing. */
  function Built(cs: seq<Creation>): Parents
    decreases |cs|
  {
    if cs == [] then map[]
    else
      var before, c := Built(cs[..|cs| - 1]), cs[|cs| - 1];
      var r := Created(before, c.id, c.parent);
      if c.id in before || r.Err? then before else r.value
  }

  /** Every parent is an existing area of smaller rank. */
  ghost predicate Ranks(parents: Parents, rank: map<Id, nat>) {
    && rank.Keys == parents.Keys
    && forall a :: a in parents && parents[a].Some? ==> parents[a].value in parents && rank[parents[a].value] < rank[a]
  }

  lemma {:induction false} CreationRanks(cs: seq<Creation>) returns (rank: map<Id, nat>)
    ensures Ranks(Built(cs), rank)
    decreases |cs|
  {
    if cs == [] {
      rank := map[];
    } else {
      rank := CreationRanks(cs[..|cs| - 1]);
      var before, c := Built(cs[..|cs| - 1]), cs[|cs| - 1];
      if c.id !in before && Created(before, c.id, c.parent).Ok? {
        rank := rank[c.id := if c.parent.Some? then rank[c.parent.value] + 1 else 0];
      }
    }
  }

  lemma {:induction false} ClimbingLowersRank(parents: Parents, rank: map<Id, nat>, a: Id, n: nat)
    requires Ranks(parents, rank) && a in parents
    ensures Climb(parents, a, n).Some? ==>
              Climb(parents, a, n).value in parents && rank[Climb(parents, a, n).value] + n <= rank[a]
    decreases n
  {
    if n > 0 {
      ClimbingLowersRank(parents, rank, a, n - 1);
    }
  }

  /** A hierarchy built only by `create` has no cycle, and every area's way up ends. */
  lemma {:induction false} BuiltHierarchiesAreAcyclic(cs: seq<Creation>, a: Id)
    requires a in Built(cs)
    ensures forall n: nat :: n > 0 ==> Climb(Built(cs), a, n) != Some(a)
    ensures exists n: nat :: Climb(Built(cs), a, n).None?
  {
    var rank := CreationRanks(cs);
    forall n: nat | n > 0 ensures Climb(Built(cs), a, n) != Some(a) {
      ClimbingLowersRank(Built(cs), rank, a, n);
    }
    ClimbingLowersRank(Built(cs), rank, a, rank[a] + 1);
    assert Climb(Built(cs), a, rank[a] + 1).None?;
  }
}
