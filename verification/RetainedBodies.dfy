/** Superseded function bodies of the retained graph. */
module RetainedBodies {
  import opened Results

  datatype Body = Body(entity: nat, superseded: bool)

  /** For every entity, the body it considers its own. */
  datatype Bodies = Bodies(bodies: seq<Body>, bodyOf: seq<Option<nat>>)

  predicate EntityIsConsistent(g: Bodies, e: nat)
    requires e < |g.bodyOf|
  {
    g.bodyOf[e].Some? ==>
      g.bodyOf[e].value < |g.bodies| && g.bodies[g.bodyOf[e].value] == Body(e, false)
  }

  predicate BodyIsConsistent(g: Bodies, id: nat)
    requires id < |g.bodies|
  {
    var body := g.bodies[id];
    && body.entity < |g.bodyOf| && g.bodyOf[body.entity].Some?
    && var latest := g.bodyOf[body.entity].value;
       if body.superseded
       then latest > id && latest < |g.bodies| && g.bodies[latest].entity == body.entity
       else latest == id
  }

  /** An entity's own body is the last of its bodies, and all its earlier ones are superseded. */
  ghost predicate LastDefinitionIsLive(g: Bodies)
  {
    && (forall id | 0 <= id < |g.bodies| ::
          g.bodies[id].entity < |g.bodyOf| &&
          (g.bodies[id].superseded <==>
            exists later :: id < later < |g.bodies| && g.bodies[later].entity == g.bodies[id].entity))
    && (forall e, id | 0 <= e < |g.bodyOf| && 0 <= id < |g.bodies| ::
          (g.bodyOf[e] == Some(id) <==> g.bodies[id] == Body(e, false)))
    && (forall e | 0 <= e < |g.bodyOf| && g.bodyOf[e].Some? :: g.bodyOf[e].value < |g.bodies|)
  }

  /** Some body is the last one of an entity that has any. */
  lemma {:induction false} LastBody(g: Bodies, e: nat, id: nat) returns (last: nat)
    requires id < |g.bodies| && g.bodies[id].entity == e
    ensures id <= last < |g.bodies| && g.bodies[last].entity == e
    ensures forall later | last < later < |g.bodies| :: g.bodies[later].entity != e
    decreases |g.bodies| - id
  {
    if later: nat :| id < later < |g.bodies| && g.bodies[later].entity == e {
      last := LastBody(g, e, later);
    } else {
      last := id;
    }
  }

  lemma ConsistentIffLastIsLive(g: Bodies)
    ensures (forall e | 0 <= e < |g.bodyOf| :: EntityIsConsistent(g, e)) &&
            (forall id | 0 <= id < |g.bodies| :: BodyIsConsistent(g, id))
            <==> LastDefinitionIsLive(g)
  {
    if LastDefinitionIsLive(g) {
      forall id | 0 <= id < |g.bodies| ensures BodyIsConsistent(g, id) {
        var last := LastBody(g, g.bodies[id].entity, id);
        assert !g.bodies[last].superseded;
        assert g.bodies[last] == Body(g.bodies[id].entity, false);
        assert g.bodyOf[g.bodies[id].entity] == Some(last);
      }
      forall e | 0 <= e < |g.bodyOf| ensures EntityIsConsistent(g, e) {
      }
    }
    if (forall e | 0 <= e < |g.bodyOf| :: EntityIsConsistent(g, e)) &&
       (forall id | 0 <= id < |g.bodies| :: BodyIsConsistent(g, id)) {
      forall id | 0 <= id < |g.bodies|
        ensures g.bodies[id].entity < |g.bodyOf|
        ensures g.bodies[id].superseded <==>
            exists later :: id < later < |g.bodies| && g.bodies[later].entity == g.bodies[id].entity
      {
        assert BodyIsConsistent(g, id);
        var e := g.bodies[id].entity;
        if later :| id < later < |g.bodies| && g.bodies[later].entity == e {
          assert BodyIsConsistent(g, later);
        }
      }
      forall e, id | 0 <= e < |g.bodyOf| && 0 <= id < |g.bodies|
        ensures g.bodyOf[e] == Some(id) <==> g.bodies[id] == Body(e, false)
      {
        assert EntityIsConsistent(g, e) && BodyIsConsistent(g, id);
      }
      forall e | 0 <= e < |g.bodyOf| && g.bodyOf[e].Some? ensures g.bodyOf[e].value < |g.bodies| {
        assert EntityIsConsistent(g, e);
      }
    }
  }

  /** The two loops over entities and bodies accept exactly the graphs in which last definitions are live. */
  method CheckBodies(g: Bodies) returns (ok: bool)
    ensures ok <==> LastDefinitionIsLive(g)
  {
    ConsistentIffLastIsLive(g);
    for e := 0 to |g.bodyOf|
      invariant forall d | 0 <= d < e :: EntityIsConsistent(g, d)
    {
      if !EntityIsConsistent(g, e) {
        return false;
      }
    }
    for id := 0 to |g.bodies|
      invariant forall k | 0 <= k < id :: BodyIsConsistent(g, k)
    {
      if !BodyIsConsistent(g, id) {
        return false;
      }
    }
    return true;
  }
}
