/** The record matcher: grows a partial bijection between the records of two inventories,
    reporting a clash instead of overwriting. Every iteration over a set or dictionary of the
    original is an arbitrary choice here. */
module RecordMatcher {
  import opened Shapes
  import opened BindingApi
  import opened Correspondence

  datatype Reason =
    | SharedRecordName
    | SharedTypedef
    | SharedAlias(alias: string)
    | SharedExport(category: string, symbol: string, name: string)
    | SharedField(record: string, field: string)

  datatype Conflict = Conflict(pair: Pair, reason: Reason)

  predicate InPairs(pairs: map<string, string>, p: Pair)
  {
    p.0 in pairs && pairs[p.0] == p.1
  }

  /** Accepting p would break the bijection. */
  ghost predicate Clash(pairs: map<string, string>, p: Pair)
  {
    exists q | InPairs(pairs, q) :: q.0 == p.0 <==> q.1 != p.1
  }

  ghost function Reported(conflicts: seq<Conflict>): set<Pair>
  {
    if conflicts == [] then {} else Reported(conflicts[..|conflicts| - 1]) + {conflicts[|conflicts| - 1].pair}
  }

  lemma {:induction false} ReportedIffListed(conflicts: seq<Conflict>, p: Pair)
    ensures p in Reported(conflicts) <==> exists i :: 0 <= i < |conflicts| && conflicts[i].pair == p
  {
    if conflicts == [] {
    } else {
      ReportedIffListed(conflicts[..|conflicts| - 1], p);
    }
  }

  /** Accepted entries never change and reports are never withdrawn. */
  ghost predicate Grows(pairs: map<string, string>, conflicts: seq<Conflict>, pairs': map<string, string>, conflicts': seq<Conflict>)
  {
    && (forall a | a in pairs :: a in pairs' && pairs'[a] == pairs[a])
    && Reported(conflicts) <= Reported(conflicts')
  }

  /** Nothing the matcher is told is lost. */
  ghost predicate Handled(pairs: map<string, string>, conflicts: seq<Conflict>, p: Pair)
  {
    InPairs(pairs, p) || p in Reported(conflicts)
  }

  /** What the matcher reads of the two inventories: the record names on either side, and the
      positions at which the fields of two records correspond. */
  datatype Inventory = Inventory(leftNames: set<string>, rightNames: set<string>, fields: Pair -> set<Position>)
  {
    predicate Has(p: Pair)
    {
      p.0 in leftNames && p.1 in rightNames
    }

    /** The known pairs among ps belong to the relation. */
    ghost predicate Licensed(relation: iset<Pair>, ps: set<Pair>)
    {
      forall p | p in ps && Has(p) :: p in relation
    }

    /** The known pairs among ps were all handled. */
    ghost predicate Covered(pairs: map<string, string>, conflicts: seq<Conflict>, ps: set<Pair>)
    {
      forall p | p in ps && Has(p) :: Handled(pairs, conflicts, p)
    }
  }

  function InventoryOf(left: Api, right: Api): Inventory
  {
    Inventory(left.records.Keys, right.records.Keys,
      p => if Known(left, right, p) then FieldPositions(left.records[p.0], right.records[p.1]) else {})
  }

  /** A one-to-one part of the relation, and reports only of pairs of the relation that clash with it. */
  ghost predicate Sound(relation: iset<Pair>, pairs: map<string, string>, conflicts: seq<Conflict>)
  {
    && (forall p | InPairs(pairs, p) :: p in relation && !Clash(pairs, p))
    && (forall p | p in Reported(conflicts) :: p in relation && Clash(pairs, p))
  }

  ghost predicate Mirrors(pairs: map<string, string>, reverse: map<string, string>)
  {
    forall p :: InPairs(pairs, p) <==> InPairs(reverse, (p.1, p.0))
  }

  /** The two lookups of the matcher decide whether a pair clashes. */
  lemma ClashLookup(pairs: map<string, string>, reverse: map<string, string>, p: Pair)
    requires Mirrors(pairs, reverse)
    ensures Clash(pairs, p) <==>
              (p.0 in pairs && pairs[p.0] != p.1) || (p.1 in reverse && reverse[p.1] != p.0)
  {
    if p.0 in pairs && pairs[p.0] != p.1 {
      assert InPairs(pairs, (p.0, pairs[p.0]));
    } else if p.1 in reverse && reverse[p.1] != p.0 {
      var q := (reverse[p.1], p.1);
      assert InPairs(reverse, (q.1, q.0)) && InPairs(pairs, q);
    } else if q :| InPairs(pairs, q) && (q.0 == p.0 <==> q.1 != p.1) {
      assert InPairs(reverse, (q.1, q.0));
    }
  }

  lemma AcceptKeeps(relation: iset<Pair>, pairs: map<string, string>, reverse: map<string, string>,
                    conflicts: seq<Conflict>, p: Pair)
    requires Mirrors(pairs, reverse) && Sound(relation, pairs, conflicts)
    requires p in relation && !Clash(pairs, p)
    ensures Mirrors(pairs[p.0 := p.1], reverse[p.1 := p.0])
    ensures Sound(relation, pairs[p.0 := p.1], conflicts)
  {
    var pairs' := pairs[p.0 := p.1];
    ClashLookup(pairs, reverse, p);
    assert forall q :: InPairs(pairs', q) <==> InPairs(pairs, q) || q == p;
    assert forall q: Pair :: InPairs(reverse[p.1 := p.0], (q.1, q.0)) <==> InPairs(reverse, (q.1, q.0)) || q == p;
    forall r | Clash(pairs, r) ensures Clash(pairs', r) {
      var q :| InPairs(pairs, q) && (q.0 == r.0 <==> q.1 != r.1);
      assert InPairs(pairs', q);
    }
  }

  /** What holds of a finished match, in whatever order the pairs were discovered. */
  ghost predicate Outcome(left: Api, right: Api, pairs: map<string, string>, conflicts: seq<Conflict>)
  {
    && Sound(Relation(left, right), pairs, conflicts)
    && (forall p | Seed(left, right, p) :: Handled(pairs, conflicts, p))
    && (forall p, q | InPairs(pairs, p) && Step(left, right, p, q) :: Handled(pairs, conflicts, q))
    && (forall k | k in left.records && k in right.records :: InPairs(pairs, (k, k)))
  }

  class Matching {
    const inventory: Inventory
    ghost const relation: iset<Pair>
    var pairs: map<string, string>
    var reverse: map<string, string>
    var conflicts: seq<Conflict>

    ghost predicate Valid()
      reads this
    {
      && Mirrors(pairs, reverse)
      && pairs.Keys <= inventory.leftNames
      && Sound(relation, pairs, conflicts)
    }

    /** What every step of the matcher keeps. */
    twostate predicate Kept()
      reads this
    {
      Valid() && Grows(old(pairs), old(conflicts), pairs, conflicts)
    }

    ghost predicate Covered(ps: set<Pair>)
      reads this
    {
      inventory.Covered(pairs, conflicts, ps)
    }

    constructor (inventory: Inventory, ghost relation: iset<Pair>)
      ensures Valid()
      ensures this.inventory == inventory && this.relation == relation
      ensures pairs == map[] && conflicts == []
    {
      this.inventory, this.relation := inventory, relation;
      pairs, reverse, conflicts := map[], map[], [];
    }

    method Add(p: Pair, reason: Reason)
      requires Valid()
      requires inventory.Has(p) ==> p in relation
      modifies this
      ensures Kept()
      ensures pairs == if inventory.Has(p) && !Clash(old(pairs), p) then old(pairs)[p.0 := p.1] else old(pairs)
      ensures
        var entry := Conflict(p, reason);
        conflicts == if inventory.Has(p) && Clash(old(pairs), p) && entry !in old(conflicts)
                     then old(conflicts) + [entry] else old(conflicts)
      ensures inventory.Has(p) ==> Handled(pairs, conflicts, p)
    {
      var (a, b) := p;
      if a !in inventory.leftNames || b !in inventory.rightNames {
        return;
      }
      ClashLookup(pairs, reverse, p);
      if (a in pairs && pairs[a] != b) || (b in reverse && reverse[b] != a) {
        var entry := Conflict(p, reason);
        if entry !in conflicts {
          assert (conflicts + [entry])[..|conflicts|] == conflicts;
          conflicts := conflicts + [entry];
        } else {
          ReportedIffListed(conflicts, p);
        }
        return;
      }
      AcceptKeeps(relation, pairs, reverse, conflicts, p);
      pairs := pairs[a := b];
      reverse := reverse[b := a];
    }

    /** A loop over pairs whose body only adds. */
    method AddAll(ps: set<Pair>, reason: Reason)
      requires Valid() && inventory.Licensed(relation, ps)
      modifies this
      ensures Kept() && Covered(ps)
    {
      var todo := ps;
      while todo != {}
        invariant Kept() && todo <= ps && Covered(ps - todo)
        decreases todo
      {
        var p :| p in todo;
        Add(p, reason);
        todo := todo - {p};
      }
    }

    /** Before anything else, a name on both sides is paired with itself. */
    method MatchSharedRecords()
      requires Valid() && pairs == map[]
      requires forall k | inventory.Has((k, k)) :: (k, k) in relation
      modifies this
      ensures Kept()
      ensures forall k | inventory.Has((k, k)) :: InPairs(pairs, (k, k))
    {
      var shared := inventory.leftNames * inventory.rightNames;
      var todo := shared;
      while todo != {}
        invariant Kept() && todo <= shared
        invariant forall k | k in pairs :: pairs[k] == k
        invariant forall k | k in shared - todo :: InPairs(pairs, (k, k))
        decreases todo
      {
        var k :| k in todo;
        Add((k, k), SharedRecordName);
        todo := todo - {k};
      }
    }

    /** Walk two types in every one of the positions. */
    method AddPositions(positions: set<Position>, reason: string -> Reason)
      requires Valid() && inventory.Licensed(relation, PairsAt(positions))
      modifies this
      ensures Kept() && Covered(PairsAt(positions))
    {
      var todo := positions;
      while todo != {}
        invariant Kept() && todo <= positions
        invariant forall c | c in positions - todo :: Covered(ShapePairs(c.1, c.2))
        decreases todo
      {
        var c :| c in todo;
        AddAll(ShapePairs(c.1, c.2), reason(c.0));
        todo := todo - {c};
      }
    }

    method MatchExports(category: string, lgroups: Groups, rgroups: Groups)
      requires Valid()
      requires forall s | s in lgroups && s in rgroups ::
                 inventory.Licensed(relation, PairsAt(ExportPositions(lgroups[s], rgroups[s])))
      modifies this
      ensures Kept()
      ensures forall s | s in lgroups && s in rgroups :: Covered(PairsAt(ExportPositions(lgroups[s], rgroups[s])))
    {
      var shared := lgroups.Keys * rgroups.Keys;
      var todo := shared;
      while todo != {}
        invariant Kept() && todo <= shared
        invariant forall s | s in shared - todo :: Covered(PairsAt(ExportPositions(lgroups[s], rgroups[s])))
        decreases todo
      {
        var s :| s in todo;
        AddPositions(ExportPositions(lgroups[s], rgroups[s]), name => SharedExport(category, s, name));
        todo := todo - {s};
      }
    }

    /** The worklist: new pairs are visited in rounds until a round finds none. */
    method Close()
      requires Valid()
      requires forall p | p in relation :: inventory.Licensed(relation, PairsAt(inventory.fields(p)))
      modifies this
      ensures Kept()
      ensures forall a | a in pairs :: Covered(PairsAt(inventory.fields((a, pairs[a]))))
    {
      var visited: set<string> := {};
      while pairs.Keys - visited != {}
        invariant Kept() && visited <= pairs.Keys
        invariant forall a | a in visited :: Covered(PairsAt(inventory.fields((a, pairs[a]))))
        decreases inventory.leftNames - visited
      {
        var round := pairs.Keys - visited;
        ghost var before := pairs;
        VisitRound(set a | a in round :: (a, pairs[a]));
        assert forall a | a in round :: (a, before[a]) == (a, pairs[a]);
        visited := visited + round;
      }
    }

    /** The pairs of one round; what they add waits for the next. */
    method VisitRound(round: set<Pair>)
      requires Valid()
      requires forall p | p in round :: inventory.Licensed(relation, PairsAt(inventory.fields(p)))
      modifies this
      ensures Kept()
      ensures forall p | p in round :: Covered(PairsAt(inventory.fields(p)))
    {
      var todo := round;
      while todo != {}
        invariant Kept() && todo <= round
        invariant forall p | p in round - todo :: Covered(PairsAt(inventory.fields(p)))
        decreases todo
      {
        var p :| p in todo;
        AddPositions(inventory.fields(p), field => SharedField(p.0, field));
        todo := todo - {p};
      }
    }
  }
}
