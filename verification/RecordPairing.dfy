/** Matching the records of two inventories: the whole run, and what its result means. */
module RecordPairing {
  import opened Results
  import opened Shapes
  import opened BindingApi
  import opened Correspondence
  import opened RecordMatcher

  method RecordPairs(left: Api, right: Api) returns (result: Result<(map<string, string>, seq<Conflict>)>)
    ensures result.Ok? <==> WellFormed(left) && WellFormed(right)
    ensures result.Ok? ==>
      var (pairs, conflicts) := result.value;
      && Outcome(left, right, pairs, conflicts)
      && (forall p, n | Known(left, right, p) && IsName(left.records, p.0, n) && IsName(right.records, p.1, n) ::
            Handled(pairs, conflicts, p) && (conflicts == [] ==> InPairs(pairs, p)))
      && (conflicts == [] <==> OneToOne(Relation(left, right)))
      && (conflicts == [] ==> forall p :: InPairs(pairs, p) <==> p in Relation(left, right))
  {
    var inventory := InventoryOf(left, right);
    var matching := new Matching(inventory, Relation(left, right));
    RelationLicenses(left, right, inventory, Relation(left, right));
    matching.MatchSharedRecords();
    var ok := MatchSeeds(left, right, matching);
    if !ok {
      return Err("invalid export list");
    }
    matching.Close();
    FinishedIsOutcome(left, right, matching.pairs, matching.conflicts);
    OutcomeDecidesOneToOne(left, right, matching.pairs, matching.conflicts);
    NamesakesAreHandled(left, right, matching.pairs, matching.conflicts);
    return Ok((matching.pairs, matching.conflicts));
  }

  /** Records with a name in common are paired or reported. */
  lemma NamesakesAreHandled(left: Api, right: Api, pairs: map<string, string>, conflicts: seq<Conflict>)
    requires Outcome(left, right, pairs, conflicts)
    ensures forall p, n | Known(left, right, p) && IsName(left.records, p.0, n) && IsName(right.records, p.1, n) ::
              Handled(pairs, conflicts, p) && (conflicts == [] ==> InPairs(pairs, p))
  {
    forall p, n | Known(left, right, p) && IsName(left.records, p.0, n) && IsName(right.records, p.1, n)
      ensures Handled(pairs, conflicts, p) && (conflicts == [] ==> InPairs(pairs, p))
    {
      assert ShareName(left, right, p) && Seed(left, right, p);
    }
  }

  ghost predicate SeedsLicensed(left: Api, right: Api, inventory: Inventory, relation: iset<Pair>)
  {
    forall ps | SeedSource(left, right, ps) :: inventory.Licensed(relation, ps)
  }

  ghost predicate SeedsCovered(left: Api, right: Api, inventory: Inventory, pairs: map<string, string>, conflicts: seq<Conflict>)
  {
    forall ps | SeedSource(left, right, ps) :: inventory.Covered(pairs, conflicts, ps)
  }

  /** The steps of the seeding keep to the relation... */
  ghost predicate ExportsLicensed(inventory: Inventory, relation: iset<Pair>,
                                  left: map<string, seq<Export>>, right: map<string, seq<Export>>)
  {
    var l, r := ExportGroups(left), ExportGroups(right);
    l.Ok? && r.Ok? ==> forall s | s in l.value && s in r.value ::
      inventory.Licensed(relation, PairsAt(ExportPositions(l.value[s], r.value[s])))
  }

  /** ...and handle all of it. */
  ghost predicate ExportsCovered(inventory: Inventory, pairs: map<string, string>, conflicts: seq<Conflict>,
                                 left: map<string, seq<Export>>, right: map<string, seq<Export>>)
  {
    var l, r := ExportGroups(left), ExportGroups(right);
    l.Ok? && r.Ok? ==> forall s | s in l.value && s in r.value ::
      inventory.Covered(pairs, conflicts, PairsAt(ExportPositions(l.value[s], r.value[s])))
  }

  lemma SeedsLicenseSteps(left: Api, right: Api, inventory: Inventory, relation: iset<Pair>)
    requires SeedsLicensed(left, right, inventory, relation)
    ensures inventory.Licensed(relation, NamedPairs(left, right))
    ensures inventory.Licensed(relation, PairsAt(SharedPositions(left.aliases, right.aliases)))
    ensures ExportsLicensed(inventory, relation, left.functions, right.functions)
    ensures ExportsLicensed(inventory, relation, left.globals, right.globals)
  {
    assert SeedSource(left, right, NamedPairs(left, right));
    assert SeedSource(left, right, PairsAt(SharedPositions(left.aliases, right.aliases)));
    ExportsAreSources(left, right);
  }

  lemma ExportsAreSources(left: Api, right: Api)
    ensures forall ps | ExportSource(ExportGroups(left.functions), ExportGroups(right.functions), ps) :: SeedSource(left, right, ps)
    ensures forall ps | ExportSource(ExportGroups(left.globals), ExportGroups(right.globals), ps) :: SeedSource(left, right, ps)
  {
  }

  lemma StepsCoverSeeds(left: Api, right: Api, inventory: Inventory, pairs: map<string, string>, conflicts: seq<Conflict>)
    requires inventory.Covered(pairs, conflicts, NamedPairs(left, right))
    requires inventory.Covered(pairs, conflicts, PairsAt(SharedPositions(left.aliases, right.aliases)))
    requires ExportsCovered(inventory, pairs, conflicts, left.functions, right.functions)
    requires ExportsCovered(inventory, pairs, conflicts, left.globals, right.globals)
    ensures SeedsCovered(left, right, inventory, pairs, conflicts)
  {
  }

  /** One category of exports; raises on an invalid export list. */
  method MatchCategory(category: string, left: map<string, seq<Export>>, right: map<string, seq<Export>>, matching: Matching)
    returns (ok: bool)
    requires matching.Valid() && ExportsLicensed(matching.inventory, matching.relation, left, right)
    modifies matching
    ensures matching.Kept()
    ensures ok <==> ValidExports(left) && ValidExports(right)
    ensures ok ==> ExportsCovered(matching.inventory, matching.pairs, matching.conflicts, left, right)
  {
    var lgroups := CollectGroups(left);
    var rgroups := CollectGroups(right);
    if lgroups.Err? || rgroups.Err? {
      return false;
    }
    matching.MatchExports(category, lgroups.value, rgroups.value);
    return true;
  }

  /** Every name and position the inventories share. */
  method MatchSeeds(left: Api, right: Api, matching: Matching) returns (ok: bool)
    requires matching.Valid()
    requires SeedsLicensed(left, right, matching.inventory, matching.relation)
    modifies matching
    ensures matching.Kept()
    ensures ok <==> WellFormed(left) && WellFormed(right)
    ensures ok ==> SeedsCovered(left, right, matching.inventory, matching.pairs, matching.conflicts)
  {
    SeedsLicenseSteps(left, right, matching.inventory, matching.relation);
    matching.AddAll(NamedPairs(left, right), SharedTypedef);
    matching.AddPositions(SharedPositions(left.aliases, right.aliases), alias => SharedAlias(alias));
    ok := MatchCategory("functions", left.functions, right.functions, matching);
    if !ok {
      return;
    }
    ok := MatchCategory("globals", left.globals, right.globals, matching);
    if ok {
      StepsCoverSeeds(left, right, matching.inventory, matching.pairs, matching.conflicts);
    }
  }

  lemma RelationLicenses(left: Api, right: Api, inventory: Inventory, relation: iset<Pair>)
    requires inventory == InventoryOf(left, right) && relation == Relation(left, right)
    ensures SeedsLicensed(left, right, inventory, relation)
    ensures forall k | inventory.Has((k, k)) :: (k, k) in relation
    ensures forall p | p in relation :: inventory.Licensed(relation, PairsAt(inventory.fields(p)))
  {
    forall ps | SeedSource(left, right, ps) ensures inventory.Licensed(relation, ps) {
      forall p | p in ps && inventory.Has(p) ensures p in relation {
        SeedIffSource(left, right, p);
        SeedCorresponds(left, right, p);
      }
    }
    RelationContains(left, right);
    forall p | p in relation ensures inventory.Licensed(relation, PairsAt(inventory.fields(p))) {
      forall q | q in PairsAt(inventory.fields(p)) && inventory.Has(q) ensures q in relation {
        StepIffPositions(left, right, p, q);
      }
    }
  }

  lemma FinishedIsOutcome(left: Api, right: Api, pairs: map<string, string>, conflicts: seq<Conflict>)
    requires Sound(Relation(left, right), pairs, conflicts)
    requires SeedsCovered(left, right, InventoryOf(left, right), pairs, conflicts)
    requires forall a | a in pairs ::
      InventoryOf(left, right).Covered(pairs, conflicts, PairsAt(InventoryOf(left, right).fields((a, pairs[a]))))
    requires forall k | InventoryOf(left, right).Has((k, k)) :: InPairs(pairs, (k, k))
    ensures Outcome(left, right, pairs, conflicts)
  {
    var inventory := InventoryOf(left, right);
    forall p | Seed(left, right, p) ensures Handled(pairs, conflicts, p) {
      SeedIffSource(left, right, p);
      var ps :| SeedSource(left, right, ps) && p in ps;
      assert inventory.Has(p);
    }
    forall p, q | InPairs(pairs, p) && Step(left, right, p, q) ensures Handled(pairs, conflicts, q) {
      StepIffPositions(left, right, p, q);
      assert p == (p.0, pairs[p.0]);
      assert inventory.Has(q) && q in PairsAt(inventory.fields(p));
    }
    forall k | k in left.records && k in right.records ensures InPairs(pairs, (k, k)) {
      assert inventory.Has((k, k));
    }
  }

  /** A finished match reports no conflict exactly when the relation is one-to-one, and is then the relation. */
  lemma OutcomeDecidesOneToOne(left: Api, right: Api, pairs: map<string, string>, conflicts: seq<Conflict>)
    requires Outcome(left, right, pairs, conflicts)
    ensures conflicts == [] <==> OneToOne(Relation(left, right))
    ensures conflicts == [] ==> forall p :: InPairs(pairs, p) <==> p in Relation(left, right)
  {
    if conflicts == [] {
      var accepted := iset p | InPairs(pairs, p);
      forall p | Handled(pairs, conflicts, p) ensures p in accepted {
      }
      CorrespondsIsLeast(left, right, accepted);
    }
    SoundDecidesOneToOne(Relation(left, right), pairs, conflicts);
  }

  lemma SoundDecidesOneToOne(relation: iset<Pair>, pairs: map<string, string>, conflicts: seq<Conflict>)
    requires Sound(relation, pairs, conflicts)
    requires conflicts == [] ==> forall p | p in relation :: InPairs(pairs, p)
    ensures conflicts == [] <==> OneToOne(relation)
    ensures conflicts == [] ==> forall p :: InPairs(pairs, p) <==> p in relation
  {
    if conflicts == [] {
      forall p, q | p in relation && q in relation ensures p.0 == q.0 <==> p.1 == q.1 {
        assert InPairs(pairs, p) && InPairs(pairs, q) && !Clash(pairs, p);
      }
    } else {
      var p := conflicts[0].pair;
      ReportedIffListed(conflicts, p);
      var q :| InPairs(pairs, q) && (q.0 == p.0 <==> q.1 != p.1);
      assert p in relation && q in relation;
    }
  }

  /** Two runs over the same inventories agree on whether they conflict and, if not, on the pairing. */
  lemma OrderIndependence(left: Api, right: Api,
                          pairs: map<string, string>, conflicts: seq<Conflict>,
                          pairs': map<string, string>, conflicts': seq<Conflict>)
    requires Outcome(left, right, pairs, conflicts) && Outcome(left, right, pairs', conflicts')
    ensures conflicts == [] <==> conflicts' == []
    ensures conflicts == [] ==> pairs == pairs'
  {
    OutcomeDecidesOneToOne(left, right, pairs, conflicts);
    OutcomeDecidesOneToOne(left, right, pairs', conflicts');
    if conflicts == [] {
      SamePairsSameMap(pairs, pairs', Relation(left, right));
    }
  }

  lemma SamePairsSameMap(pairs: map<string, string>, pairs': map<string, string>, relation: iset<Pair>)
    requires forall p :: InPairs(pairs, p) <==> p in relation
    requires forall p :: InPairs(pairs', p) <==> p in relation
    ensures pairs == pairs'
  {
    forall a | a in pairs ensures a in pairs' && pairs'[a] == pairs[a] {
      assert InPairs(pairs, (a, pairs[a]));
    }
    forall a | a in pairs' ensures a in pairs {
      assert InPairs(pairs', (a, pairs'[a]));
    }
  }
}
