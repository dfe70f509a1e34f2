/** The gate over a comparison report: every difference is either accepted for a stated reason
    or unexpected. Why a difference is acceptable is a parameter. */
module Gate {
  import opened Results
  import opened BindingApi
  import opened Verdict

  datatype Side = Toucan | Bindgen

  datatype Category =
    | Functions | Globals | Constants | Aliases | RecordShapes | EnumShapes | EnumConstants
    | NativeRecords | NativeFields | NativeConstants | NativeEnums | NativeVariants

  datatype Difference =
    | OneSided(category: Category, side: Side, name: string)
    | Different(category: Category, name: string)
    | Storage(side: Side, record: string)
    | MappingConflicts
    | Unsupported
    | Validation

  function Categories(report: Report): map<Category, Comparison>
  {
    var structural := StructuralCategories(report.structure);
    match report.native
    case None => structural
    case Some(native) => structural + NativeCategories(native)
  }

  function StructuralCategories(s: Structure): (categories: map<Category, Comparison>)
    ensures categories.Keys == {Functions, Globals, Constants, Aliases, RecordShapes, EnumShapes, EnumConstants}
  {
    map[
      Functions := s.functions, Globals := s.globals, Constants := s.constants, Aliases := s.aliases,
      RecordShapes := s.recordShapes, EnumShapes := s.enumShapes, EnumConstants := s.enumConstants]
  }

  function NativeCategories(n: Native): (categories: map<Category, Comparison>)
    ensures categories.Keys == {NativeRecords, NativeFields, NativeConstants, NativeEnums, NativeVariants}
  {
    map[
      NativeRecords := n.records, NativeFields := n.fields, NativeConstants := n.constants,
      NativeEnums := n.enums, NativeVariants := n.variants]
  }

  function CategoryDifferences(category: Category, c: Comparison): set<Difference>
  {
    (set n | n in c.toucanOnly :: OneSided(category, Toucan, n)) +
    (set n | n in c.bindgenOnly :: OneSided(category, Bindgen, n)) +
    (set n | n in c.different :: Different(category, n))
  }

  /** The differences an explanation may be found for. */
  function Differences(report: Report): set<Difference>
  {
    DifferencesIn(Categories(report), report.toucanExcluded.Keys, report.bindgenExcluded.Keys)
  }

  function DifferencesIn(categories: map<Category, Comparison>, toucan: set<string>, bindgen: set<string>): set<Difference>
  {
    (set c, d | c in categories && d in CategoryDifferences(c, categories[c]) :: d) +
    (set r | r in toucan :: Storage(Toucan, r)) +
    (set r | r in bindgen :: Storage(Bindgen, r))
  }

  /** The findings no explanation is accepted for. */
  function Blockers(report: Report): set<Difference>
  {
    BlockersIf(report.conflicts != [], report.unsupported, !report.inputsUnchanged || report.native.None?)
  }

  function BlockersIf(conflicts: bool, unsupported: bool, unvalidated: bool): set<Difference>
  {
    set d: Difference | d in {MappingConflicts, Unsupported, Validation} &&
      (d.MappingConflicts? ==> conflicts) && (d.Unsupported? ==> unsupported) && (d.Validation? ==> unvalidated)
  }

  /** The list has every element of the set once, and nothing else. */
  ghost predicate Lists(list: seq<Difference>, ds: set<Difference>)
  {
    forall d :: multiset(list)[d] == if d in ds then 1 else 0
  }

  ghost function Explained(ds: set<Difference>, reason: Difference -> Option<string>): set<Difference>
  {
    set d | d in ds && reason(d).Some?
  }

  // What there is to file, in terms of the report alone.

  ghost function ComparisonOf(report: Report, category: Category): Option<Comparison>
  {
    match category
    case Functions => Some(report.structure.functions)
    case Globals => Some(report.structure.globals)
    case Constants => Some(report.structure.constants)
    case Aliases => Some(report.structure.aliases)
    case RecordShapes => Some(report.structure.recordShapes)
    case EnumShapes => Some(report.structure.enumShapes)
    case EnumConstants => Some(report.structure.enumConstants)
    case NativeRecords => if report.native.Some? then Some(report.native.value.records) else None
    case NativeFields => if report.native.Some? then Some(report.native.value.fields) else None
    case NativeConstants => if report.native.Some? then Some(report.native.value.constants) else None
    case NativeEnums => if report.native.Some? then Some(report.native.value.enums) else None
    case NativeVariants => if report.native.Some? then Some(report.native.value.variants) else None
  }

  /** An entry of one side alone, a shared entry that differs, or a record with excluded storage. */
  ghost predicate Found(report: Report, d: Difference)
  {
    match d
    case OneSided(category, side, name) =>
      var c := ComparisonOf(report, category);
      c.Some? && if side.Toucan? then name in c.value.toucanOnly else name in c.value.bindgenOnly
    case Different(category, name) =>
      var c := ComparisonOf(report, category);
      c.Some? && name in c.value.different
    case Storage(side, record) => if side.Toucan? then record in report.toucanExcluded else record in report.bindgenExcluded
    case _ => false
  }

  /** What no reason excuses. */
  ghost predicate Blocks(report: Report, d: Difference)
  {
    match d
    case MappingConflicts => report.conflicts != []
    case Unsupported => report.unsupported
    case Validation => !report.inputsUnchanged || report.native.None?
    case _ => false
  }

  lemma CategoriesAreComparisons(report: Report, c: Category)
    ensures c in Categories(report) <==> ComparisonOf(report, c).Some?
    ensures c in Categories(report) ==> Categories(report)[c] == ComparisonOf(report, c).value
  {
    StructuralComparison(report, c);
    if report.native.Some? {
      NativeComparison(report, c);
    }
  }

  lemma StructuralComparison(report: Report, c: Category)
    ensures c in StructuralCategories(report.structure) ==>
              ComparisonOf(report, c) == Some(StructuralCategories(report.structure)[c])
  {
  }

  lemma NativeComparison(report: Report, c: Category)
    requires report.native.Some?
    ensures c in NativeCategories(report.native.value) ==>
              ComparisonOf(report, c) == Some(NativeCategories(report.native.value)[c])
  {
  }

  lemma CategoryDifferenceIsFound(category: Category, c: Comparison, d: Difference)
    ensures d in CategoryDifferences(category, c) <==>
      match d
      case OneSided(k, side, name) => k == category && if side.Toucan? then name in c.toucanOnly else name in c.bindgenOnly
      case Different(k, name) => k == category && name in c.different
      case _ => false
  {
  }

  lemma DifferenceHasCategory(categories: map<Category, Comparison>, toucan: set<string>, bindgen: set<string>, d: Difference)
    ensures d in DifferencesIn(categories, toucan, bindgen) <==>
      match d
      case OneSided(c, side, name) =>
        c in categories && if side.Toucan? then name in categories[c].toucanOnly else name in categories[c].bindgenOnly
      case Different(c, name) => c in categories && name in categories[c].different
      case Storage(side, record) => if side.Toucan? then record in toucan else record in bindgen
      case _ => false
  {
    forall c | c in categories
      ensures d in CategoryDifferences(c, categories[c]) ==> (d.OneSided? || d.Different?) && d.category == c
    {
      CategoryDifferenceIsFound(c, categories[c], d);
    }
    if (d.OneSided? || d.Different?) && d.category in categories {
      CategoryDifferenceIsFound(d.category, categories[d.category], d);
    }
  }

  lemma DifferenceIffFound(report: Report, d: Difference)
    ensures d in Differences(report) <==> Found(report, d)
  {
    DifferenceHasCategory(Categories(report), report.toucanExcluded.Keys, report.bindgenExcluded.Keys, d);
    if d.OneSided? || d.Different? {
      CategoriesAreComparisons(report, d.category);
    }
  }

  lemma BlockerIffBlocks(report: Report, d: Difference)
    ensures d in Blockers(report) <==> Blocks(report, d)
  {
  }

  lemma DifferencesAreFound(report: Report)
    ensures forall d :: d in Differences(report) <==> Found(report, d)
    ensures forall d :: d in Blockers(report) <==> Blocks(report, d)
  {
    forall d ensures (d in Differences(report) <==> Found(report, d)) && (d in Blockers(report) <==> Blocks(report, d)) {
      DifferenceIffFound(report, d);
      BlockerIffBlocks(report, d);
    }
  }

  /** Every difference is filed exactly once: as accepted when there is a reason for it, otherwise as unexpected
      with everything that blocks. */
  ghost predicate FilesAll(report: Report, reason: Difference -> Option<string>, filed: Filed)
  {
    && (forall d :: multiset(filed.accepted)[d] == if Found(report, d) && reason(d).Some? then 1 else 0)
    && (forall d :: multiset(filed.unexpected)[d] == if (Found(report, d) && reason(d).None?) || Blocks(report, d) then 1 else 0)
  }

  lemma FiledIffFilesAll(report: Report, reason: Difference -> Option<string>, filed: Filed)
    ensures IsFiled(report, reason, filed) <==> FilesAll(report, reason, filed)
  {
    DifferencesAreFound(report);
    var differences, blockers := Differences(report), Blockers(report);
    var explained := Explained(differences, reason);
    forall d
      ensures d in explained <==> Found(report, d) && reason(d).Some?
      ensures d in differences - explained + blockers <==> (Found(report, d) && reason(d).None?) || Blocks(report, d)
    {
      assert d in differences <==> Found(report, d);
      assert d in blockers <==> Blocks(report, d);
    }
  }

  datatype Filed = Filed(accepted: seq<Difference>, unexpected: seq<Difference>)

  /** Every difference is filed exactly once, by whether there is a reason for it. */
  ghost predicate IsFiled(report: Report, reason: Difference -> Option<string>, filed: Filed)
  {
    && Lists(filed.accepted, Explained(Differences(report), reason))
    && Lists(filed.unexpected, Differences(report) - Explained(Differences(report), reason) + Blockers(report))
  }

  /** Classification reads the native constants before anything else, and raises without them. */
  method Classify(report: Report, reason: Difference -> Option<string>) returns (result: Result<Filed>)
    ensures result.Ok? <==> report.native.Some?
    ensures result.Ok? ==> FilesAll(report, reason, result.value)
  {
    ClassifiableIffProbed(report);
    if NativeConstants !in Categories(report) {
      return Err("native_constants");
    }
    var accepted, unexpected := File(Differences(report), reason);
    var blockers := ListBlockers(report.conflicts != [], report.unsupported,
                                 !report.inputsUnchanged || report.native.None?);
    forall d | d in Differences(report) ensures d !in Blockers(report) {
      DifferencesAreExplainable(report, d);
    }
    Append(unexpected, Differences(report) - Explained(Differences(report), reason), blockers, Blockers(report));
    FiledIffFilesAll(report, reason, Filed(accepted, unexpected + blockers));
    return Ok(Filed(accepted, unexpected + blockers));
  }

  lemma ClassifiableIffProbed(report: Report)
    ensures NativeConstants in Categories(report) <==> report.native.Some?
  {
  }

  /** The reports of runs that skip the probes are exactly those that cannot be classified. */
  lemma OnlySkippedProbesAreRefused(left: Api, right: Api, probes: Observations, inputsUnchanged: bool, report: Report)
    requires IsReport(left, right, probes, inputsUnchanged, report)
    ensures NativeConstants in Categories(report) <==> probes.Some?
    ensures probes.None? ==> !report.equivalent
  {
    ClassifiableIffProbed(report);
  }

  /** A run that skips the probes: whatever well-formed inventories it compares, its report cannot be classified. */
  method CompareWithoutProbes(left: Api, right: Api, inputsUnchanged: bool) returns (result: Result<Report>)
    ensures result.Ok? <==> WellFormed(left) && WellFormed(right)
    ensures result.Ok? ==> NativeConstants !in Categories(result.value) && !result.value.equivalent
  {
    result := Compare(left, right, None, inputsUnchanged);
    if result.Ok? {
      OnlySkippedProbesAreRefused(left, right, None, inputsUnchanged, result.value);
    }
  }

  method File(all: set<Difference>, reason: Difference -> Option<string>)
    returns (accepted: seq<Difference>, unexpected: seq<Difference>)
    ensures Lists(accepted, Explained(all, reason))
    ensures Lists(unexpected, all - Explained(all, reason))
  {
    accepted, unexpected := [], [];
    var todo := all;
    while todo != {}
      invariant todo <= all
      invariant Lists(accepted, Explained(all - todo, reason))
      invariant Lists(unexpected, all - todo - Explained(all - todo, reason))
      decreases todo
    {
      var d :| d in todo;
      if reason(d).Some? {
        accepted := accepted + [d];
      } else {
        unexpected := unexpected + [d];
      }
      todo := todo - {d};
    }
    assert all - todo == all;
  }

  method ListBlockers(conflicts: bool, unsupported: bool, unvalidated: bool) returns (blockers: seq<Difference>)
    ensures Lists(blockers, BlockersIf(conflicts, unsupported, unvalidated))
  {
    blockers := [];
    if conflicts {
      blockers := blockers + [MappingConflicts];
    }
    if unsupported {
      blockers := blockers + [Unsupported];
    }
    if unvalidated {
      blockers := blockers + [Validation];
    }
  }

  lemma DifferencesAreExplainable(report: Report, d: Difference)
    requires d in Differences(report)
    ensures d.OneSided? || d.Different? || d.Storage?
  {
  }

  lemma Append(list: seq<Difference>, ds: set<Difference>, list': seq<Difference>, ds': set<Difference>)
    requires Lists(list, ds) && Lists(list', ds') && ds !! ds'
    ensures Lists(list + list', ds + ds')
  {
    assert multiset(list + list') == multiset(list) + multiset(list');
  }

  lemma NothingListed(list: seq<Difference>, ds: set<Difference>)
    requires Lists(list, ds)
    ensures list == [] <==> ds == {}
  {
    if list != [] {
      assert multiset(list)[list[0]] > 0;
    } else {
      assert forall d :: multiset(list)[d] == 0;
    }
  }

  /** A classification with nothing in it means exact equivalence, and one with nothing unexpected means that
      every difference has a reason. Reports that cannot be classified are not equivalent. */
  lemma EmptyIffEquivalent(report: Report, reason: Difference -> Option<string>, result: Result<Filed>)
    requires result.Ok? <==> report.native.Some?
    requires result.Ok? ==> FilesAll(report, reason, result.value)
    ensures result.Ok? && result.value == Filed([], []) <==> CleanReport(report)
    ensures result.Ok? ==> (result.value.unexpected == [] <==>
              forall d :: !Blocks(report, d) && (Found(report, d) ==> reason(d).Some?))
  {
    if result.Ok? {
      var filed := result.value;
      FiledIffFilesAll(report, reason, filed);
      DifferencesAreFound(report);
      NothingListed(filed.accepted, Explained(Differences(report), reason));
      NothingListed(filed.unexpected, Differences(report) - Explained(Differences(report), reason) + Blockers(report));
      NoDifferenceIffAllMatch(Categories(report), report.toucanExcluded.Keys, report.bindgenExcluded.Keys);
      CategoriesMatch(report);
      NoBlockers(report.conflicts != [], report.unsupported, !report.inputsUnchanged || report.native.None?);
      EmptyParts(Differences(report), Explained(Differences(report), reason), Blockers(report), reason);
    }
  }

  lemma NoBlockers(conflicts: bool, unsupported: bool, unvalidated: bool)
    ensures BlockersIf(conflicts, unsupported, unvalidated) == {} <==> !conflicts && !unsupported && !unvalidated
  {
    var blockers := BlockersIf(conflicts, unsupported, unvalidated);
    assert MappingConflicts in blockers <==> conflicts;
    assert Unsupported in blockers <==> unsupported;
    assert Validation in blockers <==> unvalidated;
  }

  lemma EmptyParts(ds: set<Difference>, explained: set<Difference>, blockers: set<Difference>,
                   reason: Difference -> Option<string>)
    requires explained == Explained(ds, reason)
    ensures explained == {} && ds - explained + blockers == {} <==> ds == {} && blockers == {}
    ensures ds - explained + blockers == {} <==> blockers == {} && forall d | d in ds :: reason(d).Some?
  {
    var rest := ds - explained + blockers;
    assert forall d :: d in rest <==> (d in ds && d !in explained) || d in blockers;
    if rest == {} {
      assert forall d :: d !in rest;
    }
    if explained == {} {
      assert forall d :: d !in explained;
    }
  }

  lemma NoDifferenceIffAllMatch(categories: map<Category, Comparison>, toucan: set<string>, bindgen: set<string>)
    ensures DifferencesIn(categories, toucan, bindgen) == {} <==> AllMatch(categories) && toucan == {} && bindgen == {}
  {
    var differences := DifferencesIn(categories, toucan, bindgen);
    if differences == {} {
      forall c | c in categories ensures Matches(categories[c]) {
        NoCategoryDifference(c, categories[c]);
        assert forall d | d in CategoryDifferences(c, categories[c]) :: d in differences;
      }
      assert forall r | r in toucan :: Storage(Toucan, r) in differences;
      assert forall r | r in bindgen :: Storage(Bindgen, r) in differences;
    } else {
      var d :| d in differences;
      forall c | c in categories {
        NoCategoryDifference(c, categories[c]);
      }
    }
  }

  lemma NoCategoryDifference(category: Category, c: Comparison)
    ensures CategoryDifferences(category, c) == {} <==> Matches(c)
  {
    assert forall n | n in c.toucanOnly :: OneSided(category, Toucan, n) in CategoryDifferences(category, c);
    assert forall n | n in c.bindgenOnly :: OneSided(category, Bindgen, n) in CategoryDifferences(category, c);
    assert forall n | n in c.different :: Different(category, n) in CategoryDifferences(category, c);
  }

  ghost predicate AllMatch(categories: map<Category, Comparison>)
  {
    forall c | c in categories :: Matches(categories[c])
  }

  lemma UnionMatches(some: map<Category, Comparison>, more: map<Category, Comparison>)
    requires some.Keys !! more.Keys
    ensures AllMatch(some + more) <==> AllMatch(some) && AllMatch(more)
  {
    var all := some + more;
    assert forall c | c in some :: c in all && all[c] == some[c];
    assert forall c | c in more :: c in all && all[c] == more[c];
  }

  lemma CategoriesMatch(report: Report)
    ensures AllMatch(Categories(report)) <==>
            report.structure.AllMatch() && (report.native.Some? ==> report.native.value.AllMatch())
  {
    StructuralCategoriesMatch(report.structure);
    if report.native.Some? {
      NativeCategoriesMatch(report.native.value);
      UnionMatches(StructuralCategories(report.structure), NativeCategories(report.native.value));
    }
  }

  lemma NativeCategoriesMatch(n: Native)
    ensures AllMatch(NativeCategories(n)) <==> n.AllMatch()
  {
    var categories := NativeCategories(n);
    assert categories[NativeRecords] == n.records && categories[NativeFields] == n.fields
        && categories[NativeConstants] == n.constants && categories[NativeEnums] == n.enums
        && categories[NativeVariants] == n.variants;
  }

  lemma StructuralCategoriesMatch(s: Structure)
    ensures AllMatch(StructuralCategories(s)) <==> s.AllMatch()
  {
    var categories := StructuralCategories(s);
    assert categories[Functions] == s.functions && categories[Globals] == s.globals
        && categories[Constants] == s.constants && categories[Aliases] == s.aliases
        && categories[RecordShapes] == s.recordShapes && categories[EnumShapes] == s.enumShapes
        && categories[EnumConstants] == s.enumConstants;
  }
}
