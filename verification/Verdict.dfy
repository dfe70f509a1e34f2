/** The comparison report and its verdict. */
module Verdict {
  import opened Results
  import opened Shapes
  import opened BindingApi
  import opened Correspondence
  import opened RecordMatcher
  import opened RecordPairing
  import opened Normalization
  import opened Isomorphism
  import opened NativeProbes

  datatype Compared<K(==)> = Comparison(common: nat, equal: int, toucanOnly: set<K>, bindgenOnly: set<K>, different: set<K>)

  type Comparison = Compared<string>

  function CompareMaps<K(==), T(==)>(left: map<K, T>, right: map<K, T>): Compared<K>
  {
    var common := left.Keys * right.Keys;
    var different := set k | k in common && left[k] != right[k];
    Comparison(|common|, |common| - |different|, left.Keys - right.Keys, right.Keys - left.Keys, different)
  }

  predicate Matches<K(==)>(c: Compared<K>)
  {
    c.toucanOnly == {} && c.bindgenOnly == {} && c.different == {}
  }

  lemma MatchesIffEqual<K, T>(left: map<K, T>, right: map<K, T>)
    ensures Matches(CompareMaps(left, right)) <==> left == right
    ensures CompareMaps(left, right).equal == |set k | k in left && k in right && left[k] == right[k]|
  {
    var c := CompareMaps(left, right);
    var same := set k | k in left && k in right && left[k] == right[k];
    assert left.Keys * right.Keys == same + c.different && same !! c.different;
    if Matches(c) {
      assert forall k | k in left :: k !in c.toucanOnly && k !in c.different;
      assert forall k | k in right :: k !in c.bindgenOnly;
    }
  }

  /** What a comparison says: the keys of one side alone, and the shared keys with and without the same value. */
  ghost predicate Tells<K(!new)>(c: Compared<K>, left: set<K>, right: set<K>, same: K -> bool)
  {
    && (forall k :: k in c.toucanOnly <==> k in left && k !in right)
    && (forall k :: k in c.bindgenOnly <==> k in right && k !in left)
    && (forall k :: k in c.different <==> k in left && k in right && !same(k))
    && c.common == |left * right| && c.equal == |set k | k in left * right && same(k)|
  }

  ghost function EqualIn<T>(left: map<string, T>, right: map<string, T>): string -> bool
  {
    k => k in left && k in right && left[k] == right[k]
  }

  lemma ComparisonTells<K(!new), T>(left: map<K, T>, right: map<K, T>, same: K -> bool)
    requires forall k | k in left && k in right :: same(k) <==> left[k] == right[k]
    ensures Tells(CompareMaps(left, right), left.Keys, right.Keys, same)
  {
    MatchesIffEqual(left, right);
    assert (set k | k in left.Keys * right.Keys && same(k)) == set k | k in left && k in right && left[k] == right[k];
  }

  datatype RecordShape = RecordShape(kind: RecordKind, isOpaque: bool, fields: seq<Field>)

  function ShapesOf(records: map<string, RecordDecl>): map<string, RecordShape>
  {
    map k | k in records :: RecordShape(records[k].kind, records[k].isOpaque, records[k].fields)
  }

  function GroupsOf(exports: map<string, seq<Export>>): Groups
  {
    map s | s in exports :: Group(exports[s])
  }

  function ConstantShapes(constants: map<string, Constant>): map<string, Shape>
  {
    map k | k in constants :: constants[k].shape
  }

  function EnumConstants(constants: map<string, Constant>): map<string, string>
  {
    map k | k in constants && constants[k].enumValue.Some? :: constants[k].enumValue.value
  }

  /** The structural comparisons, by category. */
  datatype Structure = Structure(
    functions: Comparison, globals: Comparison, constants: Comparison, aliases: Comparison,
    recordShapes: Comparison, enumShapes: Comparison, enumConstants: Comparison)
  {
    predicate AllMatch()
    {
      && Matches(functions) && Matches(globals) && Matches(constants) && Matches(aliases)
      && Matches(recordShapes) && Matches(enumShapes) && Matches(enumConstants)
    }
  }

  function CompareApis(a: Api, b: Api): Structure
  {
    Structure(
      CompareMaps(GroupsOf(a.functions), GroupsOf(b.functions)),
      CompareMaps(GroupsOf(a.globals), GroupsOf(b.globals)),
      CompareMaps(ConstantShapes(a.constants), ConstantShapes(b.constants)),
      CompareMaps(a.aliases, b.aliases),
      CompareMaps(ShapesOf(a.records), ShapesOf(b.records)),
      CompareMaps(a.enums, b.enums),
      CompareMaps(EnumConstants(a.constants), EnumConstants(b.constants)))
  }

  lemma OutcomeIsPairing(left: Api, right: Api, pairs: map<string, string>, conflicts: seq<Conflict>)
    requires Outcome(left, right, pairs, conflicts)
    ensures Pairing(left, right, pairs)
  {
    RelationContains(left, right);
    SoundIsPairing(left, right, Relation(left, right), pairs, conflicts);
  }

  lemma SoundIsPairing(left: Api, right: Api, relation: iset<Pair>, pairs: map<string, string>, conflicts: seq<Conflict>)
    requires Sound(relation, pairs, conflicts)
    requires forall p | p in relation :: Known(left, right, p)
    requires forall k | k in left.records && k in right.records :: InPairs(pairs, (k, k))
    ensures Pairing(left, right, pairs)
  {
    forall a | a in pairs ensures a in left.records && pairs[a] in right.records {
      assert InPairs(pairs, (a, pairs[a]));
    }
    forall a, b | a in pairs && b in pairs && pairs[a] == pairs[b] ensures a == b {
      assert InPairs(pairs, (a, pairs[a])) && InPairs(pairs, (b, pairs[b])) && !Clash(pairs, (a, pairs[a]));
    }
    forall k | k in left.records && k in right.records ensures k in pairs && pairs[k] == k {
      assert InPairs(pairs, (k, k));
    }
  }

  /** The record comparison succeeds exactly when the pairing is total on both sides and pairs equal records. */
  lemma RecordShapesMatchIffIsomorphic(left: Api, right: Api, pairs: map<string, string>, b: Api)
    requires Pairing(left, right, pairs) && IsNormalized(left, right, pairs, b)
    ensures ShapesOf(left.records) == ShapesOf(b.records) <==> RecordIsomorphism(left, right, pairs)
  {
    if ShapesOf(left.records) == ShapesOf(b.records) {
      MatchingShapesAreIsomorphic(left, right, pairs, b);
    }
    if RecordIsomorphism(left, right, pairs) {
      IsomorphicShapesMatch(left, right, pairs, b);
    }
  }

  lemma MatchingShapesAreIsomorphic(left: Api, right: Api, pairs: map<string, string>, b: Api)
    requires Pairing(left, right, pairs) && IsNormalized(left, right, pairs, b)
    requires ShapesOf(left.records) == ShapesOf(b.records)
    ensures RecordIsomorphism(left, right, pairs)
  {
    forall a | a in left.records
      ensures a in pairs && SameRecord(left.records[a], right.records[pairs[a]], Inverse(pairs))
    {
      LeftRecordMatches(left, right, pairs, b, a);
    }
    forall k | k in right.records ensures k in pairs.Values {
      RightRecordMatches(left, right, pairs, b, k);
    }
    TotalPairingIsIsomorphism(left, right, pairs);
  }

  lemma TotalPairingIsIsomorphism(left: Api, right: Api, pairs: map<string, string>)
    requires Pairing(left, right, pairs)
    requires forall a | a in left.records ::
      a in pairs && SameRecord(left.records[a], right.records[pairs[a]], Inverse(pairs))
    requires forall k | k in right.records :: k in pairs.Values
    ensures RecordIsomorphism(left, right, pairs)
  {
    assert pairs.Keys == left.records.Keys;
  }

  lemma LeftRecordMatches(left: Api, right: Api, pairs: map<string, string>, b: Api, a: string)
    requires Pairing(left, right, pairs) && IsNormalized(left, right, pairs, b)
    requires ShapesOf(left.records) == ShapesOf(b.records) && a in left.records
    ensures a in pairs && SameRecord(left.records[a], right.records[pairs[a]], Inverse(pairs))
  {
    assert a in ShapesOf(b.records) && ShapesOf(left.records)[a] == ShapesOf(b.records)[a];
    NormalizedOrigin(left, right, pairs, b, a);
    SameRecordNormalizes(left, a, right.records[pairs[a]], Inverse(pairs));
  }

  /** A normalized record with a name of the left side comes from the paired right record. */
  lemma NormalizedOrigin(left: Api, right: Api, pairs: map<string, string>, b: Api, a: string)
    requires Pairing(left, right, pairs) && IsNormalized(left, right, pairs, b)
    requires a in left.records && a in b.records
    ensures a in pairs && b.records[a] == NormalizedRecord(left, a, right.records[pairs[a]], Inverse(pairs))
  {
    var k :| k in right.records && Lookup(Inverse(pairs), k) == a;
  }

  lemma RightRecordMatches(left: Api, right: Api, pairs: map<string, string>, b: Api, k: string)
    requires Pairing(left, right, pairs) && IsNormalized(left, right, pairs, b)
    requires ShapesOf(left.records) == ShapesOf(b.records) && k in right.records
    ensures k in pairs.Values
  {
    assert Lookup(Inverse(pairs), k) in ShapesOf(b.records).Keys;
    assert Lookup(Inverse(pairs), k) in ShapesOf(left.records).Keys;
  }

  lemma IsomorphicShapesMatch(left: Api, right: Api, pairs: map<string, string>, b: Api)
    requires Pairing(left, right, pairs) && IsNormalized(left, right, pairs, b)
    requires RecordIsomorphism(left, right, pairs)
    ensures ShapesOf(left.records) == ShapesOf(b.records)
  {
    forall n | n in b.records ensures n in left.records {
      NormalizedKeyIsPaired(left, right, pairs, b, n);
    }
    forall a | a in left.records ensures SameShapeAt(left.records, b.records, a) {
      IsomorphicRecordMatches(left, right, pairs, b, a);
    }
    EqualShapes(left.records, b.records);
  }

  ghost predicate SameShapeAt(left: map<string, RecordDecl>, right: map<string, RecordDecl>, a: string)
  {
    a in left && a in right && ShapesOf(left)[a] == ShapesOf(right)[a]
  }

  lemma EqualShapes(left: map<string, RecordDecl>, right: map<string, RecordDecl>)
    requires forall a | a in left :: SameShapeAt(left, right, a)
    requires forall a | a in right :: a in left
    ensures ShapesOf(left) == ShapesOf(right)
  {
    assert forall a | a in left :: a in right;
    assert ShapesOf(left).Keys == left.Keys && ShapesOf(right).Keys == right.Keys;
  }

  lemma NormalizedKeyIsPaired(left: Api, right: Api, pairs: map<string, string>, b: Api, n: string)
    requires Pairing(left, right, pairs) && IsNormalized(left, right, pairs, b)
    requires RecordIsomorphism(left, right, pairs) && n in b.records
    ensures n in left.records
  {
    var k :| k in right.records && Lookup(Inverse(pairs), k) == n;
    assert k in pairs.Values;
  }

  lemma IsomorphicRecordMatches(left: Api, right: Api, pairs: map<string, string>, b: Api, a: string)
    requires Pairing(left, right, pairs) && IsNormalized(left, right, pairs, b)
    requires RecordIsomorphism(left, right, pairs) && a in left.records
    ensures SameShapeAt(left.records, b.records, a)
  {
    assert Lookup(Inverse(pairs), pairs[a]) == a;
    SameRecordNormalizes(left, a, right.records[pairs[a]], Inverse(pairs));
  }

  lemma SameRecordNormalizes(left: Api, n: string, y: RecordDecl, inverse: map<string, string>)
    requires n in left.records
    ensures
      var (x, z) := (left.records[n], NormalizedRecord(left, n, y, inverse));
      SameRecord(x, y, inverse) <==> x.kind == z.kind && x.isOpaque == z.isOpaque && x.fields == z.fields
  {
    var x, z := left.records[n], NormalizedRecord(left, n, y, inverse);
    assert |z.fields| == |y.fields|;
    assert forall i | 0 <= i < |y.fields| ::
      z.fields[i] == Field(FieldName(y.fields[i].name, FieldNames(x.fields)), Rename(y.fields[i].shape, inverse));
  }

  lemma {:induction false} GroupRenames(exports: seq<Export>, inverse: map<string, string>)
    ensures Group(RenameExports(exports, inverse)) == RenameShapes(Group(exports), inverse)
  {
    if exports == [] {
    } else {
      var k := |exports| - 1;
      var renamed := RenameExports(exports, inverse);
      GroupRenames(exports[..k], inverse);
      assert renamed[..k] == RenameExports(exports[..k], inverse);
      RenameUpdates(Group(exports[..k]), exports[k].rustName, exports[k].shape, inverse);
    }
  }

  lemma RenameUpdates(shapes: map<string, Shape>, n: string, shape: Shape, inverse: map<string, string>)
    ensures RenameShapes(shapes[n := shape], inverse) == RenameShapes(shapes, inverse)[n := Rename(shape, inverse)]
  {
  }

  lemma ExportsMatchIffSame(left: map<string, seq<Export>>, right: map<string, seq<Export>>, inverse: map<string, string>)
    ensures GroupsOf(left) == GroupsOf(RenameCategory(right, inverse)) <==> SameExports(left, right, inverse)
  {
    var renamed := RenameCategory(right, inverse);
    assert GroupsOf(left).Keys == left.Keys && GroupsOf(renamed).Keys == right.Keys;
    if left.Keys == right.Keys {
      assert GroupsOf(left) == GroupsOf(renamed) <==> forall s | s in left :: Group(left[s]) == Group(renamed[s]);
      forall s | s in left {
        GroupMatchesIffSame(left[s], right[s], inverse);
      }
    }
  }

  lemma GroupMatchesIffSame(left: seq<Export>, right: seq<Export>, inverse: map<string, string>)
    ensures Group(left) == Group(RenameExports(right, inverse)) <==> SameShapes(Group(left), Group(right), inverse)
  {
    GroupRenames(right, inverse);
    ShapesMatchIffSame(Group(left), Group(right), inverse);
  }

  lemma ShapesMatchIffSame(left: map<string, Shape>, right: map<string, Shape>, inverse: map<string, string>)
    ensures left == RenameShapes(right, inverse) <==> SameShapes(left, right, inverse)
  {
    assert RenameShapes(right, inverse).Keys == right.Keys;
    if left == RenameShapes(right, inverse) {
      assert forall k | k in left :: left[k] == RenameShapes(right, inverse)[k];
    }
  }

  lemma ConstantsMatchIffSame(left: map<string, Constant>, right: map<string, Constant>, inverse: map<string, string>)
    ensures
      var renamed := RenameConstants(right, inverse);
      (ConstantShapes(left) == ConstantShapes(renamed) && EnumConstants(left) == EnumConstants(renamed)) <==>
      SameConstants(left, right, inverse)
  {
    var renamed := RenameConstants(right, inverse);
    assert ConstantShapes(left).Keys == left.Keys && ConstantShapes(renamed).Keys == right.Keys;
    if left.Keys == right.Keys {
      assert ConstantShapes(left) == ConstantShapes(renamed) <==>
             forall k | k in left :: left[k].shape == Rename(right[k].shape, inverse);
      EnumConstantsMatch(left, renamed);
    }
  }

  lemma EnumConstantsMatch(left: map<string, Constant>, right: map<string, Constant>)
    requires left.Keys == right.Keys
    ensures EnumConstants(left) == EnumConstants(right) <==> forall k | k in left :: left[k].enumValue == right[k].enumValue
  {
    var l, r := EnumConstants(left), EnumConstants(right);
    if l == r {
      forall k | k in left ensures left[k].enumValue == right[k].enumValue {
        assert (k in l <==> k in r) && (k in l ==> l[k] == r[k]);
      }
    }
    if forall k | k in left :: left[k].enumValue == right[k].enumValue {
      assert l.Keys == r.Keys;
    }
  }

  /** All structural comparisons match exactly when the pairing is an isomorphism of the interfaces. */
  lemma StructureMatchesIffIsomorphic(left: Api, right: Api, pairs: map<string, string>, b: Api)
    requires Pairing(left, right, pairs) && IsNormalized(left, right, pairs, b)
    ensures CompareApis(left, b).AllMatch() <==> ApiIsomorphism(left, right, pairs)
  {
    var inverse := Inverse(pairs);
    MatchesIffEqual(GroupsOf(left.functions), GroupsOf(b.functions));
    MatchesIffEqual(GroupsOf(left.globals), GroupsOf(b.globals));
    MatchesIffEqual(ConstantShapes(left.constants), ConstantShapes(b.constants));
    MatchesIffEqual(left.aliases, b.aliases);
    MatchesIffEqual(ShapesOf(left.records), ShapesOf(b.records));
    MatchesIffEqual(left.enums, b.enums);
    MatchesIffEqual(EnumConstants(left.constants), EnumConstants(b.constants));
    RecordShapesMatchIffIsomorphic(left, right, pairs, b);
    ShapesMatchIffSame(left.aliases, right.aliases, inverse);
    ExportsMatchIffSame(left.functions, right.functions, inverse);
    ExportsMatchIffSame(left.globals, right.globals, inverse);
    ConstantsMatchIffSame(left.constants, right.constants, inverse);
  }

  // What the comparisons of the normalized inventories say of the original ones.

  ghost function RenamedKeys(right: Api, inverse: map<string, string>): set<string>
  {
    set k | k in right.records :: Lookup(inverse, k)
  }

  /** Some right record takes this name and equals the left record of the name. */
  ghost predicate SameAs(left: Api, right: Api, inverse: map<string, string>, a: string)
  {
    a in left.records && exists k :: k in right.records && Lookup(inverse, k) == a && SameRecord(left.records[a], right.records[k], inverse)
  }

  ghost function EnumNames(constants: map<string, Constant>): set<string>
  {
    set k | k in constants && constants[k].enumValue.Some?
  }

  ghost predicate StructureTells(left: Api, right: Api, inverse: map<string, string>, s: Structure)
  {
    && Tells(s.functions, left.functions.Keys, right.functions.Keys, n =>
         n in left.functions && n in right.functions && SameShapes(Group(left.functions[n]), Group(right.functions[n]), inverse))
    && Tells(s.globals, left.globals.Keys, right.globals.Keys, n =>
         n in left.globals && n in right.globals && SameShapes(Group(left.globals[n]), Group(right.globals[n]), inverse))
    && Tells(s.constants, left.constants.Keys, right.constants.Keys, n =>
         n in left.constants && n in right.constants && left.constants[n].shape == Rename(right.constants[n].shape, inverse))
    && Tells(s.aliases, left.aliases.Keys, right.aliases.Keys, n =>
         n in left.aliases && n in right.aliases && left.aliases[n] == Rename(right.aliases[n], inverse))
    && Tells(s.recordShapes, left.records.Keys, RenamedKeys(right, inverse), n => SameAs(left, right, inverse, n))
    && Tells(s.enumShapes, left.enums.Keys, right.enums.Keys, n =>
         n in left.enums && n in right.enums && left.enums[n] == right.enums[n])
    && Tells(s.enumConstants, EnumNames(left.constants), EnumNames(right.constants), n =>
         n in left.constants && n in right.constants && left.constants[n].enumValue == right.constants[n].enumValue)
  }

  lemma ExportsTell(left: map<string, seq<Export>>, right: map<string, seq<Export>>, inverse: map<string, string>)
    ensures Tells(CompareMaps(GroupsOf(left), GroupsOf(RenameCategory(right, inverse))), left.Keys, right.Keys, n =>
              n in left && n in right && SameShapes(Group(left[n]), Group(right[n]), inverse))
  {
    var l, r := GroupsOf(left), GroupsOf(RenameCategory(right, inverse));
    var same := (n: string) => n in left && n in right && SameShapes(Group(left[n]), Group(right[n]), inverse);
    forall n | n in l && n in r ensures same(n) <==> l[n] == r[n] {
      GroupMatchesIffSame(left[n], right[n], inverse);
    }
    assert l.Keys == left.Keys && r.Keys == right.Keys;
    ComparisonTells(l, r, same);
  }

  lemma ConstantsTell(left: map<string, Constant>, right: map<string, Constant>, inverse: map<string, string>)
    ensures Tells(CompareMaps(ConstantShapes(left), ConstantShapes(RenameConstants(right, inverse))), left.Keys, right.Keys, n =>
              n in left && n in right && left[n].shape == Rename(right[n].shape, inverse))
  {
    var l, r := ConstantShapes(left), ConstantShapes(RenameConstants(right, inverse));
    assert l.Keys == left.Keys && r.Keys == right.Keys;
    ComparisonTells(l, r, (n: string) => n in left && n in right && left[n].shape == Rename(right[n].shape, inverse));
  }

  lemma EnumConstantsTell(left: map<string, Constant>, right: map<string, Constant>, inverse: map<string, string>)
    ensures Tells(CompareMaps(EnumConstants(left), EnumConstants(RenameConstants(right, inverse))), EnumNames(left), EnumNames(right), n =>
              n in left && n in right && left[n].enumValue == right[n].enumValue)
  {
    var l, r := EnumConstants(left), EnumConstants(RenameConstants(right, inverse));
    assert l.Keys == EnumNames(left) && r.Keys == EnumNames(right);
    ComparisonTells(l, r, (n: string) => n in left && n in right && left[n].enumValue == right[n].enumValue);
  }

  lemma AliasesTell(left: map<string, Shape>, right: map<string, Shape>, inverse: map<string, string>)
    ensures Tells(CompareMaps(left, RenameShapes(right, inverse)), left.Keys, right.Keys, n =>
              n in left && n in right && left[n] == Rename(right[n], inverse))
  {
    var r := RenameShapes(right, inverse);
    assert r.Keys == right.Keys;
    ComparisonTells(left, r, (n: string) => n in left && n in right && left[n] == Rename(right[n], inverse));
  }

  lemma SameAsIffSameShape(left: Api, right: Api, pairs: map<string, string>, b: Api, n: string)
    requires Pairing(left, right, pairs) && IsNormalized(left, right, pairs, b) && n in left.records && n in b.records
    ensures SameAs(left, right, Inverse(pairs), n) <==> ShapesOf(left.records)[n] == ShapesOf(b.records)[n]
  {
    NormalizedOrigin(left, right, pairs, b, n);
    forall k | k in right.records && Lookup(Inverse(pairs), k) == n {
      SameRecordNormalizes(left, n, right.records[k], Inverse(pairs));
    }
    assert Lookup(Inverse(pairs), pairs[n]) == n;
  }

  lemma RecordsTell(left: Api, right: Api, pairs: map<string, string>, b: Api)
    requires Pairing(left, right, pairs) && IsNormalized(left, right, pairs, b)
    ensures Tells(CompareMaps(ShapesOf(left.records), ShapesOf(b.records)), left.records.Keys, RenamedKeys(right, Inverse(pairs)),
                  n => SameAs(left, right, Inverse(pairs), n))
  {
    var l, r := ShapesOf(left.records), ShapesOf(b.records);
    var same := (n: string) => SameAs(left, right, Inverse(pairs), n);
    forall n | n in l && n in r ensures same(n) <==> l[n] == r[n] {
      SameAsIffSameShape(left, right, pairs, b, n);
    }
    RenamedKeysAreKeys(left, right, pairs, b);
    assert l.Keys == left.records.Keys && r.Keys == b.records.Keys;
    ComparisonTells(l, r, same);
  }

  lemma RenamedKeysAreKeys(left: Api, right: Api, pairs: map<string, string>, b: Api)
    requires Injective(pairs) && IsNormalized(left, right, pairs, b)
    ensures b.records.Keys == RenamedKeys(right, Inverse(pairs))
  {
  }

  /** Every category lists exactly the entries of one side alone and the shared ones that differ up to the
      pairing of records. */
  lemma StructureTellsDifferences(left: Api, right: Api, pairs: map<string, string>, b: Api)
    requires Pairing(left, right, pairs) && IsNormalized(left, right, pairs, b)
    ensures StructureTells(left, right, Inverse(pairs), CompareApis(left, b))
  {
    var inverse := Inverse(pairs);
    ExportsTell(left.functions, right.functions, inverse);
    ExportsTell(left.globals, right.globals, inverse);
    ConstantsTell(left.constants, right.constants, inverse);
    AliasesTell(left.aliases, right.aliases, inverse);
    RecordsTell(left, right, pairs, b);
    ComparisonTells(left.enums, right.enums, n => n in left.enums && n in right.enums && left.enums[n] == right.enums[n]);
    EnumConstantsTell(left.constants, right.constants, inverse);
  }

  /** Some renaming of the right records makes the interfaces equal. */
  ghost predicate SameInterface(left: Api, right: Api)
  {
    exists m: map<string, string> :: ApiIsomorphism(left, right, m) && RespectsNames(left, right, m)
  }

  /** The structural verdict, independently of the matching: there is a name-respecting isomorphism,
      and shared names and positions determine it. */
  lemma StructuralVerdict(left: Api, right: Api, pairs: map<string, string>, conflicts: seq<Conflict>, b: Api)
    requires Outcome(left, right, pairs, conflicts)
    requires Injective(pairs) && IsNormalized(left, right, pairs, b)
    ensures conflicts == [] && CompareApis(left, b).AllMatch()
            <==> SameInterface(left, right) && Anchored(left, Relation(left, right))
  {
    OutcomeIsPairing(left, right, pairs, conflicts);
    StructureMatchesIffIsomorphic(left, right, pairs, b);
    if conflicts == [] && ApiIsomorphism(left, right, pairs) {
      OutcomeDecidesOneToOne(left, right, pairs, conflicts);
      RelationContains(left, right);
      MatchedIsSame(left, right, Relation(left, right), pairs);
    }
    if SameInterface(left, right) && Anchored(left, Relation(left, right)) {
      SameIsMatched(left, right, pairs, conflicts);
    }
  }

  lemma SameIsMatched(left: Api, right: Api, pairs: map<string, string>, conflicts: seq<Conflict>)
    requires Outcome(left, right, pairs, conflicts)
    requires SameInterface(left, right) && Anchored(left, Relation(left, right))
    ensures conflicts == [] && ApiIsomorphism(left, right, pairs)
  {
    var m :| ApiIsomorphism(left, right, m) && RespectsNames(left, right, m);
    IsomorphismIsMatched(left, right, pairs, conflicts, m);
  }

  /** An anchored isomorphism is the one the matcher finds. */
  lemma IsomorphismIsMatched(left: Api, right: Api, pairs: map<string, string>, conflicts: seq<Conflict>, m: map<string, string>)
    requires Outcome(left, right, pairs, conflicts)
    requires ApiIsomorphism(left, right, m) && RespectsNames(left, right, m) && Anchored(left, Relation(left, right))
    ensures conflicts == [] && pairs == m
  {
    IsomorphismContainsRelation(left, right, m);
    OutcomeDecidesOneToOne(left, right, pairs, conflicts);
    AnchoredIsPairing(left, Relation(left, right), pairs, m);
  }

  lemma MatchedIsSame(left: Api, right: Api, relation: iset<Pair>, pairs: map<string, string>)
    requires forall p :: InPairs(pairs, p) <==> p in relation
    requires forall p | Known(left, right, p) && ShareName(left, right, p) :: p in relation
    requires ApiIsomorphism(left, right, pairs)
    ensures SameInterface(left, right) && Anchored(left, relation)
  {
    assert RespectsNames(left, right, pairs);
    forall a | a in left.records ensures exists p | p in relation :: p.0 == a {
      assert InPairs(pairs, (a, pairs[a]));
    }
  }

  lemma AnchoredIsPairing(left: Api, relation: iset<Pair>, pairs: map<string, string>, m: map<string, string>)
    requires forall p :: InPairs(pairs, p) <==> p in relation
    requires forall p | p in relation :: InPairs(m, p)
    requires m.Keys == left.records.Keys && Anchored(left, relation)
    ensures pairs == m
  {
    forall a | a in m ensures InPairs(pairs, (a, m[a])) {
      var p :| p in relation && p.0 == a;
      assert InPairs(m, p);
    }
    forall a | a in pairs ensures InPairs(m, (a, pairs[a])) {
      assert InPairs(pairs, (a, pairs[a]));
    }
  }

  function ExcludedStorage(api: Api): map<string, seq<string>>
  {
    map r | r in api.records && api.records[r].excludedFields != [] && !api.records[r].isOpaque
      :: api.records[r].excludedFields
  }

  /** The comparisons of what compiled probes observe, by category. */
  datatype Native = Native(
    records: Comparison, fields: Comparison, constants: Comparison, enums: Comparison, variants: Comparison)
  {
    predicate AllMatch()
    {
      Matches(records) && Matches(fields) && Matches(constants) && Matches(enums) && Matches(variants)
    }
  }

  /** Variants are reported under joined names. */
  function Joined(c: Compared<(string, string)>): (joined: Comparison)
    ensures Matches(joined) <==> Matches(c)
  {
    var join := (names: set<(string, string)>) => set p | p in names :: p.0 + "::" + p.1;
    assert forall names: set<(string, string)>, p | p in names :: p.0 + "::" + p.1 in join(names);
    Comparison(c.common, c.equal, join(c.toucanOnly), join(c.bindgenOnly), join(c.different))
  }

  function CompareProbes(l: Probe, r: Probe): Native
  {
    Native(
      CompareMaps(l.records, r.records), CompareMaps(l.fields, r.fields), CompareMaps(l.constants, r.constants),
      CompareMaps(l.enums, r.enums), Joined(CompareMaps(l.variants, r.variants)))
  }

  lemma NativeMatchesIffEqual(l: Probe, r: Probe)
    ensures CompareProbes(l, r).AllMatch() <==> l == r
  {
    MatchesIffEqual(l.records, r.records);
    MatchesIffEqual(l.fields, r.fields);
    MatchesIffEqual(l.constants, r.constants);
    MatchesIffEqual(l.enums, r.enums);
    MatchesIffEqual(l.variants, r.variants);
  }

  /** A comparison of variants under their joined names. */
  ghost predicate TellsJoined(c: Comparison, left: map<(string, string), string>, right: map<(string, string), string>)
  {
    && (forall k :: k in c.toucanOnly <==> exists p :: p in left && p !in right && k == p.0 + "::" + p.1)
    && (forall k :: k in c.bindgenOnly <==> exists p :: p in right && p !in left && k == p.0 + "::" + p.1)
    && (forall k :: k in c.different <==> exists p :: p in left && p in right && left[p] != right[p] && k == p.0 + "::" + p.1)
  }

  /** Every native category lists exactly the observations of one side alone and the shared ones that differ. */
  ghost predicate NativeTells(n: Native, l: Probe, r: Probe)
  {
    && Tells(n.records, l.records.Keys, r.records.Keys, EqualIn(l.records, r.records))
    && Tells(n.fields, l.fields.Keys, r.fields.Keys, EqualIn(l.fields, r.fields))
    && Tells(n.constants, l.constants.Keys, r.constants.Keys, EqualIn(l.constants, r.constants))
    && Tells(n.enums, l.enums.Keys, r.enums.Keys, EqualIn(l.enums, r.enums))
    && TellsJoined(n.variants, l.variants, r.variants)
  }

  lemma JoinedTells(l: map<(string, string), string>, r: map<(string, string), string>)
    ensures TellsJoined(Joined(CompareMaps(l, r)), l, r)
  {
  }

  lemma ProbesTell(l: Probe, r: Probe)
    ensures NativeTells(CompareProbes(l, r), l, r)
  {
    ComparisonTells(l.records, r.records, EqualIn(l.records, r.records));
    ComparisonTells(l.fields, r.fields, EqualIn(l.fields, r.fields));
    ComparisonTells(l.constants, r.constants, EqualIn(l.constants, r.constants));
    ComparisonTells(l.enums, r.enums, EqualIn(l.enums, r.enums));
    JoinedTells(l.variants, r.variants);
  }

  /** What the probes of both bindings observed, unless probing was skipped. */
  type Observations = Option<(Probe, Probe)>

  /** The observations a run accepts. */
  predicate ValidProbes(left: Api, right: Api, probes: Observations)
  {
    probes.Some? ==>
      EnumsAgree(left, probes.value.0) && EnumsAgree(right, probes.value.1) && Splits(probes.value.1)
  }

  /** One comparison run. The state of the inputs comes from outside. */
  datatype Report = Report(
    structure: Structure,
    native: Option<Native>,
    pairs: map<string, string>,
    conflicts: seq<Conflict>,
    renames: seq<FieldRename>,
    toucanExcluded: map<string, seq<string>>,
    bindgenExcluded: map<string, seq<string>>,
    unsupported: bool,
    inputsUnchanged: bool,
    equivalent: bool)

  /** The native comparisons of a report: the left observations against the normalized right ones. */
  ghost predicate IsNative(right: Probe, inverse: map<string, string>, renames: seq<FieldRename>, left: Probe, native: Native)
  {
    exists normalized :: IsNormalizedProbe(right, inverse, renames, normalized) &&
      native == CompareProbes(left, normalized) && NativeTells(native, left, normalized)
  }

  ghost predicate IsNativeOf(probes: Observations, inverse: map<string, string>, renames: seq<FieldRename>, native: Option<Native>)
  {
    && (native.Some? <==> probes.Some?)
    && (probes.Some? ==> IsNative(probes.value.1, inverse, renames, probes.value.0, native.value))
  }

  /** Exactly the records with excluded fields that are not opaque, each with its fields. */
  ghost predicate ListsExcluded(api: Api, excluded: map<string, seq<string>>)
  {
    && (forall r :: r in excluded <==> r in api.records && !api.records[r].isOpaque && api.records[r].excludedFields != [])
    && (forall r | r in excluded :: excluded[r] == api.records[r].excludedFields)
  }

  /** The structural comparisons of a report: the left inventory against the normalized right one. */
  ghost predicate IsStructure(left: Api, right: Api, pairs: map<string, string>, structure: Structure)
    requires Injective(pairs)
  {
    && (exists b :: IsNormalized(left, right, pairs, b) && structure == CompareApis(left, b))
    && StructureTells(left, right, Inverse(pairs), structure)
  }

  /** The matched records, and the comparisons made through them. */
  ghost predicate IsRun(left: Api, right: Api, probes: Observations, pairs: map<string, string>, conflicts: seq<Conflict>,
                        renames: seq<FieldRename>, native: Option<Native>, structure: Structure)
  {
    && Outcome(left, right, pairs, conflicts) && Injective(pairs) && ValidProbes(left, right, probes)
    && IsStructure(left, right, pairs, structure)
    && Renames(left, right, pairs, renames) && IsNativeOf(probes, Inverse(pairs), renames, native)
  }

  /** What a report on these inventories says. */
  ghost predicate IsReport(left: Api, right: Api, probes: Observations, inputsUnchanged: bool, report: Report)
  {
    && IsRun(left, right, probes, report.pairs, report.conflicts, report.renames, report.native, report.structure)
    && Summarizes(left, right, inputsUnchanged, report)
  }

  ghost predicate Summarizes(left: Api, right: Api, inputsUnchanged: bool, report: Report)
  {
    && report.inputsUnchanged == inputsUnchanged
    && ListsExcluded(left, report.toucanExcluded) && ListsExcluded(right, report.bindgenExcluded)
    && (report.unsupported <==> left.unsupported != [] || right.unsupported != [])
    && (report.equivalent <==> CleanReport(report))
  }

  predicate CleanReport(report: Report)
  {
    && report.native.Some? && report.native.value.AllMatch()
    && report.inputsUnchanged && report.conflicts == [] && !report.unsupported
    && report.structure.AllMatch() && report.toucanExcluded == map[] && report.bindgenExcluded == map[]
  }

  method ValidateProbes(left: Api, right: Api, probes: Observations) returns (ok: bool)
    ensures ok <==> probes.Some? ==> EnumsAgree(left, probes.value.0) && EnumsAgree(right, probes.value.1)
  {
    if probes.None? {
      return true;
    }
    ok := ValidateEnumObservations(left, probes.value.0);
    if ok {
      ok := ValidateEnumObservations(right, probes.value.1);
    }
  }

  method CompareNative(probes: Observations, inverse: map<string, string>, renames: seq<FieldRename>)
    returns (result: Result<Option<Native>>)
    ensures result.Ok? <==> probes.Some? ==> Splits(probes.value.1)
    ensures result.Ok? ==> IsNativeOf(probes, inverse, renames, result.value)
  {
    if probes.None? {
      return Ok(None);
    }
    var normalized := NormalizedProbe(probes.value.1, inverse, renames);
    if normalized.Err? {
      return Err(normalized.error);
    }
    ProbesTell(probes.value.0, normalized.value);
    return Ok(Some(CompareProbes(probes.value.0, normalized.value)));
  }

  method Compare(left: Api, right: Api, probes: Observations, inputsUnchanged: bool) returns (result: Result<Report>)
    ensures result.Ok? <==> WellFormed(left) && WellFormed(right) && ValidProbes(left, right, probes)
    ensures result.Ok? ==> IsReport(left, right, probes, inputsUnchanged, result.value)
  {
    var ok := ValidateProbes(left, right, probes);
    if !ok {
      return Err("native observations disagree with the analyzer inventory");
    }
    var matched := RecordPairs(left, right);
    if matched.Err? {
      return Err(matched.error);
    }
    var (pairs, conflicts) := matched.value;
    OutcomeIsPairing(left, right, pairs, conflicts);
    result := MakeReport(left, right, probes, inputsUnchanged, pairs, conflicts);
  }

  /** The rest of a run, once the records are matched. */
  method MakeReport(left: Api, right: Api, probes: Observations, inputsUnchanged: bool,
                    pairs: map<string, string>, conflicts: seq<Conflict>) returns (result: Result<Report>)
    requires Outcome(left, right, pairs, conflicts) && Pairing(left, right, pairs)
    ensures result.Ok? <==> probes.Some? ==> Splits(probes.value.1)
    ensures result.Ok? && ValidProbes(left, right, probes) ==> IsReport(left, right, probes, inputsUnchanged, result.value)
  {
    var a, b, renames := Normalize(left, right, pairs);
    var native := CompareNative(probes, Inverse(pairs), renames);
    if native.Err? {
      return Err(native.error);
    }
    var structure := CompareApis(a, b);
    StructureTellsDifferences(left, right, pairs, b);
    ReportSummarizes(left, right, inputsUnchanged, pairs, conflicts, renames, native.value, structure);
    assert ValidProbes(left, right, probes) ==>
        IsRun(left, right, probes, pairs, conflicts, renames, native.value, structure);
    return Ok(ReportOf(left, right, inputsUnchanged, pairs, conflicts, renames, native.value, structure));
  }

  function ReportOf(left: Api, right: Api, inputsUnchanged: bool, pairs: map<string, string>, conflicts: seq<Conflict>,
                    renames: seq<FieldRename>, native: Option<Native>, structure: Structure): Report
  {
    var report := Report(structure, native, pairs, conflicts, renames, ExcludedStorage(left), ExcludedStorage(right),
                         left.unsupported != [] || right.unsupported != [], inputsUnchanged, false);
    report.(equivalent := CleanReport(report))
  }

  lemma ExclusionsAreListed(api: Api)
    ensures ListsExcluded(api, ExcludedStorage(api))
  {
  }

  lemma ReportSummarizes(left: Api, right: Api, inputsUnchanged: bool, pairs: map<string, string>, conflicts: seq<Conflict>,
                         renames: seq<FieldRename>, native: Option<Native>, structure: Structure)
    ensures Summarizes(left, right, inputsUnchanged,
                       ReportOf(left, right, inputsUnchanged, pairs, conflicts, renames, native, structure))
  {
    ExclusionsAreListed(left);
    ExclusionsAreListed(right);
  }

  /** Some renaming of the right records makes the interfaces equal, native layouts and values included. */
  ghost predicate SameNativeInterface(left: Api, right: Api, l: Probe, r: Probe)
  {
    exists m: map<string, string> ::
      ApiIsomorphism(left, right, m) && RespectsNames(left, right, m) && SameLayouts(left, right, m, l, r)
  }

  /** Under an isomorphism the native comparisons match exactly when layouts and values agree. */
  lemma NativeVerdict(left: Api, right: Api, l: Probe, r: Probe, pairs: map<string, string>, renames: seq<FieldRename>, native: Native)
    requires ApiIsomorphism(left, right, pairs) && Renames(left, right, pairs, renames)
    requires Observes(left, l) && Observes(right, r) && ValidProbes(left, right, Some((l, r)))
    requires IsNative(r, Inverse(pairs), renames, l, native)
    ensures native.AllMatch() <==> SameLayouts(left, right, pairs, l, r)
  {
    var normalized :| IsNormalizedProbe(r, Inverse(pairs), renames, normalized) && native == CompareProbes(l, normalized);
    NativeMatchesIffEqual(l, normalized);
    ProbesMatchIffSameLayouts(left, right, pairs, renames, l, r, normalized);
  }

  lemma MatchedIsNative(left: Api, right: Api, pairs: map<string, string>, conflicts: seq<Conflict>, l: Probe, r: Probe)
    requires Outcome(left, right, pairs, conflicts) && conflicts == []
    requires ApiIsomorphism(left, right, pairs) && SameLayouts(left, right, pairs, l, r)
    ensures SameNativeInterface(left, right, l, r) && Anchored(left, Relation(left, right))
  {
    OutcomeDecidesOneToOne(left, right, pairs, conflicts);
    RelationContains(left, right);
    assert RespectsNames(left, right, pairs);
    MatchedIsSame(left, right, Relation(left, right), pairs);
  }

  lemma NativeIsMatched(left: Api, right: Api, pairs: map<string, string>, conflicts: seq<Conflict>, l: Probe, r: Probe)
    requires Outcome(left, right, pairs, conflicts)
    requires SameNativeInterface(left, right, l, r) && Anchored(left, Relation(left, right))
    ensures conflicts == [] && ApiIsomorphism(left, right, pairs) && SameLayouts(left, right, pairs, l, r)
  {
    var m :| ApiIsomorphism(left, right, m) && RespectsNames(left, right, m) && SameLayouts(left, right, m, l, r);
    IsomorphismIsMatched(left, right, pairs, conflicts, m);
  }

  /** The match is clean and an isomorphism with equal layouts exactly when there is such an isomorphism at
      all, and shared names and positions determine it. */
  lemma NativeInterfaceIffMatched(left: Api, right: Api, pairs: map<string, string>, conflicts: seq<Conflict>, l: Probe, r: Probe)
    requires Outcome(left, right, pairs, conflicts) && Injective(pairs)
    ensures conflicts == [] && ApiIsomorphism(left, right, pairs) && SameLayouts(left, right, pairs, l, r)
            <==> SameNativeInterface(left, right, l, r) && Anchored(left, Relation(left, right))
  {
    if conflicts == [] && ApiIsomorphism(left, right, pairs) && SameLayouts(left, right, pairs, l, r) {
      MatchedIsNative(left, right, pairs, conflicts, l, r);
    }
    if SameNativeInterface(left, right, l, r) && Anchored(left, Relation(left, right)) {
      NativeIsMatched(left, right, pairs, conflicts, l, r);
    }
  }

  lemma FullVerdict(left: Api, right: Api, l: Probe, r: Probe, pairs: map<string, string>, renames: seq<FieldRename>,
                    b: Api, native: Native)
    requires Pairing(left, right, pairs) && IsNormalized(left, right, pairs, b) && Renames(left, right, pairs, renames)
    requires Observes(left, l) && Observes(right, r) && ValidProbes(left, right, Some((l, r)))
    requires IsNative(r, Inverse(pairs), renames, l, native)
    ensures CompareApis(left, b).AllMatch() && native.AllMatch()
            <==> ApiIsomorphism(left, right, pairs) && SameLayouts(left, right, pairs, l, r)
  {
    StructureMatchesIffIsomorphic(left, right, pairs, b);
    if ApiIsomorphism(left, right, pairs) {
      NativeVerdict(left, right, l, r, pairs, renames, native);
    }
  }

  lemma NothingExcluded(api: Api, excluded: map<string, seq<string>>)
    requires ListsExcluded(api, excluded)
    ensures excluded == map[] <==> forall r | r in api.records && !api.records[r].isOpaque :: api.records[r].excludedFields == []
  {
    if excluded != map[] {
      var r :| r in excluded;
    }
  }

  /** What the verdict of a comparison run means for the two inventories and their compiled forms. */
  lemma EquivalentMeansSameInterface(left: Api, right: Api, probes: Observations, inputsUnchanged: bool, report: Report)
    requires IsReport(left, right, probes, inputsUnchanged, report)
    requires probes.Some? ==> Observes(left, probes.value.0) && Observes(right, probes.value.1)
    ensures report.equivalent <==>
              && probes.Some? && inputsUnchanged
              && left.unsupported == [] && right.unsupported == []
              && (forall r | r in left.records && !left.records[r].isOpaque :: left.records[r].excludedFields == [])
              && (forall r | r in right.records && !right.records[r].isOpaque :: right.records[r].excludedFields == [])
              && SameNativeInterface(left, right, probes.value.0, probes.value.1)
              && Anchored(left, Relation(left, right))
  {
    NothingExcluded(left, report.toucanExcluded);
    NothingExcluded(right, report.bindgenExcluded);
    if probes.Some? {
      var (l, r) := probes.value;
      var b :| IsNormalized(left, right, report.pairs, b) && report.structure == CompareApis(left, b);
      OutcomeIsPairing(left, right, report.pairs, report.conflicts);
      FullVerdict(left, right, l, r, report.pairs, report.renames, b, report.native.value);
      NativeInterfaceIffMatched(left, right, report.pairs, report.conflicts, l, r);
    }
  }
}
