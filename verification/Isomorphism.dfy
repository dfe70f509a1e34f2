/** When two inventories describe the same interface up to the names of their records. */
module Isomorphism {
  import opened Shapes
  import opened BindingApi
  import opened Correspondence
  import opened RecordMatcher
  import opened Normalization

  /** Same kind and opacity, and the same fields in the same order: names up to the keyword
      suffix, shapes up to the renaming. */
  ghost predicate SameRecord(x: RecordDecl, y: RecordDecl, inverse: map<string, string>)
  {
    && x.kind == y.kind && x.isOpaque == y.isOpaque && |x.fields| == |y.fields|
    && forall i | 0 <= i < |x.fields| ::
      && x.fields[i].name == FieldName(y.fields[i].name, FieldNames(x.fields))
      && x.fields[i].shape == Rename(y.fields[i].shape, inverse)
  }

  /** A bijection between all records of either side that relates only equal records. */
  ghost predicate RecordIsomorphism(left: Api, right: Api, m: map<string, string>)
  {
    && Injective(m) && m.Keys == left.records.Keys && m.Values == right.records.Keys
    && forall a | a in m :: SameRecord(left.records[a], right.records[m[a]], Inverse(m))
  }

  ghost predicate SameShapes(left: map<string, Shape>, right: map<string, Shape>, inverse: map<string, string>)
  {
    left.Keys == right.Keys && forall k | k in left :: left[k] == Rename(right[k], inverse)
  }

  /** Every symbol exports the same public names with the same types. */
  ghost predicate SameExports(left: map<string, seq<Export>>, right: map<string, seq<Export>>, inverse: map<string, string>)
  {
    left.Keys == right.Keys && forall s | s in left :: SameShapes(Group(left[s]), Group(right[s]), inverse)
  }

  ghost predicate SameConstants(left: map<string, Constant>, right: map<string, Constant>, inverse: map<string, string>)
  {
    && left.Keys == right.Keys
    && forall k | k in left ::
      left[k].shape == Rename(right[k].shape, inverse) && left[k].enumValue == right[k].enumValue
  }

  ghost predicate ApiIsomorphism(left: Api, right: Api, m: map<string, string>)
  {
    && RecordIsomorphism(left, right, m)
    && SameShapes(left.aliases, right.aliases, Inverse(m))
    && SameExports(left.functions, right.functions, Inverse(m))
    && SameExports(left.globals, right.globals, Inverse(m))
    && SameConstants(left.constants, right.constants, Inverse(m))
    && left.enums == right.enums
  }

  /** The bijection relates records that share a public name. */
  ghost predicate RespectsNames(left: Api, right: Api, m: map<string, string>)
  {
    forall p | Known(left, right, p) && ShareName(left, right, p) :: InPairs(m, p)
  }

  /** Every record can be reached from shared names and positions. */
  ghost predicate Anchored(left: Api, relation: iset<Pair>)
  {
    forall a | a in left.records :: exists p | p in relation :: p.0 == a
  }

  /** Corresponding records of renamed types are related by the renaming. */
  lemma RenamedTypesAgree(left: Api, right: Api, m: map<string, string>, l: Shape, r: Shape, p: Pair)
    requires Injective(m) && m.Values == right.records.Keys
    requires l == Rename(r, Inverse(m)) && p in ShapePairs(l, r) && Known(left, right, p)
    ensures InPairs(m, p)
  {
    RenameIffPairsAgree(l, r, Inverse(m));
    assert p.1 in Inverse(m);
  }

  lemma SharedPositionsAgree(left: Api, right: Api, m: map<string, string>, ls: map<string, Shape>, rs: map<string, Shape>, p: Pair)
    requires Injective(m) && m.Values == right.records.Keys
    requires forall n | n in ls && n in rs :: ls[n] == Rename(rs[n], Inverse(m))
    requires p in PairsAt(SharedPositions(ls, rs)) && Known(left, right, p)
    ensures InPairs(m, p)
  {
    var c: Position :| c in SharedPositions(ls, rs) && p in ShapePairs(c.1, c.2);
    RenamedTypesAgree(left, right, m, c.1, c.2, p);
  }

  /** Field lists with the same names have tables that agree wherever the lists do. */
  lemma {:induction false} FieldTablesAgree(xs: seq<Field>, ys: seq<Field>, inverse: map<string, string>)
    requires |xs| == |ys|
    requires forall i | 0 <= i < |xs| :: xs[i].name == ys[i].name && xs[i].shape == Rename(ys[i].shape, inverse)
    ensures ByName(xs).Keys == ByName(ys).Keys
    ensures forall n | n in ByName(xs) :: ByName(xs)[n] == Rename(ByName(ys)[n], inverse)
  {
    if xs == [] {
    } else {
      FieldTablesAgree(xs[..|xs| - 1], ys[..|xs| - 1], inverse);
    }
  }

  lemma FieldPositionsAgree(left: Api, right: Api, m: map<string, string>, x: RecordDecl, y: RecordDecl, q: Pair)
    requires Injective(m) && m.Values == right.records.Keys && SameRecord(x, y, Inverse(m))
    requires q in PairsAt(FieldPositions(x, y)) && Known(left, right, q)
    ensures InPairs(m, q)
  {
    var ys := CanonicalFields(y.fields, FieldNames(x.fields));
    FieldTablesAgree(x.fields, ys, Inverse(m));
    SharedPositionsAgree(left, right, m, ByName(x.fields), ByName(ys), q);
  }

  lemma IsomorphismIsClosed(left: Api, right: Api, m: map<string, string>, p: Pair, q: Pair)
    requires RecordIsomorphism(left, right, m) && InPairs(m, p) && Step(left, right, p, q)
    ensures InPairs(m, q)
  {
    StepIffPositions(left, right, p, q);
    FieldPositionsAgree(left, right, m, left.records[p.0], right.records[p.1], q);
  }

  lemma GroupsAgree(left: Api, right: Api, m: map<string, string>,
                    lgroup: map<string, Shape>, rgroup: map<string, Shape>, p: Pair)
    requires Injective(m) && m.Values == right.records.Keys
    requires lgroup.Keys != {} && SameShapes(lgroup, rgroup, Inverse(m))
    requires p in PairsAt(ExportPositions(lgroup, rgroup)) && Known(left, right, p)
    ensures InPairs(m, p)
  {
    var n :| n in lgroup.Keys;
    assert n in lgroup.Keys * rgroup.Keys;
    SharedPositionsAgree(left, right, m, lgroup, rgroup, p);
  }

  lemma ExportsAgree(left: Api, right: Api, m: map<string, string>,
                     lexports: map<string, seq<Export>>, rexports: map<string, seq<Export>>, ps: set<Pair>, p: Pair)
    requires Injective(m) && m.Values == right.records.Keys
    requires SameExports(lexports, rexports, Inverse(m))
    requires ExportSource(ExportGroups(lexports), ExportGroups(rexports), ps) && p in ps && Known(left, right, p)
    ensures InPairs(m, p)
  {
    var lgroups, rgroups := ExportGroups(lexports).value, ExportGroups(rexports).value;
    var s :| s in lgroups && s in rgroups && ps == PairsAt(ExportPositions(lgroups[s], rgroups[s]));
    assert lexports[s][0] in lexports[s] && lexports[s][0].rustName in Group(lexports[s]);
    GroupsAgree(left, right, m, Group(lexports[s]), Group(rexports[s]), p);
  }

  lemma SeedsAgree(left: Api, right: Api, m: map<string, string>, p: Pair)
    requires ApiIsomorphism(left, right, m) && RespectsNames(left, right, m) && Seed(left, right, p)
    ensures InPairs(m, p)
  {
    SeedIffSource(left, right, p);
    NamedIffShareName(left, right, p);
    var ps :| SeedSource(left, right, ps) && p in ps;
    if ps == PairsAt(SharedPositions(left.aliases, right.aliases)) {
      SharedPositionsAgree(left, right, m, left.aliases, right.aliases, p);
    } else if ExportSource(ExportGroups(left.functions), ExportGroups(right.functions), ps) {
      ExportsAgree(left, right, m, left.functions, right.functions, ps, p);
    } else if ExportSource(ExportGroups(left.globals), ExportGroups(right.globals), ps) {
      ExportsAgree(left, right, m, left.globals, right.globals, ps, p);
    }
  }

  /** Every isomorphism that respects names contains all that the matcher can derive. */
  lemma IsomorphismContainsRelation(left: Api, right: Api, m: map<string, string>)
    requires ApiIsomorphism(left, right, m) && RespectsNames(left, right, m)
    ensures forall p | p in Relation(left, right) :: InPairs(m, p)
    ensures OneToOne(Relation(left, right))
  {
    var inside := iset p | InPairs(m, p);
    forall p | Seed(left, right, p) ensures p in inside {
      SeedsAgree(left, right, m, p);
    }
    forall p, q | p in inside && Step(left, right, p, q) ensures q in inside {
      IsomorphismIsClosed(left, right, m, p, q);
    }
    CorrespondsIsLeast(left, right, inside);
  }
}
