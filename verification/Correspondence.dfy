/** The relation a record matching ought to compute, defined without reference to any
    order of discovery: the least relation that contains the pairs established by shared
    names and API positions and that is closed under corresponding fields. */
module Correspondence {
  import opened Results
  import opened Shapes
  import opened BindingApi

  predicate Known(left: Api, right: Api, p: Pair)
  {
    p.0 in left.records && p.1 in right.records
  }

  function PublicNames(key: string, record: RecordDecl): set<string>
  {
    {key, record.rustName} + set n | n in record.aliases
  }

  // What makes two records correspond, in terms of the inventories alone.

  ghost predicate IsName(records: map<string, RecordDecl>, key: string, n: string)
    requires key in records
  {
    n == key || n == records[key].rustName || n in records[key].aliases
  }

  /** A record name, Rust name or typedef is common to both. */
  ghost predicate ShareName(left: Api, right: Api, p: Pair)
    requires Known(left, right, p)
  {
    exists n :: IsName(left.records, p.0, n) && IsName(right.records, p.1, n)
  }

  /** They stand at one place of an alias of either side. */
  ghost predicate ShareAlias(left: Api, right: Api, p: Pair)
  {
    exists k :: k in left.aliases && k in right.aliases && p in ShapePairs(left.aliases[k], right.aliases[k])
  }

  /** They stand at one place of two exports of a symbol that have one public name or are the only ones. */
  ghost predicate ShareExport(left: map<string, seq<Export>>, right: map<string, seq<Export>>, p: Pair)
  {
    ValidExports(left) && ValidExports(right) && exists s, e, f :: ExportsMeet(left, right, s, e, f) && p in ShapePairs(e.shape, f.shape)
  }

  ghost predicate ExportsMeet(left: map<string, seq<Export>>, right: map<string, seq<Export>>, s: string, e: Export, f: Export)
  {
    && s in left && s in right && e in left[s] && f in right[s]
    && (e.rustName == f.rustName || (|left[s]| == 1 && |right[s]| == 1))
  }

  ghost predicate Seed(left: Api, right: Api, p: Pair)
  {
    Known(left, right, p) &&
    (ShareName(left, right, p) || ShareAlias(left, right, p) ||
     ShareExport(left.functions, right.functions, p) || ShareExport(left.globals, right.globals, p))
  }

  /** A right field has the name of a left one: its own, or with the keyword suffix of a left name. */
  ghost predicate HasNameOf(names: set<string>, name: string, other: string)
  {
    || (other == name + "_" && IsKeyword(name) && name in names)
    || (other == name && forall stem | stem in names && IsKeyword(stem) :: other != stem + "_")
  }

  /** The last fields with corresponding names, at i and j. */
  ghost predicate FieldsMeet(xs: seq<Field>, ys: seq<Field>, i: int, j: int)
  {
    && 0 <= i < |xs| && 0 <= j < |ys| && HasNameOf(FieldNames(xs), xs[i].name, ys[j].name)
    && (forall k | i < k < |xs| :: xs[k].name != xs[i].name)
    && (forall k | j < k < |ys| :: !HasNameOf(FieldNames(xs), xs[i].name, ys[k].name))
  }

  /** They stand at one place of corresponding fields. */
  ghost predicate ShareField(xs: seq<Field>, ys: seq<Field>, q: Pair)
  {
    exists i, j :: FieldsMeet(xs, ys, i, j) && q in ShapePairs(xs[i].shape, ys[j].shape)
  }

  ghost predicate Step(left: Api, right: Api, p: Pair, q: Pair)
  {
    Known(left, right, p) && Known(left, right, q) && ShareField(left.records[p.0].fields, right.records[p.1].fields, q)
  }

  // The sets of pairs and positions a run goes through.

  /** Records with a record name, Rust name or typedef in common. */
  function NamedPairs(left: Api, right: Api): set<Pair>
  {
    set a, b | a in left.records && b in right.records &&
      PublicNames(a, left.records[a]) * PublicNames(b, right.records[b]) != {} :: (a, b)
  }

  /** A named place in which both inventories have a type. */
  type Position = (string, Shape, Shape)

  function SharedPositions(left: map<string, Shape>, right: map<string, Shape>): set<Position>
  {
    set n | n in left && n in right :: (n, left[n], right[n])
  }

  /** The positions at which the exports of one symbol correspond: public names in common or,
      failing any, the only export on either side. */
  function ExportPositions(left: map<string, Shape>, right: map<string, Shape>): set<Position>
  {
    if left.Keys * right.Keys == {} && |left| == 1 && |right| == 1 then
      set n, m | n in left && m in right :: ("singleton", left[n], right[m])
    else
      SharedPositions(left, right)
  }

  function FieldPositions(x: RecordDecl, y: RecordDecl): set<Position>
  {
    var lf := ByName(x.fields);
    SharedPositions(lf, ByName(CanonicalFields(y.fields, lf.Keys)))
  }

  function PairsAt(positions: set<Position>): set<Pair>
  {
    set c, p | c in positions && p in ShapePairs(c.1, c.2) :: p
  }

  ghost predicate ExportSource(left: Result<Groups>, right: Result<Groups>, ps: set<Pair>)
  {
    && left.Ok? && right.Ok?
    && exists s | s in left.value && s in right.value :: ps == PairsAt(ExportPositions(left.value[s], right.value[s]))
  }

  /** The places from which the matching starts. */
  ghost predicate SeedSource(left: Api, right: Api, ps: set<Pair>)
  {
    || ps == NamedPairs(left, right)
    || ps == PairsAt(SharedPositions(left.aliases, right.aliases))
    || ExportSource(ExportGroups(left.functions), ExportGroups(right.functions), ps)
    || ExportSource(ExportGroups(left.globals), ExportGroups(right.globals), ps)
  }

  /** A derivation: a seed, followed by field steps. */
  ghost predicate Derivation(left: Api, right: Api, d: seq<Pair>)
  {
    && d != []
    && Seed(left, right, d[0])
    && forall i | 0 <= i < |d| - 1 :: Step(left, right, d[i], d[i + 1])
  }

  ghost predicate Corresponds(left: Api, right: Api, p: Pair)
  {
    exists d :: Derivation(left, right, d) && d[|d| - 1] == p
  }

  ghost function Relation(left: Api, right: Api): iset<Pair>
  {
    iset p | Corresponds(left, right, p)
  }

  ghost predicate OneToOne(relation: iset<Pair>)
  {
    forall p, q | p in relation && q in relation :: p.0 == q.0 <==> p.1 == q.1
  }

  lemma NamedIffShareName(left: Api, right: Api, p: Pair)
    requires Known(left, right, p)
    ensures p in NamedPairs(left, right) <==> ShareName(left, right, p)
  {
    var xs, ys := PublicNames(p.0, left.records[p.0]), PublicNames(p.1, right.records[p.1]);
    assert forall n :: n in xs <==> IsName(left.records, p.0, n);
    assert forall n :: n in ys <==> IsName(right.records, p.1, n);
    if xs * ys != {} {
      var n :| n in xs * ys;
    }
    if ShareName(left, right, p) {
      var n :| IsName(left.records, p.0, n) && IsName(right.records, p.1, n);
      assert n in xs * ys;
    }
  }

  lemma AliasIffShareAlias(left: Api, right: Api, p: Pair)
    ensures p in PairsAt(SharedPositions(left.aliases, right.aliases)) <==> ShareAlias(left, right, p)
  {
    if ShareAlias(left, right, p) {
      var k :| k in left.aliases && k in right.aliases && p in ShapePairs(left.aliases[k], right.aliases[k]);
      assert (k, left.aliases[k], right.aliases[k]) in SharedPositions(left.aliases, right.aliases);
    }
  }

  /** The positions of a symbol are those at which its exports meet. */
  lemma PositionsMeet(left: map<string, seq<Export>>, right: map<string, seq<Export>>, s: string, p: Pair)
    requires ValidExports(left) && ValidExports(right) && s in left && s in right
    ensures p in PairsAt(ExportPositions(Group(left[s]), Group(right[s]))) <==>
            exists e, f :: ExportsMeet(left, right, s, e, f) && p in ShapePairs(e.shape, f.shape)
  {
    if p in PairsAt(ExportPositions(Group(left[s]), Group(right[s]))) {
      var c :| c in ExportPositions(Group(left[s]), Group(right[s])) && p in ShapePairs(c.1, c.2);
      var e, f := MeetingExports(left, right, s, c);
    }
    if e, f :| ExportsMeet(left, right, s, e, f) && p in ShapePairs(e.shape, f.shape) {
      var c := MeetingPosition(left, right, s, e, f);
    }
  }

  lemma {:induction false} GroupSize(exports: seq<Export>)
    requires NoRepeatedNames(exports)
    ensures |Group(exports)| == |exports|
  {
    if exports == [] {
    } else {
      var (front, last) := (exports[..|exports| - 1], exports[|exports| - 1]);
      GroupSize(front);
      assert forall e | e in front :: e.rustName != last.rustName;
    }
  }

  lemma ExportOfName(exports: seq<Export>, n: string) returns (e: Export)
    requires NoRepeatedNames(exports) && n in Group(exports)
    ensures e in exports && e.rustName == n && e.shape == Group(exports)[n]
  {
    e :| e in exports && e.rustName == n;
    var i :| 0 <= i < |exports| && exports[i] == e;
    GroupHolds(exports, i);
  }

  lemma MeetingExports(left: map<string, seq<Export>>, right: map<string, seq<Export>>, s: string, c: Position)
    returns (e: Export, f: Export)
    requires ValidExports(left) && ValidExports(right) && s in left && s in right
    requires c in ExportPositions(Group(left[s]), Group(right[s]))
    ensures ExportsMeet(left, right, s, e, f) && e.shape == c.1 && f.shape == c.2
  {
    var lgroup, rgroup := Group(left[s]), Group(right[s]);
    GroupSize(left[s]);
    GroupSize(right[s]);
    var n :| n in lgroup && lgroup[n] == c.1 && ((n in rgroup && rgroup[n] == c.2) || (|left[s]| == 1 && |right[s]| == 1));
    e := ExportOfName(left[s], n);
    if n in rgroup && rgroup[n] == c.2 {
      f := ExportOfName(right[s], n);
    } else {
      var m :| m in rgroup && rgroup[m] == c.2;
      f := ExportOfName(right[s], m);
    }
  }

  lemma MeetingPosition(left: map<string, seq<Export>>, right: map<string, seq<Export>>, s: string, e: Export, f: Export)
    returns (c: Position)
    requires ValidExports(left) && ValidExports(right) && ExportsMeet(left, right, s, e, f)
    ensures c in ExportPositions(Group(left[s]), Group(right[s])) && c.1 == e.shape && c.2 == f.shape
  {
    var lgroup, rgroup := Group(left[s]), Group(right[s]);
    GroupSize(left[s]);
    GroupSize(right[s]);
    var i :| 0 <= i < |left[s]| && left[s][i] == e;
    var j :| 0 <= j < |right[s]| && right[s][j] == f;
    GroupHolds(left[s], i);
    GroupHolds(right[s], j);
    if e.rustName == f.rustName {
      assert e.rustName in lgroup.Keys * rgroup.Keys;
      c := (e.rustName, e.shape, f.shape);
    } else {
      assert lgroup.Keys == {e.rustName} && rgroup.Keys == {f.rustName};
      c := ("singleton", e.shape, f.shape);
    }
  }

  lemma ExportIffShareExport(left: map<string, seq<Export>>, right: map<string, seq<Export>>, p: Pair)
    ensures (exists ps :: ExportSource(ExportGroups(left), ExportGroups(right), ps) && p in ps) <==> ShareExport(left, right, p)
  {
    if ValidExports(left) && ValidExports(right) {
      var l, r := ExportGroups(left).value, ExportGroups(right).value;
      forall s | s in left && s in right {
        PositionsMeet(left, right, s, p);
      }
      if ShareExport(left, right, p) {
        var s, e, f :| ExportsMeet(left, right, s, e, f) && p in ShapePairs(e.shape, f.shape);
        var ps := PairsAt(ExportPositions(l[s], r[s]));
        assert ExportSource(ExportGroups(left), ExportGroups(right), ps) && p in ps;
      }
    }
  }

  /** The seeds are the known pairs of the sets a run starts with. */
  lemma SeedIffSource(left: Api, right: Api, p: Pair)
    ensures Seed(left, right, p) <==> Known(left, right, p) && exists ps :: SeedSource(left, right, ps) && p in ps
  {
    if Known(left, right, p) {
      NamedIffShareName(left, right, p);
      AliasIffShareAlias(left, right, p);
      ExportIffShareExport(left.functions, right.functions, p);
      ExportIffShareExport(left.globals, right.globals, p);
      SourceCases(left, right, p);
    }
  }

  lemma SourceCases(left: Api, right: Api, p: Pair)
    ensures (exists ps :: SeedSource(left, right, ps) && p in ps) <==>
      || p in NamedPairs(left, right) || p in PairsAt(SharedPositions(left.aliases, right.aliases))
      || (exists ps :: ExportSource(ExportGroups(left.functions), ExportGroups(right.functions), ps) && p in ps)
      || (exists ps :: ExportSource(ExportGroups(left.globals), ExportGroups(right.globals), ps) && p in ps)
  {
    assert SeedSource(left, right, NamedPairs(left, right));
    assert SeedSource(left, right, PairsAt(SharedPositions(left.aliases, right.aliases)));
  }

  /** Fields whose canonical names agree meet, and the last of them decide. */
  lemma NameIffCanonical(names: set<string>, name: string, other: string)
    requires name in names
    ensures FieldName(other, names) == name <==> HasNameOf(names, name, other)
  {
    if other == name + "_" && IsKeyword(name) {
      assert FieldName(other, names) == name;
    } else if other == name {
      if stem :| stem in names && IsKeyword(stem) && other == stem + "_" {
        assert FieldName(other, names) == stem;
        assert |stem| < |other|;
      }
    }
  }

  lemma FieldsMeetIffLast(xs: seq<Field>, ys: seq<Field>, i: nat, j: nat)
    requires i < |xs| && j < |ys|
    ensures FieldsMeet(xs, ys, i, j) <==>
      var zs := CanonicalFields(ys, FieldNames(xs));
      && zs[j].name == xs[i].name
      && (forall k | i < k < |xs| :: xs[k].name != xs[i].name)
      && (forall k | j < k < |zs| :: zs[k].name != xs[i].name)
  {
    var zs := CanonicalFields(ys, FieldNames(xs));
    assert xs[i] in xs;
    forall k | 0 <= k < |ys| ensures zs[k].name == xs[i].name <==> HasNameOf(FieldNames(xs), xs[i].name, ys[k].name) {
      NameIffCanonical(FieldNames(xs), xs[i].name, ys[k].name);
    }
  }

  lemma PositionsShareField(x: RecordDecl, y: RecordDecl, q: Pair)
    ensures q in PairsAt(FieldPositions(x, y)) <==> ShareField(x.fields, y.fields, q)
  {
    var xs, zs := x.fields, CanonicalFields(y.fields, FieldNames(x.fields));
    if q in PairsAt(FieldPositions(x, y)) {
      var c: Position :| c in FieldPositions(x, y) && q in ShapePairs(c.1, c.2);
      var i := FieldHasLast(xs, c.0);
      var j := FieldHasLast(zs, c.0);
      LastFieldWins(xs, i);
      LastFieldWins(zs, j);
      FieldsMeetIffLast(xs, y.fields, i, j);
    }
    if i: nat, j: nat :| FieldsMeet(xs, y.fields, i, j) && q in ShapePairs(xs[i].shape, y.fields[j].shape) {
      FieldsMeetIffLast(xs, y.fields, i, j);
      LastFieldWins(xs, i);
      LastFieldWins(zs, j);
      assert (xs[i].name, xs[i].shape, zs[j].shape) in FieldPositions(x, y);
    }
  }

  lemma StepIffPositions(left: Api, right: Api, p: Pair, q: Pair)
    ensures Step(left, right, p, q) <==>
      Known(left, right, p) && Known(left, right, q) && q in PairsAt(FieldPositions(left.records[p.0], right.records[p.1]))
  {
    if Known(left, right, p) {
      PositionsShareField(left.records[p.0], right.records[p.1], q);
    }
  }

  lemma SeedCorresponds(left: Api, right: Api, p: Pair)
    requires Seed(left, right, p)
    ensures Corresponds(left, right, p)
  {
    assert Derivation(left, right, [p]);
    assert [p][|[p]| - 1] == p;
  }

  lemma StepCorresponds(left: Api, right: Api, p: Pair, q: Pair)
    requires Corresponds(left, right, p) && Step(left, right, p, q)
    ensures Corresponds(left, right, q)
  {
    var d :| Derivation(left, right, d) && d[|d| - 1] == p;
    assert Derivation(left, right, d + [q]);
    assert (d + [q])[|d + [q]| - 1] == q;
  }

  /** Corresponds contains the seeds and is closed (above); it is contained in every set that is. */
  lemma {:induction false} CorrespondsIsLeast(left: Api, right: Api, s: iset<Pair>)
    requires forall p | Seed(left, right, p) :: p in s
    requires forall p, q | p in s && Step(left, right, p, q) :: q in s
    ensures forall p | Corresponds(left, right, p) :: p in s
  {
    forall p | Corresponds(left, right, p) ensures p in s {
      var d :| Derivation(left, right, d) && d[|d| - 1] == p;
      DerivationStaysInside(left, right, s, d, |d| - 1);
    }
  }

  lemma {:induction false} DerivationStaysInside(left: Api, right: Api, s: iset<Pair>, d: seq<Pair>, i: nat)
    requires Derivation(left, right, d) && i < |d|
    requires forall p | Seed(left, right, p) :: p in s
    requires forall p, q | p in s && Step(left, right, p, q) :: q in s
    ensures d[i] in s
  {
    if i == 0 {
    } else {
      DerivationStaysInside(left, right, s, d, i - 1);
      assert Step(left, right, d[i - 1], d[i - 1 + 1]);
    }
  }

  lemma CorrespondsIsKnown(left: Api, right: Api, p: Pair)
    requires Corresponds(left, right, p)
    ensures Known(left, right, p)
  {
    CorrespondsIsLeast(left, right, iset q | Known(left, right, q));
  }

  lemma RelationContains(left: Api, right: Api)
    ensures forall p | Seed(left, right, p) :: p in Relation(left, right)
    ensures forall p | Known(left, right, p) && ShareName(left, right, p) :: p in Relation(left, right)
    ensures forall k | k in left.records && k in right.records :: (k, k) in Relation(left, right)
    ensures forall p, q | p in Relation(left, right) && Step(left, right, p, q) :: q in Relation(left, right)
    ensures forall p | p in Relation(left, right) :: Known(left, right, p)
  {
    forall p | Seed(left, right, p) ensures p in Relation(left, right) {
      SeedCorresponds(left, right, p);
    }
    forall p | Known(left, right, p) && ShareName(left, right, p) ensures p in Relation(left, right) {
      SeedCorresponds(left, right, p);
    }
    forall k | k in left.records && k in right.records ensures (k, k) in Relation(left, right) {
      assert IsName(left.records, k, k) && IsName(right.records, k, k);
      assert ShareName(left, right, (k, k));
    }
    forall p, q | p in Relation(left, right) && Step(left, right, p, q) ensures q in Relation(left, right) {
      StepCorresponds(left, right, p, q);
    }
    forall p | p in Relation(left, right) ensures Known(left, right, p) {
      CorrespondsIsKnown(left, right, p);
    }
  }
}
