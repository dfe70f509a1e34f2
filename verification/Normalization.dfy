/** Rewriting the right inventory through a record pairing. */
module Normalization {
  import opened Shapes
  import opened BindingApi

  ghost predicate Injective(m: map<string, string>)
  {
    forall a, b | a in m && b in m && m[a] == m[b] :: a == b
  }

  function Inverse(m: map<string, string>): (inverse: map<string, string>)
    requires Injective(m)
    ensures forall a | a in m :: m[a] in inverse && inverse[m[a]] == a
  {
    map a | a in m :: m[a] := a
  }

  /** What record matching guarantees of its pairing. */
  ghost predicate Pairing(left: Api, right: Api, pairs: map<string, string>)
  {
    && Injective(pairs)
    && pairs.Keys <= left.records.Keys && pairs.Values <= right.records.Keys
    && (forall k | k in left.records && k in right.records :: k in pairs && pairs[k] == k)
  }

  /** No record is lost: a renamed right record cannot take the name of another one. */
  lemma RenamingLosesNoRecord(left: Api, right: Api, pairs: map<string, string>, j: string, k: string)
    requires Pairing(left, right, pairs)
    requires j in right.records && k in right.records && j != k
    ensures Lookup(Inverse(pairs), j) != Lookup(Inverse(pairs), k)
  {
    var inverse := Inverse(pairs);
    assert forall i | i in inverse :: inverse[i] in left.records && pairs[inverse[i]] == i;
    assert forall i | i in right.records && i in left.records :: i in inverse && inverse[i] == i by {
      assert forall i | i in right.records && i in left.records :: i in pairs && pairs[i] == i;
    }
  }

  function RenameFields(fields: seq<Field>, inverse: map<string, string>): seq<Field>
  {
    seq(|fields|, i requires 0 <= i < |fields| => fields[i].(shape := Rename(fields[i].shape, inverse)))
  }

  function RenameRecord(record: RecordDecl, inverse: map<string, string>): RecordDecl
  {
    record.(fields := RenameFields(record.fields, inverse))
  }

  function RenameShapes(shapes: map<string, Shape>, inverse: map<string, string>): map<string, Shape>
  {
    map k | k in shapes :: Rename(shapes[k], inverse)
  }

  function RenameExports(exports: seq<Export>, inverse: map<string, string>): seq<Export>
  {
    seq(|exports|, i requires 0 <= i < |exports| => exports[i].(shape := Rename(exports[i].shape, inverse)))
  }

  function RenameCategory(exports: map<string, seq<Export>>, inverse: map<string, string>): map<string, seq<Export>>
  {
    map s | s in exports :: RenameExports(exports[s], inverse)
  }

  function RenameConstants(constants: map<string, Constant>, inverse: map<string, string>): map<string, Constant>
  {
    map k | k in constants :: constants[k].(shape := Rename(constants[k].shape, inverse))
  }

  /** A right record in its final form: renamed shapes, and keywords unescaped where the left record has them. */
  function NormalizedRecord(left: Api, key: string, record: RecordDecl, inverse: map<string, string>): RecordDecl
  {
    var renamed := RenameRecord(record, inverse);
    if key in left.records
    then renamed.(fields := CanonicalFields(renamed.fields, FieldNames(left.records[key].fields)))
    else renamed
  }

  ghost predicate IsNormalized(left: Api, right: Api, pairs: map<string, string>, b: Api)
    requires Injective(pairs)
  {
    var inverse := Inverse(pairs);
    && (forall k | k in right.records ::
          Lookup(inverse, k) in b.records &&
          b.records[Lookup(inverse, k)] == NormalizedRecord(left, Lookup(inverse, k), right.records[k], inverse))
    && (forall n | n in b.records :: exists k :: k in right.records && Lookup(inverse, k) == n)
    && b.aliases == RenameShapes(right.aliases, inverse)
    && b.functions == RenameCategory(right.functions, inverse)
    && b.globals == RenameCategory(right.globals, inverse)
    && b.constants == RenameConstants(right.constants, inverse)
    && b.enums == right.enums && b.unsupported == right.unsupported
  }

  datatype FieldRename = FieldRename(record: string, bindgen: string, toucan: string)

  /** r reports the unescaping of a keyword among these fields. */
  ghost predicate Unescapes(fields: seq<Field>, names: set<string>, r: FieldRename)
  {
    exists f | f in fields :: r.bindgen == f.name && r.toucan == FieldName(f.name, names) && r.toucan != r.bindgen
  }

  lemma RenamingKeepsFieldNames(fields: seq<Field>, inverse: map<string, string>, names: set<string>, r: FieldRename)
    ensures Unescapes(RenameFields(fields, inverse), names, r) <==> Unescapes(fields, names, r)
  {
    var renamed := RenameFields(fields, inverse);
    assert forall i | 0 <= i < |fields| :: renamed[i] in renamed && fields[i] in fields && renamed[i].name == fields[i].name;
  }

  /** Unescape the keywords of one record in place, noting each change. */
  method CanonicalizeFields(key: string, fields: seq<Field>, names: set<string>)
    returns (canonical: seq<Field>, renames: seq<FieldRename>)
    ensures canonical == CanonicalFields(fields, names)
    ensures forall r :: r in renames <==> r.record == key && Unescapes(fields, names, r)
  {
    canonical, renames := fields, [];
    for i := 0 to |fields|
      invariant |canonical| == |fields|
      invariant forall j | 0 <= j < |fields| ::
                  canonical[j] == if j < i then fields[j].(name := FieldName(fields[j].name, names)) else fields[j]
      invariant forall r :: r in renames <==> r.record == key && Unescapes(fields[..i], names, r)
    {
      var name := FieldName(canonical[i].name, names);
      assert fields[..i + 1] == fields[..i] + [fields[i]];
      if name != canonical[i].name {
        renames := renames + [FieldRename(key, canonical[i].name, name)];
        canonical := canonical[i := canonical[i].(name := name)];
      }
    }
    assert fields[..|fields|] == fields;
  }

  method RenameRecords(left: Api, right: Api, pairs: map<string, string>)
    returns (records: map<string, RecordDecl>, ghost source: map<string, string>)
    requires Pairing(left, right, pairs)
    ensures records.Keys == source.Keys
    ensures forall n | n in records ::
              source[n] in right.records && Lookup(Inverse(pairs), source[n]) == n &&
              records[n] == RenameRecord(right.records[source[n]], Inverse(pairs))
    ensures forall k | k in right.records ::
              Lookup(Inverse(pairs), k) in records && source[Lookup(Inverse(pairs), k)] == k
  {
    var inverse := Inverse(pairs);
    records, source := map[], map[];
    var todo := right.records.Keys;
    while todo != {}
      invariant todo <= right.records.Keys
      invariant records.Keys == source.Keys
      invariant forall n | n in records ::
                  source[n] in right.records.Keys - todo && Lookup(inverse, source[n]) == n &&
                  records[n] == RenameRecord(right.records[source[n]], inverse)
      invariant forall k | k in right.records.Keys - todo ::
                  Lookup(inverse, k) in records && source[Lookup(inverse, k)] == k
      decreases todo
    {
      var k :| k in todo;
      forall j | j in right.records && j != k ensures Lookup(inverse, j) != Lookup(inverse, k) {
        RenamingLosesNoRecord(left, right, pairs, j, k);
      }
      records := records[Lookup(inverse, k) := RenameRecord(right.records[k], inverse)];
      source := source[Lookup(inverse, k) := k];
      todo := todo - {k};
    }
  }

  method CanonicalizeRecords(left: Api, renamed: map<string, RecordDecl>)
    returns (records: map<string, RecordDecl>, renames: seq<FieldRename>)
    ensures records.Keys == renamed.Keys
    ensures forall n | n in renamed ::
              records[n] == if n in left.records
                then renamed[n].(fields := CanonicalFields(renamed[n].fields, FieldNames(left.records[n].fields)))
                else renamed[n]
    ensures forall r :: r in renames <==>
              r.record in left.records && r.record in renamed &&
              Unescapes(renamed[r.record].fields, FieldNames(left.records[r.record].fields), r)
  {
    records, renames := renamed, [];
    var shared := left.records.Keys * renamed.Keys;
    var todo := shared;
    while todo != {}
      invariant todo <= shared && records.Keys == renamed.Keys
      invariant forall n | n in renamed ::
                  records[n] == if n in shared - todo
                    then renamed[n].(fields := CanonicalFields(renamed[n].fields, FieldNames(left.records[n].fields)))
                    else renamed[n]
      invariant forall r :: r in renames <==>
                  r.record in shared - todo &&
                  Unescapes(renamed[r.record].fields, FieldNames(left.records[r.record].fields), r)
      decreases todo
    {
      var key :| key in todo;
      var fields, changes := CanonicalizeFields(key, records[key].fields, FieldNames(left.records[key].fields));
      records := records[key := records[key].(fields := fields)];
      renames := renames + changes;
      todo := todo - {key};
    }
  }

  /** r reports the unescaping of a keyword in the right counterpart of a left record. */
  ghost predicate IsRename(left: Api, right: Api, inverse: map<string, string>, r: FieldRename)
  {
    r.record in left.records &&
    exists k | k in right.records && Lookup(inverse, k) == r.record ::
      Unescapes(right.records[k].fields, FieldNames(left.records[r.record].fields), r)
  }

  method Normalize(left: Api, right: Api, pairs: map<string, string>)
    returns (a: Api, b: Api, renames: seq<FieldRename>)
    requires Pairing(left, right, pairs)
    ensures a == left && IsNormalized(left, right, pairs, b)
    ensures forall r :: r in renames <==> IsRename(left, right, Inverse(pairs), r)
  {
    var inverse := Inverse(pairs);
    var renamed, source := RenameRecords(left, right, pairs);
    var records;
    records, renames := CanonicalizeRecords(left, renamed);
    a := left;
    b := Api(records, RenameShapes(right.aliases, inverse), RenameCategory(right.functions, inverse),
             RenameCategory(right.globals, inverse), RenameConstants(right.constants, inverse),
             right.enums, right.unsupported);
    forall r: FieldRename | r.record in left.records ensures r in renames <==> IsRename(left, right, inverse, r) {
      var names := FieldNames(left.records[r.record].fields);
      forall k | k in right.records {
        RenamingKeepsFieldNames(right.records[k].fields, inverse, names, r);
      }
    }
  }
}
