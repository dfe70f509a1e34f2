/** What compiled probes observe of two bindings, and the comparison of the observations through a
    record pairing. */
module NativeProbes {
  import opened Results
  import opened Texts
  import opened Shapes
  import opened BindingApi
  import opened Normalization
  import opened Isomorphism

  datatype Layout = Layout(size: nat, alignment: nat)

  /** Fields are keyed by record and field in one text, variants by enum and variant. */
  datatype Probe = Probe(
    records: map<string, Layout>,
    fields: map<string, nat>,
    constants: map<string, string>,
    enums: map<string, Layout>,
    variants: map<(string, string), string>)

  function FieldKey(record: string, field: string): string
  {
    record + "." + field
  }

  /** The probe program covers every record that is not opaque, with all its fields, whose names are
      identifiers or positions. */
  ghost predicate Observes(api: Api, probe: Probe)
  {
    && (forall k :: k in probe.records <==> k in api.records && !api.records[k].isOpaque)
    && (forall n :: n in probe.fields <==> exists k, i :: IsField(api, k, i) && n == FieldKey(k, api.records[k].fields[i].name))
    && (forall k, i | IsField(api, k, i) :: '.' !in api.records[k].fields[i].name)
    && (forall k, i, j | IsField(api, k, i) && IsField(api, k, j) ::
          api.records[k].fields[i].name == api.records[k].fields[j].name ==> i == j)
  }

  ghost predicate IsField(api: Api, k: string, i: int)
  {
    k in api.records && !api.records[k].isOpaque && 0 <= i < |api.records[k].fields|
  }

  function Variants(enums: map<string, Enum>): map<(string, string), string>
  {
    map p | p in (set e, v | e in enums && v in enums[e].variants :: (e, v)) :: enums[p.0].variants[p.1]
  }

  /** Compiled discriminants agree with the evaluated ones, for every enum. */
  predicate EnumsAgree(api: Api, probe: Probe)
  {
    && probe.variants == Variants(api.enums)
    && probe.enums.Keys == api.enums.Keys
    && forall n | n in api.constants && api.constants[n].enumValue.Some? ::
      n in probe.constants && probe.constants[n] == api.constants[n].enumValue.value
  }

  /** Raises when the observations contradict the inventory. */
  method ValidateEnumObservations(api: Api, probe: Probe) returns (ok: bool)
    ensures ok <==> EnumsAgree(api, probe)
  {
    if probe.variants != Variants(api.enums) || probe.enums.Keys != api.enums.Keys {
      return false;
    }
    var todo := api.constants.Keys;
    while todo != {}
      invariant todo <= api.constants.Keys
      invariant forall n | n in api.constants.Keys - todo && api.constants[n].enumValue.Some? ::
                  n in probe.constants && probe.constants[n] == api.constants[n].enumValue.value
      decreases todo
    {
      var n :| n in todo;
      var value := api.constants[n].enumValue;
      if value.Some? && (n !in probe.constants || probe.constants[n] != value.value) {
        return false;
      }
      todo := todo - {n};
    }
    return true;
  }

  /** A later entry wins. */
  function FieldMap(renames: seq<FieldRename>): map<(string, string), string>
  {
    if renames == [] then map[]
    else
      var last := renames[|renames| - 1];
      FieldMap(renames[..|renames| - 1])[(last.record, last.bindgen) := last.toucan]
  }

  function RenamedField(inverse: map<string, string>, fieldMap: map<(string, string), string>, record: string, field: string): string
  {
    var name := Lookup(inverse, record);
    FieldKey(name, if (name, field) in fieldMap then fieldMap[(name, field)] else field)
  }

  function RenamedKey(inverse: map<string, string>, fieldMap: map<(string, string), string>): string -> Option<string>
  {
    key => match SplitLast(key, '.')
      case Some((record, field)) => Some(RenamedField(inverse, fieldMap, record, field))
      case None => None
  }

  function RenamedRecord(inverse: map<string, string>): string -> Option<string>
  {
    key => Some(Lookup(inverse, key))
  }

  /** A dictionary rebuilt under other keys; of several entries with one new key, any may be the last. */
  ghost predicate IsImage<V>(before: map<string, V>, after: map<string, V>, f: string -> Option<string>)
  {
    && (forall k | k in before :: f(k).Some? && f(k).value in after)
    && (forall n | n in after :: exists k | k in before :: f(k) == Some(n) && after[n] == before[k])
  }

  /** Rebuilds a dictionary under other keys; raises on a key that has none. */
  method MapKeys<V>(before: map<string, V>, f: string -> Option<string>) returns (result: Result<map<string, V>>)
    ensures result.Ok? <==> forall k | k in before :: f(k).Some?
    ensures result.Ok? ==> IsImage(before, result.value, f)
  {
    var after: map<string, V> := map[];
    var todo := before.Keys;
    while todo != {}
      invariant todo <= before.Keys
      invariant forall k | k in before.Keys - todo :: f(k).Some? && f(k).value in after
      invariant forall n | n in after :: exists k | k in before :: f(k) == Some(n) && after[n] == before[k]
      decreases todo
    {
      var k :| k in todo;
      if f(k).None? {
        return Err("not enough values to unpack");
      }
      after := after[f(k).value := before[k]];
      todo := todo - {k};
    }
    return Ok(after);
  }

  predicate Splits(probe: Probe)
  {
    forall k | k in probe.fields :: '.' in k
  }

  ghost predicate IsNormalizedProbe(probe: Probe, inverse: map<string, string>, renames: seq<FieldRename>, result: Probe)
  {
    && IsImage(probe.records, result.records, RenamedRecord(inverse))
    && IsImage(probe.fields, result.fields, RenamedKey(inverse, FieldMap(renames)))
    && result.constants == probe.constants && result.enums == probe.enums && result.variants == probe.variants
  }

  method NormalizedProbe(probe: Probe, inverse: map<string, string>, renames: seq<FieldRename>) returns (result: Result<Probe>)
    ensures result.Ok? <==> Splits(probe)
    ensures result.Ok? ==> IsNormalizedProbe(probe, inverse, renames, result.value)
  {
    var records := MapKeys(probe.records, RenamedRecord(inverse));
    var fields := MapKeys(probe.fields, RenamedKey(inverse, FieldMap(renames)));
    if fields.Err? {
      return Err(fields.error);
    }
    return Ok(probe.(records := records.value, fields := fields.value));
  }

  lemma {:induction false} FieldMapHolds(renames: seq<FieldRename>, record: string, field: string)
    ensures (record, field) in FieldMap(renames) <==>
            exists r | r in renames :: r.record == record && r.bindgen == field
    ensures (record, field) in FieldMap(renames) ==>
              FieldRename(record, field, FieldMap(renames)[(record, field)]) in renames
  {
    if renames == [] {
    } else {
      var k := |renames| - 1;
      FieldMapHolds(renames[..k], record, field);
      assert renames == renames[..k] + [renames[k]];
    }
  }

  /** The renames reported by normalization send every field to the name it has there. */
  lemma FieldIsRenamed(left: Api, right: Api, inverse: map<string, string>, renames: seq<FieldRename>, k: string, f: Field)
    requires forall r :: r in renames <==> IsRename(left, right, inverse, r)
    requires k in right.records && f in right.records[k].fields
    ensures
      var name := Lookup(inverse, k);
      RenamedField(inverse, FieldMap(renames), k, f.name) ==
        FieldKey(name, if name in left.records then FieldName(f.name, FieldNames(left.records[name].fields)) else f.name)
  {
    var name := Lookup(inverse, k);
    FieldMapHolds(renames, name, f.name);
    if (name, f.name) in FieldMap(renames) {
      assert IsRename(left, right, inverse, FieldRename(name, f.name, FieldMap(renames)[(name, f.name)]));
    } else if name in left.records {
      var fields, names := right.records[k].fields, FieldNames(left.records[name].fields);
      var r := FieldRename(name, f.name, FieldName(f.name, names));
      assert r.toucan != r.bindgen ==> Unescapes(fields, names, r);
      assert r.toucan != r.bindgen ==> IsRename(left, right, inverse, r);
    }
  }

  /** The keys of a left record and of the right record it is paired with. */
  ghost predicate PairedRecords(left: Api, m: map<string, string>, p: Pair)
  {
    p.0 in left.records && !left.records[p.0].isOpaque && p.0 in m && p.1 == m[p.0]
  }

  /** The keys of two fields at the same position of paired records. */
  ghost predicate PairedFields(left: Api, right: Api, m: map<string, string>, p: Pair)
  {
    exists a, i :: FieldsAt(left, right, m, a, i, p)
  }

  ghost predicate FieldsAt(left: Api, right: Api, m: map<string, string>, a: string, i: int, p: Pair)
  {
    && IsField(left, a, i) && a in m && IsField(right, m[a], i)
    && p.0 == FieldKey(a, left.records[a].fields[i].name) && p.1 == FieldKey(m[a], right.records[m[a]].fields[i].name)
  }

  ghost function RecordLinks(left: Api, m: map<string, string>): iset<Pair>
  {
    iset p | PairedRecords(left, m, p)
  }

  ghost function FieldLinks(left: Api, right: Api, m: map<string, string>): iset<Pair>
  {
    iset p | PairedFields(left, right, m, p)
  }

  ghost predicate AllEqual<V(!new)>(links: iset<Pair>, l: map<string, V>, r: map<string, V>)
  {
    forall p | p in links :: EqualAt(l, r, p)
  }

  ghost predicate EqualAt<V(!new)>(l: map<string, V>, r: map<string, V>, p: Pair)
  {
    p.0 in l && p.1 in r && l[p.0] == r[p.1]
  }

  /** Paired records have equal sizes and alignments, and their fields equal offsets; values agree. Variants
      need no mention: agreeing enums and validated observations determine them. */
  ghost predicate SameLayouts(left: Api, right: Api, m: map<string, string>, l: Probe, r: Probe)
  {
    && AllEqual(RecordLinks(left, m), l.records, r.records)
    && AllEqual(FieldLinks(left, right, m), l.fields, r.fields)
    && l.constants == r.constants && l.enums == r.enums
  }

  lemma PairedRecord(left: Api, right: Api, m: map<string, string>, a: string)
    requires RecordIsomorphism(left, right, m) && a in m
    ensures a in left.records && m[a] in right.records && m[a] in Inverse(m) && Lookup(Inverse(m), m[a]) == a
    ensures SameRecord(left.records[a], right.records[m[a]], Inverse(m))
  {
  }

  /** The keys a dictionary is rebuilt under are distinct, and those of another dictionary. */
  ghost predicate Rebuilds<V(!new)>(r: map<string, V>, l: map<string, V>, f: string -> Option<string>)
  {
    && (forall j, k | j in r && k in r && f(j) == f(k) :: j == k)
    && (forall k | k in r :: f(k).Some? && f(k).value in l)
    && (forall n | n in l :: exists k :: k in r && f(k) == Some(n))
  }

  lemma ImageMatches<V(!new)>(l: map<string, V>, r: map<string, V>, f: string -> Option<string>, after: map<string, V>)
    requires IsImage(r, after, f) && Rebuilds(r, l, f)
    ensures l == after <==> forall k | k in r :: l[f(k).value] == r[k]
  {
    forall k | k in r ensures after[f(k).value] == r[k] {
      var j :| j in r && f(j) == Some(f(k).value) && after[f(k).value] == r[j];
    }
    assert forall n | n in after :: n in l;
    assert forall n | n in l :: n in after;
    if forall k | k in r :: l[f(k).value] == r[k] {
      forall n | n in l ensures l[n] == after[n] {
        var k :| k in r && f(k) == Some(n);
      }
    }
  }

  /** The pairs are those of a key and the key it is rebuilt under. */
  ghost predicate Links<V(!new)>(links: iset<Pair>, r: map<string, V>, f: string -> Option<string>)
  {
    && (forall p | p in links :: p.1 in r && f(p.1) == Some(p.0))
    && (forall k | k in r && f(k).Some? :: (f(k).value, k) in links)
  }

  /** A dictionary rebuilt without collisions equals another exactly when linked entries do. */
  lemma LinkedMatch<V(!new)>(links: iset<Pair>, l: map<string, V>, r: map<string, V>, f: string -> Option<string>, after: map<string, V>)
    requires IsImage(r, after, f) && Rebuilds(r, l, f) && Links(links, r, f)
    ensures l == after <==> AllEqual(links, l, r)
  {
    ImageMatches(l, r, f, after);
    if forall p | p in links :: EqualAt(l, r, p) {
      forall k | k in r ensures l[f(k).value] == r[k] {
        assert EqualAt(l, r, (f(k).value, k));
      }
    }
    if forall k | k in r :: l[f(k).value] == r[k] {
      forall p | p in links ensures EqualAt(l, r, p) {
        assert f(p.1) == Some(p.0);
      }
    }
  }

  lemma RecordsAreRebuilt(left: Api, right: Api, m: map<string, string>, l: Probe, r: Probe)
    requires RecordIsomorphism(left, right, m) && Observes(left, l) && Observes(right, r)
    ensures Rebuilds(r.records, l.records, RenamedRecord(Inverse(m)))
  {
    forall k | k in r.records ensures Lookup(Inverse(m), k) in l.records && m[Lookup(Inverse(m), k)] == k {
      RecordHasPartner(left, right, m, k);
    }
    forall n | n in l.records ensures m[n] in r.records && RenamedRecord(Inverse(m))(m[n]) == Some(n) {
      PairedRecord(left, right, m, n);
    }
  }

  lemma RecordsAreLinked(left: Api, right: Api, m: map<string, string>, r: Probe)
    requires RecordIsomorphism(left, right, m) && Observes(right, r)
    ensures Links(RecordLinks(left, m), r.records, RenamedRecord(Inverse(m)))
  {
    forall p | p in RecordLinks(left, m) ensures p.1 in r.records && RenamedRecord(Inverse(m))(p.1) == Some(p.0) {
      PairedRecord(left, right, m, p.0);
    }
    forall k | k in r.records ensures (Lookup(Inverse(m), k), k) in RecordLinks(left, m) {
      RecordHasPartner(left, right, m, k);
    }
  }

  lemma RecordHasPartner(left: Api, right: Api, m: map<string, string>, k: string)
    requires RecordIsomorphism(left, right, m) && k in right.records
    ensures
      var a := Lookup(Inverse(m), k);
      a in m && m[a] == k && a in left.records && left.records[a].isOpaque == right.records[k].isOpaque
  {
    assert k in m.Values;
    PairedRecord(left, right, m, Lookup(Inverse(m), k));
  }

  /** Under an isomorphism every observed right field takes the key of its left counterpart. */
  lemma FieldTakesKey(left: Api, right: Api, m: map<string, string>, renames: seq<FieldRename>, a: string, i: int)
    requires RecordIsomorphism(left, right, m) && IsField(left, a, i)
    requires forall r :: r in renames <==> IsRename(left, right, Inverse(m), r)
    requires a in m && m[a] in right.records && i < |right.records[m[a]].fields|
    requires '.' !in right.records[m[a]].fields[i].name
    ensures IsField(right, m[a], i)
    ensures RenamedKey(Inverse(m), FieldMap(renames))(FieldKey(m[a], right.records[m[a]].fields[i].name)) ==
              Some(FieldKey(a, left.records[a].fields[i].name))
  {
    var f := right.records[m[a]].fields[i];
    PairedRecord(left, right, m, a);
    LastSplitIsUnique(m[a], f.name, '.');
    FieldIsRenamed(left, right, Inverse(m), renames, m[a], f);
  }

  lemma FieldOfKey(api: Api, probe: Probe, n: string) returns (k: string, i: int)
    requires Observes(api, probe) && n in probe.fields
    ensures IsField(api, k, i) && n == FieldKey(k, api.records[k].fields[i].name)
  {
    k, i :| IsField(api, k, i) && n == FieldKey(k, api.records[k].fields[i].name);
  }

  /** A key names one field. */
  lemma KeyDetermines(api: Api, probe: Probe, a: string, i: int, b: string, j: int)
    requires Observes(api, probe) && IsField(api, a, i) && IsField(api, b, j)
    requires FieldKey(a, api.records[a].fields[i].name) == FieldKey(b, api.records[b].fields[j].name)
    ensures a == b && i == j
  {
    LastSplitIsUnique(a, api.records[a].fields[i].name, '.');
    LastSplitIsUnique(b, api.records[b].fields[j].name, '.');
  }

  /** The left counterpart of a right field. */
  lemma FieldHasPartner(left: Api, right: Api, m: map<string, string>, k: string, i: int) returns (a: string)
    requires RecordIsomorphism(left, right, m) && IsField(right, k, i)
    ensures a in m && m[a] == k && IsField(left, a, i)
  {
    a := Lookup(Inverse(m), k);
    RecordHasPartner(left, right, m, k);
    PairedRecord(left, right, m, a);
  }

  ghost predicate Renames(left: Api, right: Api, m: map<string, string>, renames: seq<FieldRename>)
    requires Injective(m)
  {
    forall r :: r in renames <==> IsRename(left, right, Inverse(m), r)
  }

  /** A right key, the left key it is rebuilt under, and the field both name. */
  lemma RightKeyIsPaired(left: Api, right: Api, m: map<string, string>, renames: seq<FieldRename>, l: Probe, r: Probe, n: string)
    returns (a: string, i: int, p: Pair)
    requires RecordIsomorphism(left, right, m) && Observes(left, l) && Observes(right, r) && Renames(left, right, m, renames)
    requires n in r.fields
    ensures p.1 == n && p.0 in l.fields && FieldsAt(left, right, m, a, i, p)
    ensures RenamedKey(Inverse(m), FieldMap(renames))(n) == Some(p.0)
  {
    var k;
    k, i := FieldOfKey(right, r, n);
    a := FieldHasPartner(left, right, m, k, i);
    p := (FieldKey(a, left.records[a].fields[i].name), n);
    FieldTakesKey(left, right, m, renames, a, i);
  }

  lemma LeftKeyIsPaired(left: Api, right: Api, m: map<string, string>, renames: seq<FieldRename>, l: Probe, r: Probe, n: string)
    returns (o: string)
    requires RecordIsomorphism(left, right, m) && Observes(left, l) && Observes(right, r) && Renames(left, right, m, renames)
    requires n in l.fields
    ensures o in r.fields && RenamedKey(Inverse(m), FieldMap(renames))(o) == Some(n)
  {
    var a, i := FieldOfKey(left, l, n);
    PairedRecord(left, right, m, a);
    o := FieldKey(m[a], right.records[m[a]].fields[i].name);
    assert IsField(right, m[a], i);
    FieldTakesKey(left, right, m, renames, a, i);
  }

  lemma PairIsRenamed(left: Api, right: Api, m: map<string, string>, renames: seq<FieldRename>, r: Probe, p: Pair)
    requires RecordIsomorphism(left, right, m) && Observes(right, r) && Renames(left, right, m, renames)
    requires PairedFields(left, right, m, p)
    ensures p.1 in r.fields && RenamedKey(Inverse(m), FieldMap(renames))(p.1) == Some(p.0)
  {
    var a, i :| FieldsAt(left, right, m, a, i, p);
    FieldTakesKey(left, right, m, renames, a, i);
  }

  lemma KeysStayDistinct(left: Api, right: Api, m: map<string, string>, renames: seq<FieldRename>, l: Probe, r: Probe, n: string, o: string)
    requires RecordIsomorphism(left, right, m) && Observes(left, l) && Observes(right, r) && Renames(left, right, m, renames)
    requires n in r.fields && o in r.fields
    requires RenamedKey(Inverse(m), FieldMap(renames))(n) == RenamedKey(Inverse(m), FieldMap(renames))(o)
    ensures n == o
  {
    var a, i, p := RightKeyIsPaired(left, right, m, renames, l, r, n);
    var b, j, q := RightKeyIsPaired(left, right, m, renames, l, r, o);
    KeyDetermines(left, l, a, i, b, j);
  }

  lemma FieldsAreRebuilt(left: Api, right: Api, m: map<string, string>, renames: seq<FieldRename>, l: Probe, r: Probe)
    requires RecordIsomorphism(left, right, m) && Observes(left, l) && Observes(right, r) && Renames(left, right, m, renames)
    ensures Rebuilds(r.fields, l.fields, RenamedKey(Inverse(m), FieldMap(renames)))
  {
    var f := RenamedKey(Inverse(m), FieldMap(renames));
    forall n, o | n in r.fields && o in r.fields && f(n) == f(o) ensures n == o {
      KeysStayDistinct(left, right, m, renames, l, r, n, o);
    }
    forall n | n in r.fields ensures f(n).Some? && f(n).value in l.fields {
      var a, i, p := RightKeyIsPaired(left, right, m, renames, l, r, n);
    }
    forall n | n in l.fields ensures exists o :: o in r.fields && f(o) == Some(n) {
      var o := LeftKeyIsPaired(left, right, m, renames, l, r, n);
    }
  }

  lemma FieldsAreLinked(left: Api, right: Api, m: map<string, string>, renames: seq<FieldRename>, l: Probe, r: Probe)
    requires RecordIsomorphism(left, right, m) && Observes(left, l) && Observes(right, r) && Renames(left, right, m, renames)
    ensures Links(FieldLinks(left, right, m), r.fields, RenamedKey(Inverse(m), FieldMap(renames)))
  {
    var f := RenamedKey(Inverse(m), FieldMap(renames));
    forall p | p in FieldLinks(left, right, m) ensures p.1 in r.fields && f(p.1) == Some(p.0) {
      PairIsRenamed(left, right, m, renames, r, p);
    }
    forall n | n in r.fields && f(n).Some? ensures (f(n).value, n) in FieldLinks(left, right, m) {
      var a, i, p := RightKeyIsPaired(left, right, m, renames, l, r, n);
      assert PairedFields(left, right, m, p);
    }
  }

  lemma RecordsMatch(left: Api, right: Api, m: map<string, string>, l: Probe, r: Probe, records: map<string, Layout>)
    requires RecordIsomorphism(left, right, m) && Observes(left, l) && Observes(right, r)
    requires IsImage(r.records, records, RenamedRecord(Inverse(m)))
    ensures l.records == records <==> AllEqual(RecordLinks(left, m), l.records, r.records)
  {
    RecordsAreRebuilt(left, right, m, l, r);
    RecordsAreLinked(left, right, m, r);
    LinkedMatch(RecordLinks(left, m), l.records, r.records, RenamedRecord(Inverse(m)), records);
  }

  lemma FieldsMatch(left: Api, right: Api, m: map<string, string>, renames: seq<FieldRename>, l: Probe, r: Probe, fields: map<string, nat>)
    requires RecordIsomorphism(left, right, m) && Observes(left, l) && Observes(right, r) && Renames(left, right, m, renames)
    requires IsImage(r.fields, fields, RenamedKey(Inverse(m), FieldMap(renames)))
    ensures l.fields == fields <==> AllEqual(FieldLinks(left, right, m), l.fields, r.fields)
  {
    FieldsAreRebuilt(left, right, m, renames, l, r);
    FieldsAreLinked(left, right, m, renames, l, r);
    LinkedMatch(FieldLinks(left, right, m), l.fields, r.fields, RenamedKey(Inverse(m), FieldMap(renames)), fields);
  }

  lemma VariantsAgree(left: Api, right: Api, l: Probe, r: Probe)
    requires left.enums == right.enums && EnumsAgree(left, l) && EnumsAgree(right, r)
    ensures l.variants == r.variants
  {
  }

  /** The normalized observations are equal exactly when the layouts and values agree through the pairing. */
  lemma ProbesMatchIffSameLayouts(left: Api, right: Api, m: map<string, string>, renames: seq<FieldRename>,
                                  l: Probe, r: Probe, normalized: Probe)
    requires RecordIsomorphism(left, right, m) && left.enums == right.enums && Renames(left, right, m, renames)
    requires Observes(left, l) && Observes(right, r) && EnumsAgree(left, l) && EnumsAgree(right, r)
    requires IsNormalizedProbe(r, Inverse(m), renames, normalized)
    ensures l == normalized <==> SameLayouts(left, right, m, l, r)
  {
    VariantsAgree(left, right, l, r);
    RecordsMatch(left, right, m, l, r, normalized.records);
    FieldsMatch(left, right, m, renames, l, r, normalized.fields);
  }
}
