/** The analyzer's inventory of one generated binding file, and the name conventions
    under which two inventories are compared. */
module BindingApi {
  import opened Results
  import opened Shapes

  datatype RecordKind = Struct | Union

  datatype Field = Field(name: string, shape: Shape)

  datatype RecordDecl = RecordDecl(
    rustName: string,
    aliases: seq<string>,
    kind: RecordKind,
    isOpaque: bool,
    fields: seq<Field>,
    excludedFields: seq<string>)

  datatype Export = Export(rustName: string, shape: Shape)

  datatype Constant = Constant(shape: Shape, enumValue: Option<string>)

  datatype Enum = Enum(rustName: string, repr: string, variants: map<string, string>)

  datatype Api = Api(
    records: map<string, RecordDecl>,
    aliases: map<string, Shape>,
    functions: map<string, seq<Export>>,
    globals: map<string, seq<Export>>,
    constants: map<string, Constant>,
    enums: map<string, Enum>,
    unsupported: seq<string>)

  predicate IsKeyword(name: string)
  {
    name in {
    "as", "break", "const", "continue", "crate", "else", "enum", "extern", "false", "fn", "for",
    "if", "impl", "in", "let", "loop", "match", "mod", "move", "mut", "pub", "ref", "return",
    "self", "Self", "static", "struct", "super", "trait", "true", "type", "unsafe", "use", "where",
    "while", "async", "await", "dyn", "abstract", "become", "box", "do", "final", "macro",
    "override", "priv", "typeof", "unsized", "virtual", "yield", "try", "gen" }
  }

  /** The keywords by their class in the Rust reference and the edition that introduced them. */
  lemma KeywordsAre(name: string)
    ensures IsKeyword(name) <==> IsStrictKeyword(name) || IsReservedKeyword(name)
  {
  }

  /** In use, since 2018 with async, await and dyn. */
  ghost predicate IsStrictKeyword(name: string)
  {
    || name in {"as", "break", "const", "continue", "crate", "else", "enum", "extern", "false", "fn", "for", "if", "impl",
                "in", "let", "loop", "match", "mod", "move", "mut", "pub", "ref", "return", "self", "Self", "static",
                "struct", "super", "trait", "true", "type", "unsafe", "use", "where", "while"}
    || name in {"async", "await", "dyn"}
  }

  /** Reserved, since 2018 with try and since 2024 with gen. */
  ghost predicate IsReservedKeyword(name: string)
  {
    || name in {"abstract", "become", "box", "do", "final", "macro", "override", "priv", "typeof", "unsized", "virtual", "yield"}
    || name == "try" || name == "gen"
  }

  /** Undo bindgen's keyword suffix, but only when the counterpart uses the bare keyword. */
  function FieldName(name: string, otherNames: set<string>): (r: string)
    ensures forall stem | stem in otherNames && IsKeyword(stem) :: name == stem + "_" ==> r == stem
    ensures r != name ==> r in otherNames && IsKeyword(r) && name == r + "_"
  {
    if |name| > 0 && name[|name| - 1] == '_' && IsKeyword(name[..|name| - 1]) && name[..|name| - 1] in otherNames
    then name[..|name| - 1]
    else name
  }

  function FieldNames(fields: seq<Field>): set<string>
  {
    set f | f in fields :: f.name
  }

  function CanonicalFields(fields: seq<Field>, otherNames: set<string>): seq<Field>
  {
    seq(|fields|, i requires 0 <= i < |fields| => fields[i].(name := FieldName(fields[i].name, otherNames)))
  }

  /** Fields by name; of two fields with one name the later wins. */
  function ByName(fields: seq<Field>): (table: map<string, Shape>)
    ensures table.Keys == FieldNames(fields)
  {
    if fields == [] then map[]
    else
      var last := fields[|fields| - 1];
      assert fields == fields[..|fields| - 1] + [last];
      ByName(fields[..|fields| - 1])[last.name := last.shape]
  }

  lemma {:induction false} LastFieldWins(fields: seq<Field>, i: nat)
    requires i < |fields| && forall j | i < j < |fields| :: fields[j].name != fields[i].name
    ensures fields[i].name in ByName(fields) && ByName(fields)[fields[i].name] == fields[i].shape
  {
    if i == |fields| - 1 {
    } else {
      LastFieldWins(fields[..|fields| - 1], i);
    }
  }

  lemma {:induction false} FieldHasLast(fields: seq<Field>, name: string) returns (i: nat)
    requires name in FieldNames(fields)
    ensures i < |fields| && fields[i].name == name && forall j | i < j < |fields| :: fields[j].name != name
  {
    var k := |fields| - 1;
    if fields[k].name == name {
      i := k;
    } else {
      var f :| f in fields && f.name == name;
      assert f in fields[..k];
      i := FieldHasLast(fields[..k], name);
    }
  }

  /** The exports of one linker symbol by public Rust name. */
  function Group(exports: seq<Export>): (group: map<string, Shape>)
    ensures group.Keys == set e | e in exports :: e.rustName
  {
    if exports == [] then map[]
    else
      var last := exports[|exports| - 1];
      assert exports == exports[..|exports| - 1] + [last];
      Group(exports[..|exports| - 1])[last.rustName := last.shape]
  }

  ghost predicate NoRepeatedNames(exports: seq<Export>)
  {
    forall i, j | 0 <= i < j < |exports| :: exports[i].rustName != exports[j].rustName
  }

  /** Every symbol has an export, and no symbol repeats a public name. */
  ghost predicate ValidExports(exports: map<string, seq<Export>>)
  {
    forall s | s in exports :: exports[s] != [] && NoRepeatedNames(exports[s])
  }

  type Groups = map<string, map<string, Shape>>

  ghost function ExportGroups(exports: map<string, seq<Export>>): Result<Groups>
  {
    if ValidExports(exports) then Ok(map s | s in exports :: Group(exports[s])) else Err("invalid export list")
  }

  lemma {:induction false} GroupHolds(exports: seq<Export>, i: nat)
    requires i < |exports| && NoRepeatedNames(exports)
    ensures exports[i].rustName in Group(exports) && Group(exports)[exports[i].rustName] == exports[i].shape
  {
    if i == |exports| - 1 {
    } else {
      GroupHolds(exports[..|exports| - 1], i);
      assert exports[i].rustName != exports[|exports| - 1].rustName;
    }
  }

  lemma GroupStep(exports: seq<Export>, i: nat)
    requires i < |exports|
    ensures Group(exports[..i + 1]) == Group(exports[..i])[exports[i].rustName := exports[i].shape]
  {
    assert exports[..i + 1][..i] == exports[..i];
  }

  lemma RepeatedName(exports: seq<Export>, i: nat)
    requires i < |exports| && exports[i].rustName in Group(exports[..i])
    ensures !NoRepeatedNames(exports)
  {
    var e :| e in exports[..i] && e.rustName == exports[i].rustName;
    var j :| 0 <= j < i && exports[j] == e;
  }

  lemma NewName(exports: seq<Export>, i: nat)
    requires i < |exports| && NoRepeatedNames(exports[..i]) && exports[i].rustName !in Group(exports[..i])
    ensures NoRepeatedNames(exports[..i + 1])
  {
    forall j | 0 <= j < i ensures exports[j].rustName != exports[i].rustName {
      assert exports[..i][j] in exports[..i];
    }
  }

  /** The group of one symbol; raises on an empty list and on the first repeated name. */
  method CollectGroup(exports: seq<Export>) returns (result: Result<map<string, Shape>>)
    ensures result.Ok? <==> exports != [] && NoRepeatedNames(exports)
    ensures result.Ok? ==> result.value == Group(exports)
  {
    if exports == [] {
      return Err("no exports");
    }
    var group: map<string, Shape> := map[];
    for i := 0 to |exports|
      invariant group == Group(exports[..i]) && NoRepeatedNames(exports[..i])
    {
      GroupStep(exports, i);
      if exports[i].rustName in group {
        RepeatedName(exports, i);
        return Err("duplicate");
      }
      NewName(exports, i);
      group := group[exports[i].rustName := exports[i].shape];
    }
    assert exports[..|exports|] == exports;
    return Ok(group);
  }

  method CollectGroups(exports: map<string, seq<Export>>) returns (result: Result<Groups>)
    ensures result.Ok? <==> ValidExports(exports)
    ensures result.Ok? ==> result == ExportGroups(exports)
  {
    var groups: Groups := map[];
    var todo := exports.Keys;
    while todo != {}
      invariant todo <= exports.Keys && groups.Keys == exports.Keys - todo
      invariant forall s | s in groups ::
                  exports[s] != [] && NoRepeatedNames(exports[s]) && groups[s] == Group(exports[s])
      decreases todo
    {
      var s :| s in todo;
      var group := CollectGroup(exports[s]);
      if group.Err? {
        return Err(group.error);
      }
      groups := groups[s := group.value];
      todo := todo - {s};
    }
    assert groups.Keys == exports.Keys;
    assert groups == map s | s in exports :: Group(exports[s]);
    return Ok(groups);
  }

  ghost predicate WellFormed(api: Api)
  {
    ValidExports(api.functions) && ValidExports(api.globals)
  }
}
