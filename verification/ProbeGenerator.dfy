/** The construction of the C and Rust probe programs: two lists of lines, filled side by side, each line
    with its own text. */
module ProbeGenerator {
  import opened Results
  import opened ProbeLockstep

  /** A line of a program: plain code, a directive about a macro, the declaration of an anonymous enumeration
      by its position, or a statement that prints a key and a value. */
  datatype Line =
    | Code
    | Push(name: string) | Undefine(name: string) | Pop(name: string)
    | Declare(index: nat, variants: seq<string>)
    | Print(key: string)

  function Printed(lines: seq<Line>): seq<string>
  {
    if lines == [] then []
    else
      var (rest, last) := (Printed(lines[..|lines| - 1]), lines[|lines| - 1]);
      if last.Print? then rest + [last.key] else rest
  }

  lemma {:induction false} PrintedAppends(lines: seq<Line>, more: seq<Line>)
    ensures Printed(lines + more) == Printed(lines) + Printed(more)
  {
    if more == [] {
      assert lines + more == lines;
    } else {
      assert (lines + more)[..|lines + more| - 1] == lines + more[..|more| - 1];
      PrintedAppends(lines, more[..|more| - 1]);
    }
  }

  /** A printing statement for each key. */
  ghost function Statements(keys: seq<string>): seq<Line>
  {
    seq(|keys|, i requires 0 <= i < |keys| => Print(keys[i]))
  }

  lemma {:induction false} StatementsPrint(keys: seq<string>)
    ensures Printed(Statements(keys)) == keys
  {
    if keys == [] {
    } else {
      assert Statements(keys)[..|keys| - 1] == Statements(keys[..|keys| - 1]);
      StatementsPrint(keys[..|keys| - 1]);
    }
  }

  lemma StatementsAppend(keys: seq<string>, more: seq<string>)
    ensures Statements(keys + more) == Statements(keys) + Statements(more)
  {
  }

  lemma {:induction false} CodePrintsNothing(lines: seq<Line>)
    requires forall i | 0 <= i < |lines| :: !lines[i].Print?
    ensures Printed(lines) == []
  {
    if lines == [] {
    } else {
      CodePrintsNothing(lines[..|lines| - 1]);
    }
  }

  lemma KeysStep(items: seq<Item>, k: nat)
    requires k < |items|
    ensures Keys(Labels(items[..k + 1])) == Keys(Labels(items[..k])) + Keys(ItemLabels(items[k]))
  {
    assert Blocks(items[..k + 1])[..k] == Blocks(items[..k]);
  }

  /** Both lists are statements that print the keys of these items. */
  ghost predicate Prints(c: seq<Line>, rust: seq<Line>, items: seq<Item>)
  {
    c == Statements(Keys(Labels(items))) && rust == c
  }

  lemma PrintsStep(c: seq<Line>, rust: seq<Line>, items: seq<Item>, k: nat, moreC: seq<Line>, moreRust: seq<Line>)
    requires k < |items| && Prints(c, rust, items[..k])
    requires moreC == Statements(Keys(ItemLabels(items[k]))) && moreRust == moreC
    ensures Prints(c + moreC, rust + moreRust, items[..k + 1])
  {
    KeysStep(items, k);
    StatementsAppend(Keys(Labels(items[..k])), Keys(ItemLabels(items[k])));
  }

  // The projection metadata.

  /** The enumerator a constant stands for; an anonymous enumeration is named by its position. */
  datatype Projection = Projection(cType: Option<string>, index: nat, constant: EnumConstant)

  lemma {:induction false} EmittedPrefix(enumerations: seq<Enumeration>, i: nat)
    requires i < |enumerations|
    ensures EmittedNames(enumerations[..i]) + Names(enumerations[i].emitted) <= EmittedNames(enumerations)
  {
    var k := |enumerations| - 1;
    if i < k {
      assert enumerations[..k][..i] == enumerations[..i];
      EmittedPrefix(enumerations[..k], i);
    } else {
      assert enumerations[..k] == enumerations[..i];
    }
  }

  lemma BadNameIsInvalid(constants: set<string>, all: seq<string>, seen: seq<string>, name: string)
    requires seen + [name] <= all && (name !in constants || name in seen)
    ensures !ValidNames(constants, all)
  {
    assert all[|seen|] == (seen + [name])[|seen|] == name;
    if name in seen {
      var i :| 0 <= i < |seen| && seen[i] == name;
      assert all[i] == (seen + [name])[i] == name;
    }
  }

  /** The names met so far, each once, are the keys. */
  ghost predicate Collected(constants: set<string>, enums: map<string, Projection>, seen: seq<string>)
  {
    NoRepeats(seen) && |enums| == |seen| && enums.Keys == (set n | n in seen) && enums.Keys <= constants
  }

  lemma CollectedStep(constants: set<string>, enums: map<string, Projection>, seen: seq<string>, name: string, p: Projection)
    requires Collected(constants, enums, seen) && name in constants && name !in enums
    ensures Collected(constants, enums[name := p], seen + [name])
  {
    assert enums[name := p].Keys == enums.Keys + {name};
    assert forall n | n in seen :: n in enums;
  }

  /** The enumerators of one enumeration; raises on the first name that is unknown or taken. */
  method CollectEmitted(constants: set<string>, before: map<string, Projection>, enumeration: Enumeration, index: nat,
                        ghost seen: seq<string>, ghost all: seq<string>)
    returns (ok: bool, enums: map<string, Projection>)
    requires Collected(constants, before, seen) && seen + Names(enumeration.emitted) <= all
    ensures !ok ==> !ValidNames(constants, all)
    ensures ok ==> Collected(constants, enums, seen + Names(enumeration.emitted))
  {
    enums := before;
    ghost var names := Names(enumeration.emitted);
    assert seen + names[..0] == seen;
    for j := 0 to |enumeration.emitted|
      invariant Collected(constants, enums, seen + names[..j])
    {
      var constant := enumeration.emitted[j];
      assert seen + names[..j + 1] == seen + names[..j] + [constant.rustName];
      if constant.rustName !in constants || constant.rustName in enums {
        assert seen + names[..j + 1] <= seen + names;
        BadNameIsInvalid(constants, all, seen + names[..j], constant.rustName);
        return false, enums;
      }
      CollectedStep(constants, enums, seen + names[..j], constant.rustName, Projection(enumeration.cType, index, constant));
      enums := enums[constant.rustName := Projection(enumeration.cType, index, constant)];
    }
    assert names[..|names|] == names;
    ok := true;
  }

  /** The enumerators by Rust name, and the C lines that rebuild anonymous enumerations. */
  method CollectEnums(constants: set<string>, enumerations: seq<Enumeration>)
    returns (result: Result<map<string, Projection>>, c: seq<Line>, anonymous: nat)
    ensures result.Ok? <==> ValidNames(constants, EmittedNames(enumerations))
    ensures result.Ok? ==> Collected(constants, result.value, EmittedNames(enumerations))
    ensures result.Ok? ==> c == Rebuilt(enumerations) && anonymous == AnonymousCount(enumerations)
  {
    var enums: map<string, Projection> := map[];
    c, anonymous := [], 0;
    for i := 0 to |enumerations|
      invariant Collected(constants, enums, EmittedNames(enumerations[..i]))
      invariant anonymous == AnonymousCount(enumerations[..i]) && c == Rebuilt(enumerations[..i])
    {
      RebuiltStep(enumerations, i);
      var lines, more := RebuildIfAnonymous(i, enumerations[i]);
      c, anonymous := c + lines, anonymous + more;
      EmittedPrefix(enumerations, i);
      var ok;
      ok, enums := CollectEmitted(constants, enums, enumerations[i], i, EmittedNames(enumerations[..i]), EmittedNames(enumerations));
      if !ok {
        return Err("enum"), [], 0;
      }
    }
    assert enumerations[..|enumerations|] == enumerations;
    return Ok(enums), c, anonymous;
  }

  /** Hide macros of the same names, declare the enumeration, and restore the macros, last first. */
  method RebuildEnum(index: nat, variants: seq<string>) returns (c: seq<Line>)
    ensures c == Rebuilding(index, variants)
  {
    c := [];
    for i := 0 to |variants|
      invariant c == Hiding(variants[..i])
    {
      assert variants[..i + 1][..i] == variants[..i];
      c := c + [Push(variants[i]), Undefine(variants[i])];
    }
    assert variants[..|variants|] == variants;
    c := c + [Declare(index, variants)];
    for i := |variants| downto 0
      invariant c + Restoring(variants[..i]) == Rebuilding(index, variants)
    {
      assert variants[..i + 1][..i] == variants[..i];
      c := c + [Pop(variants[i])];
    }
  }

  method RebuildIfAnonymous(index: nat, enumeration: Enumeration) returns (c: seq<Line>, anonymous: nat)
    ensures c == if enumeration.cType.None? then Rebuilding(index, enumeration.variants) else []
    ensures anonymous == if enumeration.cType.None? then 1 else 0
  {
    c, anonymous := [], 0;
    if enumeration.cType.None? {
      anonymous := anonymous + 1;
      c := RebuildEnum(index, enumeration.variants);
    }
  }

  ghost function Hiding(variants: seq<string>): seq<Line>
  {
    if variants == [] then []
    else
      var (front, last) := (variants[..|variants| - 1], variants[|variants| - 1]);
      Hiding(front) + [Push(last), Undefine(last)]
  }

  ghost function Restoring(variants: seq<string>): seq<Line>
  {
    if variants == [] then []
    else [Pop(variants[|variants| - 1])] + Restoring(variants[..|variants| - 1])
  }

  ghost function Rebuilding(index: nat, variants: seq<string>): seq<Line>
  {
    Hiding(variants) + [Declare(index, variants)] + Restoring(variants)
  }

  ghost function Rebuilt(enumerations: seq<Enumeration>): seq<Line>
  {
    if enumerations == [] then []
    else
      var (k, last) := (|enumerations| - 1, enumerations[|enumerations| - 1]);
      Rebuilt(enumerations[..k]) + if last.cType.None? then Rebuilding(k, last.variants) else []
  }

  lemma RebuiltStep(enumerations: seq<Enumeration>, i: nat)
    requires i < |enumerations|
    ensures EmittedNames(enumerations[..i + 1]) == EmittedNames(enumerations[..i]) + Names(enumerations[i].emitted)
    ensures Rebuilt(enumerations[..i + 1]) ==
              Rebuilt(enumerations[..i]) + if enumerations[i].cType.None? then Rebuilding(i, enumerations[i].variants) else []
    ensures AnonymousCount(enumerations[..i + 1]) ==
              AnonymousCount(enumerations[..i]) + if enumerations[i].cType.None? then 1 else 0
  {
    assert enumerations[..i + 1][..i] == enumerations[..i];
  }

  ghost function AnonymousCount(enumerations: seq<Enumeration>): nat
  {
    if enumerations == [] then 0
    else
      AnonymousCount(enumerations[..|enumerations| - 1]) + if enumerations[|enumerations| - 1].cType.None? then 1 else 0
  }

  // What the directives do.

  /** What each macro is defined as, and its saved definitions. */
  datatype Macros = Macros(defined: string -> Option<string>, saved: string -> seq<Option<string>>)

  ghost predicate SameMacros(a: Macros, b: Macros)
  {
    forall v :: a.defined(v) == b.defined(v) && a.saved(v) == b.saved(v)
  }

  ghost function Update<T>(f: string -> T, name: string, value: T): string -> T
  {
    (v: string) => if v == name then value else f(v)
  }

  ghost function Execute(line: Line, m: Macros): Macros
  {
    match line
    case Push(n) => m.(saved := Update(m.saved, n, m.saved(n) + [m.defined(n)]))
    case Undefine(n) => m.(defined := Update(m.defined, n, None))
    case Pop(n) => if m.saved(n) == [] then m else Restore(n, m)
    case _ => m
  }

  ghost function Restore(name: string, m: Macros): Macros
    requires m.saved(name) != []
  {
    var (k, top) := (|m.saved(name)| - 1, m.saved(name)[|m.saved(name)| - 1]);
    Macros(Update(m.defined, name, top), Update(m.saved, name, m.saved(name)[..k]))
  }

  ghost function ExecuteAll(lines: seq<Line>, m: Macros): Macros
  {
    if lines == [] then m else Execute(lines[|lines| - 1], ExecuteAll(lines[..|lines| - 1], m))
  }

  lemma {:induction false} ExecuteAppends(lines: seq<Line>, more: seq<Line>, m: Macros)
    ensures ExecuteAll(lines + more, m) == ExecuteAll(more, ExecuteAll(lines, m))
  {
    if more == [] {
      assert lines + more == lines;
    } else {
      var all, k := lines + more, |more| - 1;
      assert all[..|all| - 1] == lines + more[..k] && all[|all| - 1] == more[k];
      ExecuteAppends(lines, more[..k], m);
    }
  }

  lemma TwoLines(first: Line, second: Line, m: Macros)
    ensures ExecuteAll([first, second], m) == Execute(second, Execute(first, m))
  {
    assert [first, second][..1] == [first] && [first][..0] == [];
    assert ExecuteAll([first], m) == Execute(first, m);
  }

  /** The lines leave all macros as they were. */
  ghost predicate Neutral(lines: seq<Line>)
  {
    forall m :: SameMacros(ExecuteAll(lines, m), m)
  }

  lemma HidingIsUndone(name: string, lines: seq<Line>)
    requires Neutral(lines)
    ensures Neutral([Push(name), Undefine(name)] + lines + [Pop(name)])
  {
    var covering, all := [Push(name), Undefine(name)], [Push(name), Undefine(name)] + lines + [Pop(name)];
    forall m ensures SameMacros(ExecuteAll(all, m), m) {
      var hidden := ExecuteAll(covering, m);
      TwoLines(Push(name), Undefine(name), m);
      assert hidden == Execute(Undefine(name), Execute(Push(name), m));
      ExecuteAppends(covering, lines, m);
      var after := ExecuteAll(covering + lines, m);
      assert SameMacros(after, hidden);
      assert all[..|all| - 1] == covering + lines;
      assert ExecuteAll(all, m) == Execute(Pop(name), after);
      assert after.saved(name) == m.saved(name) + [m.defined(name)];
    }
  }

  lemma {:induction false} RestoringIsUndoing(variants: seq<string>, lines: seq<Line>)
    requires Neutral(lines)
    ensures Neutral(Hiding(variants) + lines + Restoring(variants))
  {
    if variants == [] {
      assert Hiding(variants) + lines + Restoring(variants) == lines;
    } else {
      var (front, last) := (variants[..|variants| - 1], variants[|variants| - 1]);
      HidingIsUndone(last, lines);
      var inner := [Push(last), Undefine(last)] + lines + [Pop(last)];
      RestoringIsUndoing(front, inner);
      assert Hiding(front) + inner + Restoring(front) == Hiding(variants) + lines + Restoring(variants);
    }
  }

  lemma {:induction false} HiddenMacros(variants: seq<string>, m: Macros)
    ensures forall v | v in variants :: ExecuteAll(Hiding(variants), m).defined(v) == None
  {
    if variants == [] {
    } else {
      var (front, last) := (variants[..|variants| - 1], variants[|variants| - 1]);
      var covering := [Push(last), Undefine(last)];
      HiddenMacros(front, m);
      ExecuteAppends(Hiding(front), covering, m);
      TwoLines(Push(last), Undefine(last), ExecuteAll(Hiding(front), m));
      assert variants == front + [last];
    }
  }

  /** An anonymous enumeration is declared where none of its enumerators is a macro, and rebuilding it changes no macro. */
  lemma RebuildingIsHygienic(index: nat, variants: seq<string>, m: Macros)
    ensures Rebuilding(index, variants) == Hiding(variants) + [Declare(index, variants)] + Restoring(variants)
    ensures forall v | v in variants :: ExecuteAll(Hiding(variants), m).defined(v) == None
    ensures SameMacros(ExecuteAll(Rebuilding(index, variants), m), m)
  {
    HiddenMacros(variants, m);
    var declare := [Declare(index, variants)];
    assert Neutral(declare) by {
      forall st ensures SameMacros(ExecuteAll(declare, st), st) {
        assert declare[..0] == [];
      }
    }
    RestoringIsUndoing(variants, declare);
  }

  /** The projected macros by Rust name; raises on the first that is unknown, of another type, or taken. */
  method CollectMacros(integers: seq<Integer>, enums: map<string, Projection>, macroTypes: seq<MacroType>)
    returns (result: Result<map<string, MacroType>>)
    ensures result.Ok? <==> ValidMacros(integers, enums.Keys, macroTypes)
    ensures result.Ok? ==> result.value.Keys == set m | m in macroTypes :: m.rustName
  {
    var types, macros: map<string, MacroType> := IntegerTypes(integers), map[];
    for i := 0 to |macroTypes|
      invariant ValidMacros(integers, enums.Keys, macroTypes[..i])
      invariant macros.Keys == set m | m in macroTypes[..i] :: m.rustName
    {
      var projection := macroTypes[i];
      var name := projection.rustName;
      assert macroTypes[..i + 1] == macroTypes[..i] + [projection];
      TypesHold(integers, name, projection.rustSigned, projection.rustBits);
      if name !in types || name in enums || name in macros || types[name] != (projection.rustSigned, projection.rustBits) {
        assert projection in macroTypes;
        if name in macros {
          var m :| m in macroTypes[..i] && m.rustName == name;
          var j :| 0 <= j < i && macroTypes[j] == m;
        }
        return Err("macro");
      }
      macros := macros[name := projection];
    }
    assert macroTypes[..|macroTypes|] == macroTypes;
    return Ok(macros);
  }

  // The probes.

  /** The C expression of an enumerator, before it is converted to its enumeration. */
  method ProbeEnumerator(name: string) returns (c: seq<Line>, rust: seq<Line>)
    ensures c == Statements(Keys(ExpressionLabels(name, true, false))) && rust == c
  {
    c, rust := [Print(Dot("enum_expression_size", name))], [Print(Dot("enum_expression_size", name))];
    c := c + [Print(Dot("enum_expression_signed", name))];
    rust := rust + [Print(Dot("enum_expression_signed", name))];
  }

  /** The C expression of a macro, before it is converted to its projected type. */
  method ProbeMacro(name: string) returns (c: seq<Line>, rust: seq<Line>)
    ensures c == Statements(Keys(ExpressionLabels(name, false, true))) && rust == c
  {
    c, rust := [Print(Dot("macro_expression_size", name))], [Print(Dot("macro_expression_size", name))];
    c := c + [Print(Dot("macro_expression_signed", name))];
    rust := rust + [Print(Dot("macro_expression_signed", name))];
    c := c + [Print(Dot("macro_expression_value", name))];
    rust := rust + [Print(Dot("macro_expression_value", name))];
  }

  method ProbeConstant(name: string) returns (c: seq<Line>, rust: seq<Line>)
    ensures c == Statements(Keys(ConstantLabels(name))) && rust == c
  {
    c, rust := [Print(Dot("constant", name))], [Print(Dot("constant", name))];
    c := c + [Print(Dot("constant_size", name))];
    rust := rust + [Print(Dot("constant_size", name))];
    c := c + [Print(Dot("constant_signed", name))];
    rust := rust + [Print(Dot("constant_signed", name))];
  }

  method ProbeInteger(integer: Integer, enums: map<string, Projection>, macros: map<string, MacroType>)
    returns (c: seq<Line>, rust: seq<Line>)
    ensures c == Statements(Keys(ItemLabels(Number(integer.name, integer.name in enums, integer.name in macros))))
    ensures rust == c
  {
    var name := integer.name;
    c, rust := [], [];
    if name in enums {
      c, rust := ProbeEnumerator(name);
    } else if name in macros {
      c, rust := ProbeMacro(name);
    }
    var moreC, moreRust := ProbeConstant(name);
    var expression := ExpressionLabels(name, name in enums, name in macros);
    KeysAppend(expression, ConstantLabels(name));
    StatementsAppend(Keys(expression), Keys(ConstantLabels(name)));
    c, rust := c + moreC, rust + moreRust;
  }

  method ProbeIntegers(integers: seq<Integer>, enums: map<string, Projection>, macros: map<string, MacroType>)
    returns (c: seq<Line>, rust: seq<Line>)
    ensures Prints(c, rust, Numbers(integers, enums.Keys, macros.Keys))
  {
    c, rust := [], [];
    ghost var items := Numbers(integers, enums.Keys, macros.Keys);
    for k := 0 to |integers|
      invariant Prints(c, rust, items[..k])
    {
      var moreC, moreRust := ProbeInteger(integers[k], enums, macros);
      PrintsStep(c, rust, items, k, moreC, moreRust);
      c, rust := c + moreC, rust + moreRust;
    }
    assert items[..|items|] == items;
  }

  method ProbeBoolean(name: string) returns (c: seq<Line>, rust: seq<Line>)
    ensures c == Statements(Keys(ItemLabels(Truth(name)))) && rust == c
  {
    c, rust := [Print(Dot("constant", name))], [Print(Dot("constant", name))];
    c := c + [Print(Dot("constant_size", name))];
    rust := rust + [Print(Dot("constant_size", name))];
    c := c + [Print(Dot("constant_signed", name))];
    rust := rust + [Print(Dot("constant_signed", name))];
    c := c + [Print(Dot("constant_bool", name))];
    rust := rust + [Print(Dot("constant_bool", name))];
  }

  /** Raises on a Boolean constant with integer metadata. */
  method ProbeBooleans(booleans: seq<string>, enums: map<string, Projection>, macros: map<string, MacroType>)
    returns (ok: bool, c: seq<Line>, rust: seq<Line>)
    ensures ok <==> NoneProjected(booleans, enums, macros)
    ensures ok ==> Prints(c, rust, Truths(booleans))
  {
    c, rust := [], [];
    ghost var items := Truths(booleans);
    for k := 0 to |booleans|
      invariant Prints(c, rust, items[..k]) && NoneProjected(booleans[..k], enums, macros)
    {
      NoneProjectedStep(booleans, enums, macros, k);
      if booleans[k] in enums || booleans[k] in macros {
        return false, [], [];
      }
      var moreC, moreRust := ProbeBoolean(booleans[k]);
      PrintsStep(c, rust, items, k, moreC, moreRust);
      c, rust := c + moreC, rust + moreRust;
    }
    assert items[..|items|] == items && booleans[..|booleans|] == booleans;
    ok := true;
  }

  ghost predicate NoneProjected(booleans: seq<string>, enums: map<string, Projection>, macros: map<string, MacroType>)
  {
    forall n | n in booleans :: n !in enums && n !in macros
  }

  lemma NoneProjectedStep(booleans: seq<string>, enums: map<string, Projection>, macros: map<string, MacroType>, k: nat)
    requires k < |booleans|
    ensures NoneProjected(booleans[..k + 1], enums, macros) <==>
            NoneProjected(booleans[..k], enums, macros) && booleans[k] !in enums && booleans[k] !in macros
    ensures NoneProjected(booleans, enums, macros) ==> booleans[k] !in enums && booleans[k] !in macros
  {
    assert booleans[..k + 1] == booleans[..k] + [booleans[k]];
    assert booleans[k] in booleans;
  }

  method ProbeStrings(strings: seq<string>) returns (c: seq<Line>, rust: seq<Line>)
    ensures Prints(c, rust, AllBytes(strings))
  {
    c, rust := [], [];
    ghost var items := AllBytes(strings);
    for k := 0 to |strings|
      invariant Prints(c, rust, items[..k])
    {
      var moreC, moreRust := [Print(Dot("string", strings[k]))], [Print(Dot("string", strings[k]))];
      PrintsStep(c, rust, items, k, moreC, moreRust);
      c, rust := c + moreC, rust + moreRust;
    }
    assert items[..|items|] == items;
  }

  method ProbeSize(cType: string) returns (c: seq<Line>, rust: seq<Line>)
    ensures c == Statements(Keys([Of(Size, cType), Of(Align, cType)])) && rust == c
  {
    c := [Print(Dot("size", cType))];
    c := c + [Print(Dot("align", cType))];
    rust := [Print(Dot("size", cType))];
    rust := rust + [Print(Dot("align", cType))];
  }

  method ProbeOffsets(cType: string, fields: seq<string>) returns (c: seq<Line>, rust: seq<Line>, offsets: nat)
    ensures c == Statements(Keys(Offsets(cType, fields))) && rust == c
    ensures offsets == |fields|
  {
    c, rust, offsets := [], [], 0;
    ghost var keys := Keys(Offsets(cType, fields));
    for k := 0 to |fields|
      invariant offsets == |c| == |rust| == k
      invariant forall i | 0 <= i < k :: c[i] == Print(keys[i]) && rust[i] == Print(keys[i])
    {
      c := c + [Print(Dot("offset", Dot(cType, fields[k])))];
      rust := rust + [Print(Dot("offset", Dot(cType, fields[k])))];
      offsets := offsets + 1;
    }
  }

  method ProbeRecord(record: Record) returns (c: seq<Line>, rust: seq<Line>, offsets: nat)
    ensures c == Statements(Keys(ItemLabels(Layout(record)))) && rust == c
    ensures offsets == |record.fields|
  {
    var moreC, moreRust;
    c, rust := ProbeSize(record.cType);
    moreC, moreRust, offsets := ProbeOffsets(record.cType, record.fields);
    var head, offsetLabels := [Of(Size, record.cType), Of(Align, record.cType)], Offsets(record.cType, record.fields);
    KeysAppend(head, offsetLabels);
    StatementsAppend(Keys(head), Keys(offsetLabels));
    c, rust := c + moreC, rust + moreRust;
  }

  function FieldCount(records: seq<Record>): nat
  {
    if records == [] then 0 else FieldCount(records[..|records| - 1]) + |records[|records| - 1].fields|
  }

  method ProbeRecords(records: seq<Record>) returns (c: seq<Line>, rust: seq<Line>, offsets: nat)
    ensures Prints(c, rust, Layouts(records)) && offsets == FieldCount(records)
  {
    c, rust, offsets := [], [], 0;
    ghost var items := Layouts(records);
    for k := 0 to |records|
      invariant Prints(c, rust, items[..k]) && offsets == FieldCount(records[..k])
    {
      assert records[..k + 1][..k] == records[..k];
      var moreC, moreRust, more := ProbeRecord(records[k]);
      PrintsStep(c, rust, items, k, moreC, moreRust);
      c, rust, offsets := c + moreC, rust + moreRust, offsets + more;
    }
    assert items[..|items|] == items && records[..|records|] == records;
  }

  lemma PrintsAppends(c: seq<Line>, rust: seq<Line>, items: seq<Item>, moreC: seq<Line>, moreRust: seq<Line>, more: seq<Item>)
    requires Prints(c, rust, items) && Prints(moreC, moreRust, more)
    ensures Prints(c + moreC, rust + moreRust, items + more)
  {
    LabelsAppend(items, more);
    StatementsAppend(Keys(Labels(items)), Keys(Labels(more)));
  }

  lemma {:induction false} FlattenAppends<T>(blocks: seq<seq<T>>, more: seq<seq<T>>)
    ensures Flatten(blocks + more) == Flatten(blocks) + Flatten(more)
  {
    if more == [] {
      assert blocks + more == blocks;
    } else {
      var all, k := blocks + more, |more| - 1;
      FlattenAppends(blocks, more[..k]);
      assert all[..|all| - 1] == blocks + more[..k] && all[|all| - 1] == more[k];
      assert Flatten(all) == Flatten(blocks) + Flatten(more[..k]) + more[k];
    }
  }

  lemma LabelsAppend(items: seq<Item>, more: seq<Item>)
    ensures Keys(Labels(items + more)) == Keys(Labels(items)) + Keys(Labels(more))
  {
    assert Blocks(items + more) == Blocks(items) + Blocks(more);
    FlattenAppends(Blocks(items), Blocks(more));
    KeysAppend(Labels(items), Labels(more));
  }

  lemma KeysAppend(labels: seq<Label>, more: seq<Label>)
    ensures Keys(labels + more) == Keys(labels) + Keys(more)
  {
  }

  // Which keys are printed, in terms of the bindings alone.

  ghost predicate Emits(b: Bindings, name: string)
  {
    exists e, v :: e in b.enumerations && v in e.emitted && v.rustName == name
  }

  ghost predicate Projects(b: Bindings, name: string)
  {
    exists m :: m in b.macroTypes && m.rustName == name
  }

  /** Size, signedness and, for a macro, value of the C expression behind an integer constant, if it has one;
      then value, size and signedness of the constant. */
  ghost predicate IntegerKey(b: Bindings, name: string, key: string)
  {
    || (Emits(b, name) && key in {"enum_expression_size" + "." + name, "enum_expression_signed" + "." + name})
    || (!Emits(b, name) && Projects(b, name) &&
        key in {"macro_expression_size" + "." + name, "macro_expression_signed" + "." + name, "macro_expression_value" + "." + name})
    || key in {"constant" + "." + name, "constant_size" + "." + name, "constant_signed" + "." + name}
  }

  ghost predicate BooleanKey(name: string, key: string)
  {
    key in {"constant" + "." + name, "constant_size" + "." + name, "constant_signed" + "." + name, "constant_bool" + "." + name}
  }

  ghost predicate RecordKey(record: Record, key: string)
  {
    || key in {"size" + "." + record.cType, "align" + "." + record.cType}
    || exists field :: field in record.fields && key == "offset" + "." + (record.cType + "." + field)
  }

  ghost predicate IsKey(b: Bindings, key: string)
  {
    || (exists i :: i in b.integers && IntegerKey(b, i.name, key))
    || (exists n :: n in b.booleans && BooleanKey(n, key))
    || (exists n :: n in b.strings && key == "string" + "." + n)
    || (exists r :: r in b.records && RecordKey(r, key))
  }

  lemma {:induction false} EmittedIffEmits(enumerations: seq<Enumeration>, name: string)
    ensures name in EmittedNames(enumerations) <==> exists e, v :: e in enumerations && v in e.emitted && v.rustName == name
  {
    if enumerations == [] {
    } else {
      var (front, last) := (enumerations[..|enumerations| - 1], enumerations[|enumerations| - 1]);
      EmittedIffEmits(front, name);
      assert enumerations == front + [last];
      assert name in Names(last.emitted) <==> exists v :: v in last.emitted && v.rustName == name by {
        assert forall i | 0 <= i < |last.emitted| :: Names(last.emitted)[i] == last.emitted[i].rustName;
      }
    }
  }

  lemma IntegerKeys(b: Bindings, name: string, key: string)
    ensures key in Keys(ItemLabels(Number(name, name in EnumNames(b), name in MacroNames(b)))) <==> IntegerKey(b, name, key)
  {
    var isEnum, isMacro := name in EnumNames(b), name in MacroNames(b);
    EmittedIffEmits(b.enumerations, name);
    KeysAppend(ExpressionLabels(name, isEnum, isMacro), ConstantLabels(name));
    ConstantKeys(name, key);
    if isEnum {
      EnumeratorKeys(name, isMacro, key);
    } else if isMacro {
      MacroKeys(name, key);
    }
  }

  lemma ConstantKeys(name: string, key: string)
    ensures key in Keys(ConstantLabels(name)) <==>
            key in {"constant" + "." + name, "constant_size" + "." + name, "constant_signed" + "." + name}
  {
    var keys := Keys(ConstantLabels(name));
    assert keys == ["constant" + "." + name, "constant_size" + "." + name, "constant_signed" + "." + name];
  }

  lemma EnumeratorKeys(name: string, isMacro: bool, key: string)
    ensures key in Keys(ExpressionLabels(name, true, isMacro)) <==>
            key in {"enum_expression_size" + "." + name, "enum_expression_signed" + "." + name}
  {
    var keys := Keys(ExpressionLabels(name, true, isMacro));
    assert keys == ["enum_expression_size" + "." + name, "enum_expression_signed" + "." + name];
  }

  lemma MacroKeys(name: string, key: string)
    ensures key in Keys(ExpressionLabels(name, false, true)) <==>
            key in {"macro_expression_size" + "." + name, "macro_expression_signed" + "." + name, "macro_expression_value" + "." + name}
  {
    var keys := Keys(ExpressionLabels(name, false, true));
    assert keys == ["macro_expression_size" + "." + name, "macro_expression_signed" + "." + name, "macro_expression_value" + "." + name];
  }

  lemma BooleanKeys(name: string, key: string)
    ensures key in Keys(ItemLabels(Truth(name))) <==> BooleanKey(name, key)
  {
    KeysAppend(ConstantLabels(name), [Of(ConstantBool, name)]);
    ConstantKeys(name, key);
    assert Keys([Of(ConstantBool, name)]) == ["constant_bool" + "." + name];
  }

  lemma StringKeys(name: string, key: string)
    ensures key in Keys(ItemLabels(Bytes(name))) <==> key == "string" + "." + name
  {
    assert Keys([Of(StringBytes, name)]) == ["string" + "." + name];
  }

  lemma RecordKeys(record: Record, key: string)
    ensures key in Keys(ItemLabels(Layout(record))) <==> RecordKey(record, key)
  {
    var head, offsets := [Of(Size, record.cType), Of(Align, record.cType)], Offsets(record.cType, record.fields);
    KeysAppend(head, offsets);
    assert Keys(head) == ["size" + "." + record.cType, "align" + "." + record.cType];
    assert forall i | 0 <= i < |record.fields| :: Keys(offsets)[i] == "offset" + "." + (record.cType + "." + record.fields[i]);
  }

  /** A key of the labels is a key of some item. */
  lemma KeyHasItem(items: seq<Item>, key: string)
    ensures key in Keys(Labels(items)) <==> exists item :: item in items && key in Keys(ItemLabels(item))
  {
    var labels := Labels(items);
    if key in Keys(labels) {
      var j :| 0 <= j < |labels| && Keys(labels)[j] == key;
      LabelHasItem(items, labels[j]);
      var i :| 0 <= i < |items| && labels[j] in ItemLabels(items[i]);
      KeyOfLabel(ItemLabels(items[i]), labels[j]);
      assert items[i] in items;
    }
    if item :| item in items && key in Keys(ItemLabels(item)) {
      var i :| 0 <= i < |items| && items[i] == item;
      var j :| 0 <= j < |ItemLabels(item)| && Keys(ItemLabels(item))[j] == key;
      LabelHasItem(items, ItemLabels(item)[j]);
      KeyOfLabel(labels, ItemLabels(item)[j]);
    }
  }

  lemma KeyOfLabel(labels: seq<Label>, l: Label)
    requires l in labels
    ensures Text(l) in Keys(labels)
  {
    var i :| 0 <= i < |labels| && labels[i] == l;
    assert Keys(labels)[i] == Text(l);
  }

  lemma ItemsOf(b: Bindings, enums: set<string>, macros: set<string>, item: Item)
    ensures item in Items(b, enums, macros) <==>
      match item
      case Number(n, isEnum, isMacro) => (exists i :: i in b.integers && i.name == n) && isEnum == (n in enums) && isMacro == (n in macros)
      case Truth(n) => n in b.booleans
      case Bytes(n) => n in b.strings
      case Layout(r) => r in b.records
  {
    var numbers, truths, bytes, layouts := Numbers(b.integers, enums, macros), Truths(b.booleans), AllBytes(b.strings), Layouts(b.records);
    assert item in Items(b, enums, macros) <==> item in numbers || item in truths || item in bytes || item in layouts;
    match item
    case Number(n, _, _) =>
      if i :| i in b.integers && i.name == n {
        var k :| 0 <= k < |b.integers| && b.integers[k] == i;
        assert numbers[k] in numbers;
      }
    case Truth(n) =>
      if n in b.booleans {
        var k :| 0 <= k < |b.booleans| && b.booleans[k] == n;
        assert truths[k] in truths;
      }
    case Bytes(n) =>
      if n in b.strings {
        var k :| 0 <= k < |b.strings| && b.strings[k] == n;
        assert bytes[k] in bytes;
      }
    case Layout(r) =>
      if r in b.records {
        var k :| 0 <= k < |b.records| && b.records[k] == r;
        assert layouts[k] in layouts;
      }
  }

  /** What the keys of one of the items say. */
  lemma ItemKeyIsKey(b: Bindings, item: Item, key: string)
    requires item in Items(b, EnumNames(b), MacroNames(b)) && key in Keys(ItemLabels(item))
    ensures IsKey(b, key)
  {
    ItemsOf(b, EnumNames(b), MacroNames(b), item);
    match item
    case Number(n, _, _) => IntegerKeys(b, n, key);
    case Truth(n) => BooleanKeys(n, key);
    case Bytes(n) => StringKeys(n, key);
    case Layout(r) => RecordKeys(r, key);
  }

  lemma KeyIsOfItem(b: Bindings, key: string) returns (item: Item)
    requires IsKey(b, key)
    ensures item in Items(b, EnumNames(b), MacroNames(b)) && key in Keys(ItemLabels(item))
  {
    if i :| i in b.integers && IntegerKey(b, i.name, key) {
      item := Number(i.name, i.name in EnumNames(b), i.name in MacroNames(b));
      IntegerKeys(b, i.name, key);
    } else if n :| n in b.booleans && BooleanKey(n, key) {
      item := Truth(n);
      BooleanKeys(n, key);
    } else if n :| n in b.strings && key == "string" + "." + n {
      item := Bytes(n);
      StringKeys(n, key);
    } else {
      var r :| r in b.records && RecordKey(r, key);
      item := Layout(r);
      RecordKeys(r, key);
    }
    ItemsOf(b, EnumNames(b), MacroNames(b), item);
  }

  /** The keys of all items are exactly the keys of the bindings. */
  lemma KeysAreKeys(b: Bindings)
    ensures forall key :: key in Keys(Labels(Items(b, EnumNames(b), MacroNames(b)))) <==> IsKey(b, key)
  {
    var items := Items(b, EnumNames(b), MacroNames(b));
    forall key ensures key in Keys(Labels(items)) <==> IsKey(b, key) {
      KeyHasItem(items, key);
      if item :| item in items && key in Keys(ItemLabels(item)) {
        ItemKeyIsKey(b, item, key);
      }
      if IsKey(b, key) {
        var item := KeyIsOfItem(b, key);
      }
    }
  }

  datatype Coverage = Coverage(
    integerConstants: nat, enumConstants: nat, anonymousEnums: nat, stringConstants: nat, records: nat, fieldOffsets: nat)

  datatype Programs = Programs(c: seq<Line>, rust: seq<Line>, coverage: Coverage)

  /** The four loops, one after another. */
  method ProbeAll(b: Bindings, enums: map<string, Projection>, macros: map<string, MacroType>)
    returns (ok: bool, c: seq<Line>, rust: seq<Line>, offsets: nat)
    ensures ok <==> forall n | n in b.booleans :: n !in enums && n !in macros
    ensures ok ==> Prints(c, rust, Items(b, enums.Keys, macros.Keys)) && offsets == FieldCount(b.records)
  {
    var items := Numbers(b.integers, enums.Keys, macros.Keys);
    var moreC, moreRust;
    offsets := 0;
    c, rust := ProbeIntegers(b.integers, enums, macros);
    ok, moreC, moreRust := ProbeBooleans(b.booleans, enums, macros);
    if !ok {
      return;
    }
    PrintsAppends(c, rust, items, moreC, moreRust, Truths(b.booleans));
    c, rust := c + moreC, rust + moreRust;
    moreC, moreRust := ProbeStrings(b.strings);
    PrintsAppends(c, rust, items + Truths(b.booleans), moreC, moreRust, AllBytes(b.strings));
    c, rust := c + moreC, rust + moreRust;
    moreC, moreRust, offsets := ProbeRecords(b.records);
    PrintsAppends(c, rust, items + Truths(b.booleans) + AllBytes(b.strings), moreC, moreRust, Layouts(b.records));
    c, rust := c + moreC, rust + moreRust;
  }

  method CheckCoverage(b: Bindings) returns (ok: bool)
    ensures ok <==> Covers(b)
  {
    if b.renamedMacros - b.constants != {} {
      return false;
    }
    assert forall n | n in b.renamedMacros :: n !in b.renamedMacros - b.constants;
    var covered := (set i | i in b.integers :: i.name) + (set n | n in b.booleans) + (set n | n in b.strings);
    CoveredIsRecognised(b);
    return (b.integers != [] || b.booleans != []) && b.constants == covered;
  }

  /** Lines that are the same for all bindings. */
  function Boilerplate(n: nat): seq<Line>
  {
    seq(n, _ => Code)
  }

  ghost function ProbedKeys(b: Bindings): seq<string>
  {
    Keys(Labels(Items(b, EnumNames(b), MacroNames(b))))
  }

  /** The includes, the printing functions and the opening of the main function; the anonymous enumerations;
      a statement for every key; and the end. */
  ghost function CProgram(b: Bindings): seq<Line>
  {
    Boilerplate(12) + Rebuilt(b.enumerations) + Statements(ProbedKeys(b)) + Boilerplate(1)
  }

  /** The attribute, the bindings and the opening of the main function; a statement for every key; and the
      end, after a call of the foreign-function test if there is one. */
  ghost function RustProgram(b: Bindings, runFfi: bool): seq<Line>
  {
    Boilerplate(3) + Statements(ProbedKeys(b)) + if runFfi then Boilerplate(3) else Boilerplate(1)
  }

  /** Both programs print the same keys, and exactly those of the bindings. */
  lemma ProgramsPrintKeys(b: Bindings, runFfi: bool)
    ensures Printed(CProgram(b)) == ProbedKeys(b) && Printed(RustProgram(b, runFfi)) == ProbedKeys(b)
    ensures forall key :: key in ProbedKeys(b) <==> IsKey(b, key)
  {
    var statements, end := Statements(ProbedKeys(b)), if runFfi then Boilerplate(3) else Boilerplate(1);
    StatementsPrint(ProbedKeys(b));
    CodePrintsNothing(Boilerplate(12));
    CodePrintsNothing(Boilerplate(3));
    CodePrintsNothing(Boilerplate(1));
    RebuiltPrintsNothing(b.enumerations);
    PrintedAppends(Boilerplate(12), Rebuilt(b.enumerations));
    PrintedAppends(Boilerplate(12) + Rebuilt(b.enumerations), statements);
    PrintedAppends(Boilerplate(12) + Rebuilt(b.enumerations) + statements, Boilerplate(1));
    PrintedAppends(Boilerplate(3), statements);
    PrintedAppends(Boilerplate(3) + statements, end);
    KeysAreKeys(b);
  }

  lemma {:induction false} HidingPrintsNothing(variants: seq<string>)
    ensures Printed(Hiding(variants)) == [] && Printed(Restoring(variants)) == []
  {
    if variants == [] {
    } else {
      var (front, last) := (variants[..|variants| - 1], variants[|variants| - 1]);
      HidingPrintsNothing(front);
      CodePrintsNothing([Push(last), Undefine(last)]);
      CodePrintsNothing([Pop(last)]);
      PrintedAppends(Hiding(front), [Push(last), Undefine(last)]);
      PrintedAppends([Pop(last)], Restoring(front));
    }
  }

  lemma {:induction false} RebuiltPrintsNothing(enumerations: seq<Enumeration>)
    ensures Printed(Rebuilt(enumerations)) == []
  {
    if enumerations == [] {
    } else {
      var (k, last) := (|enumerations| - 1, enumerations[|enumerations| - 1]);
      RebuiltPrintsNothing(enumerations[..k]);
      HidingPrintsNothing(last.variants);
      CodePrintsNothing([Declare(k, last.variants)]);
      PrintedAppends(Hiding(last.variants), [Declare(k, last.variants)]);
      PrintedAppends(Hiding(last.variants) + [Declare(k, last.variants)], Restoring(last.variants));
      PrintedAppends(Rebuilt(enumerations[..k]), if last.cType.None? then Rebuilding(k, last.variants) else []);
    }
  }

  /** Raises exactly on incoherent metadata. Both programs print the same keys in the same order: those of
      every recognised item. */
  method GenerateProbes(b: Bindings, runFfi: bool) returns (result: Result<Programs>)
    ensures result.Ok? <==> Coherent(b)
    ensures result.Ok? ==>
      && result.value.c == CProgram(b) && result.value.rust == RustProgram(b, runFfi)
      && Printed(result.value.c) == ProbedKeys(b) && Printed(result.value.rust) == ProbedKeys(b)
      && (forall key :: key in Printed(result.value.c) <==> IsKey(b, key))
      && result.value.coverage.integerConstants == |b.integers| + |b.booleans|
      && result.value.coverage.enumConstants == |EmittedNames(b.enumerations)|
      && result.value.coverage.anonymousEnums == AnonymousCount(b.enumerations)
      && result.value.coverage.stringConstants == |b.strings|
      && result.value.coverage.records == |b.records|
      && result.value.coverage.fieldOffsets == FieldCount(b.records)
  {
    var covered := CheckCoverage(b);
    if !covered {
      return Err("coverage");
    }
    var enums, declarations, anonymous := CollectEnums(b.constants, b.enumerations);
    if enums.Err? {
      return Err("enum");
    }
    var macros := CollectMacros(b.integers, enums.value, b.macroTypes);
    if macros.Err? {
      return Err("macro");
    }
    var ok, c, rust, offsets := ProbeAll(b, enums.value, macros.value);
    if !ok {
      return Err("boolean");
    }
    var coverage := Coverage(|b.integers| + |b.booleans|, |enums.value|, anonymous, |b.strings|, |b.records|, offsets);
    ProgramsPrintKeys(b, runFfi);
    c := Boilerplate(12) + declarations + c + Boilerplate(1);
    rust := Boilerplate(3) + rust + if runFfi then Boilerplate(3) else Boilerplate(1);
    return Ok(Programs(c, rust, coverage));
  }

  lemma CoveredIsRecognised(b: Bindings)
    ensures (set i | i in b.integers :: i.name) + (set n | n in b.booleans) + (set n | n in b.strings)
            == set n | n in Recognised(b)
  {
    var names := IntegerNames(b.integers);
    assert forall k | 0 <= k < |b.integers| :: b.integers[k] in b.integers && names[k] in names;
    assert forall n | n in names :: exists k :: 0 <= k < |b.integers| && names[k] == n;
    assert forall n :: n in Recognised(b) <==> n in names || n in b.booleans || n in b.strings;
  }

  lemma {:induction false} DistinctCount(names: seq<string>)
    ensures |set n | n in names| <= |names|
    ensures |set n | n in names| == |names| <==> NoRepeats(names)
  {
    if names == [] {
    } else {
      var (front, last) := (names[..|names| - 1], names[|names| - 1]);
      DistinctCount(front);
      assert names == front + [last];
      assert (set n | n in names) == (set n | n in front) + {last};
      if last in front {
        var i :| 0 <= i < |front| && front[i] == last;
        assert names[i] == names[|front|];
      }
      if NoRepeats(front) && last !in front {
        assert NoRepeats(names);
      }
    }
  }

  /** The audit's count of covered constants is right exactly when no constant is recognised twice. */
  lemma CountIffDistinct(b: Bindings)
    requires Coherent(b)
    ensures |b.integers| + |b.booleans| + |b.strings| == |b.constants| <==> NoRepeats(Recognised(b))
  {
    DistinctCount(Recognised(b));
  }
}
