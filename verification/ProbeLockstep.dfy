/** The labels under which the C and Rust probe programs have to print, and the parser of their outputs. */
module ProbeLockstep {
  import opened Results
  import opened Texts

  datatype Kind =
    | EnumExpressionSize | EnumExpressionSigned
    | MacroExpressionSize | MacroExpressionSigned | MacroExpressionValue
    | Constant | ConstantSize | ConstantSigned | ConstantBool | StringBytes
    | Size | Align

  datatype Label = Of(kind: Kind, name: string) | Offset(record: string, field: string)

  function Prefix(kind: Kind): string
  {
    match kind
    case EnumExpressionSize => "enum_expression_size"
    case EnumExpressionSigned => "enum_expression_signed"
    case MacroExpressionSize => "macro_expression_size"
    case MacroExpressionSigned => "macro_expression_signed"
    case MacroExpressionValue => "macro_expression_value"
    case Constant => "constant"
    case ConstantSize => "constant_size"
    case ConstantSigned => "constant_signed"
    case ConstantBool => "constant_bool"
    case StringBytes => "string"
    case Size => "size"
    case Align => "align"
  }

  function Dot(head: string, rest: string): string
  {
    head + "." + rest
  }

  function Text(l: Label): string
  {
    match l
    case Of(kind, name) => Dot(Prefix(kind), name)
    case Offset(record, field) => Dot("offset", Dot(record, field))
  }

  function Keys(labels: seq<Label>): seq<string>
  {
    seq(|labels|, i requires 0 <= i < |labels| => Text(labels[i]))
  }

  datatype Integer = Integer(name: string, signed: bool, bits: nat)

  /** An enumerator as the bindings name it, with the C expression it stands for. */
  datatype EnumConstant = EnumConstant(rustName: string, cName: string, bits: nat, signed: bool)

  /** A C enumeration; an anonymous one has no spelling, and is rebuilt from its enumerators. */
  datatype Enumeration = Enumeration(cType: Option<string>, variants: seq<string>, emitted: seq<EnumConstant>)

  datatype MacroType = MacroType(
    rustName: string, rustSigned: bool, rustBits: nat, cName: string, cSigned: bool, cBits: nat)

  datatype Record = Record(cType: string, rustType: string, fields: seq<string>)

  /** What was recognised in the generated bindings, and the metadata about it. */
  datatype Bindings = Bindings(
    integers: seq<Integer>,
    booleans: seq<string>,
    strings: seq<string>,
    constants: set<string>,
    renamedMacros: set<string>,
    enumerations: seq<Enumeration>,
    macroTypes: seq<MacroType>,
    records: seq<Record>)

  function IntegerNames(integers: seq<Integer>): seq<string>
  {
    seq(|integers|, i requires 0 <= i < |integers| => integers[i].name)
  }

  function Recognised(b: Bindings): seq<string>
  {
    IntegerNames(b.integers) + b.booleans + b.strings
  }

  datatype Item =
    | Number(name: string, isEnum: bool, isMacro: bool)
    | Truth(name: string)
    | Bytes(name: string)
    | Layout(record: Record)

  function Offsets(cType: string, fields: seq<string>): seq<Label>
  {
    seq(|fields|, i requires 0 <= i < |fields| => Offset(cType, fields[i]))
  }

  /** The labels of the C expression behind an enumerator or a projected macro. */
  function ExpressionLabels(n: string, isEnum: bool, isMacro: bool): seq<Label>
  {
    if isEnum then [Of(EnumExpressionSize, n), Of(EnumExpressionSigned, n)]
    else if isMacro then [Of(MacroExpressionSize, n), Of(MacroExpressionSigned, n), Of(MacroExpressionValue, n)]
    else []
  }

  function ConstantLabels(n: string): seq<Label>
  {
    [Of(Constant, n), Of(ConstantSize, n), Of(ConstantSigned, n)]
  }

  /** The labels probed for one item, in order. */
  function ItemLabels(item: Item): seq<Label>
  {
    match item
    case Number(n, isEnum, isMacro) => ExpressionLabels(n, isEnum, isMacro) + ConstantLabels(n)
    case Truth(n) => ConstantLabels(n) + [Of(ConstantBool, n)]
    case Bytes(n) => [Of(StringBytes, n)]
    case Layout(r) => [Of(Size, r.cType), Of(Align, r.cType)] + Offsets(r.cType, r.fields)
  }

  function Flatten<T>(blocks: seq<seq<T>>): seq<T>
  {
    if blocks == [] then [] else Flatten(blocks[..|blocks| - 1]) + blocks[|blocks| - 1]
  }

  function Blocks(items: seq<Item>): seq<seq<Label>>
  {
    seq(|items|, i requires 0 <= i < |items| => ItemLabels(items[i]))
  }

  function Labels(items: seq<Item>): seq<Label>
  {
    Flatten(Blocks(items))
  }

  function Numbers(integers: seq<Integer>, enums: set<string>, macros: set<string>): seq<Item>
  {
    seq(|integers|, i requires 0 <= i < |integers| =>
      Number(integers[i].name, integers[i].name in enums, integers[i].name in macros))
  }

  function Truths(booleans: seq<string>): seq<Item>
  {
    seq(|booleans|, i requires 0 <= i < |booleans| => Truth(booleans[i]))
  }

  function AllBytes(strings: seq<string>): seq<Item>
  {
    seq(|strings|, i requires 0 <= i < |strings| => Bytes(strings[i]))
  }

  function Layouts(records: seq<Record>): seq<Item>
  {
    seq(|records|, i requires 0 <= i < |records| => Layout(records[i]))
  }

  function Items(b: Bindings, enums: set<string>, macros: set<string>): seq<Item>
  {
    Numbers(b.integers, enums, macros) + Truths(b.booleans) + AllBytes(b.strings) + Layouts(b.records)
  }

  function Names(emitted: seq<EnumConstant>): seq<string>
  {
    seq(|emitted|, i requires 0 <= i < |emitted| => emitted[i].rustName)
  }

  function EmittedNames(enumerations: seq<Enumeration>): seq<string>
  {
    if enumerations == [] then []
    else EmittedNames(enumerations[..|enumerations| - 1]) + Names(enumerations[|enumerations| - 1].emitted)
  }

  function EnumNames(b: Bindings): set<string>
  {
    set n | n in EmittedNames(b.enumerations)
  }

  function MacroNames(b: Bindings): set<string>
  {
    set m | m in b.macroTypes :: m.rustName
  }

  predicate NoRepeats<T(==)>(s: seq<T>)
  {
    forall i, j | 0 <= i < j < |s| :: s[i] != s[j]
  }

  /** The type of each integer constant; a later declaration wins. */
  function IntegerTypes(integers: seq<Integer>): map<string, (bool, nat)>
  {
    if integers == [] then map[]
    else
      var last := integers[|integers| - 1];
      IntegerTypes(integers[..|integers| - 1])[last.name := (last.signed, last.bits)]
  }

  /** Every name is a constant, and no two are the same. */
  ghost predicate ValidNames(constants: set<string>, names: seq<string>)
  {
    NoRepeats(names) && forall n | n in names :: n in constants
  }

  /** The last integer constant of the name is of this type. */
  ghost predicate HasType(integers: seq<Integer>, name: string, signed: bool, bits: nat)
  {
    exists i :: 0 <= i < |integers| && integers[i] == Integer(name, signed, bits) &&
      forall j | i < j < |integers| :: integers[j].name != name
  }

  lemma {:induction false} LastTypeHolds(integers: seq<Integer>, i: nat)
    requires i < |integers| && forall j | i < j < |integers| :: integers[j].name != integers[i].name
    ensures integers[i].name in IntegerTypes(integers)
    ensures IntegerTypes(integers)[integers[i].name] == (integers[i].signed, integers[i].bits)
  {
    if i == |integers| - 1 {
    } else {
      LastTypeHolds(integers[..|integers| - 1], i);
    }
  }

  lemma {:induction false} TypeHasLast(integers: seq<Integer>, name: string) returns (i: nat)
    requires name in IntegerTypes(integers)
    ensures i < |integers| && integers[i].name == name && forall j | i < j < |integers| :: integers[j].name != name
  {
    var k := |integers| - 1;
    if integers[k].name == name {
      i := k;
    } else {
      i := TypeHasLast(integers[..k], name);
    }
  }

  lemma TypesHold(integers: seq<Integer>, name: string, signed: bool, bits: nat)
    ensures HasType(integers, name, signed, bits) <==>
            name in IntegerTypes(integers) && IntegerTypes(integers)[name] == (signed, bits)
  {
    if name in IntegerTypes(integers) {
      var i := TypeHasLast(integers, name);
      LastTypeHolds(integers, i);
      assert integers[i] == Integer(name, integers[i].signed, integers[i].bits);
    }
    if i :| 0 <= i < |integers| && integers[i] == Integer(name, signed, bits) &&
            forall j | i < j < |integers| :: integers[j].name != name {
      LastTypeHolds(integers, i);
    }
  }

  /** Every projected macro names an integer constant of its type that is no enumerator, and no two the same. */
  ghost predicate ValidMacros(integers: seq<Integer>, enums: set<string>, macros: seq<MacroType>)
  {
    && (forall m | m in macros :: HasType(integers, m.rustName, m.rustSigned, m.rustBits) && m.rustName !in enums)
    && (forall i, j | 0 <= i < j < |macros| :: macros[i].rustName != macros[j].rustName)
  }

  /** Every constant is recognised, and every renamed macro is a constant. */
  ghost predicate Covers(b: Bindings)
  {
    && b.renamedMacros <= b.constants
    && (b.integers != [] || b.booleans != [])
    && b.constants == (set n | n in Recognised(b))
  }

  /** Every constant is recognised, and all metadata is about constants it fits. */
  ghost predicate Coherent(b: Bindings)
  {
    && Covers(b)
    && ValidNames(b.constants, EmittedNames(b.enumerations))
    && ValidMacros(b.integers, EnumNames(b), b.macroTypes)
    && (forall n | n in b.booleans :: n !in EnumNames(b) && n !in MacroNames(b))
  }

  // No label repeats, so both outputs parse, to the same keys.

  /** The name and role an item's labels speak about. */
  function Subject(item: Item): (bool, string)
  {
    match item
    case Number(n, _, _) => (false, n)
    case Truth(n) => (false, n)
    case Bytes(n) => (false, n)
    case Layout(r) => (true, r.cType)
  }

  function LabelSubject(l: Label): (bool, string)
  {
    match l
    case Of(kind, n) => (kind.Size? || kind.Align?, n)
    case Offset(r, _) => (true, r)
  }

  ghost predicate DistinctItems(items: seq<Item>)
  {
    && (forall i, j | 0 <= i < j < |items| :: Subject(items[i]) != Subject(items[j]))
    && (forall i | 0 <= i < |items| && items[i].Layout? :: NoRepeats(items[i].record.fields))
  }

  lemma ItemLabelsAreDistinct(item: Item)
    requires item.Layout? ==> NoRepeats(item.record.fields)
    ensures NoRepeats(ItemLabels(item))
    ensures forall l | l in ItemLabels(item) :: LabelSubject(l) == Subject(item)
  {
    match item
    case Number(n, isEnum, isMacro) => NumberLabelsAreDistinct(n, isEnum, isMacro);
    case Layout(r) => LayoutLabelsAreDistinct(r);
    case _ =>
  }

  lemma NumberLabelsAreDistinct(n: string, isEnum: bool, isMacro: bool)
    ensures NoRepeats(ItemLabels(Number(n, isEnum, isMacro)))
    ensures forall l | l in ItemLabels(Number(n, isEnum, isMacro)) :: LabelSubject(l) == (false, n)
  {
    if isEnum {
    } else if isMacro {
    }
  }

  lemma LayoutLabelsAreDistinct(r: Record)
    requires NoRepeats(r.fields)
    ensures NoRepeats(ItemLabels(Layout(r)))
    ensures forall l | l in ItemLabels(Layout(r)) :: LabelSubject(l) == (true, r.cType)
  {
  }

  lemma {:induction false} InFlatten<T>(blocks: seq<seq<T>>, x: T)
    ensures x in Flatten(blocks) <==> exists i :: 0 <= i < |blocks| && x in blocks[i]
  {
    if blocks == [] {
    } else {
      var k := |blocks| - 1;
      InFlatten(blocks[..k], x);
      if i :| 0 <= i < |blocks| && x in blocks[i] {
        assert i < k ==> blocks[..k][i] == blocks[i];
      }
    }
  }

  /** Blocks that repeat nothing and share nothing repeat nothing together. */
  lemma {:induction false} FlattenIsDistinct<T>(blocks: seq<seq<T>>)
    requires forall i | 0 <= i < |blocks| :: NoRepeats(blocks[i])
    requires forall i, j, x | 0 <= i < j < |blocks| && x in blocks[i] :: x !in blocks[j]
    ensures NoRepeats(Flatten(blocks))
  {
    if blocks == [] {
    } else {
      var k := |blocks| - 1;
      var (before, last) := (Flatten(blocks[..k]), blocks[k]);
      FlattenIsDistinct(blocks[..k]);
      forall i, j | 0 <= i < |before| && 0 <= j < |last| ensures before[i] != last[j] {
        InFlatten(blocks[..k], before[i]);
      }
    }
  }

  lemma LabelsAreDistinct(items: seq<Item>)
    requires DistinctItems(items)
    ensures NoRepeats(Labels(items))
  {
    var blocks := Blocks(items);
    forall i | 0 <= i < |items|
      ensures NoRepeats(blocks[i]) && forall l | l in blocks[i] :: LabelSubject(l) == Subject(items[i])
    {
      ItemLabelsAreDistinct(items[i]);
    }
    FlattenIsDistinct(blocks);
  }

  // Output lines.

  type Entry = (string, string)

  type Splitter = string -> Option<Entry>

  /** A line splits at its first '='. */
  function KeyValue(): Splitter
  {
    line => SplitAt(line, '=')
  }

  predicate AllSplit(lines: seq<string>, split: Splitter)
  {
    forall i | 0 <= i < |lines| :: split(lines[i]).Some?
  }

  function Entries(lines: seq<string>, split: Splitter): seq<Entry>
    requires AllSplit(lines, split)
  {
    seq(|lines|, i requires 0 <= i < |lines| => split(lines[i]).value)
  }

  predicate DistinctKeys(entries: seq<Entry>)
  {
    forall i, j | 0 <= i < j < |entries| :: entries[i].0 != entries[j].0
  }

  /** Every line has a separator and no key repeats. */
  predicate Parsable(lines: seq<string>, split: Splitter)
  {
    AllSplit(lines, split) && DistinctKeys(Entries(lines, split))
  }

  ghost predicate Holds(entries: seq<Entry>, parsed: map<string, string>)
  {
    && (forall i | 0 <= i < |entries| :: entries[i].0 in parsed && parsed[entries[i].0] == entries[i].1)
    && (forall k | k in parsed :: exists i :: 0 <= i < |entries| && entries[i].0 == k)
  }

  lemma HoldsStep(entries: seq<Entry>, e: Entry, parsed: map<string, string>)
    requires DistinctKeys(entries) && Holds(entries, parsed)
    ensures if e.0 in parsed then !DistinctKeys(entries + [e])
            else DistinctKeys(entries + [e]) && Holds(entries + [e], parsed[e.0 := e.1])
  {
    var all := entries + [e];
    assert all[|entries|] == e && forall i | 0 <= i < |entries| :: all[i] == entries[i];
    if e.0 in parsed {
      var i :| 0 <= i < |entries| && entries[i].0 == e.0;
      assert all[i].0 == all[|entries|].0;
    } else {
      forall k | k in parsed ensures exists i :: 0 <= i < |all| && all[i].0 == k {
        var i :| 0 <= i < |entries| && entries[i].0 == k;
        assert all[i].0 == k;
      }
    }
  }

  method ParseLines(lines: seq<string>, split: Splitter) returns (result: Result<map<string, string>>)
    ensures result.Ok? <==> Parsable(lines, split)
    ensures result.Ok? ==> Holds(Entries(lines, split), result.value)
  {
    var parsed: map<string, string> := map[];
    ghost var entries: seq<Entry> := [];
    for i := 0 to |lines|
      invariant |entries| == i && DistinctKeys(entries) && Holds(entries, parsed)
      invariant forall j | 0 <= j < i :: split(lines[j]) == Some(entries[j])
    {
      var parts := split(lines[i]);
      if parts.None? {
        return Err("not enough values to unpack");
      }
      HoldsStep(entries, parts.value, parsed);
      entries := entries + [parts.value];
      if parts.value.0 in parsed {
        RepeatedKey(lines, split, entries);
        return Err("duplicate probe key");
      }
      parsed := parsed[parts.value.0 := parts.value.1];
    }
    assert AllSplit(lines, split) && Entries(lines, split) == entries;
    return Ok(parsed);
  }

  lemma RepeatedKey(lines: seq<string>, split: Splitter, entries: seq<Entry>)
    requires |entries| <= |lines| && !DistinctKeys(entries)
    requires forall j | 0 <= j < |entries| :: split(lines[j]) == Some(entries[j])
    ensures !Parsable(lines, split)
  {
    if AllSplit(lines, split) {
      assert forall j | 0 <= j < |entries| :: Entries(lines, split)[j] == entries[j];
    }
  }

  method ParseOutput(lines: seq<string>) returns (result: Result<map<string, string>>)
    ensures result.Ok? <==> Parsable(lines, KeyValue())
    ensures result.Ok? ==> Holds(Entries(lines, KeyValue()), result.value)
  {
    result := ParseLines(lines, KeyValue());
  }

  predicate IsExpressionKind(kind: Kind)
  {
    kind.EnumExpressionSize? || kind.EnumExpressionSigned? ||
    kind.MacroExpressionSize? || kind.MacroExpressionSigned? || kind.MacroExpressionValue?
  }

  lemma PrefixIsPlain(kind: Kind)
    ensures '.' !in Prefix(kind) && '=' !in Prefix(kind)
  {
    if IsExpressionKind(kind) {
      ExpressionPrefixIsPlain(kind);
    } else {
      DeclarationPrefixIsPlain(kind);
    }
  }

  lemma ExpressionPrefixIsPlain(kind: Kind)
    requires IsExpressionKind(kind)
    ensures '.' !in Prefix(kind) && '=' !in Prefix(kind)
  {
    if kind.EnumExpressionSize? || kind.EnumExpressionSigned? {
      EnumPrefixIsPlain(kind);
    } else {
      MacroPrefixIsPlain(kind);
    }
  }

  lemma EnumPrefixIsPlain(kind: Kind)
    requires kind.EnumExpressionSize? || kind.EnumExpressionSigned?
    ensures '.' !in Prefix(kind) && '=' !in Prefix(kind)
  {
  }

  lemma MacroPrefixIsPlain(kind: Kind)
    requires kind.MacroExpressionSize? || kind.MacroExpressionSigned? || kind.MacroExpressionValue?
    ensures '.' !in Prefix(kind) && '=' !in Prefix(kind)
  {
  }

  lemma DeclarationPrefixIsPlain(kind: Kind)
    requires !IsExpressionKind(kind)
    ensures '.' !in Prefix(kind) && '=' !in Prefix(kind)
  {
  }

  /** Length tells the prefixes apart, and one character where lengths are equal. */
  ghost function Mark(text: string): (nat, char)
  {
    (|text|, if |text| == 13 then text[9] else if text == [] then ' ' else text[0])
  }

  lemma PrefixMark(kind: Kind)
    ensures Mark(Prefix(kind)) == match kind
      case EnumExpressionSize => (20, 'e') case EnumExpressionSigned => (22, 'e')
      case MacroExpressionSize => (21, 'm') case MacroExpressionSigned => (23, 'm') case MacroExpressionValue => (22, 'm')
      case Constant => (8, 'c') case ConstantSize => (13, 's') case ConstantSigned => (15, 'c') case ConstantBool => (13, 'b')
      case StringBytes => (6, 's') case Size => (4, 's') case Align => (5, 'a')
    ensures Mark("offset") == (6, 'o')
  {
  }

  lemma PrefixesAreDistinct(kind: Kind, kind': Kind)
    ensures '.' !in Prefix(kind) && '=' !in Prefix(kind) && Prefix(kind) != "offset"
    ensures Prefix(kind) == Prefix(kind') ==> kind == kind'
  {
    PrefixIsPlain(kind);
    PrefixMark(kind);
    PrefixMark(kind');
  }

  /** Distinct labels have distinct texts, as long as C type names contain no dot. */
  lemma TextDetermines(l: Label, l': Label)
    requires Text(l) == Text(l')
    requires l.Offset? ==> '.' !in l.record
    requires l'.Offset? ==> '.' !in l'.record
    ensures l == l'
  {
    var (p, n) := if l.Of? then (Prefix(l.kind), l.name) else ("offset", Dot(l.record, l.field));
    var (p', n') := if l'.Of? then (Prefix(l'.kind), l'.name) else ("offset", Dot(l'.record, l'.field));
    if l.Of? {
      PrefixesAreDistinct(l.kind, if l'.Of? then l'.kind else l.kind);
    }
    if l'.Of? {
      PrefixesAreDistinct(l'.kind, l'.kind);
    }
    SplitIsUnique(p, n, p', n', '.');
    if l.Offset? {
      SplitIsUnique(l.record, l.field, l'.record, l'.field, '.');
    }
  }

  /** What a program prints: each key with the value it computed. */
  function Output(keys: seq<string>, values: seq<string>): seq<string>
    requires |values| == |keys|
  {
    seq(|keys|, i requires 0 <= i < |keys| => keys[i] + "=" + values[i])
  }

  ghost predicate PlainLabel(l: Label)
  {
    '=' !in Text(l) && (l.Offset? ==> '.' !in l.record)
  }

  ghost predicate PlainLabels(labels: seq<Label>)
  {
    forall l | l in labels :: PlainLabel(l)
  }

  lemma OutputParses(labels: seq<Label>, values: seq<string>)
    requires |values| == |labels| && NoRepeats(labels) && PlainLabels(labels)
    ensures Parsable(Output(Keys(labels), values), KeyValue())
    ensures forall i | 0 <= i < |labels| :: Entries(Output(Keys(labels), values), KeyValue())[i] == (Text(labels[i]), values[i])
  {
    var lines := Output(Keys(labels), values);
    forall i | 0 <= i < |labels| ensures SplitAt(lines[i], '=') == Some((Text(labels[i]), values[i])) {
      assert PlainLabel(labels[i]) && lines[i][|Text(labels[i])|] == '=';
      var parts := SplitAt(lines[i], '=').value;
      SplitIsUnique(Text(labels[i]), values[i], parts.0, parts.1, '=');
    }
    forall i, j | 0 <= i < j < |labels| ensures Text(labels[i]) != Text(labels[j]) {
      if Text(labels[i]) == Text(labels[j]) {
        assert PlainLabel(labels[i]) && PlainLabel(labels[j]);
        TextDetermines(labels[i], labels[j]);
      }
    }
  }

  /** Names as declarations have them: constants are declared once and records listed once, with
      distinct fields; identifiers contain no '=' and C type names no dot. */
  ghost predicate ProperNames(b: Bindings)
  {
    && NoRepeats(Recognised(b))
    && (forall n | n in Recognised(b) :: '=' !in n)
    && (forall i, j | 0 <= i < j < |b.records| :: b.records[i].cType != b.records[j].cType)
    && (forall r | r in b.records :: NoRepeats(r.fields) && '.' !in r.cType && '=' !in r.cType &&
          forall f | f in r.fields :: '=' !in f)
  }

  lemma ItemAt(b: Bindings, enums: set<string>, macros: set<string>, i: nat)
    requires i < |Items(b, enums, macros)|
    ensures |Items(b, enums, macros)| == |Recognised(b)| + |b.records|
    ensures
      var item := Items(b, enums, macros)[i];
      if i < |Recognised(b)| then !item.Layout? && Subject(item) == (false, Recognised(b)[i])
      else item == Layout(b.records[i - |Recognised(b)|])
  {
  }

  lemma ItemsAreProper(b: Bindings, enums: set<string>, macros: set<string>)
    requires ProperNames(b)
    ensures DistinctItems(Items(b, enums, macros))
    ensures forall i | 0 <= i < |Items(b, enums, macros)| :: PlainLabels(ItemLabels(Items(b, enums, macros)[i]))
  {
    var items := Items(b, enums, macros);
    forall i, j | 0 <= i < j < |items| ensures Subject(items[i]) != Subject(items[j]) {
      ItemAt(b, enums, macros, i);
      ItemAt(b, enums, macros, j);
    }
    forall i | 0 <= i < |items|
      ensures items[i].Layout? ==> NoRepeats(items[i].record.fields)
      ensures PlainLabels(ItemLabels(items[i]))
    {
      ItemAt(b, enums, macros, i);
      if i < |Recognised(b)| {
        assert Recognised(b)[i] in Recognised(b);
      } else {
        assert b.records[i - |Recognised(b)|] in b.records;
      }
      ItemIsPlain(items[i]);
    }
  }

  lemma LabelHasItem(items: seq<Item>, l: Label)
    ensures l in Labels(items) <==> exists i :: 0 <= i < |items| && l in ItemLabels(items[i])
  {
    InFlatten(Blocks(items), l);
    assert forall i | 0 <= i < |items| :: Blocks(items)[i] == ItemLabels(items[i]);
  }

  lemma LabelIsPlain(l: Label)
    requires l.Of? ==> '=' !in l.name
    requires l.Offset? ==> '=' !in l.record && '.' !in l.record && '=' !in l.field
    ensures PlainLabel(l)
  {
    if l.Of? {
      PrefixIsPlain(l.kind);
    }
  }

  lemma ItemLabelNames(item: Item, l: Label)
    requires l in ItemLabels(item)
    ensures l.Of? ==> l.name == Subject(item).1
    ensures l.Offset? ==> item.Layout? && l.record == item.record.cType && l.field in item.record.fields
  {
    if item.Layout? && l.Offset? {
      assert l in Offsets(item.record.cType, item.record.fields);
    }
  }

  lemma ItemIsPlain(item: Item)
    requires '=' !in Subject(item).1
    requires item.Layout? ==> '.' !in item.record.cType && forall f | f in item.record.fields :: '=' !in f
    ensures PlainLabels(ItemLabels(item))
  {
    forall l | l in ItemLabels(item) ensures PlainLabel(l) {
      ItemLabelNames(item, l);
      LabelIsPlain(l);
    }
  }

  /** Whatever the two programs compute, both outputs parse, to the same keys, and every recognised
      constant is among them. */
  lemma ProbesAreComparable(b: Bindings, cValues: seq<string>, rustValues: seq<string>)
    requires Coherent(b) && ProperNames(b)
    requires |cValues| == |rustValues| == |Labels(Items(b, EnumNames(b), MacroNames(b)))|
    ensures
      var labels := Labels(Items(b, EnumNames(b), MacroNames(b)));
      && Parsable(Output(Keys(labels), cValues), KeyValue()) && Parsable(Output(Keys(labels), rustValues), KeyValue())
      && (forall parsed, parsed' | Holds(Entries(Output(Keys(labels), cValues), KeyValue()), parsed) && Holds(Entries(Output(Keys(labels), rustValues), KeyValue()), parsed') ::
            parsed.Keys == parsed'.Keys == set l | l in labels :: Text(l))
      && (forall n | n in b.constants :: Of(Constant, n) in labels || Of(StringBytes, n) in labels)
  {
    var items := Items(b, EnumNames(b), MacroNames(b));
    var labels := Labels(items);
    ItemsAreProper(b, EnumNames(b), MacroNames(b));
    LabelsAreDistinct(items);
    forall l | l in labels ensures PlainLabel(l) {
      LabelHasItem(items, l);
    }
    OutputParses(labels, cValues);
    OutputParses(labels, rustValues);
    forall parsed | Holds(Entries(Output(Keys(labels), cValues), KeyValue()), parsed) ensures parsed.Keys == set l | l in labels :: Text(l) {
      OutputKeys(labels, cValues, parsed);
    }
    forall parsed | Holds(Entries(Output(Keys(labels), rustValues), KeyValue()), parsed) ensures parsed.Keys == set l | l in labels :: Text(l) {
      OutputKeys(labels, rustValues, parsed);
    }
    forall n | n in b.constants ensures Of(Constant, n) in labels || Of(StringBytes, n) in labels {
      ConstantIsProbed(b, EnumNames(b), MacroNames(b), n);
    }
  }

  lemma OutputKeys(labels: seq<Label>, values: seq<string>, parsed: map<string, string>)
    requires |values| == |labels| && NoRepeats(labels) && PlainLabels(labels)
    requires Parsable(Output(Keys(labels), values), KeyValue()) && Holds(Entries(Output(Keys(labels), values), KeyValue()), parsed)
    ensures parsed.Keys == set l | l in labels :: Text(l)
  {
    OutputParses(labels, values);
    forall l | l in labels ensures Text(l) in parsed {
      var i :| 0 <= i < |labels| && labels[i] == l;
      assert Entries(Output(Keys(labels), values), KeyValue())[i].0 == Text(l);
    }
  }

  lemma ConstantIsProbed(b: Bindings, enums: set<string>, macros: set<string>, n: string)
    requires n in Recognised(b)
    ensures
      var labels := Labels(Items(b, enums, macros));
      Of(Constant, n) in labels || Of(StringBytes, n) in labels
  {
    var items := Items(b, enums, macros);
    var i :| 0 <= i < |Recognised(b)| && Recognised(b)[i] == n;
    ItemAt(b, enums, macros, i);
    LabelHasItem(items, Of(Constant, n));
    LabelHasItem(items, Of(StringBytes, n));
    assert Of(Constant, n) in ItemLabels(items[i]) || Of(StringBytes, n) in ItemLabels(items[i]);
  }
}
