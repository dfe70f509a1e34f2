/** Paths into retained types: the parts of a declared type, members of an offset, and the
    subobjects an initializer names. */
module RetainedPaths {
  import opened Results
  import opened RetainedTypes

  /** Where a path leads, if every step exists. */
  function Reach<S(!new)>(step: (Type, S) -> Option<Type>, root: Type, path: seq<S>): Option<Type>
  {
    if path == [] then Some(root)
    else
      var before := Reach(step, root, path[..|path| - 1]);
      if before.None? then None else step(before.value, path[|path| - 1])
  }

  lemma {:induction false} ReachConcatenates<S(!new)>(step: (Type, S) -> Option<Type>, root: Type, p: seq<S>, q: seq<S>)
    ensures Reach(step, root, p + q) ==
      if Reach(step, root, p).None? then None else Reach(step, Reach(step, root, p).value, q)
  {
    if q == [] {
      assert p + q == p;
    } else {
      var k := |q| - 1;
      assert (p + q)[..|p + q| - 1] == p + q[..k] && (p + q)[|p + q| - 1] == q[k];
      ReachConcatenates(step, root, p, q[..k]);
    }
  }

  lemma PrefixIsReached<S(!new)>(step: (Type, S) -> Option<Type>, root: Type, path: seq<S>, i: nat)
    requires i <= |path| && Reach(step, root, path[..i]).None?
    ensures Reach(step, root, path).None?
  {
    ReachConcatenates(step, root, path[..i], path[i..]);
    assert path == path[..i] + path[i..];
  }

  lemma EveryStepExists<S(!new)>(step: (Type, S) -> Option<Type>, root: Type, path: seq<S>, i: nat)
    requires i < |path| && Reach(step, root, path).Some?
    ensures Reach(step, root, path[..i]).Some?
    ensures step(Reach(step, root, path[..i]).value, path[i]).Some?
  {
    assert path[..i + 1][..i] == path[..i];
    ReachConcatenates(step, root, path[..i + 1], path[i + 1..]);
    assert path == path[..i + 1] + path[i + 1..];
  }

  /** A loop over the steps, stopping at the first that does not exist. */
  method Walk<S(!new)>(step: (Type, S) -> Option<Type>, root: Type, path: seq<S>) returns (reached: Option<Type>)
    ensures reached == Reach(step, root, path)
  {
    var ty := root;
    for i := 0 to |path|
      invariant Reach(step, root, path[..i]) == Some(ty)
    {
      assert path[..i + 1][..i] == path[..i];
      var next := step(ty, path[i]);
      if next.None? {
        PrefixIsReached(step, root, path, i + 1);
        return None;
      }
      ty := next.value;
    }
    assert path[..|path|] == path;
    return Some(ty);
  }

  /** Types from root to t, each leading by its step to the next. */
  ghost predicate Chain<S(!new)>(leads: (Type, S, Type) -> bool, root: Type, path: seq<S>, t: Type)
  {
    if path == [] then t == root
    else
      var (front, last) := (path[..|path| - 1], path[|path| - 1]);
      exists before :: Chain(leads, root, front, before) && LeadsOn(leads, before, last, t)
  }

  ghost predicate LeadsOn<S(!new)>(leads: (Type, S, Type) -> bool, before: Type, step: S, t: Type)
  {
    leads(before, step, t)
  }

  /** Where each step exists, and leads, as the relation says, a path reaches exactly what chains lead to. */
  lemma {:induction false} ReachIffChain<S(!new)>(
    step: (Type, S) -> Option<Type>, leads: (Type, S, Type) -> bool, root: Type, path: seq<S>, t: Type)
    requires forall ty, s, next :: step(ty, s) == Some(next) <==> leads(ty, s, next)
    ensures Reach(step, root, path) == Some(t) <==> Chain(leads, root, path, t)
  {
    if path == [] {
    } else {
      var (front, last) := (path[..|path| - 1], path[|path| - 1]);
      var before := Reach(step, root, front);
      if before.Some? {
        ReachIffChain(step, leads, root, front, before.value);
      }
      forall b | Chain(leads, root, front, b) ensures before == Some(b) {
        ReachIffChain(step, leads, root, front, b);
      }
    }
  }

  // The parts of a declared type.

  datatype TypeStep = Pointee | AtomicValue | Element | Return | Parameter(index: nat)

  function StepType(unit: Unit): (Type, TypeStep) -> Option<Type>
  {
    (ty: Type, step: TypeStep) =>
      var kind := unit.resolve(ty);
      if kind.None? then None
      else match (step, kind.value)
        case (Pointee, Pointer(pointee)) => Some(pointee)
        case (AtomicValue, Atomic(value)) => Some(value)
        case (Element, Array(element, _)) => Some(element)
        case (Element, VariableArray(element, _)) => Some(element)
        case (Element, Vector(element, _)) => Some(element)
        case (Return, Function(returnType, _, _)) => Some(returnType)
        case (Parameter(i), Function(_, parameters, _)) => if i < |parameters| then Some(parameters[i]) else None
        case _ => None
  }

  /** The part a step leads to, of what the type resolves to. */
  ghost function TypeLeads(unit: Unit): (Type, TypeStep, Type) -> bool
  {
    (ty: Type, step: TypeStep, t: Type) =>
      unit.resolve(ty).Some? &&
      var kind := unit.resolve(ty).value;
      match step
      case Pointee => kind == Pointer(t)
      case AtomicValue => kind == Atomic(t)
      case Element => IsArrayOf(kind, t)
      case Return => kind.Function? && kind.returnType == t
      case Parameter(i) => kind.Function? && i < |kind.parameters| && kind.parameters[i] == t
  }

  ghost predicate IsArrayOf(kind: Type, element: Type)
  {
    || (exists length :: kind == Array(element, length))
    || (exists identity :: kind == VariableArray(element, identity))
    || (exists lanes :: kind == Vector(element, lanes))
  }

  lemma ArrayHasElement(kind: Type, t: Type)
    ensures IsArrayOf(kind, t) <==> (kind.Array? || kind.VariableArray? || kind.Vector?) && kind.element == t
  {
    match kind
    case Array(element, length) => assert kind == Array(element, length);
    case VariableArray(element, identity) => assert kind == VariableArray(element, identity);
    case Vector(element, lanes) => assert kind == Vector(element, lanes);
    case _ =>
  }

  lemma StepTypeLeads(unit: Unit)
    ensures forall ty, s, t :: StepType(unit)(ty, s) == Some(t) <==> TypeLeads(unit)(ty, s, t)
  {
    forall ty, s, t ensures StepType(unit)(ty, s) == Some(t) <==> TypeLeads(unit)(ty, s, t) {
      if unit.resolve(ty).Some? {
        ArrayHasElement(unit.resolve(ty).value, t);
      }
    }
  }

  /** A step leads from what a type resolves to into one of its components. */
  lemma StepIsComponent(unit: Unit, ty: Type, step: TypeStep)
    requires StepType(unit)(ty, step).Some?
    ensures unit.resolve(ty).Some?
    ensures StepType(unit)(ty, step).value in Components(unit.resolve(ty).value)
  {
    if step.Parameter? {
      var f := unit.resolve(ty).value;
      assert Components(f)[step.index + 1] == f.parameters[step.index];
    }
  }

  /** Whatever a path leads to from a type accepted by the shape walk is itself acceptable, provided
      that resolving keeps types acceptable. */
  lemma {:induction false} PathKeepsValid(unit: Unit, root: Type, path: seq<TypeStep>)
    requires forall t | Valid(unit, t) && unit.resolve(t).Some? :: Valid(unit, unit.resolve(t).value)
    requires Valid(unit, root) && Reach(StepType(unit), root, path).Some?
    ensures Valid(unit, Reach(StepType(unit), root, path).value)
  {
    if path == [] {
    } else {
      var k := |path| - 1;
      PathKeepsValid(unit, root, path[..k]);
      var ty := Reach(StepType(unit), root, path[..k]).value;
      StepIsComponent(unit, ty, path[k]);
      ValidByComponents(unit, unit.resolve(ty).value);
    }
  }

  /** The paths of a type use: to the functions it declares and to its runtime extents. */
  ghost predicate LeadsToFunction(unit: Unit, shape: Type, path: seq<TypeStep>)
  {
    exists t :: Chain(TypeLeads(unit), shape, path, t) && unit.resolve(t).Some? && unit.resolve(t).value.Function?
  }

  ghost predicate LeadsToArray(unit: Unit, shape: Type, path: seq<TypeStep>)
  {
    exists t :: Chain(TypeLeads(unit), shape, path, t) && unit.resolve(t).Some? &&
      (unit.resolve(t).value.VariableArray? || unit.resolve(t).value.Array?)
  }

  /** Where a path leads is where the walk ends. */
  method WalkType(unit: Unit, shape: Type, path: seq<TypeStep>) returns (reached: Option<Type>)
    ensures forall t :: reached == Some(t) <==> Chain(TypeLeads(unit), shape, path, t)
  {
    reached := Walk(StepType(unit), shape, path);
    StepTypeLeads(unit);
    forall t ensures reached == Some(t) <==> Chain(TypeLeads(unit), shape, path, t) {
      ReachIffChain(StepType(unit), TypeLeads(unit), shape, path, t);
    }
  }

  method CheckTypeUse(unit: Unit, shape: Type, functions: seq<seq<TypeStep>>, extents: seq<seq<TypeStep>>) returns (ok: bool)
    ensures ok <==>
              && (forall path | path in functions :: LeadsToFunction(unit, shape, path))
              && (forall path | path in extents :: LeadsToArray(unit, shape, path))
  {
    for i := 0 to |functions|
      invariant forall j | 0 <= j < i :: LeadsToFunction(unit, shape, functions[j])
    {
      var reached := WalkType(unit, shape, functions[i]);
      if reached.None? || unit.resolve(reached.value).None? || !unit.resolve(reached.value).value.Function? {
        assert !LeadsToFunction(unit, shape, functions[i]);
        return false;
      }
    }
    for i := 0 to |extents|
      invariant forall j | 0 <= j < i :: LeadsToArray(unit, shape, extents[j])
    {
      var reached := WalkType(unit, shape, extents[i]);
      var kind := if reached.None? then None else unit.resolve(reached.value);
      if kind.None? || !(kind.value.VariableArray? || kind.value.Array?) {
        assert !LeadsToArray(unit, shape, extents[i]);
        return false;
      }
    }
    return true;
  }

  // Members of an offset.

  function FieldOf(unit: Unit, record: nat, index: nat): Option<Type>
  {
    if record < |unit.records| && unit.records[record].Some? && index < |unit.records[record].value|
    then Some(unit.records[record].value[index])
    else None
  }

  function StepField(unit: Unit): (Type, nat) -> Option<Type>
  {
    (ty: Type, index: nat) =>
      var kind := unit.resolve(ty);
      if kind.Some? && kind.value.Record? then FieldOf(unit, kind.value.index, index) else None
  }

  function ElementOf(unit: Unit, ty: Type): Option<Type>
  {
    var kind := unit.resolve(ty);
    if kind.None? then None
    else match kind.value
      case Array(element, _) => Some(element)
      case VariableArray(element, _) => Some(element)
      case Vector(element, _) => Some(element)
      case _ => None
  }

  /** A member: a field, through any anonymous records around it, or an array element. */
  datatype Member = Field(path: seq<nat>) | Subscript(expression: nat)

  function StepMember(unit: Unit, expressions: nat): (Type, Member) -> Option<Type>
  {
    (ty: Type, member: Member) =>
      match member
      case Field(path) => if path == [] then None else Reach(StepField(unit), ty, path)
      case Subscript(expression) => if expression < expressions then ElementOf(unit, ty) else None
  }

  /** t is the type of that field of a complete record. */
  ghost predicate IsFieldType(unit: Unit, record: nat, index: nat, t: Type)
  {
    record < |unit.records| && exists fields :: unit.records[record] == Some(fields) && index < |fields| && fields[index] == t
  }

  ghost function FieldLeads(unit: Unit): (Type, nat, Type) -> bool
  {
    (ty: Type, index: nat, t: Type) =>
      exists record :: unit.resolve(ty) == Some(Record(record)) && IsFieldType(unit, record, index, t)
  }

  ghost function MemberLeads(unit: Unit, expressions: nat): (Type, Member, Type) -> bool
  {
    (ty: Type, member: Member, t: Type) =>
      match member
      case Field(path) => path != [] && Chain(FieldLeads(unit), ty, path, t)
      case Subscript(expression) =>
        expression < expressions && unit.resolve(ty).Some? && IsArrayOf(unit.resolve(ty).value, t)
  }

  lemma StepFieldLeads(unit: Unit)
    ensures forall ty, i, t :: StepField(unit)(ty, i) == Some(t) <==> FieldLeads(unit)(ty, i, t)
  {
    forall ty, i, t ensures StepField(unit)(ty, i) == Some(t) <==> FieldLeads(unit)(ty, i, t) {
      var kind := unit.resolve(ty);
      if kind.Some? && kind.value.Record? {
        assert kind == Some(Record(kind.value.index));
        FieldTypeIsOf(unit, kind.value.index, i, t);
      }
    }
  }

  lemma ElementLeads(unit: Unit, ty: Type, t: Type)
    ensures ElementOf(unit, ty) == Some(t) <==> unit.resolve(ty).Some? && IsArrayOf(unit.resolve(ty).value, t)
  {
    if unit.resolve(ty).Some? {
      ArrayHasElement(unit.resolve(ty).value, t);
    }
  }

  lemma FieldTypeIsOf(unit: Unit, record: nat, index: nat, t: Type)
    ensures FieldOf(unit, record, index) == Some(t) <==> IsFieldType(unit, record, index, t)
  {
    if record < |unit.records| && unit.records[record].Some? {
      assert unit.records[record] == Some(unit.records[record].value);
    }
  }

  lemma StepMemberLeads(unit: Unit, expressions: nat)
    ensures forall ty, s, t :: StepMember(unit, expressions)(ty, s) == Some(t) <==> MemberLeads(unit, expressions)(ty, s, t)
  {
    StepFieldLeads(unit);
    forall ty, s, t ensures StepMember(unit, expressions)(ty, s) == Some(t) <==> MemberLeads(unit, expressions)(ty, s, t) {
      if s.Field? {
        ReachIffChain(StepField(unit), FieldLeads(unit), ty, s.path, t);
      } else {
        ElementLeads(unit, ty, t);
      }
    }
  }

  /** Accepted if every member leads on. */
  method CheckOffset(unit: Unit, expressions: nat, record: Type, members: seq<Member>) returns (ok: bool)
    ensures ok <==> exists t :: Chain(MemberLeads(unit, expressions), record, members, t)
  {
    ok := OffsetOf(unit, expressions, record, members);
    StepMemberLeads(unit, expressions);
    forall t
      ensures Reach(StepMember(unit, expressions), record, members) == Some(t) <==>
              Chain(MemberLeads(unit, expressions), record, members, t)
    {
      ReachIffChain(StepMember(unit, expressions), MemberLeads(unit, expressions), record, members, t);
    }
    assert ok ==> Chain(MemberLeads(unit, expressions), record, members, Reach(StepMember(unit, expressions), record, members).value);
  }

  method OffsetOf(unit: Unit, expressions: nat, record: Type, members: seq<Member>) returns (ok: bool)
    ensures ok <==> Reach(StepMember(unit, expressions), record, members).Some?
  {
    var ty := record;
    for i := 0 to |members|
      invariant Reach(StepMember(unit, expressions), record, members[..i]) == Some(ty)
    {
      assert members[..i + 1][..i] == members[..i];
      var next;
      match members[i] {
        case Field(path) =>
          next := None;
          if path != [] {
            next := Walk(StepField(unit), ty, path);
          }
        case Subscript(expression) =>
          next := if expression < expressions then ElementOf(unit, ty) else None;
      }
      assert next == StepMember(unit, expressions)(ty, members[i]);
      if next.None? {
        PrefixIsReached(StepMember(unit, expressions), record, members, i + 1);
        return false;
      }
      ty := next.value;
    }
    assert members[..|members|] == members;
    return true;
  }

  /** One field or one element at a time. */
  datatype Part = FieldPart(index: nat) | ElementPart

  function StepPart(unit: Unit): (Type, Part) -> Option<Type>
  {
    (ty: Type, part: Part) =>
      match part
      case FieldPart(index) => StepField(unit)(ty, index)
      case ElementPart => ElementOf(unit, ty)
  }

  function FieldParts(path: seq<nat>): seq<Part>
  {
    seq(|path|, i requires 0 <= i < |path| => FieldPart(path[i]))
  }

  function MemberParts(member: Member): seq<Part>
  {
    if member.Field? then FieldParts(member.path) else [ElementPart]
  }

  function Parts(members: seq<Member>): seq<Part>
  {
    if members == [] then []
    else Parts(members[..|members| - 1]) + MemberParts(members[|members| - 1])
  }

  ghost predicate AllSound(members: seq<Member>, expressions: nat)
  {
    forall m | m in members :: SoundMember(m, expressions)
  }

  predicate SoundMember(member: Member, expressions: nat)
  {
    match member
    case Field(path) => path != []
    case Subscript(expression) => expression < expressions
  }

  lemma {:induction false} FieldPartsReach(unit: Unit, ty: Type, path: seq<nat>)
    ensures Reach(StepField(unit), ty, path) == Reach(StepPart(unit), ty, FieldParts(path))
  {
    if path == [] {
    } else {
      FieldPartsReach(unit, ty, path[..|path| - 1]);
      assert FieldParts(path)[..|path| - 1] == FieldParts(path[..|path| - 1]);
    }
  }

  /** How a member path is grouped does not matter: an offset is that of the fields and elements one by one. */
  lemma {:induction false} OffsetIgnoresGrouping(unit: Unit, expressions: nat, record: Type, members: seq<Member>)
    ensures Reach(StepMember(unit, expressions), record, members) ==
      if AllSound(members, expressions) then Reach(StepPart(unit), record, Parts(members)) else None
  {
    if members == [] {
    } else {
      var k := |members| - 1;
      OffsetIgnoresGrouping(unit, expressions, record, members[..k]);
      assert members == members[..k] + [members[k]];
      assert AllSound(members, expressions) <==> AllSound(members[..k], expressions) && SoundMember(members[k], expressions);
      ReachConcatenates(StepPart(unit), record, Parts(members[..k]), MemberParts(members[k]));
      var before := Reach(StepMember(unit, expressions), record, members[..k]);
      if before.Some? {
        LastMember(unit, expressions, before.value, members[k]);
      }
    }
  }

  lemma LastMember(unit: Unit, expressions: nat, ty: Type, member: Member)
    ensures StepMember(unit, expressions)(ty, member) ==
      if SoundMember(member, expressions) then Reach(StepPart(unit), ty, MemberParts(member)) else None
  {
    if member.Field? {
      FieldPartsReach(unit, ty, member.path);
    } else {
      assert [ElementPart][..0] == [];
    }
  }

  // Subobjects of an initializer.

  /** An index may come from a designator's expression; a range initializes all its elements alike. */
  datatype Subobject =
    | FieldAt(record: nat, index: nat)
    | IndexAt(position: nat, expression: Option<nat>)
    | RangeAt(start: nat, end: nat, from: nat, to: nat)

  /** A position within the bounds of an array, as far as these are known. */
  function InBounds(unit: Unit, ty: Type, position: nat): bool
  {
    var kind := unit.resolve(ty);
    kind.Some? &&
    match kind.value
    case Vector(_, lanes) => position < lanes
    case Array(_, Some(length)) => position < length
    case _ => true
  }

  /** value looks through an atomic type to what it holds. */
  function StepSubobject(unit: Unit, value: Type -> Option<Type>, expressions: nat): (Type, Subobject) -> Option<Type>
  {
    (outer: Type, step: Subobject) =>
      var inner := value(outer);
      if inner.None? then None
      else
        var ty := inner.value;
        match step
        case FieldAt(record, index) =>
          var kind := unit.resolve(ty);
          if kind.Some? && kind.value.Record? && kind.value.index == record then FieldOf(unit, record, index) else None
        case IndexAt(position, expression) =>
          if InBounds(unit, ty, position) && (expression.Some? ==> expression.value < expressions)
          then ElementOf(unit, ty) else None
        case RangeAt(start, end, from, to) =>
          if start <= end && InBounds(unit, ty, end) && from < expressions && to < expressions
          then ElementOf(unit, ty) else None
  }

  predicate SoundRange(step: Subobject, expressions: nat)
  {
    step.RangeAt? ==> step.start <= step.end && step.from < expressions && step.to < expressions
  }

  /** One subobject among those a step names. */
  predicate Selects(step: Subobject, choice: Subobject)
  {
    if step.RangeAt?
    then choice.IndexAt? && step.start <= choice.position <= step.end && choice.expression == None
    else choice == step
  }

  predicate SelectsAll(path: seq<Subobject>, choice: seq<Subobject>)
  {
    |choice| == |path| && forall i | 0 <= i < |path| :: Selects(path[i], choice[i])
  }

  /** Where the bounds are known, the position is within them. */
  ghost predicate Fits(kind: Type, position: nat)
  {
    (kind.Vector? ==> position < kind.lanes) && (kind.Array? && kind.length.Some? ==> position < kind.length.value)
  }

  ghost function SubobjectLeads(unit: Unit, value: Type -> Option<Type>, expressions: nat): (Type, Subobject, Type) -> bool
  {
    (outer: Type, step: Subobject, t: Type) =>
      value(outer).Some? && unit.resolve(value(outer).value).Some? &&
      var kind := unit.resolve(value(outer).value).value;
      match step
      case FieldAt(record, index) => kind == Record(record) && IsFieldType(unit, record, index, t)
      case IndexAt(position, expression) =>
        && IsArrayOf(kind, t) && Fits(kind, position) && (expression == None || expression.value < expressions)
      case RangeAt(start, end, from, to) =>
        && IsArrayOf(kind, t) && start <= end && Fits(kind, end) && from < expressions && to < expressions
  }

  lemma BoundsFit(unit: Unit, ty: Type, position: nat)
    ensures InBounds(unit, ty, position) <==> unit.resolve(ty).Some? && Fits(unit.resolve(ty).value, position)
  {
  }

  lemma StepSubobjectLeads(unit: Unit, value: Type -> Option<Type>, expressions: nat)
    ensures forall ty, s, t :: StepSubobject(unit, value, expressions)(ty, s) == Some(t) <==>
                               SubobjectLeads(unit, value, expressions)(ty, s, t)
  {
    forall ty, s, t
      ensures StepSubobject(unit, value, expressions)(ty, s) == Some(t) <==> SubobjectLeads(unit, value, expressions)(ty, s, t)
    {
      if value(ty).Some? {
        var inner := value(ty).value;
        ElementLeads(unit, inner, t);
        match s
        case FieldAt(record, index) => FieldTypeIsOf(unit, record, index, t);
        case IndexAt(position, _) => BoundsFit(unit, inner, position);
        case RangeAt(_, end, _, _) => BoundsFit(unit, inner, end);
      }
    }
  }

  /** The initializer's walk: accepted when every step leads on. */
  method CheckPath(unit: Unit, value: Type -> Option<Type>, expressions: nat, root: Type, path: seq<Subobject>) returns (ok: bool)
    ensures ok <==> exists t :: Chain(SubobjectLeads(unit, value, expressions), root, path, t)
    ensures ok <==> Reach(StepSubobject(unit, value, expressions), root, path).Some?
  {
    var reached := Walk(StepSubobject(unit, value, expressions), root, path);
    StepSubobjectLeads(unit, value, expressions);
    forall t ensures reached == Some(t) <==> Chain(SubobjectLeads(unit, value, expressions), root, path, t) {
      ReachIffChain(StepSubobject(unit, value, expressions), SubobjectLeads(unit, value, expressions), root, path, t);
    }
    assert reached.Some? ==> Chain(SubobjectLeads(unit, value, expressions), root, path, reached.value);
    return reached.Some?;
  }

  function LastChoice(path: seq<Subobject>): (choice: seq<Subobject>)
    ensures |choice| == |path|
  {
    seq(|path|, i requires 0 <= i < |path| => if path[i].RangeAt? then IndexAt(path[i].end, None) else path[i])
  }

  lemma LastChoiceSelects(path: seq<Subobject>, expressions: nat)
    requires forall s | s in path :: SoundRange(s, expressions)
    ensures SelectsAll(path, LastChoice(path))
  {
    forall i | 0 <= i < |path| ensures Selects(path[i], LastChoice(path)[i]) {
      assert path[i] in path;
    }
  }

  lemma ChoiceReaches(unit: Unit, value: Type -> Option<Type>, expressions: nat, ty: Type, step: Subobject, choice: Subobject)
    requires Selects(step, choice) && StepSubobject(unit, value, expressions)(ty, step).Some?
    ensures StepSubobject(unit, value, expressions)(ty, choice) == StepSubobject(unit, value, expressions)(ty, step)
  {
    if step.RangeAt? {
      var inner := value(ty).value;
      assert InBounds(unit, inner, step.end) && InBounds(unit, inner, choice.position);
    }
  }

  /** An accepted path is accepted, with the same type, for every element its ranges select... */
  lemma {:induction false} RangeCoversElements(
    unit: Unit, value: Type -> Option<Type>, expressions: nat, root: Type, path: seq<Subobject>, choice: seq<Subobject>)
    requires Reach(StepSubobject(unit, value, expressions), root, path).Some? && SelectsAll(path, choice)
    ensures Reach(StepSubobject(unit, value, expressions), root, choice) == Reach(StepSubobject(unit, value, expressions), root, path)
  {
    if path == [] {
    } else {
      var k := |path| - 1;
      RangeCoversElements(unit, value, expressions, root, path[..k], choice[..k]);
      var ty := Reach(StepSubobject(unit, value, expressions), root, path[..k]).value;
      ChoiceReaches(unit, value, expressions, ty, path[k], choice[k]);
    }
  }

  lemma {:induction false} LastChoiceDecides(
    unit: Unit, value: Type -> Option<Type>, expressions: nat, root: Type, path: seq<Subobject>)
    requires forall s | s in path :: SoundRange(s, expressions)
    requires Reach(StepSubobject(unit, value, expressions), root, LastChoice(path)).Some?
    ensures Reach(StepSubobject(unit, value, expressions), root, path).Some?
  {
    if path == [] {
    } else {
      var k := |path| - 1;
      assert path[k] in path && forall s | s in path[..k] :: s in path;
      assert LastChoice(path)[..k] == LastChoice(path[..k]);
      LastChoiceDecides(unit, value, expressions, root, path[..k]);
      LastChoiceSelects(path[..k], expressions);
      RangeCoversElements(unit, value, expressions, root, path[..k], LastChoice(path[..k]));
    }
  }

  /** ...and conversely, although only the end of a range is compared with the bounds. */
  lemma RangesAreTheirElements(unit: Unit, value: Type -> Option<Type>, expressions: nat, root: Type, path: seq<Subobject>)
    ensures Reach(StepSubobject(unit, value, expressions), root, path).Some? <==>
      && (forall s | s in path :: SoundRange(s, expressions))
      && forall choice | SelectsAll(path, choice) :: Reach(StepSubobject(unit, value, expressions), root, choice).Some?
  {
    var step := StepSubobject(unit, value, expressions);
    if Reach(step, root, path).Some? {
      forall s | s in path ensures SoundRange(s, expressions) {
        var i :| 0 <= i < |path| && path[i] == s;
        EveryStepExists(step, root, path, i);
      }
      forall choice | SelectsAll(path, choice) ensures Reach(step, root, choice).Some? {
        RangeCoversElements(unit, value, expressions, root, path, choice);
      }
    } else if forall s | s in path :: SoundRange(s, expressions) {
      LastChoiceSelects(path, expressions);
      if Reach(step, root, LastChoice(path)).Some? {
        LastChoiceDecides(unit, value, expressions, root, path);
      }
    }
  }
}
