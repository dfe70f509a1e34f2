/** The worklist walk over a retained type. Name resolution and alignment metadata belong to the
    library under test and are parameters. */
module RetainedTypes {
  import opened Results

  datatype Type =
    | Pointer(pointee: Type)
    | Atomic(pointee: Type)
    | VariableArray(element: Type, identity: nat)
    | Array(element: Type, length: Option<nat>)
    | Vector(element: Type, lanes: nat)
    | Function(returnType: Type, parameters: seq<Type>, noEscape: seq<nat>)
    | Record(index: nat)
    | Enum(index: nat)
    | Typedef(name: string)
    | Scalar

  /** The types of a record's fields are known when it is complete. */
  datatype Unit = Unit(records: seq<Option<seq<Type>>>, enums: nat, resolve: Type -> Option<Type>, aligned: Type -> bool)

  ghost predicate IsPointer(unit: Unit, parameters: seq<Type>, p: nat)
  {
    p < |parameters| && exists pointee :: unit.resolve(parameters[p]) == Some(Pointer(pointee))
  }

  /** The assertions about one type, apart from its components. */
  ghost predicate LocallyValid(unit: Unit, ty: Type)
  {
    && unit.aligned(ty)
    && match ty
       case VariableArray(_, identity) => identity > 0
       case Function(_, parameters, noEscape) =>
         forall p | p in noEscape :: IsPointer(unit, parameters, p)
       case Record(index) => index < |unit.records|
       case Enum(index) => index < unit.enums
       case Typedef(_) => unit.resolve(ty).Some?
       case _ => true
  }

  ghost function Components(ty: Type): seq<Type>
  {
    match ty
    case Pointer(pointee) => [pointee]
    case Atomic(pointee) => [pointee]
    case VariableArray(element, _) => [element]
    case Array(element, _) => [element]
    case Vector(element, _) => [element]
    case Function(returnType, parameters, _) => [returnType] + parameters
    case _ => []
  }

  /** A path from a type to one of its components, by position. */
  ghost function Follow(ty: Type, path: seq<nat>): Option<Type>
    decreases |path|
  {
    if path == [] then Some(ty)
    else if path[0] >= |Components(ty)| then None
    else Follow(Components(ty)[path[0]], path[1..])
  }

  /** Everything a type is built from, at any depth, is locally valid. */
  ghost predicate Valid(unit: Unit, ty: Type)
  {
    forall path | Follow(ty, path).Some? :: LocallyValid(unit, Follow(ty, path).value)
  }

  lemma ValidByComponents(unit: Unit, ty: Type)
    ensures Valid(unit, ty) <==> LocallyValid(unit, ty) && forall c | c in Components(ty) :: Valid(unit, c)
  {
    if Valid(unit, ty) {
      assert Follow(ty, []) == Some(ty);
      forall c, path | c in Components(ty) && Follow(c, path).Some? ensures LocallyValid(unit, Follow(c, path).value) {
        var i :| 0 <= i < |Components(ty)| && Components(ty)[i] == c;
        assert ([i] + path)[1..] == path;
        assert Follow(ty, [i] + path) == Follow(c, path);
      }
    } else {
      var path :| Follow(ty, path).Some? && !LocallyValid(unit, Follow(ty, path).value);
      if path != [] {
        assert Follow(Components(ty)[path[0]], path[1..]) == Follow(ty, path);
        assert Components(ty)[path[0]] in Components(ty);
      }
    }
  }

  ghost function Size(ty: Type): nat
  {
    match ty
    case Pointer(pointee) => 1 + Size(pointee)
    case Atomic(pointee) => 1 + Size(pointee)
    case VariableArray(element, _) => 1 + Size(element)
    case Array(element, _) => 1 + Size(element)
    case Vector(element, _) => 1 + Size(element)
    case Function(returnType, parameters, _) => 1 + Size(returnType) + Sizes(parameters)
    case _ => 1
  }

  ghost function Sizes(types: seq<Type>): nat
  {
    if types == [] then 0 else Sizes(types[..|types| - 1]) + Size(types[|types| - 1])
  }

  lemma {:induction false} SizesAdd(xs: seq<Type>, ys: seq<Type>)
    ensures Sizes(xs + ys) == Sizes(xs) + Sizes(ys)
  {
    if ys == [] {
      assert xs + ys == xs;
    } else {
      assert (xs + ys)[..|xs + ys| - 1] == xs + ys[..|ys| - 1];
      SizesAdd(xs, ys[..|ys| - 1]);
    }
  }

  lemma ComponentsAreSmaller(ty: Type)
    ensures Sizes(Components(ty)) < Size(ty)
  {
    match ty
    case Function(returnType, parameters, _) =>
      SizesAdd([returnType], parameters);
      assert [returnType][..0] == [];
    case Pointer(t) => assert [t][..0] == [];
    case Atomic(t) => assert [t][..0] == [];
    case VariableArray(t, _) => assert [t][..0] == [];
    case Array(t, _) => assert [t][..0] == [];
    case Vector(t, _) => assert [t][..0] == [];
    case _ =>
  }

  /** Parameters that must not escape are pointers. */
  method CheckContract(unit: Unit, parameters: seq<Type>, noEscape: seq<nat>) returns (ok: bool)
    ensures ok <==> forall p | p in noEscape :: IsPointer(unit, parameters, p)
  {
    for i := 0 to |noEscape|
      invariant forall j | 0 <= j < i :: IsPointer(unit, parameters, noEscape[j])
    {
      var p := noEscape[i];
      assert p in noEscape;
      if p >= |parameters| || unit.resolve(parameters[p]).None? || !unit.resolve(parameters[p]).value.Pointer? {
        assert !IsPointer(unit, parameters, p);
        return false;
      }
      assert unit.resolve(parameters[p]) == Some(Pointer(unit.resolve(parameters[p]).value.pointee));
    }
    return true;
  }

  /** One step of the walk: the assertions about a type, and what it adds to the worklist. */
  method Inspect(unit: Unit, ty: Type) returns (ok: bool, components: seq<Type>)
    ensures ok <==> LocallyValid(unit, ty)
    ensures ok ==> components == Components(ty)
  {
    if !unit.aligned(ty) {
      return false, [];
    }
    ok, components := true, [];
    match ty {
      case Pointer(pointee) => components := [pointee];
      case Atomic(pointee) => components := [pointee];
      case VariableArray(element, identity) =>
        ok, components := identity > 0, [element];
      case Array(element, _) => components := [element];
      case Vector(element, _) => components := [element];
      case Function(returnType, parameters, noEscape) =>
        ok := CheckContract(unit, parameters, noEscape);
        components := [returnType] + parameters;
      case Record(index) => ok := index < |unit.records|;
      case Enum(index) => ok := index < unit.enums;
      case Typedef(_) => ok := unit.resolve(ty).Some?;
      case Scalar =>
    }
  }

  /** The walk accepts exactly the valid types, and always ends. */
  method TypeShape(unit: Unit, root: Type) returns (accepted: bool)
    ensures accepted <==> Valid(unit, root)
  {
    var pending := [root];
    while pending != []
      invariant Valid(unit, root) <==> forall t | t in pending :: Valid(unit, t)
      decreases Sizes(pending)
    {
      var ty, rest := pending[|pending| - 1], pending[..|pending| - 1];
      assert pending == rest + [ty];
      ValidByComponents(unit, ty);
      var ok, components := Inspect(unit, ty);
      if !ok {
        return false;
      }
      SizesAdd(rest, Components(ty));
      ComponentsAreSmaller(ty);
      pending := rest + components;
      assert forall t :: t in pending <==> t in rest || t in Components(ty);
    }
    return true;
  }
}
