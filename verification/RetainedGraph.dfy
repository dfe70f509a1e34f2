/** The fuzzing oracle over the retained graph: which graphs its bit arrays, counters and worklist accept.
    A failed assertion of the original is the result false. */
module RetainedGraph {
  import opened Results

  datatype OccurrenceKind =
    | Expression | Statement | Initializer | OldStyleParameter | TypeOf
    | Declaration | Parameter | FieldDeclaration | Function | TypeName | Other

  datatype Occurrence = Occurrence(
    kind: OccurrenceKind, attributeArgument: bool, typeOwner: Option<nat>, typeOperands: seq<nat>)

  datatype TypeOperand = TypeOperand(owner: nat, occurrence: nat)

  /** A declaration's scope, and where its occurrence starts. */
  datatype Site = Site(scope: nat, start: nat)

  datatype Graph = Graph(
    occurrences: seq<Occurrence>,
    operands: seq<TypeOperand>,
    sites: seq<Site>,
    scopes: seq<seq<nat>>,
    oldStyleRows: seq<nat>,
    expressionRows: seq<nat>,
    initializerRows: seq<nat>,
    statementRows: seq<nat>)

  // Membership counters.

  function Flatten(lists: seq<seq<nat>>): seq<nat>
  {
    if lists == [] then [] else Flatten(lists[..|lists| - 1]) + lists[|lists| - 1]
  }

  /** Every listed element exists and names its list as its owner. */
  predicate Owned(lists: seq<seq<nat>>, owners: seq<nat>)
  {
    forall i, j | 0 <= i < |lists| && 0 <= j < |lists[i]| :: lists[i][j] < |owners| && owners[lists[i][j]] == i
  }

  predicate OwnedList(list: seq<nat>, owners: seq<nat>, owner: nat)
  {
    forall j | 0 <= j < |list| :: list[j] < |owners| && owners[list[j]] == owner
  }

  /** Each element is listed once, by its owner alone. */
  ghost predicate Partitioned(lists: seq<seq<nat>>, owners: seq<nat>)
  {
    && Owned(lists, owners)
    && forall e | 0 <= e < |owners| :: owners[e] < |lists| && multiset(lists[owners[e]])[e] == 1
  }

  lemma {:induction false} CountsOfOthersAreZero(lists: seq<seq<nat>>, owners: seq<nat>, e: nat)
    requires Owned(lists, owners) && e < |owners|
    ensures multiset(Flatten(lists))[e] == if owners[e] < |lists| then multiset(lists[owners[e]])[e] else 0
  {
    if lists == [] {
    } else {
      var k := |lists| - 1;
      CountsOfOthersAreZero(lists[..k], owners, e);
      assert multiset(Flatten(lists)) == multiset(Flatten(lists[..k])) + multiset(lists[k]);
      if owners[e] != k {
        assert e !in lists[k];
      }
    }
  }

  /** The counts are all one exactly when the lists are a partition. */
  lemma CountsDecidePartition(lists: seq<seq<nat>>, owners: seq<nat>)
    requires Owned(lists, owners)
    ensures Partitioned(lists, owners) <==> forall e | 0 <= e < |owners| :: multiset(Flatten(lists))[e] == 1
  {
    forall e: nat | e < |owners|
      ensures multiset(Flatten(lists))[e] == 1 <==> owners[e] < |lists| && multiset(lists[owners[e]])[e] == 1
    {
      CountsOfOthersAreZero(lists, owners, e);
    }
  }

  lemma {:induction false} PrefixCountsLess(lists: seq<seq<nat>>, i: nat)
    requires i < |lists|
    ensures multiset(Flatten(lists[..i])) + multiset(lists[i]) <= multiset(Flatten(lists))
  {
    var k := |lists| - 1;
    if i < k {
      PrefixCountsLess(lists[..k], i);
      assert lists[..k][..i] == lists[..i];
    }
  }

  const U8_MAX := 255

  ghost predicate Counted(counts: array<nat>, elements: seq<nat>)
    reads counts
  {
    forall e | 0 <= e < counts.Length :: counts[e] == multiset(elements)[e]
  }

  /** An element of the list is not its owner's, or a byte cannot count it. */
  ghost predicate Refused(list: seq<nat>, owners: seq<nat>, owner: nat, before: seq<nat>)
  {
    !OwnedList(list, owners, owner) || exists e: nat :: e < |owners| && multiset(before + list)[e] > U8_MAX
  }

  /** Count the elements of one list in bytes; an overflowing addition is a failure. */
  method TallyList(list: seq<nat>, owners: seq<nat>, owner: nat, counts: array<nat>, ghost before: seq<nat>) returns (ok: bool)
    requires counts.Length == |owners| && Counted(counts, before)
    modifies counts
    ensures ok ==> OwnedList(list, owners, owner) && Counted(counts, before + list)
    ensures !ok ==> Refused(list, owners, owner, before)
  {
    assert before + list[..0] == before;
    for j := 0 to |list|
      invariant OwnedList(list[..j], owners, owner) && Counted(counts, before + list[..j])
    {
      var e := list[j];
      if e >= |owners| || owners[e] != owner {
        assert !(list[j] < |owners| && owners[list[j]] == owner);
        return false;
      }
      assert before + list[..j + 1] == before + list[..j] + [e];
      if counts[e] == U8_MAX {
        assert before + list == before + list[..j] + [e] + list[j + 1..];
        assert multiset(before + list)[e] > U8_MAX;
        return false;
      }
      counts[e] := counts[e] + 1;
    }
    assert list[..|list|] == list;
    return true;
  }

  method Tally(lists: seq<seq<nat>>, owners: seq<nat>) returns (ok: bool, counts: array<nat>)
    ensures fresh(counts) && counts.Length == |owners|
    ensures ok ==> Owned(lists, owners) && Counted(counts, Flatten(lists))
    ensures !ok ==> !Partitioned(lists, owners)
  {
    counts := new nat[|owners|](_ => 0);
    for i := 0 to |lists|
      invariant Owned(lists[..i], owners) && Counted(counts, Flatten(lists[..i]))
    {
      assert lists[..i + 1][..i] == lists[..i];
      ok := TallyList(lists[i], owners, i, counts, Flatten(lists[..i]));
      if !ok {
        RefusedIsNoPartition(lists, owners, i);
        return false, counts;
      }
    }
    assert lists[..|lists|] == lists;
    ok := true;
  }

  lemma RefusedIsNoPartition(lists: seq<seq<nat>>, owners: seq<nat>, i: nat)
    requires i < |lists| && Refused(lists[i], owners, i, Flatten(lists[..i]))
    ensures !Partitioned(lists, owners)
  {
    if Owned(lists, owners) {
      var e: nat :| e < |owners| && multiset(Flatten(lists[..i]) + lists[i])[e] > U8_MAX;
      PrefixCountsLess(lists, i);
      CountsDecidePartition(lists, owners);
    }
  }

  /** Listing and counting accepts exactly the partitions. */
  method CheckPartition(lists: seq<seq<nat>>, owners: seq<nat>) returns (ok: bool)
    ensures ok <==> Partitioned(lists, owners)
  {
    var counts;
    ok, counts := Tally(lists, owners);
    if !ok {
      return;
    }
    CountsDecidePartition(lists, owners);
    for e := 0 to |owners|
      invariant forall d | 0 <= d < e :: counts[d] == 1
    {
      if counts[e] != 1 {
        assert multiset(Flatten(lists))[e] != 1;
        return false;
      }
    }
  }

  // Coverage bits.

  predicate IsFlag(flag: bv8)
  {
    flag == 1 || flag == 2 || flag == 4 || flag == 8 || flag == 16
  }

  lemma FlagsAreIndependent(bits: bv8, flag: bv8, other: bv8)
    requires IsFlag(flag) && IsFlag(other) && flag != other
    ensures (bits | flag) & flag != 0
    ensures (bits | flag) & other == bits & other
  {
  }

  /** One byte of flags for every occurrence. */
  class Coverage {
    const bits: array<bv8>

    ghost function Marked(flag: bv8): set<nat>
      reads this, bits
    {
      set i: nat | i < bits.Length && bits[i] & flag != 0
    }

    constructor (n: nat)
      ensures fresh(bits) && bits.Length == n && forall flag :: Marked(flag) == {}
    {
      bits := new bv8[n](_ => 0);
    }

    /** Set a flag that must not be set; no other flag changes. */
    method Mark(i: nat, flag: bv8) returns (ok: bool)
      requires IsFlag(flag) && i < bits.Length
      modifies bits
      ensures ok <==> i !in old(Marked(flag))
      ensures Marked(flag) == old(Marked(flag)) + {i}
      ensures forall other | IsFlag(other) && other != flag :: Marked(other) == old(Marked(other))
    {
      if bits[i] & flag != 0 {
        return false;
      }
      forall other | IsFlag(other) && other != flag {
        FlagsAreIndependent(bits[i], flag, other);
      }
      bits[i] := bits[i] | flag;
      return true;
    }

    /** Mark every row; a row out of range or marked before is a failure. */
    method MarkAll(rows: seq<nat>, flag: bv8) returns (ok: bool)
      requires IsFlag(flag) && Marked(flag) == {}
      modifies bits
      ensures ok <==> Rows(rows, bits.Length)
      ensures ok ==> Marked(flag) == ToSet(rows)
      ensures forall other | IsFlag(other) && other != flag :: Marked(other) == old(Marked(other))
    {
      for j := 0 to |rows|
        invariant Rows(rows[..j], bits.Length) && Marked(flag) == ToSet(rows[..j])
        invariant forall other | IsFlag(other) && other != flag :: Marked(other) == old(Marked(other))
      {
        assert rows[..j + 1] == rows[..j] + [rows[j]];
        if rows[j] >= bits.Length {
          assert rows[j] in rows;
          return false;
        }
        var marked := Mark(rows[j], flag);
        if !marked {
          assert rows[j] in rows[..j];
          ghost var k :| 0 <= k < j && rows[k] == rows[j];
          assert !Rows(rows, bits.Length);
          return false;
        }
      }
      assert rows[..|rows|] == rows;
      return true;
    }
  }

  function ToSet(rows: seq<nat>): set<nat>
  {
    set i | i in rows
  }

  /** Rows cover existing occurrences, none twice. */
  ghost predicate Rows(rows: seq<nat>, n: nat)
  {
    (forall i | i in rows :: i < n) && forall i, j | 0 <= i < j < |rows| :: rows[i] != rows[j]
  }

  // The whole oracle.

  predicate MayOwnTypes(kind: OccurrenceKind)
  {
    kind.Declaration? || kind.Parameter? || kind.FieldDeclaration? || kind.Function? || kind.TypeName?
  }

  predicate OwnerIsRoot(g: Graph, o: Occurrence)
  {
    o.typeOwner.Some? ==>
      && o.typeOwner.value < |g.occurrences|
      && g.occurrences[o.typeOwner.value].typeOwner == o.typeOwner
      && MayOwnTypes(g.occurrences[o.typeOwner.value].kind)
  }

  predicate OperandIsTypeOf(g: Graph, t: TypeOperand)
  {
    && t.occurrence < |g.occurrences|
    && g.occurrences[t.occurrence].kind == TypeOf && g.occurrences[t.occurrence].typeOwner == Some(t.owner)
  }

  function OperandLists(g: Graph): seq<seq<nat>>
  {
    seq(|g.occurrences|, i requires 0 <= i < |g.occurrences| => g.occurrences[i].typeOperands)
  }

  function OperandOwners(g: Graph): seq<nat>
  {
    seq(|g.operands|, i requires 0 <= i < |g.operands| => g.operands[i].owner)
  }

  function OperandRows(g: Graph): seq<nat>
  {
    seq(|g.operands|, i requires 0 <= i < |g.operands| => g.operands[i].occurrence)
  }

  function SiteOwners(g: Graph): seq<nat>
  {
    seq(|g.sites|, i requires 0 <= i < |g.sites| => g.sites[i].scope)
  }

  /** The declarations of a scope stand in source order. */
  predicate InOrder(g: Graph, scope: seq<nat>)
  {
    && (forall j | 0 <= j < |scope| :: scope[j] < |g.sites|)
    && forall j | 0 < j < |scope| :: g.sites[scope[j - 1]].start <= g.sites[scope[j]].start
  }

  /** The flag an occurrence must carry in the end, if any. */
  function RequiredFlag(o: Occurrence): bv8
  {
    match o.kind
    case OldStyleParameter => 16
    case Expression => 1
    case Statement => 2
    case Initializer => 4
    case TypeOf => if o.attributeArgument then 0 else 8
    case _ => 0
  }

  function RowsOf(g: Graph, flag: bv8): seq<nat>
  {
    if flag == 1 then g.expressionRows
    else if flag == 2 then g.statementRows
    else if flag == 4 then g.initializerRows
    else if flag == 8 then OperandRows(g)
    else if flag == 16 then g.oldStyleRows
    else []
  }

  /** Every occurrence that needs covering has exactly one covering row. */
  ghost predicate Covered(g: Graph)
  {
    forall i | 0 <= i < |g.occurrences| && RequiredFlag(g.occurrences[i]) != 0 ::
      multiset(RowsOf(g, RequiredFlag(g.occurrences[i])))[i] == 1
  }

  ghost predicate Accepted(g: Graph)
  {
    && (forall o | o in g.occurrences :: OwnerIsRoot(g, o))
    && Partitioned(OperandLists(g), OperandOwners(g))
    && (forall t | t in g.operands :: OperandIsTypeOf(g, t))
    && Partitioned(g.scopes, SiteOwners(g))
    && (forall s | s in g.scopes :: InOrder(g, s))
    && (forall i | i in g.oldStyleRows :: i < |g.occurrences| && g.occurrences[i].kind == OldStyleParameter)
    && (forall flag | IsFlag(flag) :: Rows(RowsOf(g, flag), |g.occurrences|))
    && Covered(g)
  }

  lemma {:induction false} RowsCountOnce(rows: seq<nat>, n: nat, i: nat)
    requires Rows(rows, n)
    ensures multiset(rows)[i] == if i in rows then 1 else 0
  {
    if rows == [] {
    } else {
      var (front, last) := (rows[..|rows| - 1], rows[|rows| - 1]);
      assert rows == front + [last] && forall r | r in front :: r in rows;
      RowsCountOnce(front, n, i);
    }
  }

  method CheckOwners(g: Graph) returns (ok: bool)
    ensures ok <==> forall o | o in g.occurrences :: OwnerIsRoot(g, o)
  {
    for i := 0 to |g.occurrences|
      invariant forall j | 0 <= j < i :: OwnerIsRoot(g, g.occurrences[j])
    {
      if !OwnerIsRoot(g, g.occurrences[i]) {
        return false;
      }
    }
    return true;
  }

  method CheckOperands(g: Graph) returns (ok: bool)
    ensures ok <==> forall t | t in g.operands :: OperandIsTypeOf(g, t)
  {
    for i := 0 to |g.operands|
      invariant forall j | 0 <= j < i :: OperandIsTypeOf(g, g.operands[j])
    {
      if !OperandIsTypeOf(g, g.operands[i]) {
        return false;
      }
    }
    return true;
  }

  method CheckOrder(g: Graph) returns (ok: bool)
    ensures ok <==> forall s | s in g.scopes :: InOrder(g, s)
  {
    for i := 0 to |g.scopes|
      invariant forall k | 0 <= k < i :: InOrder(g, g.scopes[k])
    {
      var scope, previous := g.scopes[i], 0;
      assert scope in g.scopes;
      for j := 0 to |scope|
        invariant InOrder(g, scope[..j])
        invariant previous == if j == 0 then 0 else g.sites[scope[j - 1]].start
      {
        if scope[j] >= |g.sites| || previous > g.sites[scope[j]].start {
          assert !InOrder(g, scope);
          return false;
        }
        previous := g.sites[scope[j]].start;
      }
      assert scope[..|scope|] == scope;
    }
    return true;
  }

  /** Old-style rows cover only old-style parameters. */
  method CheckOldStyle(g: Graph) returns (ok: bool)
    ensures ok <==> forall i | i in g.oldStyleRows :: i < |g.occurrences| && g.occurrences[i].kind == OldStyleParameter
  {
    for j := 0 to |g.oldStyleRows|
      invariant forall k | 0 <= k < j ::
                  g.oldStyleRows[k] < |g.occurrences| && g.occurrences[g.oldStyleRows[k]].kind == OldStyleParameter
    {
      var i := g.oldStyleRows[j];
      if i >= |g.occurrences| || g.occurrences[i].kind != OldStyleParameter {
        assert i in g.oldStyleRows;
        return false;
      }
    }
    return true;
  }

  const FLAGS: seq<bv8> := [8, 16, 1, 4, 2]

  lemma FlagIsListed(flag: bv8)
    requires IsFlag(flag)
    ensures exists j :: 0 <= j < 5 && FLAGS[j] == flag
  {
    assert FLAGS[0] == 8 && FLAGS[1] == 16 && FLAGS[2] == 1 && FLAGS[3] == 4 && FLAGS[4] == 2;
  }

  /** Mark all kinds of rows into one byte per occurrence. */
  method MarkRows(g: Graph) returns (ok: bool, coverage: Coverage)
    ensures fresh(coverage) && fresh(coverage.bits) && coverage.bits.Length == |g.occurrences|
    ensures ok <==> forall flag | IsFlag(flag) :: Rows(RowsOf(g, flag), |g.occurrences|)
    ensures ok ==> forall flag | IsFlag(flag) :: coverage.Marked(flag) == ToSet(RowsOf(g, flag))
  {
    coverage := new Coverage(|g.occurrences|);
    for k := 0 to 5
      invariant forall j | 0 <= j < k :: Rows(RowsOf(g, FLAGS[j]), |g.occurrences|)
      invariant forall j | 0 <= j < k :: coverage.Marked(FLAGS[j]) == ToSet(RowsOf(g, FLAGS[j]))
      invariant forall j | k <= j < 5 :: coverage.Marked(FLAGS[j]) == {}
    {
      ok := coverage.MarkAll(RowsOf(g, FLAGS[k]), FLAGS[k]);
      if !ok {
        return;
      }
    }
    forall flag | IsFlag(flag)
      ensures Rows(RowsOf(g, flag), |g.occurrences|) && coverage.Marked(flag) == ToSet(RowsOf(g, flag))
    {
      FlagIsListed(flag);
    }
    ok := true;
  }

  /** Then look for what was missed. */
  method CheckCoverage(g: Graph) returns (ok: bool)
    ensures ok <==> (forall flag | IsFlag(flag) :: Rows(RowsOf(g, flag), |g.occurrences|)) && Covered(g)
  {
    var coverage;
    ok, coverage := MarkRows(g);
    if !ok {
      return;
    }
    for i := 0 to |g.occurrences|
      invariant forall flag | IsFlag(flag) :: coverage.Marked(flag) == ToSet(RowsOf(g, flag))
      invariant forall j | 0 <= j < i && RequiredFlag(g.occurrences[j]) != 0 ::
                  multiset(RowsOf(g, RequiredFlag(g.occurrences[j])))[j] == 1
    {
      var flag := RequiredFlag(g.occurrences[i]);
      if flag != 0 {
        RowsCountOnce(RowsOf(g, flag), |g.occurrences|, i);
        assert i in coverage.Marked(flag) <==> i in RowsOf(g, flag);
        if coverage.bits[i] & flag == 0 {
          return false;
        }
      }
    }
  }

  // The same in terms of the graph alone.

  /** x stands in the list once. */
  ghost predicate Once(list: seq<nat>, x: nat)
  {
    exists j :: 0 <= j < |list| && list[j] == x && forall k | 0 <= k < |list| && list[k] == x :: k == j
  }

  lemma OnceIffCounted(list: seq<nat>, x: nat)
    ensures Once(list, x) <==> multiset(list)[x] == 1
  {
    if x in list {
      var j :| 0 <= j < |list| && list[j] == x;
      assert list == list[..j] + [x] + list[j + 1..];
      assert x in list[..j] <==> exists k :: 0 <= k < j && list[k] == x;
      assert x in list[j + 1..] <==> exists k :: j < k < |list| && list[k] == x by {
        assert forall k | j < k < |list| :: list[j + 1..][k - j - 1] == list[k];
      }
      assert multiset(list)[x] == multiset(list[..j])[x] + 1 + multiset(list[j + 1..])[x];
    }
  }

  /** A type owner owns itself and is something declared or a type name. */
  ghost predicate OwnersAreRoots(g: Graph)
  {
    forall o, w | o in g.occurrences && o.typeOwner == Some(w) ::
      && w < |g.occurrences| && g.occurrences[w].typeOwner == Some(w)
      && g.occurrences[w].kind in {Declaration, Parameter, FieldDeclaration, OccurrenceKind.Function, TypeName}
  }

  /** Every type operand is listed once, by the occurrence that owns it and no other, and belongs to a
      typeof of that owner. */
  ghost predicate OperandsAreOwned(g: Graph)
  {
    && (forall i, j | 0 <= i < |g.occurrences| && 0 <= j < |g.occurrences[i].typeOperands| ::
          var t := g.occurrences[i].typeOperands[j];
          t < |g.operands| && g.operands[t].owner == i)
    && (forall t | 0 <= t < |g.operands| ::
          g.operands[t].owner < |g.occurrences| && Once(g.occurrences[g.operands[t].owner].typeOperands, t))
    && (forall t | t in g.operands ::
          && t.occurrence < |g.occurrences| && g.occurrences[t.occurrence].kind == TypeOf
          && g.occurrences[t.occurrence].typeOwner == Some(t.owner))
  }

  /** Every declaration is listed once, by its own scope and no other, and scopes list theirs in source order. */
  ghost predicate DeclarationsAreScoped(g: Graph)
  {
    && (forall s, j | 0 <= s < |g.scopes| && 0 <= j < |g.scopes[s]| ::
          g.scopes[s][j] < |g.sites| && g.sites[g.scopes[s][j]].scope == s)
    && (forall d | 0 <= d < |g.sites| :: g.sites[d].scope < |g.scopes| && Once(g.scopes[g.sites[d].scope], d))
    && (forall scope | scope in g.scopes :: SourceOrder(g, scope))
  }

  ghost predicate SourceOrder(g: Graph, scope: seq<nat>)
  {
    && (forall j | 0 <= j < |scope| :: scope[j] < |g.sites|)
    && forall i, j | 0 <= i < j < |scope| :: g.sites[scope[i]].start <= g.sites[scope[j]].start
  }

  /** Rows are about occurrences, no two about the same. */
  ghost predicate NoneTwice(rows: seq<nat>, n: nat)
  {
    (forall i | i in rows :: i < n) && forall j, k | 0 <= j < k < |rows| :: rows[j] != rows[k]
  }

  ghost predicate RowsAreExact(g: Graph)
  {
    && NoneTwice(g.expressionRows, |g.occurrences|) && NoneTwice(g.statementRows, |g.occurrences|)
    && NoneTwice(g.initializerRows, |g.occurrences|) && NoneTwice(g.oldStyleRows, |g.occurrences|)
    && (forall i | i in g.oldStyleRows :: g.occurrences[i].kind == OldStyleParameter)
    && (forall t, u | 0 <= t < u < |g.operands| :: g.operands[t].occurrence != g.operands[u].occurrence)
  }

  /** Every expression, statement, initializer and old-style parameter has one row, and every typeof
      outside attribute arguments one operand. */
  ghost predicate NothingIsMissed(g: Graph)
  {
    forall i | 0 <= i < |g.occurrences| ::
      match g.occurrences[i].kind
      case Expression => Once(g.expressionRows, i)
      case Statement => Once(g.statementRows, i)
      case Initializer => Once(g.initializerRows, i)
      case OldStyleParameter => Once(g.oldStyleRows, i)
      case TypeOf => g.occurrences[i].attributeArgument || exists t :: 0 <= t < |g.operands| && g.operands[t].occurrence == i
      case _ => true
  }

  ghost predicate Consistent(g: Graph)
  {
    && OwnersAreRoots(g) && OperandsAreOwned(g) && DeclarationsAreScoped(g) && RowsAreExact(g) && NothingIsMissed(g)
  }

  lemma PartitionedIffOnce(lists: seq<seq<nat>>, owners: seq<nat>)
    ensures Partitioned(lists, owners) <==>
      && (forall i, j | 0 <= i < |lists| && 0 <= j < |lists[i]| :: lists[i][j] < |owners| && owners[lists[i][j]] == i)
      && forall e | 0 <= e < |owners| :: owners[e] < |lists| && Once(lists[owners[e]], e)
  {
    forall e: nat | e < |owners| && owners[e] < |lists| {
      OnceIffCounted(lists[owners[e]], e);
    }
  }

  lemma RootsIffRoots(g: Graph)
    ensures OwnersAreRoots(g) <==> forall o | o in g.occurrences :: OwnerIsRoot(g, o)
  {
    if OwnersAreRoots(g) {
      forall o | o in g.occurrences ensures OwnerIsRoot(g, o) {
        assert o.typeOwner.Some? ==> o.typeOwner == Some(o.typeOwner.value);
      }
    }
    if forall o | o in g.occurrences :: OwnerIsRoot(g, o) {
      forall o, w | o in g.occurrences && o.typeOwner == Some(w)
        ensures w < |g.occurrences| && g.occurrences[w].typeOwner == Some(w)
        ensures g.occurrences[w].kind in {Declaration, Parameter, FieldDeclaration, OccurrenceKind.Function, TypeName}
      {
        assert OwnerIsRoot(g, o);
      }
    }
  }

  lemma OperandsIffOwned(g: Graph)
    ensures OperandsAreOwned(g) <==>
      Partitioned(OperandLists(g), OperandOwners(g)) && forall t | t in g.operands :: OperandIsTypeOf(g, t)
  {
    var lists, owners := OperandLists(g), OperandOwners(g);
    PartitionedIffOnce(lists, owners);
    if Partitioned(lists, owners) {
      forall i, j | 0 <= i < |g.occurrences| && 0 <= j < |g.occurrences[i].typeOperands|
        ensures
          var t := g.occurrences[i].typeOperands[j];
          t < |g.operands| && g.operands[t].owner == i
      {
        assert lists[i][j] == g.occurrences[i].typeOperands[j];
      }
      forall t | 0 <= t < |g.operands|
        ensures g.operands[t].owner < |g.occurrences| && Once(g.occurrences[g.operands[t].owner].typeOperands, t)
      {
        assert owners[t] == g.operands[t].owner;
      }
    }
  }

  /** Neighbours in order are all in order. */
  lemma {:induction false} NeighboursAreInOrder(g: Graph, scope: seq<nat>, i: nat, j: nat)
    requires InOrder(g, scope) && i <= j < |scope|
    ensures g.sites[scope[i]].start <= g.sites[scope[j]].start
  {
    if i == j {
    } else {
      NeighboursAreInOrder(g, scope, i, j - 1);
    }
  }

  lemma ScopesIffScoped(g: Graph)
    ensures DeclarationsAreScoped(g) <==> Partitioned(g.scopes, SiteOwners(g)) && forall s | s in g.scopes :: InOrder(g, s)
  {
    PartitionedIffOnce(g.scopes, SiteOwners(g));
    if Partitioned(g.scopes, SiteOwners(g)) {
      forall d | 0 <= d < |g.sites| ensures g.sites[d].scope < |g.scopes| && Once(g.scopes[g.sites[d].scope], d) {
        assert SiteOwners(g)[d] == g.sites[d].scope;
      }
    }
    forall scope | scope in g.scopes ensures InOrder(g, scope) <==> SourceOrder(g, scope) {
      OrderedIffPairwise(g, scope);
    }
  }

  lemma OrderedIffPairwise(g: Graph, scope: seq<nat>)
    ensures InOrder(g, scope) <==> SourceOrder(g, scope)
  {
    if InOrder(g, scope) {
      forall i, j | 0 <= i < j < |scope| ensures g.sites[scope[i]].start <= g.sites[scope[j]].start {
        NeighboursAreInOrder(g, scope, i, j);
      }
    }
  }

  lemma RowsIffExact(g: Graph)
    requires forall t | t in g.operands :: OperandIsTypeOf(g, t)
    ensures RowsAreExact(g) <==>
      && (forall i | i in g.oldStyleRows :: i < |g.occurrences| && g.occurrences[i].kind == OldStyleParameter)
      && (forall flag | IsFlag(flag) :: Rows(RowsOf(g, flag), |g.occurrences|))
  {
    var rows := OperandRows(g);
    assert forall t | 0 <= t < |rows| :: g.operands[t] in g.operands && rows[t] == g.operands[t].occurrence;
    assert Rows(rows, |g.occurrences|) <==>
           forall t, u | 0 <= t < u < |g.operands| :: g.operands[t].occurrence != g.operands[u].occurrence;
    if forall flag | IsFlag(flag) :: Rows(RowsOf(g, flag), |g.occurrences|) {
      assert IsFlag(1) && IsFlag(2) && IsFlag(4) && IsFlag(8) && IsFlag(16);
      assert Rows(RowsOf(g, 1), |g.occurrences|) && Rows(RowsOf(g, 2), |g.occurrences|) && Rows(RowsOf(g, 4), |g.occurrences|);
      assert Rows(RowsOf(g, 8), |g.occurrences|) && Rows(RowsOf(g, 16), |g.occurrences|);
    }
  }

  lemma CoveredIffNotMissed(g: Graph, i: nat)
    requires i < |g.occurrences| && RowsAreExact(g) && forall flag | IsFlag(flag) :: Rows(RowsOf(g, flag), |g.occurrences|)
    ensures (RequiredFlag(g.occurrences[i]) != 0 ==> multiset(RowsOf(g, RequiredFlag(g.occurrences[i])))[i] == 1) <==>
      match g.occurrences[i].kind
      case Expression => Once(g.expressionRows, i)
      case Statement => Once(g.statementRows, i)
      case Initializer => Once(g.initializerRows, i)
      case OldStyleParameter => Once(g.oldStyleRows, i)
      case TypeOf => g.occurrences[i].attributeArgument || exists t :: 0 <= t < |g.operands| && g.operands[t].occurrence == i
      case _ => true
  {
    OnceIffCounted(g.expressionRows, i);
    OnceIffCounted(g.statementRows, i);
    OnceIffCounted(g.initializerRows, i);
    OnceIffCounted(g.oldStyleRows, i);
    assert IsFlag(8) && Rows(RowsOf(g, 8), |g.occurrences|);
    RowsCountOnce(OperandRows(g), |g.occurrences|, i);
    assert i in OperandRows(g) <==> exists t :: 0 <= t < |g.operands| && g.operands[t].occurrence == i by {
      assert forall t | 0 <= t < |g.operands| :: OperandRows(g)[t] == g.operands[t].occurrence;
    }
  }

  lemma AcceptedIffConsistent(g: Graph)
    ensures Accepted(g) <==> Consistent(g)
  {
    RootsIffRoots(g);
    OperandsIffOwned(g);
    ScopesIffScoped(g);
    if OperandsAreOwned(g) {
      RowsIffExact(g);
      if RowsAreExact(g) {
        forall i: nat | i < |g.occurrences| {
          CoveredIffNotMissed(g, i);
        }
      }
    }
  }

  /** The oracle accepts exactly the graphs whose operands and declarations are partitioned by their
      owners and whose occurrences are covered exactly once. */
  method Check(g: Graph) returns (ok: bool)
    ensures ok <==> Consistent(g)
  {
    AcceptedIffConsistent(g);
    ok := CheckOwners(g);
    if !ok { return; }
    ok := CheckPartition(OperandLists(g), OperandOwners(g));
    if !ok { return; }
    ok := CheckOperands(g);
    if !ok { return; }
    ok := CheckPartition(g.scopes, SiteOwners(g));
    if !ok { return; }
    ok := CheckOrder(g);
    if !ok { return; }
    ok := CheckOldStyle(g);
    if !ok { return; }
    ok := CheckCoverage(g);
  }
}
