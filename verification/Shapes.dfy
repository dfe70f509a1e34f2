/** Type shapes of the binding analyzer's inventory, and the two recursions over them:
    collecting corresponding nominal records, and renaming nominal records.

    A JSON object tagged "record" is the constructor Record; every other object is a
    Dict, every array an Items, every scalar a Leaf. */
module Shapes {
  import opened Results

  datatype Scalar = Text(text: string) | Flag(flag: bool) | Null

  datatype Shape =
    | Record(name: string)
    | Leaf(scalar: Scalar)
    | Items(items: seq<Shape>)
    | Dict(entries: map<string, Shape>)

  type Pair = (string, string)

  /** The nominal record pairs occupying corresponding positions. The original is a
      generator; all its consumers are proved for every order of the set. */
  function ShapePairs(left: Shape, right: Shape): set<Pair>
  {
    match (left, right)
    case (Record(a), Record(b)) => {(a, b)}
    case (Dict(m), Dict(n)) =>
      if m.Keys == n.Keys then set k, p | k in m && p in ShapePairs(m[k], n[k]) :: p else {}
    case (Items(xs), Items(ys)) =>
      if |xs| == |ys| then set i, p | 0 <= i < |xs| && p in ShapePairs(xs[i], ys[i]) :: p else {}
    case _ => {}
  }

  function Lookup(mapping: map<string, string>, name: string): string
  {
    if name in mapping then mapping[name] else name
  }

  function Rename(shape: Shape, mapping: map<string, string>): Shape
  {
    match shape
    case Record(name) => Record(Lookup(mapping, name))
    case Leaf(_) => shape
    case Items(items) => Items(seq(|items|, i requires 0 <= i < |items| => Rename(items[i], mapping)))
    case Dict(entries) => Dict(map k | k in entries :: Rename(entries[k], mapping))
  }

  /** Equal up to the names of nominal records. */
  ghost predicate SameSkeleton(left: Shape, right: Shape)
  {
    match (left, right)
    case (Record(_), Record(_)) => true
    case (Leaf(s), Leaf(t)) => s == t
    case (Items(xs), Items(ys)) => |xs| == |ys| && forall i | 0 <= i < |xs| :: SameSkeleton(xs[i], ys[i])
    case (Dict(m), Dict(n)) => m.Keys == n.Keys && forall k | k in m :: SameSkeleton(m[k], n[k])
    case _ => false
  }

  ghost predicate PairsAgree(left: Shape, right: Shape, mapping: map<string, string>)
  {
    forall p | p in ShapePairs(left, right) :: Lookup(mapping, p.1) == p.0
  }

  /** The collected pairs are exactly the obligations a renaming has to meet. */
  lemma {:induction false} RenameIffPairsAgree(left: Shape, right: Shape, mapping: map<string, string>)
    ensures Rename(right, mapping) == left <==> SameSkeleton(left, right) && PairsAgree(left, right, mapping)
    decreases right
  {
    match (left, right)
    case (Record(a), Record(b)) =>
      assert (a, b) in ShapePairs(left, right);
    case (Items(xs), Items(ys)) =>
      if |xs| == |ys| {
        forall i | 0 <= i < |xs| {
          RenameIffPairsAgree(xs[i], ys[i], mapping);
        }
        assert Rename(right, mapping) == left <==>
               forall i | 0 <= i < |xs| :: Rename(ys[i], mapping) == xs[i];
        assert PairsAgree(left, right, mapping) <==>
               forall i | 0 <= i < |xs| :: PairsAgree(xs[i], ys[i], mapping);
      }
    case (Dict(m), Dict(n)) =>
      if m.Keys == n.Keys {
        forall k | k in m {
          RenameIffPairsAgree(m[k], n[k], mapping);
        }
        assert Rename(right, mapping) == left <==> forall k | k in m :: Rename(n[k], mapping) == m[k];
        assert PairsAgree(left, right, mapping) <==> forall k | k in m :: PairsAgree(m[k], n[k], mapping);
      } else {
        assert Rename(right, mapping).entries.Keys == n.Keys;
      }
    case _ =>
  }

  /** A position inside a type: an entry or an item at every level. */
  datatype Place = Entry(key: string) | Item(index: nat)

  ghost function Part(shape: Shape, place: Place): Option<Shape>
  {
    match (shape, place)
    case (Dict(entries), Entry(key)) => if key in entries then Some(entries[key]) else None
    case (Items(items), Item(index)) => if index < |items| then Some(items[index]) else None
    case _ => None
  }

  /** Dictionaries with the same keys, or lists of the same length. */
  ghost predicate Parallel(left: Shape, right: Shape)
  {
    || (left.Dict? && right.Dict? && left.entries.Keys == right.entries.Keys)
    || (left.Items? && right.Items? && |left.items| == |right.items|)
  }

  /** The records p stand at one place in both types, and the types are parallel all the way there. */
  ghost predicate StandAt(left: Shape, right: Shape, places: seq<Place>, p: Pair)
    decreases |places|
  {
    if places == [] then left == Record(p.0) && right == Record(p.1)
    else
      && Parallel(left, right) && Part(left, places[0]).Some? && Part(right, places[0]).Some?
      && StandAt(Part(left, places[0]).value, Part(right, places[0]).value, places[1..], p)
  }

  lemma {:induction false} PairsStandSomewhere(left: Shape, right: Shape, p: Pair)
    requires p in ShapePairs(left, right)
    ensures exists places :: StandAt(left, right, places, p)
    decreases left
  {
    match (left, right)
    case (Record(a), Record(b)) =>
      assert StandAt(left, right, [], p);
    case (Dict(m), Dict(n)) =>
      var k :| k in m && p in ShapePairs(m[k], n[k]);
      PairsStandSomewhere(m[k], n[k], p);
      var places :| StandAt(m[k], n[k], places, p);
      PlaceExtends(left, right, Entry(k), places, p);
    case (Items(xs), Items(ys)) =>
      var i: nat :| i < |xs| && p in ShapePairs(xs[i], ys[i]);
      PairsStandSomewhere(xs[i], ys[i], p);
      var places :| StandAt(xs[i], ys[i], places, p);
      PlaceExtends(left, right, Item(i), places, p);
    case _ =>
  }

  lemma PlaceExtends(left: Shape, right: Shape, place: Place, places: seq<Place>, p: Pair)
    requires Parallel(left, right) && Part(left, place).Some? && Part(right, place).Some?
    requires StandAt(Part(left, place).value, Part(right, place).value, places, p)
    ensures StandAt(left, right, [place] + places, p)
  {
    assert ([place] + places)[1..] == places;
  }

  lemma {:induction false} StandingIsPaired(left: Shape, right: Shape, places: seq<Place>, p: Pair)
    requires StandAt(left, right, places, p)
    ensures p in ShapePairs(left, right)
    decreases |places|
  {
    if places == [] {
    } else {
      StandingIsPaired(Part(left, places[0]).value, Part(right, places[0]).value, places[1..], p);
    }
  }

  /** The collected pairs are exactly those of records at corresponding places. */
  lemma PairedIffCorresponding(left: Shape, right: Shape, p: Pair)
    ensures p in ShapePairs(left, right) <==> exists places :: StandAt(left, right, places, p)
  {
    if p in ShapePairs(left, right) {
      PairsStandSomewhere(left, right, p);
    }
    if places :| StandAt(left, right, places, p) {
      StandingIsPaired(left, right, places, p);
    }
  }
}
