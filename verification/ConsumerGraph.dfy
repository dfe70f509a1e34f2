/** The inventory of the packages a consumer is built from, with one binding-generator edge cut. */
module ConsumerGraph {
  import opened Results
  import opened Texts

  type Id = string

  datatype KindName = Normal | Build | Dev

  datatype Kind = Kind(name: KindName, target: Option<string>)

  datatype Dependency = Dependency(pkg: Id, name: string, kinds: seq<Kind>)

  datatype Node = Node(features: seq<string>, deps: seq<Dependency>)

  datatype Package = Package(name: string, version: string, source: Option<string>)

  /** Cargo's metadata, the packages in its active tree, the lock's checksums, and the name of the
      package expected behind the cut edge. */
  datatype Metadata = Metadata(
    packages: map<Id, Package>,
    nodes: map<Id, Node>,
    root: Id,
    active: set<(string, string)>,
    locked: map<Package, Option<string>>,
    generator: string)

  function Identity(p: Package): string
  {
    p.name + "@" + p.version
  }

  predicate Active(m: Metadata, p: Package)
  {
    (p.name, p.version) in m.active
  }

  function UsefulKinds(kinds: seq<Kind>): seq<Kind>
  {
    if kinds == [] then []
    else
      var (rest, k) := (UsefulKinds(kinds[..|kinds| - 1]), kinds[|kinds| - 1]);
      if k.name.Dev? then rest else rest + [k]
  }

  /** A normal or build dependency on an active package. */
  predicate Used(m: Metadata, d: Dependency)
  {
    UsefulKinds(d.kinds) != [] && d.pkg in m.packages && Active(m, m.packages[d.pkg])
  }

  predicate IsGenerator(from: Package, d: Dependency)
  {
    from.name == "aws-lc-sys" && d.name == "bindgen"
  }

  /** A dependency as the inventory sees it; sorted lists are multisets. */
  datatype Link = Link(pkg: Id, name: string, kinds: multiset<Kind>)

  datatype Edge = Edge(source: string, target: string, name: string, kinds: multiset<Kind>)

  datatype Info = Info(source: Option<string>, checksum: Option<string>, features: multiset<string>)

  datatype Inventory = Inventory(packages: map<string, Info>, edges: multiset<Edge>)

  /** The used dependencies that are not cut. */
  function Links(m: Metadata, from: Package, deps: seq<Dependency>): (links: seq<Link>)
    ensures forall l | l in links :: l.pkg in m.packages
  {
    if deps == [] then []
    else
      var (rest, d) := (Links(m, from, deps[..|deps| - 1]), deps[|deps| - 1]);
      if Used(m, d) && !IsGenerator(from, d)
      then rest + [Link(d.pkg, d.name, multiset(UsefulKinds(d.kinds)))]
      else rest
  }

  function LinksFrom(m: Metadata, u: Id): (links: seq<Link>)
    ensures forall l | l in links :: l.pkg in m.packages
  {
    if u in m.packages && u in m.nodes then Links(m, m.packages[u], m.nodes[u].deps) else []
  }

  function EdgeOf(m: Metadata, source: string, l: Link): Edge
    requires l.pkg in m.packages
  {
    Edge(source, Identity(m.packages[l.pkg]), l.name, l.kinds)
  }

  function Edges(m: Metadata, source: string, links: seq<Link>): (edges: seq<Edge>)
    requires forall l | l in links :: l.pkg in m.packages
    ensures forall e | e in edges :: e.source == source
  {
    seq(|links|, i requires 0 <= i < |links| => EdgeOf(m, source, links[i]))
  }

  /** Copied packages come from local directories, so where they come from is checked elsewhere. */
  predicate Copied(m: Metadata, u: Id)
    requires u in m.packages
  {
    u == m.root || m.packages[u].name == "aws-lc-sys"
  }

  function InfoOf(m: Metadata, u: Id): Info
    requires u in m.packages && u in m.nodes && m.packages[u] in m.locked
  {
    var p, copied := m.packages[u], Copied(m, u);
    Info(if copied then None else p.source, if copied then None else m.locked[p], multiset(m.nodes[u].features))
  }

  ghost predicate Next(m: Metadata, u: Id, v: Id)
  {
    exists l | l in LinksFrom(m, u) :: l.pkg == v
  }

  ghost predicate Walk(m: Metadata, path: seq<Id>)
  {
    path != [] && path[0] == m.root && forall i | 0 <= i < |path| - 1 :: Next(m, path[i], path[i + 1])
  }

  /** Reachable from the root once the generator edge is cut. */
  ghost predicate Reachable(m: Metadata, v: Id)
  {
    exists path :: Walk(m, path) && path[|path| - 1] == v
  }

  lemma RootIsReachable(m: Metadata)
    ensures Reachable(m, m.root)
  {
    assert Walk(m, [m.root]) && [m.root][|[m.root]| - 1] == m.root;
  }

  lemma NextIsReachable(m: Metadata, u: Id, v: Id)
    requires Reachable(m, u) && Next(m, u, v)
    ensures Reachable(m, v)
  {
    var path :| Walk(m, path) && path[|path| - 1] == u;
    assert Walk(m, path + [v]) && (path + [v])[|path + [v]| - 1] == v;
  }

  lemma ReachableIsLeast(m: Metadata, s: iset<Id>)
    requires m.root in s
    requires forall u, v | u in s && Next(m, u, v) :: v in s
    ensures forall v | Reachable(m, v) :: v in s
  {
    forall v | Reachable(m, v) ensures v in s {
      var path :| Walk(m, path) && path[|path| - 1] == v;
      WalkStaysInside(m, s, path, |path| - 1);
    }
  }

  lemma {:induction false} WalkStaysInside(m: Metadata, s: iset<Id>, path: seq<Id>, i: nat)
    requires m.root in s
    requires forall u, v | u in s && Next(m, u, v) :: v in s
    requires Walk(m, path) && i < |path|
    ensures path[i] in s
  {
    if i == 0 {
    } else {
      WalkStaysInside(m, s, path, i - 1);
      assert Next(m, path[i - 1], path[i - 1 + 1]);
    }
  }

  /** The target of every useful dependency is known, and a cut edge is a build edge to the generator. */
  predicate SoundDependency(m: Metadata, from: Package, d: Dependency)
  {
    UsefulKinds(d.kinds) != [] ==>
      && d.pkg in m.packages
      && (Active(m, m.packages[d.pkg]) && IsGenerator(from, d) ==>
            && m.packages[d.pkg].name == m.generator
            && forall k | k in UsefulKinds(d.kinds) :: k.name.Build?)
  }

  predicate SoundPackage(m: Metadata, u: Id)
  {
    && u in m.packages && u in m.nodes && Active(m, m.packages[u]) && m.packages[u] in m.locked
    && forall d | d in m.nodes[u].deps :: SoundDependency(m, m.packages[u], d)
  }

  predicate CutAt(m: Metadata, u: Id, i: int)
  {
    && u in m.packages && u in m.nodes && 0 <= i < |m.nodes[u].deps|
    && Used(m, m.nodes[u].deps[i]) && IsGenerator(m.packages[u], m.nodes[u].deps[i])
  }

  ghost predicate Distinct(m: Metadata)
  {
    forall u, v | Reachable(m, u) && Reachable(m, v) && u in m.packages && v in m.packages &&
      Identity(m.packages[u]) == Identity(m.packages[v]) :: u == v
  }

  /** Exactly one generator edge leaves the reachable packages. */
  ghost predicate OneCut(m: Metadata)
  {
    exists u, i :: Reachable(m, u) && CutAt(m, u, i) &&
      forall v, j | Reachable(m, v) && CutAt(m, v, j) :: v == u && j == i
  }

  ghost predicate Admissible(m: Metadata)
  {
    (forall u | Reachable(m, u) :: SoundPackage(m, u)) && Distinct(m) && OneCut(m)
  }

  /** The inventory lists exactly the reachable packages, and every surviving edge out of each once. */
  ghost predicate IsInventory(m: Metadata, inventory: Inventory)
  {
    && (forall u | Reachable(m, u) :: SoundPackage(m, u) &&
          Identity(m.packages[u]) in inventory.packages &&
          inventory.packages[Identity(m.packages[u])] == InfoOf(m, u) &&
          forall e: Edge | e.source == Identity(m.packages[u]) ::
            inventory.edges[e] == multiset(Edges(m, e.source, LinksFrom(m, u)))[e])
    && (forall k | k in inventory.packages :: exists u :: Reachable(m, u) && u in m.packages && Identity(m.packages[u]) == k)
    && (forall e | e in inventory.edges :: e.source in inventory.packages)
  }

  datatype Entry = Entry(id: Id, info: Info)

  ghost predicate NoRepeats<T>(s: seq<T>)
  {
    forall i, j | 0 <= i < j < |s| :: s[i] != s[j]
  }

  lemma LinksStep(m: Metadata, from: Package, deps: seq<Dependency>, i: nat)
    requires i < |deps|
    ensures Links(m, from, deps[..i + 1]) ==
      Links(m, from, deps[..i]) +
      if Used(m, deps[i]) && !IsGenerator(from, deps[i])
      then [Link(deps[i].pkg, deps[i].name, multiset(UsefulKinds(deps[i].kinds)))] else []
    ensures Cuts(m, from, deps[..i + 1]) ==
      Cuts(m, from, deps[..i]) + if Used(m, deps[i]) && IsGenerator(from, deps[i]) then [i] else []
  {
    assert deps[..i + 1][..i] == deps[..i];
  }

  /** The positions of the cut dependencies. */
  ghost function Cuts(m: Metadata, from: Package, deps: seq<Dependency>): seq<int>
  {
    if deps == [] then []
    else
      var (rest, d) := (Cuts(m, from, deps[..|deps| - 1]), deps[|deps| - 1]);
      if Used(m, d) && IsGenerator(from, d) then rest + [|deps| - 1] else rest
  }

  ghost function CutsFrom(m: Metadata, u: Id): seq<int>
  {
    if u in m.packages && u in m.nodes then Cuts(m, m.packages[u], m.nodes[u].deps) else []
  }

  lemma {:induction false} CutsAreListed(m: Metadata, from: Package, deps: seq<Dependency>)
    ensures NoRepeats(Cuts(m, from, deps))
    ensures forall i :: i in Cuts(m, from, deps) <==> 0 <= i < |deps| && Used(m, deps[i]) && IsGenerator(from, deps[i])
  {
    if deps == [] {
    } else {
      var k := |deps| - 1;
      CutsAreListed(m, from, deps[..k]);
      assert forall i | 0 <= i < k :: deps[..k][i] == deps[i];
      assert k !in Cuts(m, from, deps[..k]);
    }
  }

  /** The list has one edge and one target for every link. */
  ghost predicate Describes(m: Metadata, source: string, links: seq<Link>, edges: seq<Edge>, targets: seq<Id>)
  {
    && |edges| == |targets| == |links|
    && forall j | 0 <= j < |links| ::
      links[j].pkg in m.packages && edges[j] == EdgeOf(m, source, links[j]) && targets[j] == links[j].pkg
  }

  lemma DescribesAppends(m: Metadata, source: string, links: seq<Link>, edges: seq<Edge>, targets: seq<Id>, l: Link)
    requires Describes(m, source, links, edges, targets) && l.pkg in m.packages
    ensures Describes(m, source, links + [l], edges + [EdgeOf(m, source, l)], targets + [l.pkg])
  {
  }

  ghost predicate SoundDependencies(m: Metadata, from: Package, deps: seq<Dependency>)
  {
    forall j | 0 <= j < |deps| :: SoundDependency(m, from, deps[j])
  }

  datatype Step = Skip | Fail | Cut(identity: string) | Keep(link: Link)

  /** What becomes of one dependency. */
  method Inspect(m: Metadata, from: Package, d: Dependency) returns (step: Step)
    ensures step.Fail? <==> !SoundDependency(m, from, d)
    ensures step.Cut? <==> SoundDependency(m, from, d) && Used(m, d) && IsGenerator(from, d)
    ensures step.Keep? <==> SoundDependency(m, from, d) && Used(m, d) && !IsGenerator(from, d)
    ensures step.Keep? ==> step.link == Link(d.pkg, d.name, multiset(UsefulKinds(d.kinds)))
  {
    var kinds := UsefulKinds(d.kinds);
    if kinds == [] {
      return Skip;
    }
    if d.pkg !in m.packages {
      return Fail;
    }
    var target := m.packages[d.pkg];
    if !Active(m, target) {
      return Skip;
    }
    if from.name == "aws-lc-sys" && d.name == "bindgen" {
      if target.name != m.generator || exists k :: k in kinds && !k.name.Build? {
        return Fail;
      }
      return Cut(Identity(target));
    }
    return Keep(Link(d.pkg, d.name, multiset(kinds)));
  }

  /** The dependencies of one selected package, in order. */
  method Visit(m: Metadata, from: Package, deps: seq<Dependency>)
    returns (ok: bool, edges: seq<Edge>, targets: seq<Id>, removed: seq<string>)
    ensures ok <==> SoundDependencies(m, from, deps)
    ensures ok ==> Describes(m, Identity(from), Links(m, from, deps), edges, targets)
    ensures ok ==> |removed| == |Cuts(m, from, deps)|
  {
    edges, targets, removed := [], [], [];
    for i := 0 to |deps|
      invariant SoundDependencies(m, from, deps[..i])
      invariant Describes(m, Identity(from), Links(m, from, deps[..i]), edges, targets)
      invariant |removed| == |Cuts(m, from, deps[..i])|
    {
      LinksStep(m, from, deps, i);
      var step := Inspect(m, from, deps[i]);
      match step
      case Skip =>
      case Fail => return false, edges, targets, removed;
      case Cut(identity) => removed := removed + [identity];
      case Keep(link) =>
        DescribesAppends(m, Identity(from), Links(m, from, deps[..i]), edges, targets, link);
        edges := edges + [EdgeOf(m, Identity(from), link)];
        targets := targets + [link.pkg];
    }
    assert deps[..|deps|] == deps;
    ok := true;
  }

  type Selection = map<string, Entry>

  /** The selected packages, by identity, are the visited ones. */
  ghost predicate Selected(m: Metadata, selected: Selection, done: set<Id>)
  {
    && (forall k | k in selected :: selected[k].id in done)
    && (forall u | u in done ::
          && Reachable(m, u) && SoundPackage(m, u)
          && Identity(m.packages[u]) in selected
          && selected[Identity(m.packages[u])] == Entry(u, InfoOf(m, u)))
    && (forall k | k in selected && selected[k].id in m.packages :: Identity(m.packages[selected[k].id]) == k)
  }

  /** Whatever a visited package leads to was visited or is pending, and nothing else is. */
  ghost predicate Frontier(m: Metadata, done: set<Id>, pending: seq<Id>)
  {
    && (m.root in done || m.root in pending)
    && (forall v | v in pending :: Reachable(m, v))
    && (forall u, v | u in done && Next(m, u, v) :: v in done || v in pending)
  }

  ghost predicate Collected(m: Metadata, selected: Selection, edges: seq<Edge>)
  {
    forall e :: multiset(edges)[e] ==
      if e.source in selected then multiset(Edges(m, e.source, LinksFrom(m, selected[e.source].id)))[e] else 0
  }

  ghost predicate CutSoFar(m: Metadata, done: set<Id>, cut: seq<(Id, int)>)
  {
    NoRepeats(cut) && forall u, i :: (u, i) in cut <==> u in done && CutAt(m, u, i)
  }

  ghost function PairUp(u: Id, cuts: seq<int>): seq<(Id, int)>
  {
    seq(|cuts|, i requires 0 <= i < |cuts| => (u, cuts[i]))
  }

  lemma SelectKeeps(m: Metadata, selected: Selection, done: set<Id>, u: Id)
    requires Selected(m, selected, done) && Reachable(m, u) && SoundPackage(m, u)
    requires Identity(m.packages[u]) !in selected
    ensures Selected(m, selected[Identity(m.packages[u]) := Entry(u, InfoOf(m, u))], done + {u})
  {
  }

  lemma SkipKeeps(m: Metadata, done: set<Id>, pending: seq<Id>)
    requires pending != [] && Frontier(m, done, pending) && pending[|pending| - 1] in done
    ensures Frontier(m, done, pending[..|pending| - 1])
  {
    assert pending == pending[..|pending| - 1] + [pending[|pending| - 1]];
  }

  lemma VisitKeeps(m: Metadata, done: set<Id>, pending: seq<Id>, source: string, edges: seq<Edge>, targets: seq<Id>)
    requires pending != [] && Frontier(m, done, pending)
    requires Describes(m, source, LinksFrom(m, pending[|pending| - 1]), edges, targets)
    ensures Frontier(m, done + {pending[|pending| - 1]}, pending[..|pending| - 1] + targets)
  {
    var u, rest := pending[|pending| - 1], pending[..|pending| - 1];
    assert pending == rest + [u];
    var links := LinksFrom(m, u);
    forall v | v in targets ensures Reachable(m, v) {
      var j :| 0 <= j < |targets| && targets[j] == v;
      assert links[j] in links && links[j].pkg == v;
      NextIsReachable(m, u, v);
    }
    forall v | Next(m, u, v) ensures v in targets {
      var l :| l in links && l.pkg == v;
      var j :| 0 <= j < |links| && links[j] == l;
      assert targets[j] == v;
    }
  }

  lemma CollectKeeps(m: Metadata, selected: Selection, edges: seq<Edge>, u: Id, key: string, info: Info, found: seq<Edge>)
    requires Collected(m, selected, edges) && key !in selected
    requires found == Edges(m, key, LinksFrom(m, u))
    ensures Collected(m, selected[key := Entry(u, info)], edges + found)
  {
    forall e: Edge ensures multiset(edges + found)[e] == multiset(edges)[e] + multiset(found)[e] {
      assert multiset(edges + found) == multiset(edges) + multiset(found);
    }
    forall e: Edge | e.source != key ensures multiset(found)[e] == 0 {
      assert e !in found;
    }
  }

  lemma CutKeeps(m: Metadata, done: set<Id>, cut: seq<(Id, int)>, u: Id)
    requires CutSoFar(m, done, cut) && u !in done && u in m.packages && u in m.nodes
    ensures CutSoFar(m, done + {u}, cut + PairUp(u, CutsFrom(m, u)))
  {
    var more := PairUp(u, CutsFrom(m, u));
    CutsAreListed(m, m.packages[u], m.nodes[u].deps);
    forall v, i ensures (v, i) in more <==> v == u && CutAt(m, u, i) {
      if v == u && CutAt(m, u, i) {
        var j :| 0 <= j < |CutsFrom(m, u)| && CutsFrom(m, u)[j] == i;
        assert more[j] == (v, i);
      }
      if (v, i) in more {
        var j :| 0 <= j < |more| && more[j] == (v, i);
        assert CutsFrom(m, u)[j] in CutsFrom(m, u);
      }
    }
    forall i, j | 0 <= i < j < |cut + more| ensures (cut + more)[i] != (cut + more)[j] {
      if i < |cut| <= j {
        assert (cut + more)[i] in cut && (cut + more)[j] in more;
      }
    }
  }

  lemma OneCutIffOneListed(m: Metadata, done: set<Id>, cut: seq<(Id, int)>)
    requires CutSoFar(m, done, cut) && forall u :: u in done <==> Reachable(m, u)
    ensures |cut| == 1 <==> OneCut(m)
  {
    assert |cut| > 1 ==> cut[0] != cut[1];
    if |cut| == 1 {
      assert cut[0] in cut && forall p | p in cut :: p == cut[0];
      assert Reachable(m, cut[0].0) && CutAt(m, cut[0].0, cut[0].1);
      forall v, j | Reachable(m, v) && CutAt(m, v, j) ensures v == cut[0].0 && j == cut[0].1 {
        assert (v, j) in cut;
      }
    }
    if OneCut(m) {
      var u, i :| Reachable(m, u) && CutAt(m, u, i) &&
        forall v, j | Reachable(m, v) && CutAt(m, v, j) :: v == u && j == i;
      assert (u, i) in cut;
      forall k | 0 <= k < |cut| ensures cut[k] == (u, i) {
        var (v, j) := cut[k];
        assert cut[k] in cut && (v, j) in cut;
        assert Reachable(m, v) && CutAt(m, v, j);
      }
    }
  }

  lemma FinishedIsReachable(m: Metadata, selected: Selection, done: set<Id>)
    requires Selected(m, selected, done) && Frontier(m, done, [])
    ensures forall u :: u in done <==> Reachable(m, u)
    ensures Distinct(m)
  {
    ReachableIsLeast(m, iset u | u in done);
  }

  lemma FinishedIsInventory(m: Metadata, selected: Selection, done: set<Id>, edges: seq<Edge>)
    requires Selected(m, selected, done) && Collected(m, selected, edges)
    requires forall u :: u in done <==> Reachable(m, u)
    ensures IsInventory(m, Inventory(map k | k in selected :: selected[k].info, multiset(edges)))
  {
    var packages := map k | k in selected :: selected[k].info;
    assert packages.Keys == selected.Keys;
    forall e | e in multiset(edges) ensures e.source in packages {
      assert multiset(edges)[e] > 0;
    }
    forall k | k in packages ensures exists u :: Reachable(m, u) && u in m.packages && Identity(m.packages[u]) == k {
      assert selected[k].id in done;
    }
  }

  lemma UnsoundIsRefused(m: Metadata, u: Id)
    requires Reachable(m, u) && !SoundPackage(m, u)
    ensures !Admissible(m)
  {
  }

  lemma AmbiguousIsRefused(m: Metadata, selected: Selection, done: set<Id>, u: Id)
    requires Selected(m, selected, done) && Reachable(m, u) && u in m.packages
    requires Identity(m.packages[u]) in selected && selected[Identity(m.packages[u])].id != u
    ensures !Admissible(m)
  {
    assert Reachable(m, selected[Identity(m.packages[u])].id);
  }

  lemma TopIsReachable(m: Metadata, done: set<Id>, pending: seq<Id>)
    requires pending != [] && Frontier(m, done, pending)
    ensures Reachable(m, pending[|pending| - 1])
  {
  }

  /** What is known about the graph while packages are pending. */
  ghost predicate Progress(m: Metadata, selected: Selection, done: set<Id>, pending: seq<Id>, edges: seq<Edge>, cut: seq<(Id, int)>)
  {
    Selected(m, selected, done) && Frontier(m, done, pending) && Collected(m, selected, edges) && CutSoFar(m, done, cut)
  }

  lemma VisitProgresses(m: Metadata, selected: Selection, done: set<Id>, pending: seq<Id>, edges: seq<Edge>,
                        cut: seq<(Id, int)>, u: Id, found: seq<Edge>, targets: seq<Id>)
    requires Progress(m, selected, done, pending, edges, cut)
    requires pending != [] && u == pending[|pending| - 1]
    requires SoundPackage(m, u) && Identity(m.packages[u]) !in selected
    requires Describes(m, Identity(m.packages[u]), LinksFrom(m, u), found, targets)
    ensures u !in done
    ensures Progress(m, selected[Identity(m.packages[u]) := Entry(u, InfoOf(m, u))], done + {u},
                     pending[..|pending| - 1] + targets, edges + found, cut + PairUp(u, CutsFrom(m, u)))
  {
    var key := Identity(m.packages[u]);
    assert found == Edges(m, key, LinksFrom(m, u));
    SelectKeeps(m, selected, done, u);
    CollectKeeps(m, selected, edges, u, key, InfoOf(m, u), found);
    VisitKeeps(m, done, pending, key, found, targets);
    CutKeeps(m, done, cut, u);
  }

  // The same in terms of the metadata alone.

  /** A dependency of package u that the inventory follows: of some kind that is not for development only,
      on an active package, and not the edge from aws-lc-sys to its binding generator. */
  ghost predicate Survives(m: Metadata, u: Id, d: Dependency)
  {
    && u in m.packages && u in m.nodes && d in m.nodes[u].deps && d.pkg in m.packages
    && (exists k :: k in d.kinds && !k.name.Dev?)
    && (m.packages[d.pkg].name, m.packages[d.pkg].version) in m.active
    && !(m.packages[u].name == "aws-lc-sys" && d.name == "bindgen")
  }

  ghost function Before(m: Metadata, chain: seq<Dependency>): Id
  {
    if |chain| <= 1 then m.root else chain[|chain| - 2].pkg
  }

  /** Surviving dependencies that lead from the root to v. */
  ghost predicate Chain(m: Metadata, chain: seq<Dependency>, v: Id)
  {
    if chain == [] then v == m.root
    else
      var (u, last) := (Before(m, chain), chain[|chain| - 1]);
      Chain(m, chain[..|chain| - 1], u) && Survives(m, u, last) && last.pkg == v
  }

  ghost predicate Consumed(m: Metadata, v: Id)
  {
    exists chain :: Chain(m, chain, v)
  }

  /** All but the development kinds, with their multiplicities. */
  lemma {:induction false} UsefulKindsKeep(kinds: seq<Kind>)
    ensures forall k :: multiset(UsefulKinds(kinds))[k] == if k.name.Dev? then 0 else multiset(kinds)[k]
  {
    if kinds == [] {
    } else {
      UsefulKindsKeep(kinds[..|kinds| - 1]);
      assert kinds == kinds[..|kinds| - 1] + [kinds[|kinds| - 1]];
    }
  }

  lemma KindsAreUseful(kinds: seq<Kind>)
    ensures forall k :: k in UsefulKinds(kinds) <==> k in kinds && !k.name.Dev?
  {
    UsefulKindsKeep(kinds);
    forall k ensures k in UsefulKinds(kinds) <==> k in kinds && !k.name.Dev? {
      assert k in UsefulKinds(kinds) <==> multiset(UsefulKinds(kinds))[k] > 0;
    }
  }

  lemma UsefulIffSome(kinds: seq<Kind>)
    ensures UsefulKinds(kinds) != [] <==> exists k :: k in kinds && !k.name.Dev?
  {
    KindsAreUseful(kinds);
    if UsefulKinds(kinds) != [] {
      assert UsefulKinds(kinds)[0] in UsefulKinds(kinds);
    }
  }

  lemma {:induction false} LinksComeFrom(m: Metadata, from: Package, deps: seq<Dependency>, v: Id)
    ensures (exists l :: l in Links(m, from, deps) && l.pkg == v) <==>
            exists d :: d in deps && d.pkg == v && Used(m, d) && !IsGenerator(from, d)
  {
    if deps == [] {
    } else {
      var (front, d) := (deps[..|deps| - 1], deps[|deps| - 1]);
      assert deps == front + [d];
      LinksComeFrom(m, from, front, v);
      if Used(m, d) && !IsGenerator(from, d) {
        var l := Link(d.pkg, d.name, multiset(UsefulKinds(d.kinds)));
        assert Links(m, from, deps) == Links(m, from, front) + [l];
        assert l in Links(m, from, deps);
      }
    }
  }

  lemma NextIffSurvives(m: Metadata, u: Id, v: Id)
    ensures Next(m, u, v) <==> exists d :: Survives(m, u, d) && d.pkg == v
  {
    if u in m.packages && u in m.nodes {
      LinksComeFrom(m, m.packages[u], m.nodes[u].deps, v);
      forall d | d in m.nodes[u].deps
        ensures Survives(m, u, d) <==> Used(m, d) && !IsGenerator(m.packages[u], d)
      {
        UsefulIffSome(d.kinds);
      }
    }
  }

  lemma {:induction false} ChainIsWalk(m: Metadata, chain: seq<Dependency>, v: Id)
    requires Chain(m, chain, v)
    ensures Reachable(m, v)
  {
    if chain == [] {
      RootIsReachable(m);
    } else {
      var u := Before(m, chain);
      ChainIsWalk(m, chain[..|chain| - 1], u);
      NextIffSurvives(m, u, v);
      NextIsReachable(m, u, v);
    }
  }

  lemma ChainGrows(m: Metadata, u: Id, v: Id)
    requires Consumed(m, u) && Next(m, u, v)
    ensures Consumed(m, v)
  {
    NextIffSurvives(m, u, v);
    var chain :| Chain(m, chain, u);
    var d :| Survives(m, u, d) && d.pkg == v;
    assert (chain + [d])[..|chain|] == chain;
    assert Chain(m, chain + [d], v);
  }

  lemma ReachableIffConsumed(m: Metadata)
    ensures forall v :: Reachable(m, v) <==> Consumed(m, v)
  {
    var s := iset v | Consumed(m, v);
    assert Chain(m, [], m.root);
    forall u, v | u in s && Next(m, u, v) ensures v in s {
      ChainGrows(m, u, v);
    }
    ReachableIsLeast(m, s);
    forall v | Consumed(m, v) ensures Reachable(m, v) {
      var chain :| Chain(m, chain, v);
      ChainIsWalk(m, chain, v);
    }
  }

  /** What an edge says of the dependency it stands for: where it leads, and its kinds but those for
      development. */
  ghost predicate StandsFor(m: Metadata, u: Id, d: Dependency, e: Edge)
  {
    && Survives(m, u, d)
    && e.source == m.packages[u].name + "@" + m.packages[u].version
    && e.target == m.packages[d.pkg].name + "@" + m.packages[d.pkg].version
    && e.name == d.name
    && forall k :: e.kinds[k] == if k.name.Dev? then 0 else multiset(d.kinds)[k]
  }

  ghost function Positions<T(!new)>(xs: seq<T>, p: T -> bool): set<int>
  {
    set i | 0 <= i < |xs| && p(xs[i])
  }

  lemma PositionsStep<T(!new)>(xs: seq<T>, p: T -> bool)
    requires xs != []
    ensures |Positions(xs, p)| == |Positions(xs[..|xs| - 1], p)| + if p(xs[|xs| - 1]) then 1 else 0
  {
    var k := |xs| - 1;
    assert Positions(xs, p) == Positions(xs[..k], p) + if p(xs[k]) then {k} else {};
  }

  /** The positions of the dependencies an edge stands for. */
  ghost function Standing(m: Metadata, u: Id, deps: seq<Dependency>, e: Edge): set<int>
  {
    Positions(deps, (d: Dependency) => StandsFor(m, u, d, e))
  }

  lemma SameKinds(kinds: seq<Kind>, ks: multiset<Kind>)
    ensures ks == multiset(UsefulKinds(kinds)) <==> forall k :: ks[k] == if k.name.Dev? then 0 else multiset(kinds)[k]
  {
    UsefulKindsKeep(kinds);
    if forall k :: ks[k] == if k.name.Dev? then 0 else multiset(kinds)[k] {
      forall k ensures ks[k] == multiset(UsefulKinds(kinds))[k] {
      }
    }
  }

  lemma LinkStandsFor(m: Metadata, u: Id, d: Dependency, e: Edge)
    requires u in m.packages && u in m.nodes && d in m.nodes[u].deps
    ensures StandsFor(m, u, d, e) <==>
            Used(m, d) && !IsGenerator(m.packages[u], d) &&
            e == EdgeOf(m, Identity(m.packages[u]), Link(d.pkg, d.name, multiset(UsefulKinds(d.kinds))))
  {
    UsefulIffSome(d.kinds);
    SameKinds(d.kinds, e.kinds);
  }

  lemma {:induction false} EdgesAreCounted(m: Metadata, u: Id, deps: seq<Dependency>, e: Edge)
    requires u in m.packages && u in m.nodes && deps <= m.nodes[u].deps
    ensures |Standing(m, u, deps, e)| == multiset(Edges(m, Identity(m.packages[u]), Links(m, m.packages[u], deps)))[e]
  {
    if deps == [] {
      assert Standing(m, u, deps, e) == {};
    } else {
      var (k, from) := (|deps| - 1, m.packages[u]);
      var (front, d, source) := (deps[..k], deps[k], Identity(from));
      EdgesAreCounted(m, u, front, e);
      assert deps[k] == m.nodes[u].deps[k];
      LinkStandsFor(m, u, d, e);
      PositionsStep(deps, (d: Dependency) => StandsFor(m, u, d, e));
      EdgesStep(m, from, deps);
    }
  }

  lemma EdgesStep(m: Metadata, from: Package, deps: seq<Dependency>)
    requires deps != []
    ensures
      var (front, d, source) := (deps[..|deps| - 1], deps[|deps| - 1], Identity(from));
      var before := Edges(m, source, Links(m, from, front));
      Edges(m, source, Links(m, from, deps)) ==
        if Used(m, d) && !IsGenerator(from, d)
        then before + [EdgeOf(m, source, Link(d.pkg, d.name, multiset(UsefulKinds(d.kinds))))] else before
  {
  }

  /** The inventory lists exactly the packages consumed, under name and version, with their features and, unless
      they are copied, source and checksum. It has one edge for every surviving dependency of each, and no other. */
  ghost predicate Inventories(m: Metadata, inventory: Inventory)
  {
    && (forall u | Consumed(m, u) :: u in m.packages && u in m.nodes && m.packages[u] in m.locked &&
          var p := m.packages[u];
          var key := p.name + "@" + p.version;
          && key in inventory.packages && inventory.packages[key].features == multiset(m.nodes[u].features)
          && (if u == m.root || p.name == "aws-lc-sys"
              then inventory.packages[key].source == None && inventory.packages[key].checksum == None
              else inventory.packages[key].source == p.source && inventory.packages[key].checksum == m.locked[p])
          && forall e: Edge | e.source == key :: inventory.edges[e] == |Standing(m, u, m.nodes[u].deps, e)|)
    && (forall k | k in inventory.packages ::
          exists u :: Consumed(m, u) && u in m.packages && m.packages[u].name + "@" + m.packages[u].version == k)
    && (forall e | e in inventory.edges :: e.source in inventory.packages)
  }

  lemma InventoryListsConsumed(m: Metadata, inventory: Inventory)
    requires IsInventory(m, inventory)
    ensures Inventories(m, inventory)
  {
    ReachableIffConsumed(m);
    forall u, e: Edge | Reachable(m, u) && e.source == Identity(m.packages[u])
      ensures inventory.edges[e] == |Standing(m, u, m.nodes[u].deps, e)|
    {
      EdgesAreCounted(m, u, m.nodes[u].deps, e);
    }
  }

  /** Every consumed package is active and locked, its dependencies are known, and a dependency of
      aws-lc-sys on its generator is a build dependency on the expected package. */
  ghost predicate Complete(m: Metadata, u: Id)
  {
    && u in m.packages && u in m.nodes && m.packages[u] in m.locked
    && (m.packages[u].name, m.packages[u].version) in m.active
    && forall d | d in m.nodes[u].deps :: Expected(m, u, d)
  }

  ghost predicate Expected(m: Metadata, u: Id, d: Dependency)
  {
    && ((exists k :: k in d.kinds && !k.name.Dev?) ==> d.pkg in m.packages)
    && (GeneratorEdge(m, u, d) ==>
          m.packages[d.pkg].name == m.generator && forall k | k in d.kinds :: k.name.Build? || k.name.Dev?)
  }

  /** A dependency of some useful kind from aws-lc-sys on an active package called bindgen. */
  ghost predicate GeneratorEdge(m: Metadata, u: Id, d: Dependency)
  {
    && u in m.packages && m.packages[u].name == "aws-lc-sys" && d.name == "bindgen" && d.pkg in m.packages
    && (m.packages[d.pkg].name, m.packages[d.pkg].version) in m.active && exists k :: k in d.kinds && !k.name.Dev?
  }

  ghost predicate Consumable(m: Metadata)
  {
    && (forall u | Consumed(m, u) :: Complete(m, u))
    && (forall u, v | Consumed(m, u) && Consumed(m, v) && u in m.packages && v in m.packages &&
          m.packages[u].name + "@" + m.packages[u].version == m.packages[v].name + "@" + m.packages[v].version :: u == v)
    && (exists u, i :: IsCut(m, u, i) && forall v, j | IsCut(m, v, j) :: v == u && j == i)
  }

  ghost predicate IsCut(m: Metadata, u: Id, i: int)
  {
    Consumed(m, u) && u in m.nodes && 0 <= i < |m.nodes[u].deps| && GeneratorEdge(m, u, m.nodes[u].deps[i])
  }

  lemma GeneratorEdgeIsUsed(m: Metadata, u: Id, d: Dependency)
    requires u in m.packages
    ensures GeneratorEdge(m, u, d) <==> Used(m, d) && IsGenerator(m.packages[u], d)
  {
    UsefulIffSome(d.kinds);
  }

  lemma DependencyIsSound(m: Metadata, u: Id, d: Dependency)
    requires u in m.packages
    ensures SoundDependency(m, m.packages[u], d) <==> Expected(m, u, d)
  {
    UsefulIffSome(d.kinds);
    KindsAreUseful(d.kinds);
    GeneratorEdgeIsUsed(m, u, d);
  }

  lemma CompleteIffSound(m: Metadata, u: Id)
    ensures Complete(m, u) <==> SoundPackage(m, u)
  {
    if u in m.packages && u in m.nodes {
      forall d | d in m.nodes[u].deps {
        DependencyIsSound(m, u, d);
      }
    }
  }

  lemma CutIffCut(m: Metadata, u: Id, i: int)
    ensures IsCut(m, u, i) <==> Reachable(m, u) && CutAt(m, u, i)
  {
    ReachableIffConsumed(m);
    if u in m.packages && u in m.nodes && 0 <= i < |m.nodes[u].deps| {
      GeneratorEdgeIsUsed(m, u, m.nodes[u].deps[i]);
    }
  }

  lemma AdmissibleIffConsumable(m: Metadata)
    ensures Admissible(m) <==> Consumable(m)
  {
    ReachableIffConsumed(m);
    forall u {
      CompleteIffSound(m, u);
    }
    forall u, i ensures IsCut(m, u, i) <==> Reachable(m, u) && CutAt(m, u, i) {
      CutIffCut(m, u, i);
    }
  }

  /** Succeeds exactly on consumable metadata, whatever the order of the stack, with exactly the
      consumed part of the graph. */
  method ConsumerDependencies(m: Metadata) returns (result: Result<Inventory>)
    ensures result.Ok? <==> Consumable(m)
    ensures result.Ok? ==> Inventories(m, result.value)
  {
    result := Collect(m);
    AdmissibleIffConsumable(m);
    if result.Ok? {
      InventoryListsConsumed(m, result.value);
    }
  }

  /** Succeeds exactly on admissible metadata, with exactly the reachable part of the graph. */
  method Collect(m: Metadata) returns (result: Result<Inventory>)
    ensures result.Ok? <==> Admissible(m)
    ensures result.Ok? ==> IsInventory(m, result.value)
  {
    var selected: Selection, edges: seq<Edge>, pending, removed: seq<string> := map[], [], [m.root], [];
    ghost var done: set<Id>, cut: seq<(Id, int)> := {}, [];
    RootIsReachable(m);
    while pending != []
      invariant Progress(m, selected, done, pending, edges, cut) && |cut| == |removed|
      decreases m.packages.Keys - done, |pending|
    {
      var u := pending[|pending| - 1];
      TopIsReachable(m, done, pending);
      if u !in m.packages {
        UnsoundIsRefused(m, u);
        return Err("unknown package");
      }
      var package := m.packages[u];
      var key := Identity(package);
      if key in selected {
        if selected[key].id != u {
          AmbiguousIsRefused(m, selected, done, u);
          return Err("ambiguous active package identity");
        }
        SkipKeeps(m, done, pending);
        pending := pending[..|pending| - 1];
        continue;
      }
      if !Active(m, package) || package !in m.locked || u !in m.nodes {
        UnsoundIsRefused(m, u);
        return Err("consumer dependency is absent");
      }
      var ok, found, targets, dropped := Visit(m, package, m.nodes[u].deps);
      if !ok {
        UnsoundIsRefused(m, u);
        return Err("unexpected dependency");
      }
      VisitProgresses(m, selected, done, pending, edges, cut, u, found, targets);
      selected := selected[key := Entry(u, InfoOf(m, u))];
      edges := edges + found;
      pending := pending[..|pending| - 1] + targets;
      removed := removed + dropped;
      done, cut := done + {u}, cut + PairUp(u, CutsFrom(m, u));
    }
    FinishedIsReachable(m, selected, done);
    OneCutIffOneListed(m, done, cut);
    if |removed| != 1 {
      return Err("expected one active generator edge");
    }
    FinishedIsInventory(m, selected, done, edges);
    return Ok(Inventory(map k | k in selected :: selected[k].info, multiset(edges)));
  }

  // Independence of package ids and of whatever hangs behind the cut edge.

  function RenameLink(l: Link, rename: map<Id, Id>): Link
  {
    if l.pkg in rename then l.(pkg := rename[l.pkg]) else l
  }

  function RenameLinks(links: seq<Link>, rename: map<Id, Id>): seq<Link>
  {
    seq(|links|, i requires 0 <= i < |links| => RenameLink(links[i], rename))
  }

  /** A package of one graph and its counterpart in the other: the same name and version in the same
      role, with the same features, and the same surviving dependencies up to their ids. The sources
      and checksums of copied packages may differ. */
  ghost predicate SamePackage(m: Metadata, n: Metadata, rename: map<Id, Id>, u: Id)
    requires u in rename
  {
    var v := rename[u];
    && u in m.packages && v in n.packages
    && m.packages[u].name == n.packages[v].name && m.packages[u].version == n.packages[v].version
    && (u == m.root <==> v == n.root)
    && m.packages[u] in m.locked && n.packages[v] in n.locked
    && (!Copied(m, u) ==>
          m.packages[u].source == n.packages[v].source && m.locked[m.packages[u]] == n.locked[n.packages[v]])
    && u in m.nodes && v in n.nodes && multiset(m.nodes[u].features) == multiset(n.nodes[v].features)
    && multiset(LinksFrom(n, v)) == multiset(RenameLinks(LinksFrom(m, u), rename))
  }

  /** The graphs agree on what is reachable without the generator edge. Nothing is said about the
      packages behind that edge, the generator itself, or either active set, lock or id beyond it. */
  ghost predicate AgreeOutsideGenerator(m: Metadata, n: Metadata, rename: map<Id, Id>)
  {
    && m.root in rename && rename[m.root] == n.root
    && forall u | Reachable(m, u) :: u in rename && SamePackage(m, n, rename, u)
  }

  lemma CounterpartIsReachable(m: Metadata, n: Metadata, rename: map<Id, Id>)
    requires AgreeOutsideGenerator(m, n, rename)
    ensures forall u | Reachable(m, u) :: Reachable(n, rename[u])
  {
    var s := iset u | Reachable(m, u) && Reachable(n, rename[u]);
    RootIsReachable(m);
    RootIsReachable(n);
    forall u, v | u in s && Next(m, u, v) ensures v in s {
      NextIsReachable(m, u, v);
      var l :| l in LinksFrom(m, u) && l.pkg == v;
      LinkIsRenamed(m, n, rename, u, l);
      NextIsReachable(n, rename[u], rename[v]);
    }
    ReachableIsLeast(m, s);
  }

  lemma LinkIsRenamed(m: Metadata, n: Metadata, rename: map<Id, Id>, u: Id, l: Link)
    requires u in rename && SamePackage(m, n, rename, u) && l in LinksFrom(m, u)
    ensures RenameLink(l, rename) in LinksFrom(n, rename[u])
  {
    var links, renamed := LinksFrom(m, u), RenameLinks(LinksFrom(m, u), rename);
    var i :| 0 <= i < |links| && links[i] == l;
    assert renamed[i] in multiset(renamed);
    assert RenameLink(l, rename) in multiset(LinksFrom(n, rename[u]));
  }

  lemma RenamedLinkHasOrigin(m: Metadata, n: Metadata, rename: map<Id, Id>, u: Id, l: Link) returns (origin: Link)
    requires u in rename && SamePackage(m, n, rename, u) && l in LinksFrom(n, rename[u])
    ensures origin in LinksFrom(m, u) && RenameLink(origin, rename) == l
  {
    var links, renamed := LinksFrom(m, u), RenameLinks(LinksFrom(m, u), rename);
    assert l in multiset(LinksFrom(n, rename[u]));
    assert l in multiset(renamed);
    var i :| 0 <= i < |renamed| && renamed[i] == l;
    origin := links[i];
  }

  ghost predicate IsCounterpart(m: Metadata, rename: map<Id, Id>, v: Id)
  {
    exists u :: Reachable(m, u) && u in rename && rename[u] == v
  }

  lemma EveryReachableHasCounterpart(m: Metadata, n: Metadata, rename: map<Id, Id>)
    requires AgreeOutsideGenerator(m, n, rename)
    ensures forall v | Reachable(n, v) :: IsCounterpart(m, rename, v)
  {
    var s := iset v | IsCounterpart(m, rename, v);
    RootIsReachable(m);
    forall v, w | v in s && Next(n, v, w) ensures w in s {
      var u :| Reachable(m, u) && u in rename && rename[u] == v;
      var l :| l in LinksFrom(n, v) && l.pkg == w;
      var origin := RenamedLinkHasOrigin(m, n, rename, u, l);
      NextIsReachable(m, u, origin.pkg);
    }
    ReachableIsLeast(n, s);
  }

  lemma FindLast<T>(xs: seq<T>, ys: seq<T>) returns (j: nat)
    requires xs != [] && multiset(xs) == multiset(ys)
    ensures j < |ys| && ys[j] == xs[|xs| - 1]
    ensures multiset(xs[..|xs| - 1]) == multiset(ys[..j] + ys[j + 1..])
  {
    var k, x := |xs| - 1, xs[|xs| - 1];
    assert xs == xs[..k] + [x];
    assert x in multiset(ys);
    j :| 0 <= j < |ys| && ys[j] == x;
    assert ys == ys[..j] + [x] + ys[j + 1..];
    assert multiset(ys[..j] + ys[j + 1..]) == multiset(ys) - multiset{x};
    assert multiset(xs[..k]) == multiset(xs) - multiset{x};
  }

  function Apply<A, B>(f: A -> B, xs: seq<A>): seq<B>
  {
    seq(|xs|, i requires 0 <= i < |xs| => f(xs[i]))
  }

  lemma ApplyConcatenates<A, B>(f: A -> B, xs: seq<A>, ys: seq<A>)
    ensures Apply(f, xs + ys) == Apply(f, xs) + Apply(f, ys)
  {
  }

  lemma {:induction false} ApplyIgnoresOrder<A, B>(f: A -> B, xs: seq<A>, ys: seq<A>)
    requires multiset(xs) == multiset(ys)
    ensures multiset(Apply(f, xs)) == multiset(Apply(f, ys))
    decreases |xs|
  {
    if xs == [] {
      assert |multiset(ys)| == 0;
    } else {
      var k := |xs| - 1;
      var j := FindLast(xs, ys);
      var (front, x, back) := (ys[..j], ys[j], ys[j + 1..]);
      assert xs == xs[..k] + [x] && ys == front + ([x] + back);
      ApplyConcatenates(f, xs[..k], [x]);
      ApplyConcatenates(f, front, [x] + back);
      ApplyConcatenates(f, [x], back);
      ApplyConcatenates(f, front, back);
      ApplyIgnoresOrder(f, xs[..k], front + back);
    }
  }

  /** The edge of a link; a link to an unknown package has none to speak of. */
  function ToEdge(m: Metadata, source: string): Link -> Edge
  {
    (l: Link) => if l.pkg in m.packages then EdgeOf(m, source, l) else Edge(source, "", l.name, l.kinds)
  }

  lemma EdgesIgnoreOrder(m: Metadata, source: string, xs: seq<Link>, ys: seq<Link>)
    requires forall l | l in xs :: l.pkg in m.packages
    requires forall l | l in ys :: l.pkg in m.packages
    requires multiset(xs) == multiset(ys)
    ensures multiset(Edges(m, source, xs)) == multiset(Edges(m, source, ys))
  {
    assert Edges(m, source, xs) == Apply(ToEdge(m, source), xs);
    assert Edges(m, source, ys) == Apply(ToEdge(m, source), ys);
    ApplyIgnoresOrder(ToEdge(m, source), xs, ys);
  }

  lemma SameEdges(m: Metadata, n: Metadata, rename: map<Id, Id>, u: Id, source: string)
    requires AgreeOutsideGenerator(m, n, rename) && Reachable(m, u)
    ensures multiset(Edges(m, source, LinksFrom(m, u))) == multiset(Edges(n, source, LinksFrom(n, rename[u])))
  {
    var links, renamed := LinksFrom(m, u), RenameLinks(LinksFrom(m, u), rename);
    forall i | 0 <= i < |links|
      ensures renamed[i].pkg in n.packages && EdgeOf(n, source, renamed[i]) == EdgeOf(m, source, links[i])
    {
      assert links[i] in links && Next(m, u, links[i].pkg);
      NextIsReachable(m, u, links[i].pkg);
      assert SamePackage(m, n, rename, links[i].pkg);
    }
    assert Edges(n, source, renamed) == Edges(m, source, links);
    EdgesIgnoreOrder(n, source, LinksFrom(n, rename[u]), renamed);
  }

  lemma SameListing(m: Metadata, n: Metadata, rename: map<Id, Id>, u: Id, inventory: Inventory, other: Inventory)
    requires AgreeOutsideGenerator(m, n, rename) && Reachable(m, u) && Reachable(n, rename[u])
    requires IsInventory(m, inventory) && IsInventory(n, other)
    ensures
      var key := Identity(m.packages[u]);
      && key == Identity(n.packages[rename[u]]) && key in inventory.packages && key in other.packages
      && inventory.packages[key] == other.packages[key]
      && forall e: Edge | e.source == key :: inventory.edges[e] == other.edges[e]
  {
    assert SamePackage(m, n, rename, u);
    SameEdges(m, n, rename, u, Identity(m.packages[u]));
  }

  /** Both inventories list this package, with the same edges out of it. */
  ghost predicate ListedAlike(inventory: Inventory, other: Inventory, k: string)
  {
    && k in inventory.packages && k in other.packages && inventory.packages[k] == other.packages[k]
    && forall e: Edge | e.source == k :: inventory.edges[e] == other.edges[e]
  }

  lemma LeftIsListedAlike(m: Metadata, n: Metadata, rename: map<Id, Id>, inventory: Inventory, other: Inventory, k: string)
    requires AgreeOutsideGenerator(m, n, rename)
    requires IsInventory(m, inventory) && IsInventory(n, other) && k in inventory.packages
    ensures ListedAlike(inventory, other, k)
  {
    CounterpartIsReachable(m, n, rename);
    var u :| Reachable(m, u) && u in m.packages && Identity(m.packages[u]) == k;
    SameListing(m, n, rename, u, inventory, other);
  }

  lemma RightIsListedAlike(m: Metadata, n: Metadata, rename: map<Id, Id>, inventory: Inventory, other: Inventory, k: string)
    requires AgreeOutsideGenerator(m, n, rename)
    requires IsInventory(m, inventory) && IsInventory(n, other) && k in other.packages
    ensures ListedAlike(inventory, other, k)
  {
    EveryReachableHasCounterpart(m, n, rename);
    var v :| Reachable(n, v) && v in n.packages && Identity(n.packages[v]) == k;
    var u :| Reachable(m, u) && u in rename && rename[u] == v;
    SameListing(m, n, rename, u, inventory, other);
  }

  lemma ListedAlikeIsEqual(inventory: Inventory, other: Inventory)
    requires forall k | k in inventory.packages || k in other.packages :: ListedAlike(inventory, other, k)
    requires forall e | e in inventory.edges :: e.source in inventory.packages
    requires forall e | e in other.edges :: e.source in other.packages
    ensures inventory == other
  {
    forall e: Edge ensures inventory.edges[e] == other.edges[e] {
      if e in inventory.edges || e in other.edges {
        assert ListedAlike(inventory, other, e.source);
      }
    }
  }

  /** Changing the generator changes nothing else: inventories of graphs that agree outside it are equal. */
  lemma NonInterference(m: Metadata, n: Metadata, rename: map<Id, Id>, inventory: Inventory, other: Inventory)
    requires AgreeOutsideGenerator(m, n, rename)
    requires IsInventory(m, inventory) && IsInventory(n, other)
    ensures inventory == other
  {
    forall k | k in inventory.packages || k in other.packages ensures ListedAlike(inventory, other, k) {
      if k in inventory.packages {
        LeftIsListedAlike(m, n, rename, inventory, other, k);
      } else {
        RightIsListedAlike(m, n, rename, inventory, other, k);
      }
    }
    ListedAlikeIsEqual(inventory, other);
  }

  /** Metadata has one inventory, so the order in which the stack was processed cannot show. */
  lemma InventoryIsUnique(m: Metadata, inventory: Inventory, other: Inventory)
    requires IsInventory(m, inventory) && IsInventory(m, other)
    ensures inventory == other
  {
    ListedIsSound(m, inventory);
    var same := map u | u in m.packages :: u;
    AgreesWithItself(m, same);
    NonInterference(m, m, same, inventory, other);
  }

  lemma ListedIsSound(m: Metadata, inventory: Inventory)
    requires IsInventory(m, inventory)
    ensures forall u | Reachable(m, u) :: SoundPackage(m, u)
  {
  }

  lemma AgreesWithItself(m: Metadata, same: map<Id, Id>)
    requires forall u | Reachable(m, u) :: SoundPackage(m, u)
    requires same.Keys == m.packages.Keys && forall v | v in same :: same[v] == v
    ensures AgreeOutsideGenerator(m, m, same)
  {
    RootIsReachable(m);
    forall u | Reachable(m, u) ensures u in same && SamePackage(m, m, same, u) {
      PackageIsItself(m, same, u);
    }
  }

  lemma PackageIsItself(m: Metadata, same: map<Id, Id>, u: Id)
    requires SoundPackage(m, u) && same.Keys == m.packages.Keys && forall v | v in same :: same[v] == v
    ensures SamePackage(m, m, same, u)
  {
    assert RenameLinks(LinksFrom(m, u), same) == LinksFrom(m, u);
  }

  // What equal inventories mean.

  /** A package name has no '@', so that an identity determines name and version. */
  ghost predicate PlainNames(m: Metadata)
  {
    forall u | Reachable(m, u) && u in m.packages :: '@' !in m.packages[u].name
  }

  lemma IdentityDetermines(p: Package, q: Package)
    requires '@' !in p.name && '@' !in q.name && Identity(p) == Identity(q)
    ensures p.name == q.name && p.version == q.version
  {
    SplitIsUnique(p.name, p.version, q.name, q.version, '@');
  }

  /** The reachable package with an identity. */
  ghost predicate Listed(m: Metadata, key: string)
  {
    exists u :: IsAt(m, u, key)
  }

  ghost predicate IsAt(m: Metadata, u: Id, key: string)
  {
    Reachable(m, u) && u in m.packages && Identity(m.packages[u]) == key
  }

  ghost function At(m: Metadata, key: string): (u: Id)
    ensures Listed(m, key) ==> IsAt(m, u, key)
  {
    if Listed(m, key) then
      var u :| IsAt(m, u, key);
      u
    else ""
  }

  lemma AtIsUnique(m: Metadata, u: Id, key: string)
    requires Distinct(m) && IsAt(m, u, key)
    ensures At(m, key) == u
  {
    var v := At(m, key);
    assert IsAt(m, v, key);
  }

  /** Every reachable package, to the one with its identity in the other graph. */
  ghost function Counterparts(m: Metadata, n: Metadata): map<Id, Id>
  {
    map u | u in m.packages && Reachable(m, u) :: At(n, Identity(m.packages[u]))
  }

  /** The link behind an edge, by the identity of its target. */
  ghost function ToLink(n: Metadata): Edge -> Link
  {
    (e: Edge) => Link(At(n, e.target), e.name, e.kinds)
  }

  lemma LinksFromEdges(n: Metadata, v: Id, source: string)
    requires Distinct(n) && Reachable(n, v) && forall w | Reachable(n, w) :: SoundPackage(n, w)
    ensures Apply(ToLink(n), Edges(n, source, LinksFrom(n, v))) == LinksFrom(n, v)
  {
    var links := LinksFrom(n, v);
    forall i | 0 <= i < |links| ensures ToLink(n)(EdgeOf(n, source, links[i])) == links[i] {
      var l := links[i];
      assert l in links && Next(n, v, l.pkg);
      NextIsReachable(n, v, l.pkg);
      AtIsUnique(n, l.pkg, Identity(n.packages[l.pkg]));
    }
  }

  lemma RenamedLinksFromEdges(m: Metadata, n: Metadata, u: Id, source: string)
    requires Reachable(m, u) && forall w | Reachable(m, w) :: SoundPackage(m, w)
    ensures Apply(ToLink(n), Edges(m, source, LinksFrom(m, u))) == RenameLinks(LinksFrom(m, u), Counterparts(m, n))
  {
    var links, rename := LinksFrom(m, u), Counterparts(m, n);
    forall i | 0 <= i < |links| ensures ToLink(n)(EdgeOf(m, source, links[i])) == RenameLink(links[i], rename) {
      var l := links[i];
      assert l in links && Next(m, u, l.pkg);
      NextIsReachable(m, u, l.pkg);
      assert l.pkg in rename;
    }
  }

  lemma EdgesAreListed(m: Metadata, u: Id, inventory: Inventory, e: Edge)
    requires IsInventory(m, inventory) && Reachable(m, u)
    ensures SoundPackage(m, u)
    ensures
      var key := Identity(m.packages[u]);
      multiset(Edges(m, key, LinksFrom(m, u)))[e] == if e.source == key then inventory.edges[e] else 0
  {
    var edges := Edges(m, Identity(m.packages[u]), LinksFrom(m, u));
    assert e in multiset(edges) <==> e in edges;
  }

  lemma SameKeySameEdges(m: Metadata, n: Metadata, u: Id, v: Id, inventory: Inventory)
    requires IsInventory(m, inventory) && IsInventory(n, inventory)
    requires Reachable(m, u) && Reachable(n, v) && SoundPackage(m, u) && SoundPackage(n, v)
    requires Identity(m.packages[u]) == Identity(n.packages[v])
    ensures
      var key := Identity(m.packages[u]);
      multiset(Edges(m, key, LinksFrom(m, u))) == multiset(Edges(n, key, LinksFrom(n, v)))
  {
    var key := Identity(m.packages[u]);
    forall e: Edge ensures multiset(Edges(m, key, LinksFrom(m, u)))[e] == multiset(Edges(n, key, LinksFrom(n, v)))[e] {
      EdgesAreListed(m, u, inventory, e);
      EdgesAreListed(n, v, inventory, e);
    }
  }

  ghost predicate SameRoot(m: Metadata, n: Metadata)
  {
    m.root in m.packages && n.root in n.packages && Identity(m.packages[m.root]) == Identity(n.packages[n.root])
  }

  lemma SameKeySameLinks(m: Metadata, n: Metadata, u: Id, v: Id, inventory: Inventory)
    requires Distinct(n) && IsInventory(m, inventory) && IsInventory(n, inventory)
    requires Reachable(m, u) && Reachable(n, v) && SoundPackage(m, u) && SoundPackage(n, v)
    requires Identity(m.packages[u]) == Identity(n.packages[v])
    ensures multiset(LinksFrom(n, v)) == multiset(RenameLinks(LinksFrom(m, u), Counterparts(m, n)))
  {
    var key := Identity(m.packages[u]);
    ListedIsSound(m, inventory);
    ListedIsSound(n, inventory);
    SameKeySameEdges(m, n, u, v, inventory);
    ApplyIgnoresOrder(ToLink(n), Edges(m, key, LinksFrom(m, u)), Edges(n, key, LinksFrom(n, v)));
    RenamedLinksFromEdges(m, n, u, key);
    LinksFromEdges(n, v, key);
  }

  lemma InfoIsListed(m: Metadata, u: Id, inventory: Inventory)
    requires IsInventory(m, inventory) && Reachable(m, u)
    ensures SoundPackage(m, u) && Identity(m.packages[u]) in inventory.packages
    ensures inventory.packages[Identity(m.packages[u])] == InfoOf(m, u)
  {
  }

  lemma ListedHasPackage(m: Metadata, inventory: Inventory, key: string)
    requires IsInventory(m, inventory) && key in inventory.packages
    ensures IsAt(m, At(m, key), key)
  {
    var u :| Reachable(m, u) && u in m.packages && Identity(m.packages[u]) == key;
    assert IsAt(m, u, key);
  }

  lemma SameKeySameRole(m: Metadata, n: Metadata, u: Id, v: Id)
    requires Distinct(m) && Distinct(n) && SameRoot(m, n) && Reachable(m, u) && Reachable(n, v)
    requires u in m.packages && v in n.packages && Identity(m.packages[u]) == Identity(n.packages[v])
    ensures u == m.root <==> v == n.root
  {
    RootIsReachable(m);
    RootIsReachable(n);
  }

  lemma CounterpartIsSame(m: Metadata, n: Metadata, inventory: Inventory, u: Id)
    requires Distinct(m) && Distinct(n) && PlainNames(m) && PlainNames(n) && SameRoot(m, n)
    requires IsInventory(m, inventory) && IsInventory(n, inventory) && Reachable(m, u)
    ensures u in Counterparts(m, n) && SamePackage(m, n, Counterparts(m, n), u)
  {
    InfoIsListed(m, u, inventory);
    var v := At(n, Identity(m.packages[u]));
    ListedHasPackage(n, inventory, Identity(m.packages[u]));
    InfoIsListed(n, v, inventory);
    IdentityDetermines(m.packages[u], n.packages[v]);
    SameKeySameRole(m, n, u, v);
    SameKeySameLinks(m, n, u, v, inventory);
    assert InfoOf(m, u) == InfoOf(n, v);
  }

  /** What the audit concludes: the inventories of two admissible graphs with the same root are equal
      exactly when the graphs agree outside the generator, up to package ids. */
  lemma EqualIffAgree(m: Metadata, n: Metadata, inventory: Inventory, other: Inventory)
    requires Admissible(m) && Admissible(n) && PlainNames(m) && PlainNames(n)
    requires IsInventory(m, inventory) && IsInventory(n, other)
    ensures inventory == other && SameRoot(m, n) <==> exists rename :: AgreeOutsideGenerator(m, n, rename)
  {
    RootIsReachable(m);
    RootIsReachable(n);
    if inventory == other && SameRoot(m, n) {
      forall u | Reachable(m, u) ensures u in Counterparts(m, n) && SamePackage(m, n, Counterparts(m, n), u) {
        CounterpartIsSame(m, n, inventory, u);
      }
      AtIsUnique(n, n.root, Identity(m.packages[m.root]));
      assert AgreeOutsideGenerator(m, n, Counterparts(m, n));
    }
    if rename :| AgreeOutsideGenerator(m, n, rename) {
      NonInterference(m, n, rename, inventory, other);
      assert SamePackage(m, n, rename, m.root);
    }
  }
}
