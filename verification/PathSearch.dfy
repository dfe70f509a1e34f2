/** The breadth-first search for a dependency path: a queue of paths, with packages marked
    visited only when a path to them is taken from the queue. */
module PathSearch {
  type Id = string

  datatype Dependency = Dependency(pkg: Id, kinds: seq<DependencyKind>)

  datatype DependencyKind = Normal | Build | Dev

  /** The resolved graph, the packages that were compiled, and how an id of the audited copy
      is spelled in the build that was compiled. */
  datatype Graph = Graph(nodes: map<Id, seq<Dependency>>, compiled: set<Id>, original: Id -> Id)
  {
    /** A normal dependency on a compiled package. */
    ghost predicate Edge(u: Id, v: Id)
    {
      u in nodes && exists d | d in nodes[u] :: d.pkg == v && original(d.pkg) in compiled && Normal in d.kinds
    }

    ghost predicate IsPath(path: seq<Id>, source: Id, target: Id)
    {
      && path != [] && path[0] == source && path[|path| - 1] == target
      && forall i | 0 <= i < |path| - 1 :: Edge(path[i], path[i + 1])
    }

    /** The chain's step leaves a package for the package of one of its normal dependencies, which was compiled. */
    ghost predicate Step(from: Id, d: Dependency)
    {
      from in nodes && d in nodes[from] && original(d.pkg) in compiled && Normal in d.kinds
    }

    /** Dependencies that lead from source to target, each a dependency of the package of the one before. */
    ghost predicate Chain(chain: seq<Dependency>, source: Id, target: Id)
    {
      if chain == [] then source == target
      else
        var (from, last) := (Before(chain, source), chain[|chain| - 1]);
        Chain(chain[..|chain| - 1], source, from) && Step(from, last) && last.pkg == target
    }

    ghost function Before(chain: seq<Dependency>, source: Id): Id
    {
      if |chain| <= 1 then source else chain[|chain| - 2].pkg
    }
  }

  datatype Found = Path(path: seq<Id>) | Unreachable | MissingNode(id: Id)

  /** The paths of the queue start at the root, in order of length, and lengths differ by at most one. */
  ghost predicate Queue(g: Graph, root: Id, pending: seq<seq<Id>>)
  {
    && (forall i | 0 <= i < |pending| :: pending[i] != [] && g.IsPath(pending[i], root, Last(pending[i])))
    && (forall i, j | 0 <= i < j < |pending| :: |pending[i]| <= |pending[j]|)
    && (forall i | 0 <= i < |pending| :: |pending[i]| <= |pending[0]| + 1)
  }

  function Last(path: seq<Id>): Id
    requires path != []
  {
    path[|path| - 1]
  }

  /** Some queued path to v has at most n packages. */
  ghost predicate Queued(pending: seq<seq<Id>>, v: Id, n: nat)
  {
    exists i :: 0 <= i < |pending| && pending[i] != [] && Last(pending[i]) == v && |pending[i]| <= n
  }

  /** depth is the length of the path with which a package was visited. Whatever a visited package
      leads to was visited, or is queued, with a path at most one longer. */
  ghost predicate Frontier(g: Graph, root: Id, pending: seq<seq<Id>>, depth: map<Id, nat>)
  {
    && (if root in depth then depth[root] == 1 else Queued(pending, root, 1))
    && (forall v, i | v in depth && 0 <= i < |pending| :: depth[v] <= |pending[i]|)
    && (forall v, w | v in depth && g.Edge(v, w) ::
          (w in depth && depth[w] <= depth[v] + 1) || Queued(pending, w, depth[v] + 1))
  }

  /** A path to a package not yet visited is at least as long as some queued path. */
  lemma {:induction false} PathMeetsQueue(g: Graph, root: Id, pending: seq<seq<Id>>, depth: map<Id, nat>, path: seq<Id>, k: nat)
    requires Frontier(g, root, pending, depth)
    requires path != [] && path[0] == root && k < |path|
    requires forall i | 0 <= i < |path| - 1 :: g.Edge(path[i], path[i + 1])
    ensures (path[k] in depth && depth[path[k]] <= k + 1) || exists i :: 0 <= i < |pending| && |pending[i]| <= k + 1
  {
    if k == 0 {
    } else {
      PathMeetsQueue(g, root, pending, depth, path, k - 1);
      assert g.Edge(path[k - 1], path[k - 1 + 1]);
    }
  }

  /** Dropping the first path is harmless when its end was visited. */
  lemma QueuedAfterSkip(pending: seq<seq<Id>>, v: Id, n: nat)
    requires pending != [] && pending[0] != [] && Queued(pending, v, n)
    ensures Queued(pending[1..], v, n) || (v == Last(pending[0]) && |pending[0]| <= n)
  {
    var i :| 0 <= i < |pending| && pending[i] != [] && Last(pending[i]) == v && |pending[i]| <= n;
    if i > 0 {
      assert pending[1..][i - 1] == pending[i];
    }
  }

  lemma QueuedLonger(pending: seq<seq<Id>>, more: seq<seq<Id>>, v: Id, n: nat)
    requires Queued(pending, v, n) || Queued(more, v, n)
    ensures Queued(pending + more, v, n)
  {
    if i :| 0 <= i < |pending| && pending[i] != [] && Last(pending[i]) == v && |pending[i]| <= n {
      assert (pending + more)[i] == pending[i];
    } else {
      var i :| 0 <= i < |more| && more[i] != [] && Last(more[i]) == v && |more[i]| <= n;
      assert (pending + more)[|pending| + i] == more[i];
    }
  }

  lemma SkipKeeps(g: Graph, root: Id, pending: seq<seq<Id>>, depth: map<Id, nat>)
    requires pending != [] && Queue(g, root, pending) && Frontier(g, root, pending, depth)
    requires Last(pending[0]) in depth
    ensures Queue(g, root, pending[1..]) && Frontier(g, root, pending[1..], depth)
  {
    var rest := pending[1..];
    assert pending[0] == [root] ==> root in depth;
    forall v, w | v in depth && g.Edge(v, w)
      ensures (w in depth && depth[w] <= depth[v] + 1) || Queued(rest, w, depth[v] + 1)
    {
      if Queued(pending, w, depth[v] + 1) {
        QueuedAfterSkip(pending, w, depth[v] + 1);
      }
    }
  }

  /** The paths that continue path by one edge. */
  ghost predicate Extensions(g: Graph, path: seq<Id>, extended: seq<seq<Id>>)
    requires path != []
  {
    && (forall i | 0 <= i < |extended| ::
          |extended[i]| == |path| + 1 && extended[i][..|path|] == path && g.Edge(Last(path), Last(extended[i])))
    && (forall w | g.Edge(Last(path), w) :: Queued(extended, w, |path| + 1))
  }

  lemma VisitKeepsQueue(g: Graph, root: Id, pending: seq<seq<Id>>, extended: seq<seq<Id>>)
    requires pending != [] && Queue(g, root, pending) && Extensions(g, pending[0], extended)
    ensures Queue(g, root, pending[1..] + extended)
  {
    forall i | 0 <= i < |extended| ensures g.IsPath(extended[i], root, Last(extended[i])) {
      assert extended[i] == pending[0] + [Last(extended[i])];
    }
  }

  lemma VisitKeepsFrontier(g: Graph, root: Id, pending: seq<seq<Id>>, depth: map<Id, nat>, extended: seq<seq<Id>>)
    requires pending != [] && Queue(g, root, pending) && Frontier(g, root, pending, depth)
    requires Last(pending[0]) !in depth && Extensions(g, pending[0], extended)
    ensures Frontier(g, root, pending[1..] + extended, depth[Last(pending[0]) := |pending[0]|])
  {
    var path, rest, depth' := pending[0], pending[1..], depth[Last(pending[0]) := |pending[0]|];
    if root !in depth {
      QueuedAfterSkip(pending, root, 1);
      if Queued(rest, root, 1) {
        QueuedLonger(rest, extended, root, 1);
      }
    }
    forall v, w | v in depth' && g.Edge(v, w)
      ensures (w in depth' && depth'[w] <= depth'[v] + 1) || Queued(rest + extended, w, depth'[v] + 1)
    {
      if v == Last(path) {
        QueuedLonger(rest, extended, w, depth'[v] + 1);
      } else if !(w in depth && depth[w] <= depth[v] + 1) {
        QueuedAfterSkip(pending, w, depth[v] + 1);
        if Queued(rest, w, depth[v] + 1) {
          QueuedLonger(rest, extended, w, depth[v] + 1);
        }
      }
    }
  }

  method Extend(g: Graph, path: seq<Id>) returns (extended: seq<seq<Id>>)
    requires path != [] && Last(path) in g.nodes
    ensures Extensions(g, path, extended)
  {
    extended := [];
    var dependencies := g.nodes[Last(path)];
    for i := 0 to |dependencies|
      invariant forall j | 0 <= j < |extended| ::
                  |extended[j]| == |path| + 1 && extended[j][..|path|] == path && g.Edge(Last(path), Last(extended[j]))
      invariant forall j | 0 <= j < i && g.original(dependencies[j].pkg) in g.compiled && Normal in dependencies[j].kinds ::
                  Queued(extended, dependencies[j].pkg, |path| + 1)
    {
      var d := dependencies[i];
      if g.original(d.pkg) in g.compiled && Normal in d.kinds {
        assert g.Edge(Last(path), d.pkg) && Last(path + [d.pkg]) == d.pkg;
        assert Queued([path + [d.pkg]], d.pkg, |path| + 1) by {
          assert [path + [d.pkg]][0] == path + [d.pkg];
        }
        forall j | 0 <= j <= i && g.original(dependencies[j].pkg) in g.compiled && Normal in dependencies[j].kinds
          ensures Queued(extended + [path + [d.pkg]], dependencies[j].pkg, |path| + 1)
        {
          QueuedLonger(extended, [path + [d.pkg]], dependencies[j].pkg, |path| + 1);
        }
        extended := extended + [path + [d.pkg]];
      }
    }
  }

  /** The packages along a chain. */
  ghost function Packages(chain: seq<Dependency>, source: Id): seq<Id>
  {
    [source] + seq(|chain|, i requires 0 <= i < |chain| => chain[i].pkg)
  }

  lemma {:induction false} ChainIsPath(g: Graph, chain: seq<Dependency>, source: Id, target: Id)
    requires g.Chain(chain, source, target)
    ensures g.IsPath(Packages(chain, source), source, target)
  {
    if chain == [] {
    } else {
      var k := |chain| - 1;
      ChainIsPath(g, chain[..k], source, g.Before(chain, source));
      assert g.Edge(g.Before(chain, source), target);
      assert Packages(chain, source) == Packages(chain[..k], source) + [target];
    }
  }

  lemma {:induction false} PathIsChain(g: Graph, path: seq<Id>, source: Id, target: Id) returns (chain: seq<Dependency>)
    requires g.IsPath(path, source, target)
    ensures g.Chain(chain, source, target) && Packages(chain, source) == path
  {
    if |path| == 1 {
      chain := [];
    } else {
      var k := |path| - 1;
      var before := PathIsChain(g, path[..k], source, path[k - 1]);
      assert g.Edge(path[k - 1], path[k - 1 + 1]);
      var d :| d in g.nodes[path[k - 1]] && d.pkg == path[k] && g.original(d.pkg) in g.compiled && Normal in d.kinds;
      chain := before + [d];
      assert chain[..|before|] == before && Packages(before, source)[k - 1] == path[k - 1];
      assert g.Before(chain, source) == path[k - 1];
    }
  }

  /** The answer of a search, in terms of the dependencies alone: a found path follows a chain of normal
      dependencies on compiled packages and no chain is shorter; otherwise there is none. */
  ghost predicate Answers(g: Graph, root: Id, target: Id, found: Found)
  {
    match found
    case Path(path) =>
      && (exists chain :: g.Chain(chain, root, target) && Packages(chain, root) == path)
      && (forall chain | g.Chain(chain, root, target) :: |path| <= |chain| + 1)
    case Unreachable => forall chain :: !g.Chain(chain, root, target)
    case MissingNode(id) => id !in g.nodes && exists chain :: g.Chain(chain, root, id)
  }

  lemma PathAnswers(g: Graph, root: Id, target: Id, path: seq<Id>)
    requires g.IsPath(path, root, target) && forall p | g.IsPath(p, root, target) :: |path| <= |p|
    ensures Answers(g, root, target, Path(path))
  {
    var chain := PathIsChain(g, path, root, target);
    forall chain | g.Chain(chain, root, target) ensures |path| <= |chain| + 1 {
      ChainIsPath(g, chain, root, target);
    }
  }

  lemma NoPathAnswers(g: Graph, root: Id, target: Id)
    requires forall p :: !g.IsPath(p, root, target)
    ensures Answers(g, root, target, Unreachable)
  {
    forall chain ensures !g.Chain(chain, root, target) {
      if g.Chain(chain, root, target) {
        ChainIsPath(g, chain, root, target);
      }
    }
  }

  /** On success the path is a shortest one over normal dependencies on compiled packages; the
      search gives up exactly when there is none. */
  method Search(g: Graph, root: Id, target: Id) returns (found: Found)
    ensures Answers(g, root, target, found)
  {
    var pending := [[root]];
    var visited: set<Id> := {};
    ghost var depth: map<Id, nat> := map[];
    assert pending[0] == [root];
    while pending != []
      invariant Queue(g, root, pending) && Frontier(g, root, pending, depth)
      invariant depth.Keys == visited <= g.nodes.Keys && target !in visited
      decreases g.nodes.Keys - visited, |pending|
    {
      var path := pending[0];
      if Last(path) == target {
        forall p | g.IsPath(p, root, target) ensures |path| <= |p| {
          PathMeetsQueue(g, root, pending, depth, p, |p| - 1);
        }
        PathAnswers(g, root, target, path);
        return Path(path);
      }
      if Last(path) in visited {
        SkipKeeps(g, root, pending, depth);
        pending := pending[1..];
        continue;
      }
      if Last(path) !in g.nodes {
        var chain := PathIsChain(g, path, root, Last(path));
        return MissingNode(Last(path));
      }
      visited := visited + {Last(path)};
      var extended := Extend(g, path);
      VisitKeepsQueue(g, root, pending, extended);
      VisitKeepsFrontier(g, root, pending, depth, extended);
      depth := depth[Last(path) := |path|];
      pending := pending[1..] + extended;
    }
    forall p ensures !g.IsPath(p, root, target) {
      if g.IsPath(p, root, target) {
        PathMeetsQueue(g, root, pending, depth, p, |p| - 1);
      }
    }
    NoPathAnswers(g, root, target);
    return Unreachable;
  }
}
