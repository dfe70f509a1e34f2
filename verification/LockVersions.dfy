/** Checking that a tested lock keeps every package and dependency of the upstream lock. */
module LockVersions {
  import opened Results

  /** The text of a dependency is already split into its words. */
  datatype LockPackage = LockPackage(
    name: string, version: string, source: Option<string>, checksum: Option<string>, dependencies: seq<seq<string>>)

  type Key = (string, string)

  type Resolved = (string, string, Option<string>)

  type Lock = lock: map<Key, LockPackage> | KeyedByIdentity(lock) witness map[]

  predicate KeyedByIdentity(lock: map<Key, LockPackage>)
  {
    forall k | k in lock :: (lock[k].name, lock[k].version) == k
  }

  function LockPackages(packages: seq<LockPackage>): (result: Result<Lock>)
    ensures result.Ok? <==> forall i, j | 0 <= i < j < |packages| ::
                              (packages[i].name, packages[i].version) != (packages[j].name, packages[j].version)
    ensures result.Ok? ==> forall p | p in packages :: (p.name, p.version) in result.value && result.value[(p.name, p.version)] == p
    ensures result.Ok? ==> forall k | k in result.value :: result.value[k] in packages
  {
    if packages == [] then Ok(map[])
    else
      var (last, rest) := (packages[|packages| - 1], LockPackages(packages[..|packages| - 1]));
      assert packages == packages[..|packages| - 1] + [last];
      if rest.Err? then rest
      else if (last.name, last.version) in rest.value then Err("duplicate package name/version")
      else Ok(rest.value[(last.name, last.version) := last])
  }

  /** The packages a dependency may mean: the name, and the version when one is spelled. */
  function Candidates(words: seq<string>, lock: Lock): set<Key>
    requires words != []
  {
    set k | k in lock && lock[k].name == words[0] && (|words| == 1 || lock[k].version == words[1])
  }

  /** The words name the package, and its version if they give one. */
  ghost predicate Spells(words: seq<string>, lock: Lock, k: Key)
  {
    k in lock && (words == [k.0] || (|words| > 1 && words[0] == k.0 && words[1] == k.1))
  }

  /** The words spell this package and no other; a local zstd-sys has no source to speak of. */
  ghost predicate Means(words: seq<string>, lock: Lock, r: Resolved)
  {
    && Spells(words, lock, (r.0, r.1)) && (forall k | Spells(words, lock, k) :: k == (r.0, r.1))
    && r.2 == if r.0 == "zstd-sys" then None else lock[(r.0, r.1)].source
  }

  lemma CandidatesAreSpelled(words: seq<string>, lock: Lock)
    requires words != []
    ensures forall k :: k in Candidates(words, lock) <==> Spells(words, lock, k)
  {
    forall k ensures k in Candidates(words, lock) <==> Spells(words, lock, k) {
      if |words| == 1 {
        assert words == [words[0]];
      }
    }
  }

  /** Resolution finds what the words mean, and fails when they mean nothing or are ambiguous. */
  lemma ResolvesIffMeans(words: seq<string>, lock: Lock)
    ensures DependencyIdentity(words, lock).Ok? ==> Means(words, lock, DependencyIdentity(words, lock).value)
    ensures forall r | Means(words, lock, r) :: DependencyIdentity(words, lock) == Ok(r)
  {
    if words != [] {
      CandidatesAreSpelled(words, lock);
      forall r | Means(words, lock, r) ensures DependencyIdentity(words, lock) == Ok(r) {
        assert Candidates(words, lock) == {(r.0, r.1)};
      }
    }
  }

  function DependencyIdentity(words: seq<string>, lock: Lock): Result<Resolved>
  {
    if words == [] || |Candidates(words, lock)| != 1 then Err("ambiguous lock dependency")
    else
      var k := Only(Candidates(words, lock));
      Ok((k.0, k.1, if k.0 == "zstd-sys" then None else lock[k].source))
  }

  function Only(keys: set<Key>): (k: Key)
    requires |keys| == 1
    ensures keys == {k}
  {
    SingletonHasOnly(keys);
    var k :| k in keys && keys == {k};
    k
  }

  lemma SingletonHasOnly(keys: set<Key>)
    requires |keys| == 1
    ensures exists k :: k in keys && keys == {k}
  {
    var k :| k in keys;
    assert |keys - {k}| == 0;
  }

  predicate AllResolve(package: LockPackage, lock: Lock)
  {
    forall d | d in package.dependencies :: DependencyIdentity(d, lock).Ok?
  }

  function Dependencies(package: LockPackage, lock: Lock): set<Resolved>
    requires AllResolve(package, lock)
  {
    set d | d in package.dependencies :: DependencyIdentity(d, lock).value
  }

  /** The tested package comes from the same source, except that zstd-sys must be local. */
  ghost predicate KeepsSource(original: LockPackage, tested: LockPackage)
  {
    if original.name == "zstd-sys" then tested.source == None && tested.checksum == None
    else tested.source == original.source && tested.checksum == original.checksum
  }

  /** It means something by all its dependencies, and everything that the original means. */
  ghost predicate KeepsDependencies(original: Lock, tested: Lock, k: Key)
    requires k in original && k in tested
  {
    && (forall d | d in original[k].dependencies :: exists r :: Means(d, original, r))
    && (forall d | d in tested[k].dependencies :: exists r :: Means(d, tested, r))
    && (forall r | DependsAs(original, k, r) :: DependsAs(tested, k, r))
  }

  ghost predicate DependsAs(lock: Lock, k: Key, r: Resolved)
    requires k in lock
  {
    exists d :: d in lock[k].dependencies && Means(d, lock, r)
  }

  ghost predicate KeepsPackage(original: Lock, tested: Lock, k: Key)
    requires k in original && k in tested
  {
    KeepsSource(original[k], tested[k]) && KeepsDependencies(original, tested, k)
  }

  lemma AllResolveIffMeant(package: LockPackage, lock: Lock)
    ensures AllResolve(package, lock) <==> forall d | d in package.dependencies :: exists r :: Means(d, lock, r)
  {
    forall d | d in package.dependencies ensures DependencyIdentity(d, lock).Ok? <==> exists r :: Means(d, lock, r) {
      ResolvesIffMeans(d, lock);
    }
  }

  lemma DependenciesAreMeant(lock: Lock, k: Key)
    requires k in lock && AllResolve(lock[k], lock)
    ensures forall r :: r in Dependencies(lock[k], lock) <==> DependsAs(lock, k, r)
  {
    forall r ensures r in Dependencies(lock[k], lock) <==> DependsAs(lock, k, r) {
      forall d | d in lock[k].dependencies ensures DependencyIdentity(d, lock).value == r <==> Means(d, lock, r) {
        ResolvesIffMeans(d, lock);
      }
    }
  }

  ghost predicate Compatible(original: Lock, tested: Lock)
  {
    forall k | k in original :: k in tested && KeepsPackage(original, tested, k)
  }

  datatype Addition = Addition(package: Key, added: set<Resolved>)

  method CheckSource(package: LockPackage, actual: LockPackage) returns (ok: bool)
    ensures ok <==> KeepsSource(package, actual)
  {
    if package.name == "zstd-sys" {
      return actual.source.None? && actual.checksum.None?;
    }
    return actual.source == package.source && actual.checksum == package.checksum;
  }

  method CheckDependencies(original: Lock, tested: Lock, k: Key) returns (ok: bool, additions: set<Resolved>)
    requires k in original && k in tested
    ensures ok <==> KeepsDependencies(original, tested, k)
    ensures ok ==> forall r :: r in additions <==> DependsAs(tested, k, r) && !DependsAs(original, k, r)
  {
    AllResolveIffMeant(original[k], original);
    AllResolveIffMeant(tested[k], tested);
    if !AllResolve(original[k], original) || !AllResolve(tested[k], tested) {
      return false, {};
    }
    DependenciesAreMeant(original, k);
    DependenciesAreMeant(tested, k);
    var previous, current := Dependencies(original[k], original), Dependencies(tested[k], tested);
    if previous - current != {} {
      var d :| d in previous - current;
      assert DependsAs(original, k, d) && !DependsAs(tested, k, d);
      return false, {};
    }
    assert forall d | d in previous :: d !in previous - current;
    return true, current - previous;
  }

  method CheckPackage(original: Lock, tested: Lock, k: Key) returns (ok: bool, additions: set<Resolved>)
    requires k in original && k in tested
    ensures ok <==> KeepsPackage(original, tested, k)
    ensures ok ==> forall r :: r in additions <==> DependsAs(tested, k, r) && !DependsAs(original, k, r)
  {
    additions := {};
    ok := CheckSource(original[k], tested[k]);
    if ok {
      ok, additions := CheckDependencies(original, tested, k);
    }
  }

  /** A compatible package with more dependencies than before is listed with exactly these. */
  ghost predicate Listed(original: Lock, tested: Lock, k: Key, changed: map<Key, set<Resolved>>)
    requires k in original && k in tested
  {
    if k in changed
    then changed[k] != {} && forall r :: r in changed[k] <==> DependsAs(tested, k, r) && !DependsAs(original, k, r)
    else forall r | DependsAs(tested, k, r) :: DependsAs(original, k, r)
  }

  method CheckLockVersions(original: Lock, tested: Lock) returns (result: Result<map<Key, set<Resolved>>>)
    ensures result.Ok? <==> Compatible(original, tested)
    ensures result.Ok? ==> result.value.Keys <= original.Keys
    ensures result.Ok? ==> forall k | k in original :: Listed(original, tested, k, result.value)
  {
    if !(original.Keys <= tested.Keys) {
      return Err("removed");
    }
    var changed: map<Key, set<Resolved>> := map[];
    var todo := original.Keys;
    while todo != {}
      invariant todo <= original.Keys && changed.Keys <= original.Keys - todo
      invariant forall k | k in original.Keys - todo :: KeepsPackage(original, tested, k) && Listed(original, tested, k, changed)
      decreases todo
    {
      var k :| k in todo;
      var ok, additions := CheckPackage(original, tested, k);
      if !ok {
        return Err("changed");
      }
      if additions != {} {
        changed := changed[k := additions];
      } else {
        assert forall r :: r !in additions;
      }
      todo := todo - {k};
    }
    return Ok(changed);
  }

  // What a compatible lock promises.

  ghost predicate DependsOn(lock: Lock, p: Key, q: Key)
  {
    p in lock && exists r :: DependsAs(lock, p, r) && (r.0, r.1) == q
  }

  ghost predicate DependencyPath(lock: Lock, path: seq<Key>)
  {
    path != [] && path[0] in lock && forall i | 0 <= i < |path| - 1 :: DependsOn(lock, path[i], path[i + 1])
  }

  lemma DependencyIsKept(original: Lock, tested: Lock, p: Key, q: Key)
    requires Compatible(original, tested) && DependsOn(original, p, q)
    ensures DependsOn(tested, p, q)
  {
    assert KeepsPackage(original, tested, p);
    var r :| DependsAs(original, p, r) && (r.0, r.1) == q;
    assert DependsAs(tested, p, r);
  }

  /** Every dependency path of the upstream lock survives, with the same names and versions at every step. */
  lemma PathsAreKept(original: Lock, tested: Lock, path: seq<Key>)
    requires Compatible(original, tested) && DependencyPath(original, path)
    ensures DependencyPath(tested, path)
  {
    forall i | 0 <= i < |path| - 1 ensures DependsOn(tested, path[i], path[i + 1]) {
      DependencyIsKept(original, tested, path[i], path[i + 1]);
    }
  }

  /** A spelling that resolves in both locks means the same package in both; adding packages can
      only make it ambiguous. */
  lemma SpellingIsStable(original: Lock, tested: Lock, words: seq<string>, r: Resolved, q: Resolved)
    requires Compatible(original, tested) && Means(words, original, r) && Means(words, tested, q)
    ensures r == q
  {
    var k := (r.0, r.1);
    assert k in original && KeepsPackage(original, tested, k);
    assert Spells(words, tested, k);
  }
}
