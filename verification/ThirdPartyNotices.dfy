/** Which installed packages a build ships: the worklist closure of the requirements. */
module ThirdPartyNotices {
  import opened Options

  /** A canonical package name. */
  type Name = string

  /** A requirement with its marker already evaluated in the build's environment; None is no marker. */
  datatype Requirement = Requirement(name: Name, marker: Option<bool>)

  /** What is installed, with each distribution's requirements, and the two fixed name lists. */
  datatype Environment = Environment(installed: map<Name, seq<Requirement>>, notShipped: set<Name>, extraRoots: set<Name>)

  // ----- Reachability, stated without a worklist -----

  /** The dependency is pursued: it has no marker, or a true one. */
  predicate Pursued(r: Requirement) {
    r.marker != Some(false)
  }

  /** A name that is shipped and installed, so that its own dependencies count. */
  predicate Ships(e: Environment, name: Name) {
    name !in e.notShipped && name in e.installed
  }

  ghost predicate DependsOn(e: Environment, name: Name, dependency: Name) {
    && Ships(e, name)
    && exists k :: 0 <= k < |e.installed[name]| && Pursued(e.installed[name][k]) && e.installed[name][k].name == dependency
  }

  ghost predicate IsRoot(roots: seq<Requirement>, name: Name) {
    exists k :: 0 <= k < |roots| && roots[k].name == name
  }

  /** A chain of pursued dependencies from a root; a root counts whatever its own marker says. */
  ghost predicate IsChain(e: Environment, roots: seq<Requirement>, chain: seq<Name>) {
    && chain != [] && IsRoot(roots, chain[0])
    && forall k :: 0 <= k < |chain| - 1 ==> DependsOn(e, chain[k], chain[k + 1])
  }

  /** The name is asked for: some chain ends in it, through shipped and installed names only. */
  ghost predicate Requested(e: Environment, roots: seq<Requirement>, name: Name) {
    exists chain :: IsChain(e, roots, chain) && chain[|chain| - 1] == name
  }

  ghost predicate Reachable(e: Environment, roots: seq<Requirement>, name: Name) {
    Requested(e, roots, name) && Ships(e, name)
  }

  /** A requested name whose absence stops the build. */
  ghost predicate StopsBuild(e: Environment, roots: seq<Requirement>, name: Name) {
    Requested(e, roots, name) && name !in e.notShipped && name !in e.installed && name !in e.extraRoots
  }

  // ----- Facts about requests -----

  lemma RootRequested(e: Environment, roots: seq<Requirement>, name: Name)
    requires IsRoot(roots, name)
    ensures Requested(e, roots, name)
  {
    assert IsChain(e, roots, [name]) && [name][|[name]| - 1] == name;
  }

  lemma DependencyRequested(e: Environment, roots: seq<Requirement>, name: Name, dependency: Name)
    requires Requested(e, roots, name) && DependsOn(e, name, dependency)
    ensures Requested(e, roots, dependency)
  {
    var chain :| IsChain(e, roots, chain) && chain[|chain| - 1] == name;
    var longer := chain + [dependency];
    forall k | 0 <= k < |longer| - 1 ensures DependsOn(e, longer[k], longer[k + 1]) {
      if k < |chain| - 1 {
        assert DependsOn(e, chain[k], chain[k + 1]);
      }
    }
    assert IsChain(e, roots, longer) && longer[|longer| - 1] == dependency;
  }

  // ----- The worklist -----

  /** Handled: found, skipped for good, or still to come. */
  ghost predicate Handled(e: Environment, found: map<Name, seq<Requirement>>, pending: seq<Requirement>, name: Name) {
    name in found || name in e.notShipped || (name !in e.installed && name in e.extraRoots) || IsRoot(pending, name)
  }

  ghost predicate Sound(e: Environment, roots: seq<Requirement>, found: map<Name, seq<Requirement>>, pending: seq<Requirement>) {
    && (forall name :: name in found ==> Reachable(e, roots, name) && found[name] == e.installed[name])
    && forall k :: 0 <= k < |pending| ==> Requested(e, roots, pending[k].name)
  }

  ghost predicate Complete(e: Environment, roots: seq<Requirement>, found: map<Name, seq<Requirement>>, pending: seq<Requirement>) {
    && (forall name :: IsRoot(roots, name) ==> Handled(e, found, pending, name))
    && forall name, dependency :: name in found && DependsOn(e, name, dependency) ==> Handled(e, found, pending, dependency)
  }

  /** Once nothing is pending, a complete worklist has handled everything requested. */
  lemma {:induction false} ChainHandled(e: Environment, roots: seq<Requirement>, found: map<Name, seq<Requirement>>, chain: seq<Name>)
    requires Complete(e, roots, found, []) && IsChain(e, roots, chain)
    ensures Handled(e, found, [], chain[|chain| - 1])
  {
    if |chain| > 1 {
      var shorter := chain[..|chain| - 1];
      assert forall k :: 0 <= k < |shorter| - 1 ==> DependsOn(e, chain[k], chain[k + 1]);
      ChainHandled(e, roots, found, shorter);
      var last := shorter[|shorter| - 1];
      assert DependsOn(e, last, chain[|chain| - 1]);
      assert Handled(e, found, [], last);
    }
  }

  /** Exactly the reachable names, each with its distribution. */
  ghost predicate IsClosure(e: Environment, roots: seq<Requirement>, found: map<Name, seq<Requirement>>) {
    && (forall name :: name in found <==> Reachable(e, roots, name))
    && forall name :: name in found ==> found[name] == e.installed[name]
  }

  /** The distributions found, or the name whose absence stops the build. */
  method ResolveInstalled(e: Environment, roots: seq<Requirement>)
    returns (result: Result<map<Name, seq<Requirement>>, Name>)
    ensures result.Ok? ==> IsClosure(e, roots, result.value) && forall name :: !StopsBuild(e, roots, name)
    ensures result.Err? ==> StopsBuild(e, roots, result.error)
  {
    var found: map<Name, seq<Requirement>> := map[];
    var pending := roots;
    WorkStarts(e, roots);
    while pending != []
      invariant Sound(e, roots, found, pending) && Complete(e, roots, found, pending)
      decreases e.installed.Keys - found.Keys, |pending|
    {
      var requirement := pending[|pending| - 1];
      var rest := pending[..|pending| - 1];
      var name := requirement.name;
      assert Requested(e, roots, name);
      if name in found || name in e.notShipped {
        SkipKeeps(e, roots, found, pending);
        pending := rest;
      } else if name !in e.installed {
        if name !in e.extraRoots {
          return Err(name);
        }
        SkipKeeps(e, roots, found, pending);
        pending := rest;
      } else {
        var children := PursuedChildren(e.installed[name]);
        FoundKeeps(e, roots, found, pending, children);
        FewerLeft(e, found, name);
        found := found[name := e.installed[name]];
        pending := rest + children;
      }
    }
    WorkEnds(e, roots, found);
    result := Ok(found);
  }

  lemma WorkStarts(e: Environment, roots: seq<Requirement>)
    ensures Sound(e, roots, map[], roots) && Complete(e, roots, map[], roots)
  {
    forall k | 0 <= k < |roots| ensures Requested(e, roots, roots[k].name) {
      RootRequested(e, roots, roots[k].name);
    }
  }

  lemma WorkEnds(e: Environment, roots: seq<Requirement>, found: map<Name, seq<Requirement>>)
    requires Sound(e, roots, found, []) && Complete(e, roots, found, [])
    ensures IsClosure(e, roots, found) && forall name :: !StopsBuild(e, roots, name)
  {
    forall name | Requested(e, roots, name) ensures Handled(e, found, [], name) {
      var chain :| IsChain(e, roots, chain) && chain[|chain| - 1] == name;
      ChainHandled(e, roots, found, chain);
    }
  }

  /** Found leaves fewer installed names to find. */
  lemma FewerLeft(e: Environment, found: map<Name, seq<Requirement>>, name: Name)
    requires name in e.installed && name !in found
    ensures e.installed.Keys - found[name := e.installed[name]].Keys < e.installed.Keys - found.Keys
  {
    assert name in e.installed.Keys - found.Keys;
  }

  /** The dependencies whose marker, if any, is true, in order. */
  method PursuedChildren(dependencies: seq<Requirement>) returns (children: seq<Requirement>)
    ensures forall r :: r in children <==> r in dependencies && Pursued(r)
    ensures forall r :: r in children <==> r in dependencies && (r.marker == None || r.marker == Some(true))
  {
    children := [];
    for k := 0 to |dependencies|
      invariant forall r :: r in children <==> r in dependencies[..k] && Pursued(r)
    {
      assert dependencies[..k + 1] == dependencies[..k] + [dependencies[k]];
      if dependencies[k].marker != Some(false) {
        children := children + [dependencies[k]];
      }
    }
    assert dependencies[..|dependencies|] == dependencies;
    forall r: Requirement ensures Pursued(r) <==> r.marker == None || r.marker == Some(true) {
      assert r.marker.Some? && r.marker.value ==> r.marker == Some(true);
    }
  }

  lemma PopIsRoot(pending: seq<Requirement>, name: Name)
    requires pending != []
    ensures IsRoot(pending, name) <==> IsRoot(pending[..|pending| - 1], name) || pending[|pending| - 1].name == name
  {
    var rest := pending[..|pending| - 1];
    if IsRoot(rest, name) {
      var k :| 0 <= k < |rest| && rest[k].name == name;
      assert pending[k].name == name;
    }
    if IsRoot(pending, name) && pending[|pending| - 1].name != name {
      var k :| 0 <= k < |pending| && pending[k].name == name;
      assert rest[k].name == name;
    }
  }

  lemma SkipKeeps(e: Environment, roots: seq<Requirement>, found: map<Name, seq<Requirement>>, pending: seq<Requirement>)
    requires pending != [] && Sound(e, roots, found, pending) && Complete(e, roots, found, pending)
    requires var name := pending[|pending| - 1].name;
             name in found || name in e.notShipped || (name !in e.installed && name in e.extraRoots)
    ensures Sound(e, roots, found, pending[..|pending| - 1]) && Complete(e, roots, found, pending[..|pending| - 1])
  {
    forall name | Handled(e, found, pending, name) ensures Handled(e, found, pending[..|pending| - 1], name) {
      PopIsRoot(pending, name);
    }
  }

  lemma FoundKeeps(
    e: Environment, roots: seq<Requirement>, found: map<Name, seq<Requirement>>, pending: seq<Requirement>, children: seq<Requirement>
  )
    requires pending != [] && Sound(e, roots, found, pending) && Complete(e, roots, found, pending)
    requires Ships(e, pending[|pending| - 1].name)
    requires forall r :: r in children <==> r in e.installed[pending[|pending| - 1].name] && Pursued(r)
    ensures var name, after := pending[|pending| - 1].name, pending[..|pending| - 1] + children;
            && Sound(e, roots, found[name := e.installed[name]], after)
            && Complete(e, roots, found[name := e.installed[name]], after)
  {
    var name := pending[|pending| - 1].name;
    var rest := pending[..|pending| - 1];
    var after := rest + children;
    var found' := found[name := e.installed[name]];
    forall k | 0 <= k < |after| ensures Requested(e, roots, after[k].name) {
      if k >= |rest| {
        ChildIsDependency(e, name, children, k - |rest|);
        DependencyRequested(e, roots, name, after[k].name);
      }
    }
    forall n | Handled(e, found, pending, n) ensures Handled(e, found', after, n) {
      PopIsRoot(pending, n);
      RootOfConcat(rest, children, n);
    }
    forall n, dependency | n in found' && DependsOn(e, n, dependency) ensures Handled(e, found', after, dependency) {
      if n == name {
        DependencyIsChild(e, name, children, dependency);
        RootOfConcat(rest, children, dependency);
      }
    }
  }

  lemma ChildIsDependency(e: Environment, name: Name, children: seq<Requirement>, k: nat)
    requires Ships(e, name) && k < |children|
    requires forall r :: r in children <==> r in e.installed[name] && Pursued(r)
    ensures DependsOn(e, name, children[k].name)
  {
    assert children[k] in children;
    var j :| 0 <= j < |e.installed[name]| && e.installed[name][j] == children[k];
  }

  lemma DependencyIsChild(e: Environment, name: Name, children: seq<Requirement>, dependency: Name)
    requires DependsOn(e, name, dependency)
    requires forall r :: r in children <==> r in e.installed[name] && Pursued(r)
    ensures IsRoot(children, dependency)
  {
    var j :| 0 <= j < |e.installed[name]| && Pursued(e.installed[name][j]) && e.installed[name][j].name == dependency;
    assert e.installed[name][j] in children;
  }

  lemma RootOfConcat(a: seq<Requirement>, b: seq<Requirement>, name: Name)
    ensures IsRoot(a, name) || IsRoot(b, name) ==> IsRoot(a + b, name)
  {
    if IsRoot(a, name) {
      var k :| 0 <= k < |a| && a[k].name == name;
      assert (a + b)[k].name == name;
    } else if IsRoot(b, name) {
      var k :| 0 <= k < |b| && b[k].name == name;
      assert (a + b)[|a| + k].name == name;
    }
  }

  // ----- The order of roots and dependencies does not matter -----

  /** Same requirements everywhere, in any order. */
  ghost predicate SameUpToOrder(e: Environment, roots: seq<Requirement>, e': Environment, roots': seq<Requirement>) {
    && e'.notShipped == e.notShipped && e'.extraRoots == e.extraRoots && e'.installed.Keys == e.installed.Keys
    && (forall name :: IsRoot(roots, name) <==> IsRoot(roots', name))
    && forall name, r :: name in e.installed ==> (r in e.installed[name] <==> r in e'.installed[name])
  }

  lemma SameDependencies(e: Environment, roots: seq<Requirement>, e': Environment, roots': seq<Requirement>, name: Name, dependency: Name)
    requires SameUpToOrder(e, roots, e', roots') && DependsOn(e, name, dependency)
    ensures DependsOn(e', name, dependency)
  {
    var j :| 0 <= j < |e.installed[name]| && Pursued(e.installed[name][j]) && e.installed[name][j].name == dependency;
    assert e.installed[name][j] in e'.installed[name];
  }

  lemma OrderDoesNotMatter(e: Environment, roots: seq<Requirement>, e': Environment, roots': seq<Requirement>, name: Name)
    requires SameUpToOrder(e, roots, e', roots') && Requested(e, roots, name)
    ensures Requested(e', roots', name)
    ensures Reachable(e, roots, name) ==> Reachable(e', roots', name)
    ensures StopsBuild(e, roots, name) ==> StopsBuild(e', roots', name)
  {
    var chain :| IsChain(e, roots, chain) && chain[|chain| - 1] == name;
    forall k | 0 <= k < |chain| - 1 ensures DependsOn(e', chain[k], chain[k + 1]) {
      SameDependencies(e, roots, e', roots', chain[k], chain[k + 1]);
    }
    assert IsChain(e', roots', chain);
  }

  // ----- The closure is the least closed set -----

  predicate Needed(dependency: Requirement) {
    dependency.marker == None || dependency.marker == Some(true)
  }

  /** A name that is installed and shipped is among the names. */
  predicate Has(e: Environment, names: set<Name>, name: Name) {
    name in e.installed && name !in e.notShipped ==> name in names
  }

  /** The names include every root, and with each name its needed dependencies, as far as installed and shipped. */
  ghost predicate IsClosed(e: Environment, roots: seq<Requirement>, names: set<Name>) {
    && (forall k :: 0 <= k < |roots| ==> Has(e, names, roots[k].name))
    && forall name, k :: name in names && name in e.installed && 0 <= k < |e.installed[name]| && Needed(e.installed[name][k]) ==>
         Has(e, names, e.installed[name][k].name)
  }

  lemma NeededDependency(e: Environment, name: Name, dependency: Name) returns (k: nat)
    requires DependsOn(e, name, dependency)
    ensures name in e.installed && name !in e.notShipped && k < |e.installed[name]|
    ensures Needed(e.installed[name][k]) && e.installed[name][k].name == dependency
  {
    k :| k < |e.installed[name]| && Pursued(e.installed[name][k]) && e.installed[name][k].name == dependency;
    var marker := e.installed[name][k].marker;
    assert marker.Some? && marker.value ==> marker == Some(true);
  }

  lemma {:induction false} ChainWithin(e: Environment, roots: seq<Requirement>, names: set<Name>, chain: seq<Name>)
    requires IsClosed(e, roots, names) && IsChain(e, roots, chain)
    ensures Has(e, names, chain[|chain| - 1])
  {
    if |chain| > 1 {
      var before := chain[..|chain| - 1];
      assert IsChain(e, roots, before) by {
        forall k | 0 <= k < |before| - 1 ensures DependsOn(e, before[k], before[k + 1]) {
          assert DependsOn(e, chain[k], chain[k + 1]);
        }
      }
      ChainWithin(e, roots, names, before);
      var k := NeededDependency(e, chain[|chain| - 2], chain[|chain| - 1]);
    }
  }

  /** What is found is closed, installed and shipped, and part of every closed set. */
  lemma ClosureIsLeast(e: Environment, roots: seq<Requirement>, found: map<Name, seq<Requirement>>, names: set<Name>)
    requires IsClosure(e, roots, found)
    ensures IsClosed(e, roots, found.Keys)
    ensures forall name :: name in found ==> name in e.installed && name !in e.notShipped && found[name] == e.installed[name]
    ensures IsClosed(e, roots, names) ==> found.Keys <= names
  {
    forall k | 0 <= k < |roots| ensures Has(e, found.Keys, roots[k].name) {
      RootRequested(e, roots, roots[k].name);
    }
    forall name, k | name in found && name in e.installed && 0 <= k < |e.installed[name]| && Needed(e.installed[name][k])
      ensures Has(e, found.Keys, e.installed[name][k].name)
    {
      assert DependsOn(e, name, e.installed[name][k].name);
      DependencyRequested(e, roots, name, e.installed[name][k].name);
    }
    if IsClosed(e, roots, names) {
      forall name | name in found ensures name in names {
        var chain :| IsChain(e, roots, chain) && chain[|chain| - 1] == name;
        ChainWithin(e, roots, names, chain);
      }
    }
  }

  /** Some name of the set needs it. */
  ghost predicate NeededBy(e: Environment, names: set<Name>, name: Name) {
    exists parent, k :: parent in names && parent in e.installed && 0 <= k < |e.installed[parent]|
                        && Needed(e.installed[parent][k]) && e.installed[parent][k].name == name
  }

  /** A name that stops the build is missing, not known to be optional, and asked for by a root or inside every closed set. */
  lemma MissingIsNeeded(e: Environment, roots: seq<Requirement>, name: Name, names: set<Name>)
    requires StopsBuild(e, roots, name) && IsClosed(e, roots, names)
    ensures name !in e.installed && name !in e.notShipped && name !in e.extraRoots
    ensures IsRoot(roots, name) || NeededBy(e, names, name)
  {
    var chain :| IsChain(e, roots, chain) && chain[|chain| - 1] == name;
    if |chain| > 1 {
      var before := chain[..|chain| - 1];
      assert IsChain(e, roots, before) by {
        forall k | 0 <= k < |before| - 1 ensures DependsOn(e, before[k], before[k + 1]) {
          assert DependsOn(e, chain[k], chain[k + 1]);
        }
      }
      ChainWithin(e, roots, names, before);
      var k := NeededDependency(e, chain[|chain| - 2], name);
    }
  }

  /** And a name of that kind that a root or a found name needs always stops the build. */
  lemma NeededStopsBuild(e: Environment, roots: seq<Requirement>, found: map<Name, seq<Requirement>>, name: Name)
    requires IsClosure(e, roots, found) && name !in e.installed && name !in e.notShipped && name !in e.extraRoots
    requires IsRoot(roots, name) || NeededBy(e, found.Keys, name)
    ensures StopsBuild(e, roots, name)
  {
    if IsRoot(roots, name) {
      RootRequested(e, roots, name);
    } else {
      var parent, k :| parent in found && parent in e.installed && 0 <= k < |e.installed[parent]|
                       && Needed(e.installed[parent][k]) && e.installed[parent][k].name == name;
      assert DependsOn(e, parent, name);
      DependencyRequested(e, roots, parent, name);
    }
  }
}
