/** The dependency closure of scripts/package-third-party-notices.py. */
module Packages {
  import opened Options
  import opened Reachability
  import opened Sequences

  type Id = string

  /** One entry of `metadata["packages"]`; `source` is empty for workspace members. */
  datatype Package = Package(id: Id, name: string, source: Option<string>)

  datatype Dependency = Dependency(pkg: Id, kinds: seq<Option<string>>)

  /** One entry of `metadata["resolve"]["nodes"]`. */
  datatype Node = Node(id: Id, deps: seq<Dependency>)

  const DEV := Some("dev")

  /** The dictionary the comprehension builds: a later entry replaces an earlier one. */
  function PackagesById(packages: seq<Package>): (m: map<Id, Package>)
    ensures forall id :: id in m ==> m[id] in packages && m[id].id == id
    ensures forall p :: p in packages ==> p.id in m
  {
    if |packages| == 0 then map[]
    else
      var last := packages[|packages| - 1];
      PackagesById(packages[..|packages| - 1])[last.id := last]
  }

  lemma {:induction false} LaterPackageWins(packages: seq<Package>, i: nat)
    requires i < |packages| && forall j :: i < j < |packages| ==> packages[j].id != packages[i].id
    ensures PackagesById(packages)[packages[i].id] == packages[i]
  {
    if i < |packages| - 1 {
      LaterPackageWins(packages[..|packages| - 1], i);
    }
  }

  function NodesById(nodes: seq<Node>): (m: map<Id, Node>)
    ensures forall id :: id in m ==> m[id] in nodes && m[id].id == id
    ensures forall n :: n in nodes ==> n.id in m
  {
    if |nodes| == 0 then map[]
    else
      var last := nodes[|nodes| - 1];
      NodesById(nodes[..|nodes| - 1])[last.id := last]
  }

  lemma {:induction false} LaterNodeWins(nodes: seq<Node>, i: nat)
    requires i < |nodes| && forall j :: i < j < |nodes| ==> nodes[j].id != nodes[i].id
    ensures NodesById(nodes)[nodes[i].id] == nodes[i]
  {
    if i < |nodes| - 1 {
      LaterNodeWins(nodes[..|nodes| - 1], i);
    }
  }

  /** A workspace member: Python's `not p.get("source")` also holds of an empty source. */
  predicate Local(p: Package) {
    p.source.None? || p.source.value == ""
  }

  lemma LocalExactly(p: Package)
    ensures Local(p) <==> p.source == None || p.source == Some("")
  {
  }

  predicate Shipped(d: Dependency) {
    exists i :: 0 <= i < |d.kinds| && d.kinds[i] != DEV
  }

  /** Only a dependency all of whose kinds are "dev" is left out. */
  lemma LeftOutExactly(d: Dependency)
    ensures !Shipped(d) <==> forall i :: 0 <= i < |d.kinds| ==> d.kinds[i] == Some("dev")
  {
  }

  /** Targets of the dependencies that are not for development only, in order. */
  function ShippedTargets(deps: seq<Dependency>): (ids: seq<Id>)
    ensures forall id :: id in ids <==> exists i :: 0 <= i < |deps| && Shipped(deps[i]) && deps[i].pkg == id
  {
    if |deps| == 0 then []
    else
      var init := ShippedTargets(deps[..|deps| - 1]);
      if Shipped(deps[|deps| - 1]) then init + [deps[|deps| - 1].pkg] else init
  }

  ghost function DependencyGraph(nodes: map<Id, Node>): map<Id, seq<Id>> {
    map id | id in nodes :: ShippedTargets(nodes[id].deps)
  }

  /** The one workspace package of this name. */
  ghost predicate NamesRoot(packages: map<Id, Package>, name: string, id: Id) {
    && id in packages && packages[id].name == name && Local(packages[id])
    && forall other :: other in packages && packages[other].name == name && Local(packages[other]) ==> other == id
  }

  function Matches(packages: map<Id, Package>, name: string): set<Id> {
    set id | id in packages && packages[id].name == name && Local(packages[id])
  }

  lemma OneMatch(packages: map<Id, Package>, name: string)
    ensures |Matches(packages, name)| == 1 <==> exists root :: NamesRoot(packages, name, root)
    ensures |Matches(packages, name)| == 1 ==> forall id :: id in Matches(packages, name) ==>
            NamesRoot(packages, name, id)
  {
    var matches := Matches(packages, name);
    forall root | NamesRoot(packages, name, root)
      ensures |matches| == 1
    {
      assert matches == {root};
    }
    if |matches| == 1 {
      var id :| id in matches;
      assert |matches - {id}| == 0;
      assert matches == {id};
      assert forall other :: other in packages && packages[other].name == name && Local(packages[other]) ==>
             other in matches;
      assert NamesRoot(packages, name, id);
    }
  }

  /** Reached from the package of some root through dependencies that are not for development only. */
  ghost predicate InRelease(packages: map<Id, Package>, nodes: map<Id, Node>, roots: seq<string>, id: Id) {
    exists name, root ::
      name in roots && NamesRoot(packages, name, root) && Reaches(DependencyGraph(nodes), root, id)
  }

  ghost predicate RootsResolve(packages: map<Id, Package>, roots: seq<string>) {
    forall name :: name in roots ==> exists root :: NamesRoot(packages, name, root)
  }

  method ResolveRoots(packages: map<Id, Package>, roots: seq<string>) returns (r: Option<seq<Id>>)
    ensures r.Some? <==> RootsResolve(packages, roots)
    ensures r.Some? ==> forall root :: root in r.value <==>
            exists name :: name in roots && NamesRoot(packages, name, root)
  {
    var pending: seq<Id> := [];
    for i := 0 to |roots|
      invariant |pending| == i
      invariant forall k :: 0 <= k < i ==> NamesRoot(packages, roots[k], pending[k])
    {
      var matches := Matches(packages, roots[i]);
      OneMatch(packages, roots[i]);
      if |matches| != 1 {
        assert roots[i] in roots;
        return None;
      }
      var id :| id in matches;
      pending := pending + [id];
    }
    forall name | name in roots
      ensures exists root :: NamesRoot(packages, name, root) && root in pending
    {
      var k :| 0 <= k < |roots| && roots[k] == name;
      assert NamesRoot(packages, name, pending[k]) && pending[k] in pending;
    }
    return Some(pending);
  }

  ghost predicate Working(nodes: map<Id, Node>, roots: seq<Id>, seen: set<Id>, pending: seq<Id>) {
    seen <= nodes.Keys && Progress(DependencyGraph(nodes), roots, seen, pending)
  }

  lemma WorkingSkips(nodes: map<Id, Node>, roots: seq<Id>, seen: set<Id>, pending: seq<Id>)
    requires Working(nodes, roots, seen, pending) && |pending| > 0 && pending[|pending| - 1] in seen
    ensures Working(nodes, roots, seen, pending[..|pending| - 1])
  {
    LastSplits(pending);
    SkipKeeps(DependencyGraph(nodes), roots, seen, pending[..|pending| - 1], pending[|pending| - 1]);
  }

  lemma WorkingExpands(nodes: map<Id, Node>, roots: seq<Id>, seen: set<Id>, pending: seq<Id>)
    requires Working(nodes, roots, seen, pending) && |pending| > 0
    requires pending[|pending| - 1] in nodes && pending[|pending| - 1] !in seen
    ensures var n := pending[|pending| - 1];
            && Working(nodes, roots, seen + {n}, pending[..|pending| - 1] + ShippedTargets(nodes[n].deps))
            && |nodes.Keys - (seen + {n})| < |nodes.Keys - seen|
  {
    var n, rest := pending[|pending| - 1], pending[..|pending| - 1];
    LastSplits(pending);
    ExpandKeeps(DependencyGraph(nodes), roots, seen, rest, n, rest + ShippedTargets(nodes[n].deps));
    OneLessLeft(nodes.Keys, seen, n);
  }

  lemma WorkingEnds(nodes: map<Id, Node>, roots: seq<Id>, seen: set<Id>)
    requires Working(nodes, roots, seen, [])
    ensures forall id :: id in seen <==> ReachedFrom(DependencyGraph(nodes), roots, id)
  {
    ProgressEnds(DependencyGraph(nodes), roots, seen);
  }

  /** The worklist; `nodes[identity]` on a missing node is the KeyError the script lets escape. */
  method Walk(nodes: map<Id, Node>, roots: seq<Id>) returns (r: Option<set<Id>>)
    ensures r.Some? <==> forall id :: ReachedFrom(DependencyGraph(nodes), roots, id) ==> id in nodes
    ensures r.Some? ==> forall id :: id in r.value <==> ReachedFrom(DependencyGraph(nodes), roots, id)
  {
    var pending, seen: set<Id> := roots, {};
    ProgressStarts(DependencyGraph(nodes), roots);
    while |pending| > 0
      invariant Working(nodes, roots, seen, pending)
      decreases |nodes.Keys - seen|, |pending|
    {
      var identity := pending[|pending| - 1];
      if identity in seen {
        WorkingSkips(nodes, roots, seen, pending);
        pending := pending[..|pending| - 1];
        continue;
      }
      if identity !in nodes {
        assert identity in pending;
        return None;
      }
      WorkingExpands(nodes, roots, seen, pending);
      seen := seen + {identity};
      pending := pending[..|pending| - 1] + ShippedTargets(nodes[identity].deps);
    }
    assert pending == [];
    WorkingEnds(nodes, roots, seen);
    return Some(seen);
  }

  /**
   The release inventory. It fails exactly when a root is missing or ambiguous or a package
   of the release has no node or no entry; otherwise it is the packages of the release.
   */
  method SelectedPackages(packageList: seq<Package>, nodeList: seq<Node>, roots: seq<string>)
    returns (r: Option<set<Package>>)
    ensures var packages, nodes := PackagesById(packageList), NodesById(nodeList);
            && (r.Some? <==>
                && RootsResolve(packages, roots)
                && forall id :: InRelease(packages, nodes, roots, id) ==> id in nodes && id in packages)
            && (r.Some? ==>
                forall p :: p in r.value <==>
                  p.id in packages && packages[p.id] == p && InRelease(packages, nodes, roots, p.id))
  {
    var packages, nodes := PackagesById(packageList), NodesById(nodeList);
    var resolved := ResolveRoots(packages, roots);
    if resolved.None? {
      return None;
    }
    InReleaseMeansReached(packages, nodes, roots, resolved.value);
    var walked := Walk(nodes, resolved.value);
    if walked.None? || exists id :: id in walked.value && id !in packages {
      return None;
    }
    r := Some(set id | id in walked.value :: packages[id]);
  }

  lemma InReleaseMeansReached(packages: map<Id, Package>, nodes: map<Id, Node>, roots: seq<string>, ids: seq<Id>)
    requires forall root :: root in ids <==> exists name :: name in roots && NamesRoot(packages, name, root)
    ensures forall id :: InRelease(packages, nodes, roots, id) <==> ReachedFrom(DependencyGraph(nodes), ids, id)
  {
    forall id | ReachedFrom(DependencyGraph(nodes), ids, id)
      ensures InRelease(packages, nodes, roots, id)
    {
      var root :| root in ids && Reaches(DependencyGraph(nodes), root, id);
    }
  }
}
