/** The package manager's install order: depth-first over dependencies. */
module PkgOrder {
  datatype Pkg = Pkg(payload: string, depends: seq<string>)
  type Repo = map<string, Pkg>

  datatype Failure = NotFound(name: string) | Cycle(name: string)
  datatype Status = Ok | Err(failure: Failure)
  datatype Result = Order(packages: seq<Pkg>) | Failed(failure: Failure)

  // ---- dependency paths ---------------------------------------------------

  predicate DependsOn(repo: Repo, a: string, b: string) {
    a in repo && b in repo[a].depends
  }

  /** Each name on the path depends on the next. */
  predicate IsPath(repo: Repo, path: seq<string>) {
    path != [] && forall i {:trigger path[i]} :: 0 < i < |path| ==> DependsOn(repo, path[i - 1], path[i])
  }

  ghost predicate PathFrom(repo: Repo, path: seq<string>, a: string, b: string) {
    IsPath(repo, path) && path[0] == a && path[|path| - 1] == b
  }

  ghost predicate Reaches(repo: Repo, a: string, b: string) {
    exists path :: PathFrom(repo, path, a, b)
  }

  ghost predicate OnCycle(repo: Repo, a: string) {
    exists path :: PathFrom(repo, path, a, a) && |path| > 1
  }

  /** The failure is real: it names something start needs that is missing or that needs
      itself. */
  ghost predicate Blames(repo: Repo, start: string, f: Failure) {
    && Reaches(repo, start, f.name)
    && match f
       case NotFound(n) => n !in repo
       case Cycle(n) => OnCycle(repo, n)
  }

  ghost predicate Broken(repo: Repo, requested: seq<string>) {
    exists i, f :: 0 <= i < |requested| && Blames(repo, requested[i], f)
  }

  // ---- a finished order ---------------------------------------------------

  ghost predicate Distinct(names: seq<string>) {
    forall i, j :: 0 <= i < j < |names| ==> names[i] != names[j]
  }

  /** No name twice, every name in the repository, every dependency strictly earlier. */
  ghost predicate Ordered(repo: Repo, names: seq<string>) {
    && Distinct(names)
    && (forall i {:trigger names[i]} :: 0 <= i < |names| ==> names[i] in repo)
    && (forall i, d {:trigger DependsOn(repo, names[i], d)} ::
          0 <= i < |names| && DependsOn(repo, names[i], d) ==> d in names[..i])
  }

  /** A path from an ordered name stays in the order and moves towards its start. */
  lemma {:induction false} PathDescends(repo: Repo, names: seq<string>, path: seq<string>, i: nat) returns (j: nat)
    requires Ordered(repo, names) && IsPath(repo, path) && i < |names| && path[0] == names[i]
    ensures j <= i && names[j] == path[|path| - 1] && (|path| > 1 ==> j < i)
    decreases |path|
  {
    if |path| == 1 {
      j := i;
    } else {
      assert DependsOn(repo, path[0], path[1]);
      assert DependsOn(repo, names[i], path[1]);
      var k :| 0 <= k < i && names[..i][k] == path[1];
      var rest := path[1..];
      assert forall m {:trigger rest[m]} :: 0 < m < |rest| ==> DependsOn(repo, path[m], path[m + 1]);
      j := PathDescends(repo, names, rest, k);
    }
  }

  /** Nothing an ordered name needs is missing or cyclic. */
  lemma OrderedIsSound(repo: Repo, names: seq<string>, start: string, f: Failure)
    requires Ordered(repo, names) && start in names
    ensures !Blames(repo, start, f)
  {
    if Reaches(repo, start, f.name) {
      var i :| 0 <= i < |names| && names[i] == start;
      var path :| PathFrom(repo, path, start, f.name);
      var j := PathDescends(repo, names, path, i);
      if OnCycle(repo, f.name) {
        var loop :| PathFrom(repo, loop, f.name, f.name) && |loop| > 1;
        var k := PathDescends(repo, names, loop, j);
      }
    }
  }

  // ---- the depth-first walk -----------------------------------------------

  lemma PathExtends(repo: Repo, path: seq<string>, b: string)
    requires IsPath(repo, path) && DependsOn(repo, path[|path| - 1], b)
    ensures IsPath(repo, path + [b])
  {
    var longer := path + [b];
    forall i {:trigger longer[i]} | 0 < i < |longer| ensures DependsOn(repo, longer[i - 1], longer[i]) {
      if i < |path| { assert longer[i] == path[i] && longer[i - 1] == path[i - 1]; }
    }
  }

  /** Meeting a name that is still open closes a cycle. */
  lemma OpenNameCycles(repo: Repo, trail: seq<string>, name: string)
    requires IsPath(repo, trail + [name]) && name in trail
    ensures Blames(repo, trail[0], Cycle(name))
  {
    var path := trail + [name];
    assert PathFrom(repo, path, trail[0], name);
    var k :| 0 <= k < |trail| && trail[k] == name;
    LoopPath(repo, path, k);
    assert PathFrom(repo, path[k..], name, name);
  }

  /** The end of a path is a path. */
  lemma LoopPath(repo: Repo, path: seq<string>, k: nat)
    requires IsPath(repo, path) && k < |path|
    ensures IsPath(repo, path[k..])
  {
    var loop := path[k..];
    assert forall i {:trigger loop[i]} :: 0 < i < |loop| ==> DependsOn(repo, path[k + i - 1], path[k + i]);
  }

  lemma MissingNameBlamed(repo: Repo, trail: seq<string>, name: string)
    requires IsPath(repo, trail + [name]) && name !in repo
    ensures Blames(repo, (trail + [name])[0], NotFound(name))
  {
    assert PathFrom(repo, trail + [name], (trail + [name])[0], name);
  }

  lemma OrderGrows(repo: Repo, names: seq<string>, name: string)
    requires Ordered(repo, names) && name in repo && name !in names
    requires forall d {:trigger d in repo[name].depends} :: d in repo[name].depends ==> d in names
    ensures Ordered(repo, names + [name])
  {
    var longer := names + [name];
    forall i, d {:trigger DependsOn(repo, longer[i], d)} | 0 <= i < |longer| && DependsOn(repo, longer[i], d)
      ensures d in longer[..i]
    {
      if i < |names| {
        assert DependsOn(repo, names[i], d);
        assert longer[..i] == names[..i];
      } else {
        assert longer[..i] == names;
      }
    }
  }

  class Resolver {
    const repo: Repo
    var visiting: set<string>
    var visited: set<string>
    var order: seq<Pkg>
    /** The names behind order. */
    ghost var names: seq<string>

    ghost predicate Valid()
      reads this
    {
      && Ordered(repo, names)
      && visited == (set n | n in names)
      && |order| == |names| && (forall i {:trigger order[i]} :: 0 <= i < |order| ==> order[i] == repo[names[i]])
      && visiting !! visited && visiting <= repo.Keys
    }

    constructor (r: Repo)
      ensures Valid() && repo == r && visiting == {} && names == []
    {
      repo, visiting, visited, order, names := r, {}, {}, [], [];
    }

    /** Visit one package; trail is the chain of open packages that led here. */
    method Visit(name: string, ghost trail: seq<string>) returns (status: Status)
      requires Valid() && IsPath(repo, trail + [name]) && visiting == (set n | n in trail)
      modifies this
      ensures status.Ok? ==> Valid() && name in visited && visiting == old(visiting) && old(names) <= names
      ensures status.Err? ==> Blames(repo, (trail + [name])[0], status.failure)
      decreases repo.Keys - visiting
    {
      if name in visited { return Ok; }
      if name !in repo {
        MissingNameBlamed(repo, trail, name);
        return Err(NotFound(name));
      }
      if name in visiting {
        OpenNameCycles(repo, trail, name);
        return Err(Cycle(name));
      }
      visiting := visiting + {name};
      var pkg := repo[name];
      ghost var path := trail + [name];
      for i := 0 to |pkg.depends|
        invariant Valid() && visiting == old(visiting) + {name} && old(names) <= names
        invariant forall k {:trigger pkg.depends[k]} :: 0 <= k < i ==> pkg.depends[k] in visited
      {
        assert DependsOn(repo, path[|path| - 1], pkg.depends[i]);
        PathExtends(repo, path, pkg.depends[i]);
        var s := Visit(pkg.depends[i], path);
        if s.Err? { return s; }
      }
      visiting := visiting - {name};
      visited := visited + {name};
      order := order + [pkg];
      OrderGrows(repo, names, name);
      names := names + [name];
      return Ok;
    }
  }

  /** Ok exactly when nothing the requests need is missing or cyclic; then the order
      holds every request, has no repeats, and puts dependencies first. */
  method ResolveInstallOrder(requested: seq<string>, repo: Repo) returns (r: Result, ghost names: seq<string>)
    ensures r.Order? <==> !Broken(repo, requested)
    ensures r.Order? ==>
      && Ordered(repo, names)
      && |r.packages| == |names| && (forall i :: 0 <= i < |names| ==> r.packages[i] == repo[names[i]])
      && (forall i :: 0 <= i < |requested| ==> requested[i] in names)
    ensures r.Failed? ==> exists i :: 0 <= i < |requested| && Blames(repo, requested[i], r.failure)
  {
    var v := new Resolver(repo);
    for k := 0 to |requested|
      invariant v.Valid() && v.repo == repo && v.visiting == {} && fresh(v)
      invariant forall i :: 0 <= i < k ==> requested[i] in v.names
    {
      var s := v.Visit(requested[k], []);
      if s.Err? {
        names := [];
        assert ([] + [requested[k]])[0] == requested[k];
        return Failed(s.failure), [];
      }
    }
    names := v.names;
    forall i, f | 0 <= i < |requested| ensures !Blames(repo, requested[i], f) {
      OrderedIsSound(repo, names, requested[i], f);
    }
    r := Order(v.order);
  }
}
