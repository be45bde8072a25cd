/** Resolving declared AUR packages into a closed build graph (`_resolve_build_order`), and the
    build loop over its order. */
module AurResolve {
  import opened Text
  import opened TopoSort

  /** What cloning, classifying and querying answer, one answer per name for the whole run.
      `candidates` lists the dependencies of a package that neither the system nor the
      repositories satisfy; a package missing from it cannot be cloned or read. */
  datatype World = World(candidates: map<string, seq<string>>, inAur: set<string>,
                         providers: map<string, seq<string>>, unreachable: set<string>)

  datatype Answer<T> = Found(value: T) | Abort

  // ---------------------------------------------------------------- one package

  function Providers(w: World, bare: string): seq<string> {
    if bare in w.providers then w.providers[bare] else []
  }

  /** The package to build for a missing dependency: itself, or its only provider. */
  function BuildAs(w: World, bare: string): Answer<string> {
    if bare in w.inAur then Found(bare)
    else if bare in w.unreachable then Abort
    else if |Providers(w, bare)| == 1 then Found(Providers(w, bare)[0])
    else Abort
  }

  function AllBuildAs(w: World, wanted: seq<string>): Answer<seq<string>> {
    if wanted == [] then Found([])
    else
      var first, rest := BuildAs(w, wanted[0]), AllBuildAs(w, wanted[1..]);
      if first.Abort? || rest.Abort? then Abort else Found([first.value] + rest.value)
  }

  function Prepend(deps: seq<string>, rest: Answer<seq<string>>): Answer<seq<string>> {
    if rest.Abort? then Abort else Found(deps + rest.value)
  }

  lemma AllBuildAsStep(w: World, wanted: seq<string>, i: nat, deps: seq<string>)
    requires i < |wanted|
    ensures Prepend(deps, AllBuildAs(w, wanted[i..])) ==
            if BuildAs(w, wanted[i]).Abort? then Abort
            else Prepend(deps + [BuildAs(w, wanted[i]).value], AllBuildAs(w, wanted[i + 1..]))
  {
    var first, rest := BuildAs(w, wanted[i]), AllBuildAs(w, wanted[i + 1..]);
    assert wanted[i..][1..] == wanted[i + 1..];
    if first.Found? && rest.Found? {
      assert deps + ([first.value] + rest.value) == deps + [first.value] + rest.value;
    }
  }

  /** The AUR build dependencies of a package, or why it aborts the run. */
  function BuildDeps(w: World, n: string): Answer<seq<string>> {
    if n !in w.candidates then Abort
    else
      var wanted := Deduped(w.candidates[n], {});
      if wanted != [] && exists b :: b in wanted && b in w.unreachable then Abort
      else AllBuildAs(w, wanted)
  }

  function WorldDeps(w: World, n: string): seq<string> {
    if BuildDeps(w, n).Found? then BuildDeps(w, n).value else []
  }

  /** Every package the AUR can make the run build: finitely many. */
  function Universe(w: World): set<string> {
    w.inAur + set b, p | b in w.providers && p in w.providers[b] :: p
  }

  lemma BuildAsInUniverse(w: World, bare: string)
    requires BuildAs(w, bare).Found?
    ensures BuildAs(w, bare).value in Universe(w)
  {
    if bare !in w.inAur {
      assert bare in w.providers && w.providers[bare][0] in w.providers[bare];
    }
  }

  /** A package is built as itself, or as the one package that provides it. */
  predicate BuiltAs(w: World, bare: string, p: string) {
    if bare in w.inAur then p == bare else |Providers(w, bare)| == 1 && p == Providers(w, bare)[0]
  }

  lemma {:induction false} AllBuiltAs(w: World, wanted: seq<string>)
    ensures AllBuildAs(w, wanted).Found? <==> forall b :: b in wanted ==> BuildAs(w, b).Found?
    ensures AllBuildAs(w, wanted).Found? ==>
      && |AllBuildAs(w, wanted).value| == |wanted|
      && forall i :: 0 <= i < |wanted| ==> BuiltAs(w, wanted[i], AllBuildAs(w, wanted).value[i])
  {
    if wanted != [] {
      AllBuiltAs(w, wanted[1..]);
      assert forall b :: b in wanted <==> b == wanted[0] || b in wanted[1..];
    }
  }

  lemma {:induction false} DedupedKeeps(tokens: seq<string>, seen: set<string>, x: string)
    ensures x in Deduped(tokens, seen) <==> x in tokens && x !in seen
  {
    if tokens != [] {
      DedupedKeeps(tokens[1..], if tokens[0] in seen then seen else seen + {tokens[0]}, x);
      assert x in tokens <==> x == tokens[0] || x in tokens[1..];
    }
  }

  /** A package's build dependencies are known exactly when it can be read, and each of its missing
      dependencies can be asked for and is in the AUR or provided by one package there: several
      providers, or none, abort. */
  lemma BuildDepsIff(w: World, n: string)
    ensures BuildDeps(w, n).Found? <==>
      n in w.candidates && forall b :: b in w.candidates[n] ==> b !in w.unreachable && (b in w.inAur || |Providers(w, b)| == 1)
    ensures BuildDeps(w, n).Found? ==> forall p :: p in BuildDeps(w, n).value <==> exists b :: b in w.candidates[n] && BuiltAs(w, b, p)
  {
    if n in w.candidates {
      var wanted := Deduped(w.candidates[n], {});
      forall b
        ensures b in wanted <==> b in w.candidates[n]
      {
        DedupedKeeps(w.candidates[n], {}, b);
      }
      AllBuiltAs(w, wanted);
      if BuildDeps(w, n).Found? {
        var value := BuildDeps(w, n).value;
        forall p
          ensures p in value <==> exists b :: b in w.candidates[n] && BuiltAs(w, b, p)
        {
          if p in value {
            var i :| 0 <= i < |value| && value[i] == p;
            assert BuiltAs(w, wanted[i], p);
          }
          if b :| b in w.candidates[n] && BuiltAs(w, b, p) {
            var i :| 0 <= i < |wanted| && wanted[i] == b;
            assert BuiltAs(w, wanted[i], value[i]);
          }
        }
      }
    }
  }

  /** A needed package with a dependency outside the AUR that several packages provide, or none, aborts
      the run. */
  lemma UnclearProviderAborts(w: World, pkgs: seq<string>, n: string, b: string)
    requires Needed(w, pkgs, n) && n in w.candidates && b in w.candidates[n] && b !in w.inAur && |Providers(w, b)| != 1
    ensures Unresolved(w, pkgs)
  {
    BuildDepsIff(w, n);
  }

  // ---------------------------------------------------------------- reachability

  ghost predicate IsNeed(w: World, pkgs: seq<string>, p: seq<string>) {
    && p != [] && p[0] in pkgs
    && forall i :: 0 <= i < |p| - 1 ==> p[i + 1] in WorldDeps(w, p[i])
  }

  /** The package is declared, or some chain of dependencies leads to it. */
  ghost predicate Needed(w: World, pkgs: seq<string>, n: string) {
    exists p :: IsNeed(w, pkgs, p) && p[|p| - 1] == n
  }

  lemma DeclaredNeeded(w: World, pkgs: seq<string>, n: string)
    requires n in pkgs
    ensures Needed(w, pkgs, n)
  {
    assert IsNeed(w, pkgs, [n]);
  }

  lemma DepNeeded(w: World, pkgs: seq<string>, n: string, d: string)
    requires Needed(w, pkgs, n) && d in WorldDeps(w, n)
    ensures Needed(w, pkgs, d)
  {
    var p :| IsNeed(w, pkgs, p) && p[|p| - 1] == n;
    var q := p + [d];
    forall i | 0 <= i < |q| - 1
      ensures q[i + 1] in WorldDeps(w, q[i])
    {
      if i < |p| - 1 {
        assert q[i] == p[i] && q[i + 1] == p[i + 1];
      }
    }
    assert IsNeed(w, pkgs, q) && q[|q| - 1] == d;
  }

  /** A set that holds the declared packages and the dependencies of its members holds all that
      is needed. */
  lemma NeededInside(w: World, pkgs: seq<string>, inside: set<string>, p: seq<string>)
    requires forall n :: n in pkgs ==> n in inside
    requires forall n, d :: n in inside && d in WorldDeps(w, n) ==> d in inside
    requires IsNeed(w, pkgs, p)
    ensures p[|p| - 1] in inside
  {
    var i := 0;
    while i < |p| - 1
      invariant 0 <= i < |p| && p[i] in inside
    {
      assert p[i + 1] in WorldDeps(w, p[i]);
      i := i + 1;
    }
  }

  // ---------------------------------------------------------------- the worklist

  /** What the worklist keeps true between two packages. */
  ghost predicate Progress(w: World, pkgs: seq<string>, graph: Graph, discovered: set<string>, pending: seq<string>) {
    && (forall n :: n in pkgs ==> n in graph || n in pending)
    && (forall n :: n in graph ==> BuildDeps(w, n) == Found(graph[n]))
    && (forall n, d :: n in graph && d in graph[n] ==> d in graph || d in pending)
    && (forall n :: n in graph || n in pending ==> Needed(w, pkgs, n))
    && (forall n :: n in discovered <==> (n in graph || n in pending) && n !in pkgs)
    && (forall n :: n in pending ==> n in pkgs || n in Universe(w))
  }

  /** `_resolve_candidates`: the build dependencies of one package, queued unless already seen. */
  method ResolveCandidates(w: World, wanted: seq<string>, pkgs: seq<string>, seen: set<string>,
                           discovered: set<string>, pending: seq<string>)
    returns (r: Answer<seq<string>>, discovered': set<string>, pending': seq<string>)
    ensures r == if wanted != [] && exists b :: b in wanted && b in w.unreachable then Abort
                 else AllBuildAs(w, wanted)
    ensures r.Found? ==>
      && (forall n :: n in pending' <==> n in pending || (n in r.value && n !in seen))
      && (forall n :: n in discovered' <==> n in discovered || (n in r.value && n !in pkgs))
      && (forall n :: n in r.value ==> n in Universe(w))
  {
    discovered', pending' := discovered, pending;
    if wanted != [] && exists b :: b in wanted && b in w.unreachable {
      return Abort, discovered', pending';
    }
    var deps: seq<string> := [];
    assert wanted[0..] == wanted;
    assert AllBuildAs(w, wanted).Found? ==> [] + AllBuildAs(w, wanted).value == AllBuildAs(w, wanted).value;
    for i := 0 to |wanted|
      invariant AllBuildAs(w, wanted) == Prepend(deps, AllBuildAs(w, wanted[i..]))
      invariant forall n :: n in pending' <==> n in pending || (n in deps && n !in seen)
      invariant forall n :: n in discovered' <==> n in discovered || (n in deps && n !in pkgs)
      invariant forall n :: n in deps ==> n in Universe(w)
    {
      var found := BuildAs(w, wanted[i]);
      AllBuildAsStep(w, wanted, i, deps);
      if found.Abort? {
        return Abort, discovered', pending';
      }
      BuildAsInUniverse(w, wanted[i]);
      var buildAs := found.value;
      deps := deps + [buildAs];
      if buildAs !in pkgs {
        discovered' := discovered' + {buildAs};
      }
      if buildAs !in seen && buildAs !in pending' {
        pending' := pending' + [buildAs];
      }
    }
    assert deps + [] == deps;
    return Found(deps), discovered', pending';
  }

  lemma ProgressSkip(w: World, pkgs: seq<string>, graph: Graph, discovered: set<string>,
                     pending: seq<string>, node: string, rest: seq<string>)
    requires pending == rest + [node] && node in graph
    requires Progress(w, pkgs, graph, discovered, pending)
    ensures Progress(w, pkgs, graph, discovered, rest)
  {
    assert forall n :: n in pending <==> n in rest || n == node;
  }

  lemma ProgressStep(w: World, pkgs: seq<string>, graph: Graph, discovered: set<string>,
                     pending: seq<string>, node: string, rest: seq<string>,
                     deps: seq<string>, found: set<string>, queue: seq<string>)
    requires pending == rest + [node] && node !in graph
    requires Progress(w, pkgs, graph, discovered, pending)
    requires BuildDeps(w, node) == Found(deps)
    requires forall n :: n in queue <==> n in rest || (n in deps && n !in graph && n != node)
    requires forall n :: n in found <==> n in discovered || (n in deps && n !in pkgs)
    requires forall n :: n in deps ==> n in Universe(w)
    ensures Progress(w, pkgs, graph[node := deps], found, queue)
  {
    assert forall n :: n in pending <==> n in rest || n == node;
    assert node in pending;
    forall d | d in deps
      ensures Needed(w, pkgs, d)
    {
      DepNeeded(w, pkgs, node, d);
    }
  }

  lemma ProgressStart(w: World, pkgs: seq<string>)
    ensures Progress(w, pkgs, map[], {}, pkgs)
  {
    forall n | n in pkgs {
      DeclaredNeeded(w, pkgs, n);
    }
  }

  lemma ProgressEnd(w: World, pkgs: seq<string>, graph: Graph, discovered: set<string>)
    requires Progress(w, pkgs, graph, discovered, [])
    ensures Resolved(w, pkgs, graph, discovered)
  {
    forall n | Needed(w, pkgs, n)
      ensures n in graph
    {
      var p :| IsNeed(w, pkgs, p) && p[|p| - 1] == n;
      forall m, d | m in graph && d in WorldDeps(w, m)
        ensures d in graph
      {
        assert d in graph[m];
      }
      NeededInside(w, pkgs, graph.Keys, p);
    }
  }

  /** The graph holds exactly what is needed, closed under build dependencies, and `discovered`
      is the part of it nobody declared. */
  ghost predicate Resolved(w: World, pkgs: seq<string>, graph: Graph, discovered: set<string>) {
    && Closed(graph)
    && (forall n :: n in graph <==> Needed(w, pkgs, n))
    && (forall n :: n in graph ==> BuildDeps(w, n) == Found(graph[n]))
    && (forall n :: n in discovered <==> n in graph && n !in pkgs)
    && (forall n :: n in pkgs ==> n in graph)
  }

  lemma PendingNode(w: World, pkgs: seq<string>, graph: Graph, discovered: set<string>,
                    pending: seq<string>, node: string)
    requires Progress(w, pkgs, graph, discovered, pending) && node in pending
    ensures Needed(w, pkgs, node)
    ensures node in Universe(w) + set n | n in pkgs
  {
  }

  /** Something needed cannot be resolved. */
  ghost predicate Unresolved(w: World, pkgs: seq<string>) {
    exists n :: Needed(w, pkgs, n) && BuildDeps(w, n).Abort?
  }

  lemma ResolvedIsNotUnresolved(w: World, pkgs: seq<string>, graph: Graph, discovered: set<string>)
    requires Resolved(w, pkgs, graph, discovered)
    ensures !Unresolved(w, pkgs)
  {
  }

  lemma UnresolvedBy(w: World, pkgs: seq<string>, node: string)
    requires Needed(w, pkgs, node) && BuildDeps(w, node).Abort?
    ensures Unresolved(w, pkgs)
  {
  }

  lemma ResolvedAtEnd(w: World, pkgs: seq<string>, graph: Graph, discovered: set<string>)
    requires Progress(w, pkgs, graph, discovered, [])
    ensures Resolved(w, pkgs, graph, discovered) && !Unresolved(w, pkgs)
  {
    ProgressEnd(w, pkgs, graph, discovered);
    ResolvedIsNotUnresolved(w, pkgs, graph, discovered);
  }

  /** One package of the worklist. */
  method ResolveOne(w: World, pkgs: seq<string>, node: string, graph: Graph, discovered: set<string>, rest: seq<string>)
    returns (ok: bool, graph': Graph, discovered': set<string>, pending': seq<string>)
    requires Progress(w, pkgs, graph, discovered, rest + [node]) && node !in graph
    ensures ok <==> BuildDeps(w, node).Found?
    ensures ok ==> graph'.Keys == graph.Keys + {node} && Progress(w, pkgs, graph', discovered', pending')
  {
    graph', discovered', pending' := graph, discovered, rest;
    if node !in w.candidates {
      return false, graph', discovered', pending';
    }
    var deps;
    deps, discovered', pending' :=
      ResolveCandidates(w, Deduped(w.candidates[node], {}), pkgs, graph.Keys + {node}, discovered, rest);
    if deps.Abort? {
      return false, graph', discovered', pending';
    }
    ProgressStep(w, pkgs, graph, discovered, rest + [node], node, rest, deps.value, discovered', pending');
    return true, graph[node := deps.value], discovered', pending';
  }

  /** `_resolve_build_order` up to the sort: the graph of everything needed, and which of it the
      user did not declare; or an abort, exactly when something needed cannot be resolved. */
  method ResolveGraph(w: World, pkgs: seq<string>) returns (r: Answer<(Graph, set<string>)>)
    ensures r.Abort? <==> Unresolved(w, pkgs)
    ensures r.Found? ==> Resolved(w, pkgs, r.value.0, r.value.1)
  {
    var graph: Graph := map[];
    var discovered: set<string> := {};
    var seen: set<string> := {};
    var pending := pkgs;
    ProgressStart(w, pkgs);
    ghost var all := Universe(w) + set n | n in pkgs;
    while pending != []
      invariant seen == graph.Keys && seen <= all
      invariant Progress(w, pkgs, graph, discovered, pending)
      decreases all - seen, |pending|
    {
      var node := pending[|pending| - 1];
      var rest := pending[..|pending| - 1];
      assert pending == rest + [node] && node in pending;
      if node in seen {
        ProgressSkip(w, pkgs, graph, discovered, pending, node, rest);
        pending := rest;
        continue;
      }
      PendingNode(w, pkgs, graph, discovered, pending, node);
      var ok;
      ok, graph, discovered, pending := ResolveOne(w, pkgs, node, graph, discovered, rest);
      if !ok {
        UnresolvedBy(w, pkgs, node);
        return Abort;
      }
      seen := seen + {node};
    }
    ResolvedAtEnd(w, pkgs, graph, discovered);
    return Found((graph, discovered));
  }

  // ---------------------------------------------------------------- the build loop

  datatype Event = Satisfied(pkg: string) | Built(pkg: string) | MarkedAsDep(pkg: string)

  /** Whatever was built had its dependencies built or satisfied before it. */
  ghost predicate DepsReady(g: Graph, log: seq<Event>) {
    forall i, d :: 0 <= i < |log| && log[i].Built? && d in Deps(g, log[i].pkg) ==>
      Satisfied(d) in log[..i] || Built(d) in log[..i]
  }

  /** Only discovered packages are marked, each right after it was built. */
  ghost predicate MarksMatch(discovered: set<string>, log: seq<Event>) {
    && (forall i :: 0 <= i < |log| && log[i].MarkedAsDep? ==>
         log[i].pkg in discovered && i > 0 && log[i - 1] == Built(log[i].pkg))
    && (forall i :: 0 <= i < |log| - 1 && log[i].Built? && log[i].pkg in discovered ==>
         log[i + 1] == MarkedAsDep(log[i].pkg))
  }

  /** What the loop keeps true before each package. */
  ghost predicate Going(g: Graph, discovered: set<string>, log: seq<Event>, done: seq<string>) {
    && (forall e :: e in log ==> e.pkg in done)
    && (forall n :: n in done ==> Satisfied(n) in log || Built(n) in log)
    && DepsReady(g, log) && MarksMatch(discovered, log)
    && (log != [] && log[|log| - 1].Built? ==> log[|log| - 1].pkg !in discovered)
    && (forall n :: n in discovered && Built(n) in log ==> MarkedAsDep(n) in log)
    && OnlyMissingBuilt(log)
  }

  /** What a previous build or the system satisfies is not built. */
  ghost predicate OnlyMissingBuilt(log: seq<Event>) {
    forall n :: Satisfied(n) in log ==> Built(n) !in log
  }

  lemma GoingPlain(g: Graph, discovered: set<string>, log: seq<Event>, done: seq<string>, e: Event)
    requires Going(g, discovered, log, done) && !e.MarkedAsDep? && e.pkg !in done
    requires e.Built? ==> forall d :: d in Deps(g, e.pkg) ==> d in done
    ensures DepsReady(g, log + [e]) && MarksMatch(discovered, log + [e])
    ensures (e.Built? && e.pkg in discovered) || Going(g, discovered, log + [e], done + [e.pkg])
    ensures OnlyMissingBuilt(log + [e])
    ensures forall f :: f in log + [e] ==> f.pkg in done + [e.pkg]
  {
    LogSnoc(g, discovered, log, e);
  }

  lemma GoingMarked(g: Graph, discovered: set<string>, log: seq<Event>, done: seq<string>, n: string)
    requires Going(g, discovered, log, done) && n in discovered && n !in done
    requires forall d :: d in Deps(g, n) ==> d in done
    ensures Going(g, discovered, log + [Built(n)] + [MarkedAsDep(n)], done + [n])
  {
    LogSnoc(g, discovered, log, Built(n));
    LogSnoc(g, discovered, log + [Built(n)], MarkedAsDep(n));
    StillOnlyMissing(log, done, n);
  }

  lemma StillOnlyMissing(log: seq<Event>, done: seq<string>, n: string)
    requires OnlyMissingBuilt(log) && n !in done && forall e :: e in log ==> e.pkg in done
    ensures OnlyMissingBuilt(log + [Built(n)] + [MarkedAsDep(n)])
  {
    assert Satisfied(n) !in log;
  }

  class Builder {
    const graph: Graph
    const discovered: set<string>
    /** What happened, oldest first. */
    ghost var log: seq<Event>
    /** How many commands failed. */
    ghost var failures: nat

    constructor (graph: Graph, discovered: set<string>)
      ensures this.graph == graph && this.discovered == discovered && log == [] && failures == 0
    {
      this.graph, this.discovered, this.log, this.failures := graph, discovered, [], 0;
    }

    /** `pacman -T`: what it answers depends on the machine. */
    method IsSatisfied(n: string) returns (yes: bool)
      modifies this`log
      ensures log == if yes then old(log) + [Satisfied(n)] else old(log)
    {
      yes := *;
      if yes {
        log := log + [Satisfied(n)];
      }
    }

    /** `_build_one`: makepkg may fail. */
    method BuildOne(n: string) returns (ok: bool)
      modifies this`log, this`failures
      ensures failures == old(failures) + if ok then 0 else 1
      ensures log == if ok then old(log) + [Built(n)] else old(log)
    {
      ok := *;
      if ok {
        log := log + [Built(n)];
      } else {
        failures := failures + 1;
      }
    }

    /** `pacman -D --asdeps`: may fail. */
    method MarkAsDep(n: string) returns (ok: bool)
      modifies this`log, this`failures
      ensures failures == old(failures) + if ok then 0 else 1
      ensures log == if ok then old(log) + [MarkedAsDep(n)] else old(log)
    {
      ok := *;
      if ok {
        log := log + [MarkedAsDep(n)];
      } else {
        failures := failures + 1;
      }
    }

    /** One package of the loop: skipped when satisfied, else built, and marked when nobody
        declared it. Any command is free to fail. */
    method BuildNode(node: string, ghost done: seq<string>) returns (ok: bool)
      requires Going(graph, discovered, log, done) && forall d :: d in Deps(graph, node) ==> d in done
      requires node !in done
      modifies this`log, this`failures
      ensures failures >= old(failures) && (!ok ==> failures > old(failures))
      ensures ok ==> Going(graph, discovered, log, done + [node])
      ensures DepsReady(graph, log) && MarksMatch(discovered, log) && OnlyMissingBuilt(log)
      ensures forall e :: e in log ==> e.pkg in done + [node]
    {
      ghost var before := log;
      var satisfied := IsSatisfied(node);
      if satisfied {
        GoingPlain(graph, discovered, before, done, Satisfied(node));
        return true;
      }
      var built := BuildOne(node);
      if !built {
        return false;
      }
      GoingPlain(graph, discovered, before, done, Built(node));
      if node in discovered {
        var marked := MarkAsDep(node);
        GoingMarked(graph, discovered, before, done, node);
        if !marked {
          return false;
        }
      }
      return true;
    }

    /** The loop of `_install_via_resolution`. */
    method BuildAll(order: seq<string>) returns (ok: bool)
      requires log == [] && IsBuildOrder(graph, order)
      modifies this`log, this`failures
      ensures failures >= old(failures) && (!ok ==> failures > old(failures))
      ensures OnlyMissingBuilt(log)
      ensures DepsReady(graph, log) && MarksMatch(discovered, log)
      ensures ok ==> forall n :: n in order ==> Satisfied(n) in log || Built(n) in log
      ensures ok ==> forall n :: n in discovered && Built(n) in log ==> MarkedAsDep(n) in log
      ensures forall e :: e in log ==> e.pkg in order
    {
      for i := 0 to |order|
        invariant Going(graph, discovered, log, order[..i]) && failures >= old(failures)
      {
        assert order[..i + 1] == order[..i] + [order[i]];
        ok := BuildNode(order[i], order[..i]);
        if !ok {
          assert forall n :: n in order[..i + 1] ==> n in order;
          return;
        }
      }
      assert order[..|order|] == order;
      return true;
    }
  }

  lemma DepsReadySnoc(g: Graph, log: seq<Event>, e: Event)
    requires DepsReady(g, log)
    requires e.Built? ==> forall d :: d in Deps(g, e.pkg) ==> Satisfied(d) in log || Built(d) in log
    ensures DepsReady(g, log + [e])
  {
    var after := log + [e];
    forall i, d | 0 <= i < |after| && after[i].Built? && d in Deps(g, after[i].pkg)
      ensures Satisfied(d) in after[..i] || Built(d) in after[..i]
    {
      if i < |log| {
        assert after[i] == log[i] && after[..i] == log[..i];
      } else {
        assert after[..i] == log;
      }
    }
  }

  lemma MarksMatchSnoc(discovered: set<string>, log: seq<Event>, e: Event)
    requires MarksMatch(discovered, log)
    requires if e.MarkedAsDep? then e.pkg in discovered && log != [] && log[|log| - 1] == Built(e.pkg)
             else log != [] && log[|log| - 1].Built? ==> log[|log| - 1].pkg !in discovered
    ensures MarksMatch(discovered, log + [e])
  {
    var after := log + [e];
    assert forall i :: 0 <= i < |log| ==> after[i] == log[i];
  }

  /** Adding one event keeps the log in order. */
  lemma LogSnoc(g: Graph, discovered: set<string>, log: seq<Event>, e: Event)
    requires DepsReady(g, log) && MarksMatch(discovered, log)
    requires e.Built? ==> forall d :: d in Deps(g, e.pkg) ==> Satisfied(d) in log || Built(d) in log
    requires if e.MarkedAsDep? then e.pkg in discovered && log != [] && log[|log| - 1] == Built(e.pkg)
             else log != [] && log[|log| - 1].Built? ==> log[|log| - 1].pkg !in discovered
    ensures DepsReady(g, log + [e]) && MarksMatch(discovered, log + [e])
  {
    DepsReadySnoc(g, log, e);
    MarksMatchSnoc(discovered, log, e);
  }

  datatype Outcome = Done | ResolveFailed | CycleFound(path: seq<string>) | BuildFailed

  // ---------------------------------------------------------------- cycles

  /** A chain of build dependencies among what is needed. */
  ghost predicate NeedChain(w: World, pkgs: seq<string>, p: seq<string>) {
    && p != [] && Needed(w, pkgs, p[0])
    && forall i :: 0 <= i < |p| - 1 ==> p[i + 1] in WorldDeps(w, p[i])
  }

  /** Something needed needs itself. */
  ghost predicate CyclicNeeds(w: World, pkgs: seq<string>) {
    exists p :: NeedChain(w, pkgs, p) && |p| > 1 && p[0] == p[|p| - 1]
  }

  lemma {:induction false} ChainNeeded(w: World, pkgs: seq<string>, p: seq<string>, i: nat)
    requires NeedChain(w, pkgs, p) && i < |p|
    ensures Needed(w, pkgs, p[i])
  {
    if i > 0 {
      ChainNeeded(w, pkgs, p, i - 1);
      assert p[i - 1 + 1] in WorldDeps(w, p[i - 1]);
      DepNeeded(w, pkgs, p[i - 1], p[i]);
    }
  }

  /** The walks of the resolved graph are the chains of what is needed. */
  lemma WalksAreChains(w: World, pkgs: seq<string>, graph: Graph, discovered: set<string>, p: seq<string>)
    requires Resolved(w, pkgs, graph, discovered) && |p| > 1
    ensures IsWalk(graph, p) <==> NeedChain(w, pkgs, p)
  {
    if IsWalk(graph, p) {
      assert p[0 + 1] in Deps(graph, p[0]);
      forall i | 0 <= i < |p| - 1
        ensures p[i + 1] in WorldDeps(w, p[i])
      {
        assert p[i + 1] in Deps(graph, p[i]);
      }
    }
    if NeedChain(w, pkgs, p) {
      forall i | 0 <= i < |p| - 1
        ensures p[i + 1] in Deps(graph, p[i])
      {
        ChainNeeded(w, pkgs, p, i);
        assert p[i + 1] in WorldDeps(w, p[i]);
      }
    }
  }

  lemma CyclicIff(w: World, pkgs: seq<string>, graph: Graph, discovered: set<string>)
    requires Resolved(w, pkgs, graph, discovered)
    ensures Cyclic(graph) <==> CyclicNeeds(w, pkgs)
  {
    if Cyclic(graph) {
      var p :| IsWalk(graph, p) && |p| > 1 && p[0] == p[|p| - 1];
      WalksAreChains(w, pkgs, graph, discovered, p);
    }
    if CyclicNeeds(w, pkgs) {
      var p :| NeedChain(w, pkgs, p) && |p| > 1 && p[0] == p[|p| - 1];
      WalksAreChains(w, pkgs, graph, discovered, p);
    }
  }

  /** A chain that returns to where it has been. */
  ghost predicate Returning(w: World, pkgs: seq<string>, p: seq<string>) {
    |p| > 1 && NeedChain(w, pkgs, p) && p[|p| - 1] in p[..|p| - 1]
  }

  /** The sort of a resolved graph. */
  method SortResolved(ghost w: World, ghost pkgs: seq<string>, graph: Graph, ghost discovered: set<string>)
    returns (sorted: Result, order: seq<string>)
    requires Resolved(w, pkgs, graph, discovered)
    ensures sorted.Cycle? <==> CyclicNeeds(w, pkgs)
    ensures sorted.Cycle? ==> Returning(w, pkgs, sorted.path)
    ensures sorted.Ok? ==> IsBuildOrder(graph, order)
  {
    var sorter := new Sorter(graph);
    sorted := sorter.Sort();
    order := sorter.order;
    CyclicIff(w, pkgs, graph, discovered);
    if sorted.Cycle? {
      WalksAreChains(w, pkgs, graph, discovered, sorted.path);
    }
  }

  /** `_install_via_resolution`: resolve everything, sort it, build it. A cycle is reported exactly
      when everything resolves and something needed needs itself, and the path reported is a chain
      of build dependencies that returns into itself. */
  method InstallViaResolution(w: World, pkgs: seq<string>) returns (outcome: Outcome, ghost log: seq<Event>, ghost failures: nat)
    ensures outcome.BuildFailed? ==> failures > 0
    ensures OnlyMissingBuilt(log)
    ensures outcome.ResolveFailed? <==> Unresolved(w, pkgs)
    ensures forall i, d :: 0 <= i < |log| && log[i].Built? && d in WorldDeps(w, log[i].pkg) ==>
      Satisfied(d) in log[..i] || Built(d) in log[..i]
    ensures forall e :: e in log ==> Needed(w, pkgs, e.pkg)
    ensures forall e :: e in log && e.MarkedAsDep? ==> e.pkg !in pkgs && Built(e.pkg) in log
    ensures outcome.Done? ==> forall n :: Needed(w, pkgs, n) ==> Satisfied(n) in log || Built(n) in log
    ensures outcome.Done? ==> forall e :: e in log && e.Built? && e.pkg !in pkgs ==> MarkedAsDep(e.pkg) in log
    ensures outcome.ResolveFailed? || outcome.CycleFound? ==> log == []
    ensures outcome.CycleFound? <==> !Unresolved(w, pkgs) && CyclicNeeds(w, pkgs)
    ensures outcome.CycleFound? ==> Returning(w, pkgs, outcome.path)
  {
    log, failures := [], 0;
    var resolved := ResolveGraph(w, pkgs);
    if resolved.Abort? {
      return ResolveFailed, log, failures;
    }
    var (graph, discovered) := resolved.value;
    var sorted, order := SortResolved(w, pkgs, graph, discovered);
    if sorted.Cycle? {
      return CycleFound(sorted.path), log, failures;
    }
    var builder := new Builder(graph, discovered);
    var ok := builder.BuildAll(order);
    log, failures := builder.log, builder.failures;
    InstallLog(w, pkgs, graph, discovered, order, log);
    return if ok then Done else BuildFailed, log, failures;
  }

  lemma InstallLog(w: World, pkgs: seq<string>, graph: Graph, discovered: set<string>,
                   order: seq<string>, log: seq<Event>)
    requires Resolved(w, pkgs, graph, discovered) && IsBuildOrder(graph, order)
    requires DepsReady(graph, log) && MarksMatch(discovered, log)
    requires forall e :: e in log ==> e.pkg in order
    ensures forall n :: n in order <==> Needed(w, pkgs, n)
    ensures forall e :: e in log ==> Needed(w, pkgs, e.pkg)
    ensures forall i, d :: 0 <= i < |log| && log[i].Built? && d in WorldDeps(w, log[i].pkg) ==>
      Satisfied(d) in log[..i] || Built(d) in log[..i]
    ensures forall e :: e in log && e.MarkedAsDep? ==> e.pkg !in pkgs && Built(e.pkg) in log
  {
    assert Nodes(graph) == graph.Keys;
    forall i, d | 0 <= i < |log| && log[i].Built? && d in WorldDeps(w, log[i].pkg)
      ensures Satisfied(d) in log[..i] || Built(d) in log[..i]
    {
      assert log[i] in log;
      assert Deps(graph, log[i].pkg) == WorldDeps(w, log[i].pkg);
    }
    forall e | e in log && e.MarkedAsDep?
      ensures e.pkg !in pkgs && Built(e.pkg) in log
    {
      var i :| 0 <= i < |log| && log[i] == e;
      assert log[i - 1] in log;
    }
  }
}
