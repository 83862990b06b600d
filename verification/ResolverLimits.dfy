// What the client's resolver does with releases that make demands on their own
// mod: it may panic, and its answer may not be closed.
module ResolverLimits {
  import opened Seqs
  import opened ClientResolver

  // A caller can look at the listed releases before the call: if each of them has
  // what it asks of its own mod, every answer is closed.  An answer that chooses
  // one that has not is never closed.
  lemma {:induction false} ClosedWithoutSelfDemands(p: Provider, root: string, rootVersion: string,
                                                    snapshot: map<string, string>)
    requires Solves(p, root, rootVersion, snapshot)
    ensures (forall m, v | Listed(p, root, rootVersion, m, v) :: SelfMet(p, m, v)) ==>
              Closed(p, snapshot[root := rootVersion])
    ensures !SelfMet(p, root, rootVersion) ==> !Closed(p, snapshot[root := rootVersion])
  {
    var chosen := snapshot[root := rootVersion];
    if forall m, v | Listed(p, root, rootVersion, m, v) :: SelfMet(p, m, v) {
      forall m | m in chosen ensures SelfMet(p, m, chosen[m]) {
        assert Listed(p, root, rootVersion, m, chosen[m]);
      }
    }
    assert chosen[root] == rootVersion;
  }

  // ----- When a search has one run only

  // No list of candidates is empty, and no candidate of the next mod ends the search.
  ghost predicate Healthy(p: Provider, s: Search) {
    && s.pending != [] && (forall m | m in s.available :: s.available[m] != [])
    && forall i | 0 <= i < |CandidatesOf(s.available, s.pending[0])| ::
         !Hopeless(p, s.pending[0], s.available[s.pending[0]][i], FirstOnly(s.available, s.pending[0], i + 1))
  }

  // A candidate is not both placed and refused.
  lemma PlacedNotRefused(p: Provider, modID: string, version: string, path: seq<Node>, available: Candidates,
                         node: Node)
    requires Placement(p, modID, version, path, available, node) && forall m | m in available :: available[m] != []
    ensures !Refused(p, modID, version, path, available)
  {
    var deps := DependenciesOf(p, modID, version);
    forall d | d in deps ensures !LeavesNothing(p, modID, version, available, d.modid) {
      var i :| 0 <= i < |deps| && deps[i] == d;
      assert node.constraints[i].modid in ModsOf(node.constraints);
    }
    forall i | 0 <= i < |path| ensures FitWith(p, path[i], modID, version) {
      assert FitTogether(p, path[i], node);
    }
  }

  lemma PlacedOneWay(p: Provider, modID: string, version: string, path: seq<Node>, available: Candidates,
                     a: Node, b: Node)
    requires Placement(p, modID, version, path, available, a) && Placement(p, modID, version, path, available, b)
    ensures a == b
  {
    assert a.versionSnapshot == b.versionSnapshot;
  }

  // The n-th candidate is not refused if a turn ends there.
  lemma EndNotRefused(p: Provider, s: Search, n: nat, r: Turn)
    requires Healthy(p, s) && 0 < n && TurnIs(p, s.pending[0], s.path, s.pending[1..], s.available, n, r)
    ensures r.Continue?
    ensures !Refused(p, s.pending[0], s.available[s.pending[0]][n - 1], s.path, FirstOnly(s.available, s.pending[0], n))
  {
    var left := FirstOnly(s.available, s.pending[0], n);
    forall m | m in left ensures left[m] != [] {}
    PlacedNotRefused(p, s.pending[0], s.available[s.pending[0]][n - 1], s.path, left, r.path[|s.path|]);
  }

  // Refusals go no further down than to where a turn ends.
  lemma RefusalsEnd(p: Provider, s: Search, n: nat, n': nat, r': Turn)
    requires Healthy(p, s) && RefusedDownTo(p, s.pending[0], s.path, s.available, n)
    requires TurnIs(p, s.pending[0], s.path, s.pending[1..], s.available, n', r')
    ensures n' <= n
  {
    if n < n' {
      EndNotRefused(p, s, n', r');
    }
  }

  lemma {:induction false} TurnsOneWay(p: Provider, s: Search, n: nat, r: Turn, n': nat, r': Turn)
    requires Healthy(p, s)
    requires TurnIs(p, s.pending[0], s.path, s.pending[1..], s.available, n, r)
    requires TurnIs(p, s.pending[0], s.path, s.pending[1..], s.available, n', r')
    ensures r == r'
  {
    RefusalsEnd(p, s, n, n', r');
    RefusalsEnd(p, s, n', n, r);
    if n > 0 {
      EndNotRefused(p, s, n, r);
      EndNotRefused(p, s, n, r');
      SameEnd(p, s.pending[0], s.path, s.pending[1..], s.available, n, r, r');
    }
  }

  lemma SameEnd(p: Provider, modID: string, path: seq<Node>, queue: seq<string>, available: Candidates, n: nat,
                r: Turn, r': Turn)
    requires n > 0 && r.Continue? && r'.Continue?
    requires TurnIs(p, modID, path, queue, available, n, r) && TurnIs(p, modID, path, queue, available, n, r')
    ensures r == r'
  {
    EndsOneWay(p, modID, CandidatesOf(available, modID)[n - 1], path, queue, FirstOnly(available, modID, n), r, r');
  }

  lemma EndsOneWay(p: Provider, modID: string, version: string, path: seq<Node>, queue: seq<string>,
                   available: Candidates, r: Turn, r': Turn)
    requires EndsAt(p, modID, version, path, queue, available, r) && r.Continue?
    requires EndsAt(p, modID, version, path, queue, available, r') && r'.Continue?
    ensures r == r'
  {
    PlacedOneWay(p, modID, version, path, available, r.path[|path|], r'.path[|path|]);
  }

  lemma MovesOneWay(p: Provider, s: Search, t: Turn, u: Turn)
    requires Healthy(p, s) && Moves(p, s, t) && Moves(p, s, u)
    ensures t == u
  {
    var n :| TurnIs(p, s.pending[0], s.path, s.pending[1..], s.available, n, t);
    var m :| TurnIs(p, s.pending[0], s.path, s.pending[1..], s.available, m, u);
    TurnsOneWay(p, s, n, t, m, u);
  }

  // The search goes this way, and ends so.
  ghost predicate Way(p: Provider, root: string, rootVersion: string, way: seq<Search>, r: Outcome) {
    && IsRun(p, root, rootVersion, way) && EndsWith(p, way[|way| - 1], r)
    && forall i | 0 <= i < |way| && way[i].pending != [] :: Healthy(p, way[i])
  }

  lemma {:induction false} RunGoesThisWay(p: Provider, root: string, rootVersion: string, way: seq<Search>, r: Outcome,
                                          run: seq<Search>, i: nat)
    requires Way(p, root, rootVersion, way, r) && IsRun(p, root, rootVersion, run) && i < |way| && i < |run|
    ensures run[i] == way[i]
  {
    if i > 0 {
      RunGoesThisWay(p, root, rootVersion, way, r, run, i - 1);
      assert Moves(p, way[i - 1], Next(way[i - 1 + 1])) && Moves(p, run[i - 1], Next(run[i - 1 + 1]));
      MovesOneWay(p, way[i - 1], Next(way[i]), Next(run[i]));
    }
  }

  // Then every run ends so.
  lemma {:induction false} OneOutcome(p: Provider, root: string, rootVersion: string, way: seq<Search>, r: Outcome,
                                      run: seq<Search>, r': Outcome)
    requires Way(p, root, rootVersion, way, r)
    requires IsRun(p, root, rootVersion, run) && EndsWith(p, run[|run| - 1], r')
    ensures r' == r
  {
    var last := if |run| < |way| then |run| - 1 else |way| - 1;
    RunGoesThisWay(p, root, rootVersion, way, r, run, last);
    var s := way[last];
    if |run| < |way| {
      assert Moves(p, way[last], Next(way[last + 1]));
      MovesOneWay(p, s, Next(way[last + 1]), Stop(r'));
    } else if |way| < |run| {
      assert Moves(p, run[last], Next(run[last + 1]));
      MovesOneWay(p, s, Next(run[last + 1]), Stop(r));
    } else if s.pending != [] {
      MovesOneWay(p, s, Stop(r), Stop(r'));
    }
  }

  // ----- An example

  const ANY := "any"
  const OLD := "old"

  const ON_B := Dependency("B", ANY, [])
  const ON_D := Dependency("D", ANY, [])
  const ON_OLD_B := Dependency("B", OLD, [])

  // The root A asks for B and for D.  B 2 asks for B in a version that only B 1 is,
  // and D needs a feature.
  function SelfRejecting(gpu: bool): Provider {
    Provider(
      map["B" := ["1", "2"], "D" := ["1"]],
      map[("A", "1") := [Package("a", [], [ON_B, ON_D])],
          ("B", "1") := [Package("b", [], [])],
          ("B", "2") := [Package("b", [], [ON_OLD_B])],
          ("D", "1") := [Package("d", ["gpu"], [])]],
      f => gpu, t => true, t => true,
      (text, version) => text == ANY || version == "1")
  }

  const START: Candidates := map["A" := ["1"]]
  const BEHIND_A: Candidates := map["A" := ["1"], "B" := ["1", "2"], "D" := ["1"]]
  const BEHIND_B: Candidates := map["A" := ["1"], "B" := ["1"], "D" := ["1"]]

  const NODE_A := Node("A", "1", [Constraint("B", ANY), Constraint("D", ANY)], BEHIND_A, {"a"},
                       map["B" := [], "D" := []])
  const NODE_B := Node("B", "2", [Constraint("B", OLD)], BEHIND_B, {"b"}, map["B" := []])
  const NODE_D := Node("D", "1", [], BEHIND_B, {"d"}, map[])

  lemma OnePackage(p: Provider, m: string, v: string, name: string, deps: seq<Dependency>)
    requires (m, v) in p.releases && |p.releases[(m, v)]| == 1
    requires var pkg := p.releases[(m, v)][0];
             pkg.name == name && pkg.dependencies == deps && forall f | f in pkg.features :: p.supportsFeature(f)
    ensures PackagesOf(p, m, v) == p.releases[(m, v)] && DependenciesOf(p, m, v) == deps
    ensures Names(PackagesOf(p, m, v)) == {name}
  {
    var pkgs := p.releases[(m, v)];
    assert pkgs[1..] == [] && SupportedPackages(p, pkgs) == pkgs;
    assert pkgs[..0] == [] && Dependencies(pkgs) == [] + deps;
  }

  lemma AskedByOne(d: Dependency)
    ensures Required([d]) == map[d.modid := d.packages] && Constraints([d]) == [Constraint(d.modid, d.constraint)]
  {
    assert [d][..0] == [];
    assert [] + d.packages == d.packages;
  }

  lemma AskedByTwo(d: Dependency, e: Dependency)
    requires d.modid != e.modid
    ensures Required([d, e]) == map[d.modid := d.packages, e.modid := e.packages]
    ensures Constraints([d, e]) == [Constraint(d.modid, d.constraint), Constraint(e.modid, e.constraint)]
  {
    assert [d, e][..1] == [d];
    AskedByOne(d);
    assert [] + e.packages == e.packages;
  }

  lemma KeepOfOne(p: Provider, cons: seq<Constraint>, m: string, v: string)
    ensures Keep(p, cons, m, [v]) == if AllowedByAll(p, cons, m, v) then [v] else []
  {
  }

  lemma KeepOfTwo(p: Provider, cons: seq<Constraint>, m: string, v: string, w: string)
    ensures Keep(p, cons, m, [v, w]) ==
            (if AllowedByAll(p, cons, m, v) then [v] else []) + if AllowedByAll(p, cons, m, w) then [w] else []
  {
    assert [v, w][1..] == [w];
    KeepOfOne(p, cons, m, w);
  }

  lemma NodesAreNodes(gpu: bool)
    ensures var p := SelfRejecting(gpu);
            && NodeOf(p, NODE_A) && NodeOf(p, NODE_B) && (gpu ==> NodeOf(p, NODE_D))
            && DependenciesOf(p, "A", "1") == [ON_B, ON_D] && DependenciesOf(p, "B", "2") == [ON_OLD_B]
            && (if gpu then DependenciesOf(p, "D", "1") == [] else PackagesOf(p, "D", "1") == [])
  {
    var p := SelfRejecting(gpu);
    OnePackage(p, "A", "1", "a", [ON_B, ON_D]);
    OnePackage(p, "B", "2", "b", [ON_OLD_B]);
    AskedByTwo(ON_B, ON_D);
    AskedByOne(ON_OLD_B);
    if gpu {
      OnePackage(p, "D", "1", "d", []);
    } else {
      Unsupported(p, Package("d", ["gpu"], []), "gpu");
    }
  }

  lemma Unsupported(p: Provider, pkg: Package, f: string)
    requires f in pkg.features && f != "" && !p.supportsFeature(f)
    ensures SupportedPackages(p, [pkg]) == []
  {
  }

  lemma NarrowedByA(gpu: bool)
    ensures NarrowedBy(SelfRejecting(gpu), NODE_A.constraints, START, BEHIND_A)
  {
    KeptByA(gpu);
  }

  lemma KeptByA(gpu: bool)
    ensures var p, cons := SelfRejecting(gpu), NODE_A.constraints;
            && ModsOf(cons) == {"B", "D"} && Keep(p, cons, "B", ["1", "2"]) == ["1", "2"]
            && Keep(p, cons, "A", ["1"]) == ["1"] && Keep(p, cons, "D", ["1"]) == ["1"]
  {
    var p, cons := SelfRejecting(gpu), NODE_A.constraints;
    KeepOfOne(p, cons, "A", "1");
    KeepOfOne(p, cons, "D", "1");
    KeepOfTwo(p, cons, "B", "1", "2");
    ModsOneMore([], cons[0]);
    ModsOneMore([cons[0]], cons[1]);
    assert [] + [cons[0]] == [cons[0]] && [cons[0]] + [cons[1]] == cons;
  }

  lemma NarrowedByB(gpu: bool)
    ensures NarrowedBy(SelfRejecting(gpu), NODE_B.constraints, BEHIND_A, BEHIND_B)
  {
    KeptByB(gpu);
  }

  lemma KeptByB(gpu: bool)
    ensures var p, cons := SelfRejecting(gpu), NODE_B.constraints;
            && ModsOf(cons) == {"B"} && Keep(p, cons, "B", ["1", "2"]) == ["1"]
            && Keep(p, cons, "A", ["1"]) == ["1"] && Keep(p, cons, "D", ["1"]) == ["1"]
  {
    var p, cons := SelfRejecting(gpu), NODE_B.constraints;
    KeepOfOne(p, cons, "A", "1");
    KeepOfOne(p, cons, "D", "1");
    KeepOfTwo(p, cons, "B", "1", "2");
    ModsOneMore([], cons[0]);
    assert [] + [cons[0]] == cons;
    assert Constraint("B", OLD) in cons && !p.allows(OLD, "2");
    assert AllowedByAll(p, cons, "B", "1") && !AllowedByAll(p, cons, "B", "2");
  }

  lemma FitBy(p: Provider, a: Node, b: Node)
    requires forall d | d in DependenciesOf(p, a.modID, a.version) && d.modid == b.modID :: Meets(p, d, b.version)
    requires forall d | d in DependenciesOf(p, b.modID, b.version) && d.modid == a.modID :: Meets(p, d, a.version)
    ensures FitTogether(p, a, b)
  {
  }

  lemma NodesFit(gpu: bool)
    ensures var p := SelfRejecting(gpu);
            FitTogether(p, NODE_A, NODE_B) && (gpu ==> FitTogether(p, NODE_A, NODE_D) && FitTogether(p, NODE_B, NODE_D))
  {
    var p := SelfRejecting(gpu);
    NodesAreNodes(gpu);
    FitBy(p, NODE_A, NODE_B);
    if gpu {
      FitBy(p, NODE_A, NODE_D);
      FitBy(p, NODE_B, NODE_D);
    }
  }

  // The search puts A and B 2 on the path, and D too if it is supported.
  lemma PlacementOfA(gpu: bool)
    ensures Placement(SelfRejecting(gpu), "A", "1", [], START, NODE_A)
  {
    NodesAreNodes(gpu);
    NarrowedByA(gpu);
  }

  lemma PlacementOfB(gpu: bool)
    ensures Placement(SelfRejecting(gpu), "B", "2", [NODE_A], BEHIND_A, NODE_B)
  {
    NodesAreNodes(gpu);
    NarrowedByB(gpu);
    NodesFit(gpu);
  }

  lemma PlacementOfD()
    ensures Placement(SelfRejecting(true), "D", "1", [NODE_A, NODE_B], BEHIND_B, NODE_D)
  {
    var p := SelfRejecting(true);
    NodesAreNodes(true);
    NarrowedByNothing(p, BEHIND_B);
    NodesFit(true);
    PlacedThird(p, NODE_A, NODE_B, NODE_D, BEHIND_B);
  }

  lemma PlacedThird(p: Provider, a: Node, b: Node, d: Node, available: Candidates)
    requires NodeOf(p, d) && d.constraints == [] && d.versionSnapshot == available
    requires NarrowedBy(p, [], available, available) && FitTogether(p, a, d) && FitTogether(p, b, d)
    ensures Placement(p, d.modID, d.version, [a, b], available, d)
  {
  }

  // ----- Its runs

  const WITH_A := Search([NODE_A], ["B", "D"], BEHIND_A)
  const WITH_B := Search([NODE_A, NODE_B], ["D"], BEHIND_B)
  const WITH_D := Search([NODE_A, NODE_B, NODE_D], [], BEHIND_B)

  predicate EndsIn(versions: seq<string>, version: string) {
    versions != [] && versions[|versions| - 1] == version
  }

  // A turn that places the first candidate it tries.
  lemma PlacesAtOnce(p: Provider, s: Search, modID: string, version: string, queue: seq<string>, node: Node,
                     added: seq<string>, t: Search)
    requires s.pending == [modID] + queue && EndsIn(CandidatesOf(s.available, modID), version)
    requires Placement(p, modID, version, s.path, s.available, node) && added == NewMods(s.available, node.constraints)
    requires t.path == s.path + [node] && t.pending == queue + added && t.available == node.versionSnapshot
    ensures Moves(p, s, Next(t))
  {
    var n := |CandidatesOf(s.available, modID)|;
    AllLeft(s.available, modID);
    assert s.pending[0] == modID && s.pending[1..] == queue && t.path[|s.path|] == node;
    TurnMoves(p, s, n, Next(t));
  }

  // A turn that refuses its only candidate, and finds a node that rejects itself.
  lemma PanicsAtOnce(p: Provider, s: Search, modID: string, version: string)
    requires s.pending == [modID] && CandidatesOf(s.available, modID) == [version] && |s.path| >= 2
    requires PackagesOf(p, modID, version) == []
    requires var n := s.path[|s.path| - 1]; RejectsItself(p, n.modID, n.version)
    ensures Moves(p, s, Stop(Panicked))
  {
    assert s.pending[1..] == [];
    TurnMoves(p, s, 0, Stop(Panicked));
  }

  lemma NewOfTwo(before: Candidates, c: Constraint, d: Constraint)
    requires c.modid !in before && d.modid !in before && c.modid != d.modid
    ensures NewMods(before, [c, d]) == [c.modid, d.modid]
  {
    NewModsOneMore(before, [], c);
    NewModsOneMore(before, [c], d);
    assert [] + [c] == [c] && [c] + [d] == [c, d];
  }

  lemma NewOfOne(before: Candidates, c: Constraint)
    requires c.modid in before
    ensures NewMods(before, [c]) == []
  {
    NewModsOneMore(before, [], c);
    assert [] + [c] == [c];
  }

  lemma Joined<T>(front: seq<T>, e: T, back: seq<T>)
    ensures [] + back == back == back + []
    ensures [e] + [] == [e] == [] + [e]
    ensures |front| == 1 ==> front + [e] == [front[0], e]
    ensures |front| == 2 ==> front + [e] == [front[0], front[1], e]
    ensures |front| == 3 ==> front + [e] == [front[0], front[1], front[2], e]
  {
  }

  lemma MovesToA(p: Provider)
    requires Placement(p, "A", "1", [], START, NODE_A)
    ensures Moves(p, FirstSearch("A", "1"), Next(WITH_A))
  {
    var none: seq<string>, start := [], FirstSearch("A", "1");
    NewOfTwo(START, Constraint("B", ANY), Constraint("D", ANY));
    Joined<Node>([], NODE_A, []);
    Joined<string>([], "A", ["B", "D"]);
    PlacesAtOnce(p, start, "A", "1", none, NODE_A, ["B", "D"], WITH_A);
  }

  lemma MovesToB(p: Provider)
    requires Placement(p, "B", "2", WITH_A.path, WITH_A.available, NODE_B)
    ensures Moves(p, WITH_A, Next(WITH_B))
  {
    NewOfOne(BEHIND_A, Constraint("B", OLD));
    Joined([NODE_A], NODE_B, []);
    Joined(["B"], "D", []);
    PlacesAtOnce(p, WITH_A, "B", "2", ["D"], NODE_B, [], WITH_B);
  }

  lemma MovesToD(p: Provider)
    requires Placement(p, "D", "1", WITH_B.path, WITH_B.available, NODE_D)
    ensures Moves(p, WITH_B, Next(WITH_D))
  {
    var none: seq<string> := [];
    Joined([NODE_A, NODE_B], NODE_D, []);
    Joined<string>([], "D", []);
    PlacesAtOnce(p, WITH_B, "D", "1", none, NODE_D, none, WITH_D);
  }

  lemma RejectsB(gpu: bool)
    ensures RejectsItself(SelfRejecting(gpu), "B", "2")
  {
    NodesAreNodes(gpu);
    assert ON_OLD_B in DependenciesOf(SelfRejecting(gpu), "B", "2");
  }

  lemma ReachesB(gpu: bool)
    ensures IsRun(SelfRejecting(gpu), "A", "1", [FirstSearch("A", "1"), WITH_A, WITH_B])
  {
    PlacementOfA(gpu);
    PlacementOfB(gpu);
    MovesToA(SelfRejecting(gpu));
    MovesToB(SelfRejecting(gpu));
    RunOfThree(SelfRejecting(gpu), "A", "1", WITH_A, WITH_B);
  }

  lemma RunOfThree(p: Provider, root: string, rootVersion: string, a: Search, b: Search)
    requires Moves(p, FirstSearch(root, rootVersion), Next(a)) && Moves(p, a, Next(b))
    ensures IsRun(p, root, rootVersion, [FirstSearch(root, rootVersion), a, b])
  {
    var start := FirstSearch(root, rootVersion);
    RunOneMore(p, root, rootVersion, [start], start, a);
    Joined([start], a, []);
    RunOneMore(p, root, rootVersion, [start, a], a, b);
    Joined([start, a], b, []);
  }

  lemma ReadableIsNotHopeless(p: Provider, m: string, v: string, available: Candidates)
    requires (forall t :: p.isVersion(t) && p.isConstraint(t)) && (m, v) in p.releases
    requires forall d | d in DependenciesOf(p, m, v) :: d.modid in p.versions && p.versions[d.modid] != []
    ensures !Hopeless(p, m, v, available)
  {
  }

  // No candidate ends the search.
  lemma NeverHopeless(gpu: bool, m: string, v: string, available: Candidates)
    requires (m == "A" && v == "1") || (m == "B" && (v == "1" || v == "2")) || (m == "D" && v == "1")
    ensures !Hopeless(SelfRejecting(gpu), m, v, available)
  {
    var p := SelfRejecting(gpu);
    NodesAreNodes(gpu);
    OnePackage(p, "B", "1", "b", []);
    assert DependenciesOf(p, m, v) ==
           (if m == "A" then [ON_B, ON_D] else if m == "B" && v == "2" then [ON_OLD_B] else [])
           || PackagesOf(p, m, v) == [];
    ReadableIsNotHopeless(p, m, v, available);
  }

  lemma HealthySo(gpu: bool)
    ensures var p := SelfRejecting(gpu);
            Healthy(p, FirstSearch("A", "1")) && Healthy(p, WITH_A) && Healthy(p, WITH_B)
  {
    forall m, v, available | (m == "A" && v == "1") || (m == "B" && (v == "1" || v == "2")) || (m == "D" && v == "1")
      ensures !Hopeless(SelfRejecting(gpu), m, v, available)
    {
      NeverHopeless(gpu, m, v, available);
    }
  }

  // Without the feature D is refused, and the call panics: undoing B 2 finds another
  // version at the end of its candidates.
  method PanicsOnB() returns (r: Outcome)
    ensures r == Panicked
  {
    r := GetDependencySnapshot(SelfRejecting(false), "A", "1");
    ghost var run :| IsRun(SelfRejecting(false), "A", "1", run) && EndsWith(SelfRejecting(false), run[|run| - 1], r);
    WayToPanic();
    OneOutcome(SelfRejecting(false), "A", "1", [FirstSearch("A", "1"), WITH_A, WITH_B], Panicked, run, r);
  }

  lemma {:induction false} WayToPanic()
    ensures Way(SelfRejecting(false), "A", "1", [FirstSearch("A", "1"), WITH_A, WITH_B], Panicked)
  {
    ReachesB(false);
    RejectsB(false);
    NodesAreNodes(false);
    HealthySo(false);
    PanicsAtOnce(SelfRejecting(false), WITH_B, "D", "1");
  }

  // With it the call answers with B 2, which does not have the B that it asks for.
  method AnswerNotClosed() returns (r: Outcome)
    ensures r == Resolved(ANSWER) && !Closed(SelfRejecting(true), ANSWER["A" := "1"])
  {
    r := GetDependencySnapshot(SelfRejecting(true), "A", "1");
    ghost var run :| IsRun(SelfRejecting(true), "A", "1", run) && EndsWith(SelfRejecting(true), run[|run| - 1], r);
    WayToAnswer();
    var way := [FirstSearch("A", "1"), WITH_A, WITH_B, WITH_D];
    OneOutcome(SelfRejecting(true), "A", "1", way, Resolved(ANSWER), run, r);
    UnmetDemand(SelfRejecting(true), ANSWER["A" := "1"]);
  }

  const ANSWER: map<string, string> := map["B" := "2", "D" := "1"]

  lemma {:induction false} WayToAnswer()
    ensures Way(SelfRejecting(true), "A", "1", [FirstSearch("A", "1"), WITH_A, WITH_B, WITH_D], Resolved(ANSWER))
  {
    ReachesD();
    HealthySo(true);
    SnapshotOfThree(NODE_A, NODE_B, NODE_D);
  }

  lemma ReachesD()
    ensures IsRun(SelfRejecting(true), "A", "1", [FirstSearch("A", "1"), WITH_A, WITH_B, WITH_D])
  {
    ReachesB(true);
    PlacementOfD();
    MovesToD(SelfRejecting(true));
    RunOneMore(SelfRejecting(true), "A", "1", [FirstSearch("A", "1"), WITH_A, WITH_B], WITH_B, WITH_D);
    Joined([FirstSearch("A", "1"), WITH_A, WITH_B], WITH_D, []);
  }

  lemma SnapshotOfThree(a: Node, b: Node, c: Node)
    requires b.modID != c.modID
    ensures SnapshotOf([a, b, c]) == map[b.modID := b.version, c.modID := c.version]
  {
    assert DropLast([a, b, c]) == [a, b] && DropLast([a, b]) == [a];
    assert SnapshotOf([a]) == map[];
  }

  lemma UnmetDemand(p: Provider, chosen: map<string, string>)
    requires p == SelfRejecting(true) && "B" in chosen && chosen["B"] == "2"
    ensures !Closed(p, chosen)
  {
    NodesAreNodes(true);
    assert ON_OLD_B in DependenciesOf(p, "B", "2") && !Meets(p, ON_OLD_B, "2");
  }
}
