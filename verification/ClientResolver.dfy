// The client's dependency resolver: a backtracking search with a work queue, a
// path of chosen releases and a snapshot of the candidate lists at every node.
module ClientResolver {
  import opened Backtracking
  import opened Seqs

  datatype Dependency = Dependency(modid: string, constraint: string, packages: seq<string>)

  datatype Package = Package(name: string, features: seq<string>, dependencies: seq<Dependency>)

  // What the resolver reads: the mods' versions and releases, the platform, and
  // version and constraint texts as an opaque syntax with an opaque meaning.
  datatype Provider = Provider(
    versions: map<string, seq<string>>,
    releases: map<(string, string), seq<Package>>,
    supportsFeature: string -> bool,
    isVersion: string -> bool,
    isConstraint: string -> bool,
    allows: (string, string) -> bool)

  datatype Constraint = Constraint(modid: string, text: string)

  type Candidates = map<string, seq<string>>

  datatype Node = Node(
    modID: string,
    version: string,
    constraints: seq<Constraint>,
    versionSnapshot: Candidates,
    presentPackages: set<string>,
    requiredPackages: map<string, seq<string>>)

  datatype Outcome = Resolved(snapshot: map<string, string>) | Unsatisfiable | Invalid | Panicked

  // ----- Releases

  function SupportedPackages(p: Provider, pkgs: seq<Package>): seq<Package> {
    if pkgs == [] then []
    else
      var rest := SupportedPackages(p, pkgs[1..]);
      if forall f | f in pkgs[0].features :: f == "" || p.supportsFeature(f) then [pkgs[0]] + rest else rest
  }

  function PackagesOf(p: Provider, modID: string, version: string): seq<Package> {
    if (modID, version) in p.releases then SupportedPackages(p, p.releases[(modID, version)]) else []
  }

  function Names(pkgs: seq<Package>): set<string> {
    set pkg | pkg in pkgs :: pkg.name
  }

  function Dependencies(pkgs: seq<Package>): seq<Dependency> {
    if pkgs == [] then [] else Dependencies(pkgs[..|pkgs| - 1]) + pkgs[|pkgs| - 1].dependencies
  }

  function DependenciesOf(p: Provider, modID: string, version: string): seq<Dependency> {
    Dependencies(PackagesOf(p, modID, version))
  }

  function Constraints(deps: seq<Dependency>): seq<Constraint> {
    seq(|deps|, i requires 0 <= i < |deps| => Constraint(deps[i].modid, deps[i].constraint))
  }

  function Required(deps: seq<Dependency>): map<string, seq<string>> {
    if deps == [] then map[]
    else
      var before := Required(deps[..|deps| - 1]);
      var d := deps[|deps| - 1];
      before[d.modid := (if d.modid in before then before[d.modid] else []) + d.packages]
  }

  lemma {:induction false} RequiredHasAll(deps: seq<Dependency>, d: Dependency, name: string)
    requires d in deps && name in d.packages
    ensures d.modid in Required(deps) && name in Required(deps)[d.modid]
  {
    if d != deps[|deps| - 1] {
      RequiredHasAll(deps[..|deps| - 1], d, name);
    }
  }

  lemma {:induction false} RequiredIsAsked(deps: seq<Dependency>, m: string, name: string)
    requires m in Required(deps) && name in Required(deps)[m]
    ensures exists d :: d in deps && d.modid == m && name in d.packages
  {
    var before, last := Required(deps[..|deps| - 1]), deps[|deps| - 1];
    if !(last.modid == m && name in last.packages) {
      RequiredIsAsked(deps[..|deps| - 1], m, name);
    }
  }

  // ----- What a solution is

  // The dependency d is met when its mod is chosen in this version.
  ghost predicate Meets(p: Provider, d: Dependency, version: string) {
    && p.allows(d.constraint, version)
    && forall name | name in d.packages :: name in Names(PackagesOf(p, d.modid, version))
  }

  ghost predicate SelfMet(p: Provider, modID: string, version: string) {
    forall d | d in DependenciesOf(p, modID, version) && d.modid == modID :: Meets(p, d, version)
  }

  ghost predicate Closed(p: Provider, chosen: map<string, string>) {
    forall m | m in chosen ::
      && PackagesOf(p, m, chosen[m]) != []
      && forall d | d in DependenciesOf(p, m, chosen[m]) :: d.modid in chosen && Meets(p, d, chosen[d.modid])
  }

  // Closed but for what releases ask of their own mod.
  ghost predicate OthersMet(p: Provider, chosen: map<string, string>) {
    && (forall m | m in chosen :: PackagesOf(p, m, chosen[m]) != [])
    && forall m, d | m in chosen && d in DependenciesOf(p, m, chosen[m]) && d.modid != m ::
         d.modid in chosen && Meets(p, d, chosen[d.modid])
  }

  lemma ClosedButForItself(p: Provider, chosen: map<string, string>)
    requires OthersMet(p, chosen)
    ensures Closed(p, chosen) <==> forall m | m in chosen :: SelfMet(p, m, chosen[m])
  {
  }

  ghost predicate RejectsItself(p: Provider, modID: string, version: string) {
    exists d :: d in DependenciesOf(p, modID, version) && d.modid == modID && !p.allows(d.constraint, version)
  }

  // ----- Candidate lists

  function AllVersions(p: Provider, root: string, rootVersion: string, modID: string): seq<string> {
    if modID == root then [rootVersion] else if modID in p.versions then p.versions[modID] else []
  }

  predicate AllowedByAll(p: Provider, cons: seq<Constraint>, modID: string, version: string) {
    forall con | con in cons :: con.modid == modID ==> p.allows(con.text, version)
  }

  // The versions of a mod that every constraint on that mod allows, in order.
  function Keep(p: Provider, cons: seq<Constraint>, modID: string, versions: seq<string>): seq<string> {
    if versions == [] then []
    else
      var rest := Keep(p, cons, modID, versions[1..]);
      if AllowedByAll(p, cons, modID, versions[0]) then [versions[0]] + rest else rest
  }

  lemma {:induction false} KeepIsExact(p: Provider, cons: seq<Constraint>, modID: string, versions: seq<string>)
    ensures var kept := Keep(p, cons, modID, versions);
            && |kept| <= |versions|
            && (forall v :: v in kept <==> v in versions && AllowedByAll(p, cons, modID, v))
            && (|versions| > 0 && AllowedByAll(p, cons, modID, versions[|versions| - 1]) ==>
                  |kept| > 0 && kept[|kept| - 1] == versions[|versions| - 1])
  {
    if versions != [] {
      KeepIsExact(p, cons, modID, versions[1..]);
      assert versions == [versions[0]] + versions[1..];
    }
  }

  lemma {:induction false} KeepNothing(p: Provider, modID: string, versions: seq<string>)
    ensures Keep(p, [], modID, versions) == versions
  {
    if versions != [] {
      KeepNothing(p, modID, versions[1..]);
    }
  }

  // One more constraint filters what the earlier ones kept.
  lemma {:induction false} KeepOneMore(p: Provider, cons: seq<Constraint>, con: Constraint, modID: string,
                                       versions: seq<string>)
    ensures con.modid == modID ==>
              Keep(p, cons + [con], modID, versions) == Keep(p, [con], modID, Keep(p, cons, modID, versions))
    ensures con.modid != modID ==> Keep(p, cons + [con], modID, versions) == Keep(p, cons, modID, versions)
  {
    if versions != [] {
      KeepOneMore(p, cons, con, modID, versions[1..]);
      assert forall c :: c in cons + [con] <==> c in cons || c == con;
      assert AllowedByAll(p, cons + [con], modID, versions[0]) <==>
             AllowedByAll(p, cons, modID, versions[0]) && AllowedByAll(p, [con], modID, versions[0]);
    }
  }

  ghost predicate Readable(p: Provider, versions: seq<string>) {
    forall v | v in versions :: p.isVersion(v)
  }

  // The loop at the end of the constraint step, which deletes in place from the
  // back; an unreadable version ends the whole search.
  method FilterVersions(p: Provider, con: Constraint, candidates: seq<string>)
    returns (ok: bool, versions: seq<string>)
    ensures ok <==> Readable(p, candidates)
    ensures ok ==> versions == Keep(p, [con], con.modid, candidates)
  {
    versions := candidates;
    var idx := |versions|;
    while idx > 0
      invariant 0 <= idx <= |candidates|
      invariant forall i | idx <= i < |candidates| :: p.isVersion(candidates[i])
      invariant versions == candidates[..idx] + Keep(p, [con], con.modid, candidates[idx..])
    {
      idx := idx - 1;
      if !p.isVersion(versions[idx]) {
        assert candidates[idx] in candidates;
        return false, [];
      }
      assert candidates[idx..][1..] == candidates[idx + 1..];
      if !p.allows(con.text, versions[idx]) {
        versions := versions[..idx] + versions[idx + 1..];
      }
    }
    return true, versions;
  }

  datatype Narrowing = Narrowed(available: Candidates, queue: seq<string>) | NoneLeft | Unreadable

  function Left(p: Provider, available: Candidates, modID: string): seq<string> {
    if modID in available then available[modID] else if modID in p.versions then p.versions[modID] else []
  }

  function ModsOf(cons: seq<Constraint>): (mods: set<string>)
    ensures forall con | con in cons :: con.modid in mods
  {
    if cons == [] then {} else ModsOf(cons[..|cons| - 1]) + {cons[|cons| - 1].modid}
  }

  // available after the constraints cons were applied to before.
  ghost predicate NarrowedBy(p: Provider, cons: seq<Constraint>, before: Candidates, available: Candidates) {
    && available.Keys == before.Keys + ModsOf(cons)
    && (forall m | m in available :: m in before || m in p.versions)
    && (forall m | m in available && available[m] == [] :: m in before && before[m] == [])
    && forall m | m in available :: available[m] == Keep(p, cons, m, Left(p, before, m))
  }

  // The mods that a list of constraints mentions for the first time, in order.
  function NewMods(before: Candidates, cons: seq<Constraint>): seq<string> {
    if cons == [] then []
    else
      var mods, m := NewMods(before, cons[..|cons| - 1]), cons[|cons| - 1].modid;
      if m in before || m in mods then mods else mods + [m]
  }

  lemma {:induction false} NewModsAre(before: Candidates, cons: seq<Constraint>)
    ensures forall m :: m in NewMods(before, cons) <==> m in ModsOf(cons) && m !in before
  {
    if cons != [] {
      NewModsAre(before, cons[..|cons| - 1]);
    }
  }

  lemma NewModsOneMore(before: Candidates, cons: seq<Constraint>, con: Constraint)
    ensures NewMods(before, cons + [con]) ==
            NewMods(before, cons) +
            if con.modid in before || con.modid in NewMods(before, cons) then [] else [con.modid]
  {
    assert (cons + [con])[..|cons|] == cons;
  }

  // The queue grows by exactly the mods that got their first candidate list.
  ghost predicate Enqueued(before: Candidates, available: Candidates, added: seq<string>) {
    && (forall m | m in added :: m in available && m !in before)
    && forall m | m in available :: m in before || m in added
  }

  // The versions of a mod cannot be had: it has none, or one that is unreadable.
  ghost predicate Untellable(p: Provider, available: Candidates, modID: string) {
    (modID !in available && Left(p, available, modID) == []) || !Readable(p, Left(p, available, modID))
  }

  // One constraint: fetch the mod's versions if it is new, then filter them.
  method NarrowOne(p: Provider, con: Constraint, available: Candidates) returns (ok: bool, kept: seq<string>)
    ensures ok ==> kept == Keep(p, [con], con.modid, Left(p, available, con.modid))
    ensures ok ==> con.modid in available || (con.modid in p.versions && p.versions[con.modid] != [])
    ensures !ok ==> Untellable(p, available, con.modid)
  {
    var versions := [];
    if con.modid in available {
      versions := available[con.modid];
    } else if con.modid !in p.versions || p.versions[con.modid] == [] {
      return false, [];
    } else {
      versions := p.versions[con.modid];
    }
    ok, kept := FilterVersions(p, con, versions);
  }

  lemma NewModsEnqueued(p: Provider, cons: seq<Constraint>, before: Candidates, available: Candidates)
    requires NarrowedBy(p, cons, before, available)
    ensures Enqueued(before, available, NewMods(before, cons))
  {
    NewModsAre(before, cons);
  }

  method NarrowCandidates(p: Provider, cons: seq<Constraint>, before: Candidates, queueBefore: seq<string>)
    returns (r: Narrowing)
    ensures r.Narrowed? ==> NarrowedBy(p, cons, before, r.available)
    ensures r.Narrowed? ==> r.queue == queueBefore + NewMods(before, cons)
    ensures r.NoneLeft? ==> exists con :: con in cons && Emptied(p, cons, before, con.modid)
    ensures r.Unreadable? ==> exists con :: con in cons && Untellable(p, before, con.modid)
  {
    var available, queue := before, queueBefore;
    ghost var done := [];
    NarrowedByNothing(p, before);
    for i := 0 to |cons|
      invariant done == cons[..i]
      invariant NarrowedBy(p, done, before, available)
      invariant queue == queueBefore + NewMods(before, done)
    {
      var con := cons[i];
      var ok, kept := NarrowOne(p, con, available);
      if !ok {
        UntellableBefore(p, done, before, available, con.modid);
        assert con in cons;
        return Unreadable;
      }
      NarrowedByOneMore(p, done, con, before, available);
      NewModsAre(before, done);
      NewModsOneMore(before, done, con);
      TakeOneMore(cons, i);
      done := done + [con];
      if kept == [] {
        NothingLeft(p, cons, i + 1, con.modid, Left(p, before, con.modid));
        HadVersions(p, cons[..i], before, available, con.modid);
        assert con in cons && Emptied(p, cons, before, con.modid);
        return NoneLeft;
      }
      if con.modid !in available {
        queue := queue + [con.modid];
      }
      available := available[con.modid := kept];
    }
    TakeAll(cons);
    return Narrowed(available, queue);
  }

  // The constraints leave nothing of what is there of a mod.
  ghost predicate Emptied(p: Provider, cons: seq<Constraint>, before: Candidates, m: string) {
    (m in before || Left(p, before, m) != []) && Keep(p, cons, m, Left(p, before, m)) == []
  }

  lemma HadVersions(p: Provider, cons: seq<Constraint>, before: Candidates, available: Candidates, m: string)
    requires NarrowedBy(p, cons, before, available)
    requires m in available || (m in p.versions && p.versions[m] != [])
    ensures m in before || Left(p, before, m) != []
  {
  }

  lemma UntellableBefore(p: Provider, cons: seq<Constraint>, before: Candidates, available: Candidates, modID: string)
    requires NarrowedBy(p, cons, before, available) && Untellable(p, available, modID)
    ensures Untellable(p, before, modID)
  {
    KeepIsExact(p, cons, modID, Left(p, before, modID));
  }

  lemma {:induction false} NarrowedByNothing(p: Provider, before: Candidates)
    ensures NarrowedBy(p, [], before, before)
  {
    forall m | m in before ensures Keep(p, [], m, Left(p, before, m)) == before[m] {
      KeepNothing(p, m, before[m]);
    }
  }

  lemma {:induction false} NarrowedByOneMore(p: Provider, cons: seq<Constraint>, con: Constraint,
                                             before: Candidates, available: Candidates)
    requires NarrowedBy(p, cons, before, available)
    requires con.modid in available || con.modid in p.versions
    ensures var kept := Keep(p, [con], con.modid, Left(p, available, con.modid));
            && kept == Keep(p, cons + [con], con.modid, Left(p, before, con.modid))
            && (kept != [] ==> NarrowedBy(p, cons + [con], before, available[con.modid := kept]))
  {
    var m := con.modid;
    if m !in available {
      NoConstraintsOn(p, cons, m, Left(p, before, m));
    }
    KeepOneMore(p, cons, con, m, Left(p, before, m));
    forall n | n in available && n != m
      ensures Keep(p, cons + [con], n, Left(p, before, n)) == available[n]
    {
      KeepOneMore(p, cons, con, n, Left(p, before, n));
    }
    var kept := Keep(p, [con], m, Left(p, available, m));
    if kept != [] {
      NarrowedAt(p, cons, con, before, available, kept);
    }
  }

  lemma NarrowedAt(p: Provider, cons: seq<Constraint>, con: Constraint, before: Candidates, available: Candidates,
                   kept: seq<string>)
    requires NarrowedBy(p, cons, before, available) && (con.modid in available || con.modid in p.versions)
    requires kept != [] && kept == Keep(p, cons + [con], con.modid, Left(p, before, con.modid))
    requires forall n | n in available && n != con.modid :: Keep(p, cons + [con], n, Left(p, before, n)) == available[n]
    ensures NarrowedBy(p, cons + [con], before, available[con.modid := kept])
  {
  }

  lemma ModsOneMore(cons: seq<Constraint>, con: Constraint)
    ensures ModsOf(cons + [con]) == ModsOf(cons) + {con.modid}
  {
  }

  lemma {:induction false} NoConstraintsOn(p: Provider, cons: seq<Constraint>, modID: string, versions: seq<string>)
    requires forall con | con in cons :: con.modid != modID
    ensures Keep(p, cons, modID, versions) == versions
  {
    if versions != [] {
      NoConstraintsOn(p, cons, modID, versions[1..]);
    }
  }

  // A mod that the first n constraints leave without versions stays without.
  lemma {:induction false} NothingLeft(p: Provider, cons: seq<Constraint>, n: nat, modID: string, versions: seq<string>)
    requires n <= |cons| && Keep(p, cons[..n], modID, versions) == []
    ensures Keep(p, cons, modID, versions) == []
  {
    if versions != [] {
      NothingLeft(p, cons, n, modID, versions[1..]);
    }
  }

  // ----- One candidate against the path

  // The node carries exactly what its release says.
  ghost predicate NodeOf(p: Provider, n: Node) {
    var pkgs := PackagesOf(p, n.modID, n.version);
    && pkgs != []
    && n.presentPackages == Names(pkgs)
    && n.constraints == Constraints(Dependencies(pkgs))
    && n.requiredPackages == Required(Dependencies(pkgs))
  }

  // What the earlier node asks of a later candidate.
  predicate Accepts(p: Provider, n: Node, modID: string, version: string, present: set<string>) {
    && AllowedByAll(p, n.constraints, modID, version)
    && (modID in n.requiredPackages ==> forall name | name in n.requiredPackages[modID] :: name in present)
  }

  // What a candidate's dependency asks of an earlier node.
  predicate Suits(p: Provider, d: Dependency, n: Node) {
    d.modid == n.modID ==>
      p.allows(d.constraint, n.version) && forall name | name in d.packages :: name in n.presentPackages
  }

  // Every dependency of m on m' is met by the version v'.
  ghost predicate Fits(p: Provider, m: string, v: string, m': string, v': string) {
    forall d | d in DependenciesOf(p, m, v) && d.modid == m' :: Meets(p, d, v')
  }

  ghost predicate FitTogether(p: Provider, a: Node, b: Node) {
    && Fits(p, a.modID, a.version, b.modID, b.version)
    && Fits(p, b.modID, b.version, a.modID, a.version)
  }

  lemma {:induction false} AcceptedFits(p: Provider, n: Node, modID: string, version: string)
    requires NodeOf(p, n)
    requires Accepts(p, n, modID, version, Names(PackagesOf(p, modID, version)))
    ensures Fits(p, n.modID, n.version, modID, version)
  {
    var deps := DependenciesOf(p, n.modID, n.version);
    forall d | d in deps && d.modid == modID ensures Meets(p, d, version) {
      var i :| 0 <= i < |deps| && deps[i] == d;
      assert Constraints(deps)[i] == Constraint(modID, d.constraint);
      forall name | name in d.packages
        ensures modID in n.requiredPackages && name in n.requiredPackages[modID]
      {
        RequiredHasAll(deps, d, name);
      }
    }
  }

  lemma {:induction false} NotAccepted(p: Provider, n: Node, modID: string, version: string)
    requires NodeOf(p, n)
    requires !Accepts(p, n, modID, version, Names(PackagesOf(p, modID, version)))
    ensures !Fits(p, n.modID, n.version, modID, version)
  {
    var deps := DependenciesOf(p, n.modID, n.version);
    if !AllowedByAll(p, n.constraints, modID, version) {
      var i :| 0 <= i < |deps| && deps[i].modid == modID && !p.allows(deps[i].constraint, version);
      assert deps[i] in deps && !Meets(p, deps[i], version);
    } else {
      var name :| name in n.requiredPackages[modID] && name !in Names(PackagesOf(p, modID, version));
      RequiredIsAsked(deps, modID, name);
      var d :| d in deps && d.modid == modID && name in d.packages;
      assert !Meets(p, d, version);
    }
  }

  method AcceptedByPath(p: Provider, path: seq<Node>, modID: string, version: string, present: set<string>)
    returns (ok: bool)
    ensures ok <==> forall i | 0 <= i < |path| :: Accepts(p, path[i], modID, version, present)
  {
    for i := 0 to |path|
      invariant forall j | 0 <= j < i :: Accepts(p, path[j], modID, version, present)
    {
      if !Accepts(p, path[i], modID, version, present) {
        return false;
      }
    }
    return true;
  }

  method SuitsPath(p: Provider, d: Dependency, path: seq<Node>) returns (ok: bool)
    ensures ok <==> forall i | 0 <= i < |path| :: Suits(p, d, path[i])
  {
    for i := 0 to |path|
      invariant forall j | 0 <= j < i :: Suits(p, d, path[j])
    {
      if !Suits(p, d, path[i]) {
        return false;
      }
    }
    return true;
  }

  datatype Demand = Demand(constraints: seq<Constraint>, required: map<string, seq<string>>) | Clash | Malformed

  // The demands of some dependencies, all of them readable and met on the path.
  ghost predicate Collected(p: Provider, path: seq<Node>, deps: seq<Dependency>, cons: seq<Constraint>,
                            required: map<string, seq<string>>)
  {
    && cons == Constraints(deps) && required == Required(deps)
    && (forall d, i | d in deps && 0 <= i < |path| :: Suits(p, d, path[i]))
    && forall d | d in deps :: p.isConstraint(d.constraint)
  }

  lemma CollectsOneMore(p: Provider, path: seq<Node>, deps: seq<Dependency>, cons: seq<Constraint>,
                        required: map<string, seq<string>>, d: Dependency)
    requires Collected(p, path, deps, cons, required) && p.isConstraint(d.constraint)
    requires forall i | 0 <= i < |path| :: Suits(p, d, path[i])
    ensures Collected(p, path, deps + [d], cons + [Constraint(d.modid, d.constraint)],
                      required[d.modid := (if d.modid in required then required[d.modid] else []) + d.packages])
  {
    OneMoreDemand(deps, d);
  }

  method CollectConstraints(p: Provider, path: seq<Node>, pkgs: seq<Package>) returns (r: Demand)
    ensures r.Demand? ==>
              && r.constraints == Constraints(Dependencies(pkgs))
              && r.required == Required(Dependencies(pkgs))
              && forall d, i | d in Dependencies(pkgs) && 0 <= i < |path| :: Suits(p, d, path[i])
    ensures r.Demand? ==> forall d | d in Dependencies(pkgs) :: p.isConstraint(d.constraint)
    ensures r.Clash? ==> exists d, i :: d in Dependencies(pkgs) && 0 <= i < |path| && !Suits(p, d, path[i])
    ensures r.Malformed? ==> exists d :: d in Dependencies(pkgs) && !p.isConstraint(d.constraint)
  {
    var cons, required := [], map[];
    ghost var seen := [];
    for k := 0 to |pkgs|
      invariant seen == Dependencies(pkgs[..k])
      invariant Collected(p, path, seen, cons, required)
    {
      var deps := pkgs[k].dependencies;
      ghost var before := seen;
      for j := 0 to |deps|
        invariant seen == before + deps[..j]
        invariant Collected(p, path, seen, cons, required)
      {
        var d := deps[j];
        if !p.isConstraint(d.constraint) {
          DependencyListed(pkgs, k, j);
          return Malformed;
        }
        var ok := SuitsPath(p, d, path);
        if !ok {
          DependencyListed(pkgs, k, j);
          return Clash;
        }
        CollectsOneMore(p, path, seen, cons, required, d);
        TakeOneMore(deps, j);
        required := required[d.modid := (if d.modid in required then required[d.modid] else []) + d.packages];
        cons := cons + [Constraint(d.modid, d.constraint)];
        seen := seen + [d];
      }
      TakeAll(deps);
      TakeOneMore(pkgs, k);
    }
    TakeAll(pkgs);
    return Demand(cons, required);
  }

  lemma OneMoreDemand(deps: seq<Dependency>, d: Dependency)
    ensures Constraints(deps + [d]) == Constraints(deps) + [Constraint(d.modid, d.constraint)]
    ensures var before := Required(deps);
            Required(deps + [d]) == before[d.modid := (if d.modid in before then before[d.modid] else []) + d.packages]
  {
  }

  lemma {:induction false} DependencyListed(pkgs: seq<Package>, k: nat, j: nat)
    requires k < |pkgs| && j < |pkgs[k].dependencies|
    ensures pkgs[k].dependencies[j] in Dependencies(pkgs)
  {
    if k < |pkgs| - 1 {
      DependencyListed(pkgs[..|pkgs| - 1], k, j);
    }
  }

  // The node picks this version, fits the path and narrowed the candidates.
  ghost predicate Placement(p: Provider, modID: string, version: string, path: seq<Node>, available: Candidates,
                            node: Node) {
    && node.modID == modID && node.version == version
    && NodeOf(p, node)
    && NarrowedBy(p, node.constraints, available, node.versionSnapshot)
    && forall i | 0 <= i < |path| :: FitTogether(p, path[i], node)
  }

  // Why a candidate is dropped: no package of it is supported, a node of the path
  // and it do not fit, or it leaves some mod without versions.
  ghost predicate Refused(p: Provider, modID: string, version: string, path: seq<Node>, available: Candidates) {
    || PackagesOf(p, modID, version) == []
    || (exists i :: 0 <= i < |path| && !FitWith(p, path[i], modID, version))
    || (exists d :: d in DependenciesOf(p, modID, version) && LeavesNothing(p, modID, version, available, d.modid))
  }

  ghost predicate FitWith(p: Provider, n: Node, modID: string, version: string) {
    Fits(p, n.modID, n.version, modID, version) && Fits(p, modID, version, n.modID, n.version)
  }

  ghost predicate LeavesNothing(p: Provider, modID: string, version: string, available: Candidates, m: string) {
    Emptied(p, Constraints(DependenciesOf(p, modID, version)), available, m)
  }

  // Why the search ends at a candidate: its version or release is unreadable, or
  // so is what it depends on.
  ghost predicate Hopeless(p: Provider, modID: string, version: string, available: Candidates) {
    || !p.isVersion(version)
    || (modID, version) !in p.releases
    || exists d :: d in DependenciesOf(p, modID, version)
                   && (!p.isConstraint(d.constraint) || Untellable(p, available, d.modid))
  }

  datatype Attempt = Placed(node: Node, available: Candidates, queue: seq<string>) | Rejected | Aborted

  method TryVersion(p: Provider, ghost root: string, ghost rootVersion: string, modID: string, version: string,
                    path: seq<Node>, available: Candidates, queue: seq<string>)
    returns (r: Attempt)
    requires PathOk(p, root, rootVersion, path)
    ensures r.Placed? ==> Placement(p, modID, version, path, available, r.node)
    ensures r.Placed? ==> r.available == r.node.versionSnapshot
    ensures r.Placed? ==> r.queue == queue + NewMods(available, r.node.constraints)
    ensures r.Placed? ==>
              && r.node.modID == modID && r.node.version == version && NodeOf(p, r.node)
              && NarrowedBy(p, r.node.constraints, available, r.available)
              && forall i | 0 <= i < |path| :: FitTogether(p, path[i], r.node)
    ensures r.Rejected? ==> Refused(p, modID, version, path, available)
    ensures r.Aborted? ==> Hopeless(p, modID, version, available)
  {
    if !p.isVersion(version) || (modID, version) !in p.releases {
      return Aborted;
    }
    var pkgs := SupportedPackages(p, p.releases[(modID, version)]);
    if pkgs == [] {
      return Rejected;
    }
    r := TryPackages(p, root, rootVersion, modID, version, pkgs, path, available, queue);
  }

  // The supported packages of a candidate against the path and the candidates left.
  method TryPackages(p: Provider, ghost root: string, ghost rootVersion: string, modID: string, version: string,
                     pkgs: seq<Package>, path: seq<Node>, available: Candidates, queue: seq<string>)
    returns (r: Attempt)
    requires PathOk(p, root, rootVersion, path) && pkgs == PackagesOf(p, modID, version) != []
    ensures r.Placed? ==> Placement(p, modID, version, path, available, r.node)
    ensures r.Placed? ==> r.available == r.node.versionSnapshot
    ensures r.Placed? ==> r.queue == queue + NewMods(available, r.node.constraints)
    ensures r.Rejected? ==> Refused(p, modID, version, path, available)
    ensures r.Aborted? ==> Hopeless(p, modID, version, available)
  {
    var present := Names(pkgs);
    var ok := AcceptedByPath(p, path, modID, version, present);
    if !ok {
      ghost var i :| 0 <= i < |path| && !Accepts(p, path[i], modID, version, present);
      NotAcceptedByPath(p, root, rootVersion, path, i, modID, version);
      return Rejected;
    }
    var demand := CollectConstraints(p, path, pkgs);
    match demand {
      case Malformed => return Aborted;
      case Clash =>
        ghost var d, i :| d in Dependencies(pkgs) && 0 <= i < |path| && !Suits(p, d, path[i]);
        ClashOnPath(p, root, rootVersion, path, i, modID, version, d);
        return Rejected;
      case Demand(cons, required) =>
        var narrowing;
        narrowing := NarrowCandidates(p, cons, available, queue);
        match narrowing {
          case Unreadable =>
            ghost var con :| con in cons && Untellable(p, available, con.modid);
            ConstraintIsAsked(DependenciesOf(p, modID, version), con);
            return Aborted;
          case NoneLeft =>
            ghost var con :| con in cons && LeavesNothing(p, modID, version, available, con.modid);
            ConstraintIsAsked(DependenciesOf(p, modID, version), con);
            return Rejected;
          case Narrowed(available', queue') =>
            var node := Node(modID, version, cons, available', present, required);
            FitsWholePath(p, root, rootVersion, path, node);
            return Placed(node, available', queue');
        }
    }
  }

  lemma ConstraintIsAsked(deps: seq<Dependency>, con: Constraint)
    requires con in Constraints(deps)
    ensures exists d :: d in deps && d.modid == con.modid
  {
  }

  lemma NotAcceptedByPath(p: Provider, root: string, rootVersion: string, path: seq<Node>, i: nat, modID: string,
                          version: string)
    requires PathOk(p, root, rootVersion, path) && i < |path|
    requires !Accepts(p, path[i], modID, version, Names(PackagesOf(p, modID, version)))
    ensures !FitWith(p, path[i], modID, version)
  {
    assert NodeOk(p, root, rootVersion, path[i]);
    NotAccepted(p, path[i], modID, version);
  }

  lemma ClashOnPath(p: Provider, root: string, rootVersion: string, path: seq<Node>, i: nat, modID: string,
                    version: string, d: Dependency)
    requires PathOk(p, root, rootVersion, path) && i < |path|
    requires d in DependenciesOf(p, modID, version) && !Suits(p, d, path[i])
    ensures !FitWith(p, path[i], modID, version)
  {
  }

  lemma FitsWholePath(p: Provider, root: string, rootVersion: string, path: seq<Node>, node: Node)
    requires PathOk(p, root, rootVersion, path) && NodeOf(p, node)
    requires forall i | 0 <= i < |path| :: Accepts(p, path[i], node.modID, node.version, node.presentPackages)
    requires forall d, i | d in DependenciesOf(p, node.modID, node.version) && 0 <= i < |path| :: Suits(p, d, path[i])
    ensures forall i | 0 <= i < |path| :: FitTogether(p, path[i], node)
  {
    forall i | 0 <= i < |path| ensures FitTogether(p, path[i], node) {
      assert NodeOk(p, root, rootVersion, path[i]);
      AcceptedFits(p, path[i], node.modID, node.version);
      forall d | d in DependenciesOf(p, node.modID, node.version) && d.modid == path[i].modID
        ensures Meets(p, d, path[i].version)
      {
        assert Suits(p, d, path[i]);
      }
    }
  }

  // ----- The weight of the candidates left, for termination

  function Room(p: Provider, root: string, rootVersion: string, available: Candidates, modID: string): nat {
    if modID in available then |available[modID]| else |AllVersions(p, root, rootVersion, modID)| + 1
  }

  ghost function Slots(p: Provider, root: string, rootVersion: string, available: Candidates): set<(string, nat)> {
    set m, i: nat | m in p.versions.Keys + {root} && i < Room(p, root, rootVersion, available, m) :: (m, i)
  }

  ghost function Weight(p: Provider, root: string, rootVersion: string, available: Candidates): nat {
    |Slots(p, root, rootVersion, available)|
  }

  ghost predicate NoMoreRoom(p: Provider, root: string, rootVersion: string, before: Candidates, after: Candidates) {
    forall m :: m in p.versions || m == root ==>
                  Room(p, root, rootVersion, after, m) <= Room(p, root, rootVersion, before, m)
  }

  lemma {:induction false} WeightDrops(p: Provider, root: string, rootVersion: string, before: Candidates,
                                       after: Candidates, modID: string)
    requires NoMoreRoom(p, root, rootVersion, before, after)
    ensures Weight(p, root, rootVersion, after) <= Weight(p, root, rootVersion, before)
    ensures (modID in p.versions || modID == root) &&
            Room(p, root, rootVersion, after, modID) < Room(p, root, rootVersion, before, modID) ==>
              Weight(p, root, rootVersion, after) < Weight(p, root, rootVersion, before)
  {
    var a, b := Slots(p, root, rootVersion, after), Slots(p, root, rootVersion, before);
    assert a <= b;
    SubsetSize(a, b);
    var r := Room(p, root, rootVersion, after, modID);
    if (modID in p.versions || modID == root) && r < Room(p, root, rootVersion, before, modID) {
      assert (modID, r) in b && (modID, r) !in a;
      SubsetSize(a, b - {(modID, r)});
    }
  }

  // ----- What every step of the search keeps

  ghost predicate CandidatesOk(p: Provider, root: string, rootVersion: string, available: Candidates) {
    && root in available
    && forall m | m in available ::
         && (m == root || m in p.versions)
         && forall v | v in available[m] :: v in AllVersions(p, root, rootVersion, m)
  }

  // The snapshot of a node ends in the version the node picked, unless its release
  // rejects itself.
  ghost predicate EndsInPick(p: Provider, n: Node) {
    && n.modID in n.versionSnapshot
    && var versions := n.versionSnapshot[n.modID];
    |versions| > 0 && (versions[|versions| - 1] != n.version <==> RejectsItself(p, n.modID, n.version))
  }

  ghost predicate NodeOk(p: Provider, root: string, rootVersion: string, n: Node) {
    && NodeOf(p, n)
    && EndsInPick(p, n)
    && CandidatesOk(p, root, rootVersion, n.versionSnapshot)
    && n.version in AllVersions(p, root, rootVersion, n.modID)
  }

  ghost predicate PathOk(p: Provider, root: string, rootVersion: string, path: seq<Node>) {
    && (forall i | 0 <= i < |path| :: NodeOk(p, root, rootVersion, path[i]))
    && (forall i | 0 <= i < |path| :: path[i].modID == root <==> i == 0)
    && forall i, j | 0 <= i < j < |path| :: FitTogether(p, path[i], path[j])
  }

  ghost predicate Known(path: seq<Node>, pending: seq<string>, modID: string) {
    modID in pending || exists i :: 0 <= i < |path| && path[i].modID == modID
  }

  // No mod that the path or a candidate list mentions is ever lost.
  ghost predicate Covered(p: Provider, root: string, path: seq<Node>, pending: seq<string>, available: Candidates) {
    && (forall m | m in available :: Known(path, pending, m))
    && (forall i, m | 0 <= i < |path| && m in path[i].versionSnapshot :: Known(path, pending, m))
    && (forall i, d | 0 <= i < |path| && d in DependenciesOf(p, path[i].modID, path[i].version) ::
          Known(path, pending, d.modid))
    && (if path == [] then pending == [root] else root !in pending)
  }

  lemma {:induction false} PushKeepsPath(p: Provider, root: string, rootVersion: string, path: seq<Node>, node: Node,
                                         available: Candidates)
    requires PathOk(p, root, rootVersion, path) && CandidatesOk(p, root, rootVersion, available)
    requires NodeOf(p, node) && NarrowedBy(p, node.constraints, available, node.versionSnapshot)
    requires node.modID in available && available[node.modID] != []
    requires node.version == available[node.modID][|available[node.modID]| - 1]
    requires node.modID == root <==> path == []
    requires forall i | 0 <= i < |path| :: FitTogether(p, path[i], node)
    ensures PathOk(p, root, rootVersion, path + [node])
  {
    NarrowedStaysOk(p, root, rootVersion, node.constraints, available, node.versionSnapshot);
    PickStaysLast(p, node, available);
    NodeJoinsPath(p, root, rootVersion, path, node);
  }

  lemma NodeJoinsPath(p: Provider, root: string, rootVersion: string, path: seq<Node>, node: Node)
    requires PathOk(p, root, rootVersion, path) && NodeOk(p, root, rootVersion, node)
    requires node.modID == root <==> path == []
    requires forall i | 0 <= i < |path| :: FitTogether(p, path[i], node)
    ensures PathOk(p, root, rootVersion, path + [node])
  {
    var path' := path + [node];
    forall i | 0 <= i < |path'|
      ensures NodeOk(p, root, rootVersion, path'[i]) && (path'[i].modID == root <==> i == 0)
    {
      assert i < |path| ==> path'[i] == path[i] && NodeOk(p, root, rootVersion, path[i]);
    }
    forall i, j | 0 <= i < j < |path'| ensures FitTogether(p, path'[i], path'[j]) {
      assert path'[i] == path[i] && (j < |path| ==> path'[j] == path[j] && FitTogether(p, path[i], path[j]));
    }
  }

  lemma NodeLeavesPath(p: Provider, root: string, rootVersion: string, path: seq<Node>)
    requires |path| >= 2 && PathOk(p, root, rootVersion, path)
    ensures PathOk(p, root, rootVersion, DropLast(path))
    ensures NodeOk(p, root, rootVersion, path[|path| - 1]) && path[|path| - 1].modID != root
  {
  }

  lemma {:induction false} NarrowedStaysOk(p: Provider, root: string, rootVersion: string, cons: seq<Constraint>,
                                           before: Candidates, available: Candidates)
    requires CandidatesOk(p, root, rootVersion, before) && NarrowedBy(p, cons, before, available)
    ensures CandidatesOk(p, root, rootVersion, available)
    ensures NoMoreRoom(p, root, rootVersion, before, available)
  {
    forall m | m in available
      ensures |available[m]| <= |Left(p, before, m)|
      ensures forall v | v in available[m] :: v in AllVersions(p, root, rootVersion, m)
    {
      KeepIsExact(p, cons, m, Left(p, before, m));
    }
  }

  lemma {:induction false} PickStaysLast(p: Provider, node: Node, available: Candidates)
    requires NodeOf(p, node) && NarrowedBy(p, node.constraints, available, node.versionSnapshot)
    requires node.modID in available && available[node.modID] != []
    requires node.version == available[node.modID][|available[node.modID]| - 1]
    ensures EndsInPick(p, node)
  {
    KeepIsExact(p, node.constraints, node.modID, available[node.modID]);
    RejectsItselfByConstraint(p, node);
  }

  lemma RejectsItselfByConstraint(p: Provider, node: Node)
    requires NodeOf(p, node)
    ensures RejectsItself(p, node.modID, node.version) <==> !AllowedByAll(p, node.constraints, node.modID, node.version)
  {
    var deps := DependenciesOf(p, node.modID, node.version);
    if !AllowedByAll(p, node.constraints, node.modID, node.version) {
      var i :| 0 <= i < |deps| && deps[i].modid == node.modID && !p.allows(deps[i].constraint, node.version);
      assert deps[i] in deps;
    }
    if d :| d in deps && d.modid == node.modID && !p.allows(d.constraint, node.version) {
      var i :| 0 <= i < |deps| && deps[i] == d;
      assert node.constraints[i] in node.constraints;
    }
  }

  lemma {:induction false} PushKeepsCover(p: Provider, root: string, path: seq<Node>, node: Node, queue: seq<string>,
                                          available: Candidates, added: seq<string>)
    requires Covered(p, root, path, [node.modID] + queue, available) && root in available
    requires NodeOf(p, node) && NarrowedBy(p, node.constraints, available, node.versionSnapshot)
    requires Enqueued(available, node.versionSnapshot, added)
    ensures Covered(p, root, path + [node], queue + added, node.versionSnapshot)
  {
    var path', pending := path + [node], queue + added;
    assert path'[|path|] == node;
    forall m | Known(path, [node.modID] + queue, m) ensures Known(path', pending, m) {
      StaysKnown(path, node, queue, added, m);
    }
    DependenciesNarrowed(p, node, available);
    forall m | m in node.versionSnapshot ensures Known(path', pending, m) {
      assert m in available ==> Known(path, [node.modID] + queue, m);
    }
    assert path == [] ==> root in [node.modID];
  }

  lemma DependenciesNarrowed(p: Provider, node: Node, available: Candidates)
    requires NodeOf(p, node) && NarrowedBy(p, node.constraints, available, node.versionSnapshot)
    ensures forall d | d in DependenciesOf(p, node.modID, node.version) :: d.modid in node.versionSnapshot
  {
    var deps := DependenciesOf(p, node.modID, node.version);
    forall d | d in deps ensures d.modid in node.versionSnapshot {
      var i :| 0 <= i < |deps| && deps[i] == d;
      assert node.constraints[i].modid in ModsOf(node.constraints);
    }
  }

  lemma StaysKnown(path: seq<Node>, node: Node, queue: seq<string>, added: seq<string>, m: string)
    requires Known(path, [node.modID] + queue, m)
    ensures Known(path + [node], queue + added, m)
  {
    var path' := path + [node];
    assert path'[|path|] == node;
    if i :| 0 <= i < |path| && path[i].modID == m {
      assert path'[i].modID == m;
    }
  }

  lemma {:induction false} PopKeepsCover(p: Provider, root: string, path: seq<Node>, modID: string, queue: seq<string>,
                                         available: Candidates, available': Candidates)
    requires |path| >= 2 && Covered(p, root, path, [modID] + queue, available)
    requires path[|path| - 1].modID != root
    requires available'.Keys == path[|path| - 1].versionSnapshot.Keys
    ensures Covered(p, root, DropLast(path), [path[|path| - 1].modID, modID] + queue, available')
  {
    var path', pending := DropLast(path), [path[|path| - 1].modID, modID] + queue;
    forall m | Known(path, [modID] + queue, m) ensures Known(path', pending, m) {
      if i :| 0 <= i < |path| && path[i].modID == m {
        if i < |path'| {
          assert path'[i].modID == m;
        }
      }
    }
  }

  ghost function Weights(p: Provider, root: string, rootVersion: string, path: seq<Node>): seq<nat> {
    seq(|path|, i requires 0 <= i < |path| => Weight(p, root, rootVersion, path[i].versionSnapshot))
  }

  ghost predicate Progress(p: Provider, root: string, rootVersion: string, path: seq<Node>, available: Candidates,
                           q: nat, path': seq<Node>, available': Candidates, q': nat) {
    Move(Weights(p, root, rootVersion, path), Weight(p, root, rootVersion, available), q,
         Weights(p, root, rootVersion, path'), Weight(p, root, rootVersion, available'), q')
  }

  lemma {:induction false} DropWeighsLess(p: Provider, root: string, rootVersion: string, available: Candidates,
                                          modID: string)
    requires CandidatesOk(p, root, rootVersion, available) && modID in available && available[modID] != []
    ensures var available' := available[modID := DropLast(available[modID])];
            && CandidatesOk(p, root, rootVersion, available')
            && Weight(p, root, rootVersion, available') < Weight(p, root, rootVersion, available)
  {
    var available' := available[modID := DropLast(available[modID])];
    WeightDrops(p, root, rootVersion, available, available', modID);
  }

  lemma {:induction false} PushProgresses(p: Provider, root: string, rootVersion: string, path: seq<Node>, node: Node,
                                          queue: seq<string>, available: Candidates, added: seq<string>)
    requires CandidatesOk(p, root, rootVersion, available)
    requires NarrowedBy(p, node.constraints, available, node.versionSnapshot)
    requires Enqueued(available, node.versionSnapshot, added)
    ensures CandidatesOk(p, root, rootVersion, node.versionSnapshot)
    ensures Progress(p, root, rootVersion, path, available, |queue| + 1,
                     path + [node], node.versionSnapshot, |queue + added|)
  {
    PushWeighs(p, root, rootVersion, node, available, added);
    WeightsOneMore(p, root, rootVersion, path, node);
  }

  lemma WeightsOneMore(p: Provider, root: string, rootVersion: string, path: seq<Node>, node: Node)
    ensures Weights(p, root, rootVersion, path + [node]) ==
            Weights(p, root, rootVersion, path) + [Weight(p, root, rootVersion, node.versionSnapshot)]
  {
  }

  // A mod that is enqueued for the first time loses room for good.
  lemma {:induction false} PushWeighs(p: Provider, root: string, rootVersion: string, node: Node, available: Candidates,
                                      added: seq<string>)
    requires CandidatesOk(p, root, rootVersion, available)
    requires NarrowedBy(p, node.constraints, available, node.versionSnapshot)
    requires Enqueued(available, node.versionSnapshot, added)
    ensures CandidatesOk(p, root, rootVersion, node.versionSnapshot)
    ensures Weight(p, root, rootVersion, node.versionSnapshot) <= Weight(p, root, rootVersion, available)
    ensures added != [] ==> Weight(p, root, rootVersion, node.versionSnapshot) < Weight(p, root, rootVersion, available)
  {
    NarrowedStaysOk(p, root, rootVersion, node.constraints, available, node.versionSnapshot);
    if added == [] {
      WeightDrops(p, root, rootVersion, available, node.versionSnapshot, root);
    } else {
      var m := added[0];
      assert m in added;
      KeepIsExact(p, node.constraints, m, Left(p, available, m));
      WeightDrops(p, root, rootVersion, available, node.versionSnapshot, m);
    }
  }

  lemma PopProgresses(p: Provider, root: string, rootVersion: string, path: seq<Node>, q: nat,
                      available: Candidates, available': Candidates, q': nat)
    requires path != []
    requires Weight(p, root, rootVersion, available') < Weight(p, root, rootVersion, path[|path| - 1].versionSnapshot)
    ensures Progress(p, root, rootVersion, path, available, q, DropLast(path), available', q')
  {
  }

  // ----- The search

  // Everything but the rank that both loops keep.
  ghost predicate Searching(p: Provider, root: string, rootVersion: string, path: seq<Node>, pending: seq<string>,
                            available: Candidates) {
    && PathOk(p, root, rootVersion, path)
    && CandidatesOk(p, root, rootVersion, available)
    && Covered(p, root, path, pending, available)
  }

  ghost predicate Ranked(k: ORDINAL, p: Provider, root: string, rootVersion: string, path: seq<Node>,
                         available: Candidates, q: nat) {
    Halts#[k](Weights(p, root, rootVersion, path), Weight(p, root, rootVersion, available), q)
  }

  datatype Search = Search(path: seq<Node>, pending: seq<string>, available: Candidates)

  // The invariant of the search, with a rank that bounds what is left to do.  It is
  // stated for the parts of s, so that the loop handles it as one fact about s;
  // LiveParts takes it apart and LiveOf puts it together.
  ghost predicate Live(k: ORDINAL, p: Provider, root: string, rootVersion: string, s: Search) {
    forall path, pending, available | s == Search(path, pending, available) ::
      && Searching(p, root, rootVersion, path, pending, available)
      && Ranked(k, p, root, rootVersion, path, available, |pending|)
  }

  lemma LiveParts(k: ORDINAL, p: Provider, root: string, rootVersion: string, path: seq<Node>, pending: seq<string>,
                  available: Candidates)
    requires Live(k, p, root, rootVersion, Search(path, pending, available))
    ensures Searching(p, root, rootVersion, path, pending, available)
    ensures Ranked(k, p, root, rootVersion, path, available, |pending|)
  {
  }

  lemma LiveOf(k: ORDINAL, p: Provider, root: string, rootVersion: string, path: seq<Node>, pending: seq<string>,
               available: Candidates)
    requires Searching(p, root, rootVersion, path, pending, available)
    requires Ranked(k, p, root, rootVersion, path, available, |pending|)
    ensures Live(k, p, root, rootVersion, Search(path, pending, available))
  {
  }

  lemma {:induction false} FirstRank(p: Provider, root: string, rootVersion: string, available: Candidates, q: nat)
    returns (k: ORDINAL)
    ensures Ranked(k, p, root, rootVersion, [], available, q)
  {
    SearchHalts([], Weight(p, root, rootVersion, available), q);
    k := HaltingRank([], Weight(p, root, rootVersion, available), q);
    assert Weights(p, root, rootVersion, []) == [];
  }

  lemma {:induction false} NextRank(k: ORDINAL, p: Provider, root: string, rootVersion: string,
                                    path: seq<Node>, available: Candidates, q: nat,
                                    path': seq<Node>, available': Candidates, q': nat) returns (k': ORDINAL)
    requires Ranked(k, p, root, rootVersion, path, available, q)
    requires Progress(p, root, rootVersion, path, available, q, path', available', q')
    ensures k' < k && Ranked(k', p, root, rootVersion, path', available', q')
  {
    k' := RankDrops(k, Weights(p, root, rootVersion, path), Weight(p, root, rootVersion, available), q,
                    Weights(p, root, rootVersion, path'), Weight(p, root, rootVersion, available'), q');
  }

  // The snapshot with the root is a solution but for what releases ask of
  // their own mod, and it is a full solution exactly when they ask nothing
  // that they do not have.
  ghost predicate Solves(p: Provider, root: string, rootVersion: string, snapshot: map<string, string>) {
    var chosen := snapshot[root := rootVersion];
    && root !in snapshot
    && (forall m | m in snapshot :: m in p.versions && snapshot[m] in p.versions[m])
    && OthersMet(p, chosen)
    && (Closed(p, chosen) <==> forall m | m in chosen :: SelfMet(p, m, chosen[m]))
  }

  // chosen holds the last version that the path has for each of its mods.
  ghost predicate ChosenFrom(path: seq<Node>, chosen: map<string, string>) {
    && (forall i | 0 <= i < |path| :: path[i].modID in chosen)
    && forall m | m in chosen :: exists i :: 0 <= i < |path| && path[i].modID == m && path[i].version == chosen[m]
  }

  lemma ChosenIsOk(p: Provider, root: string, rootVersion: string, path: seq<Node>,
                   chosen: map<string, string>, m: string)
    requires PathOk(p, root, rootVersion, path) && ChosenFrom(path, chosen) && m in chosen
    ensures PackagesOf(p, m, chosen[m]) != [] && chosen[m] in AllVersions(p, root, rootVersion, m)
  {
  }

  lemma PairFits(p: Provider, root: string, rootVersion: string, path: seq<Node>, i: nat, j: nat)
    requires PathOk(p, root, rootVersion, path) && i < |path| && j < |path| && i != j
    ensures Fits(p, path[i].modID, path[i].version, path[j].modID, path[j].version)
  {
  }

  lemma {:induction false} OnPath(p: Provider, root: string, path: seq<Node>, available: Candidates, i: nat,
                                  d: Dependency)
    returns (j: nat)
    requires Covered(p, root, path, [], available) && i < |path|
    requires d in DependenciesOf(p, path[i].modID, path[i].version)
    ensures j < |path| && path[j].modID == d.modid
  {
    assert Known(path, [], d.modid);
    j :| j < |path| && path[j].modID == d.modid;
  }

  lemma {:induction false} ChosenIsMet(p: Provider, root: string, rootVersion: string, path: seq<Node>,
                                       available: Candidates, chosen: map<string, string>, m: string, d: Dependency)
    requires PathOk(p, root, rootVersion, path) && Covered(p, root, path, [], available) && ChosenFrom(path, chosen)
    requires m in chosen && d in DependenciesOf(p, m, chosen[m]) && d.modid != m
    ensures d.modid in chosen && Meets(p, d, chosen[d.modid])
  {
    var i: nat :| i < |path| && path[i].modID == m && path[i].version == chosen[m];
    var j0 := OnPath(p, root, path, available, i, d);
    var j: nat :| j < |path| && path[j].modID == d.modid && path[j].version == chosen[d.modid];
    PairFits(p, root, rootVersion, path, i, j);
  }

  lemma {:induction false} PathSolves(p: Provider, root: string, rootVersion: string, path: seq<Node>,
                                      available: Candidates, snapshot: map<string, string>)
    requires Searching(p, root, rootVersion, path, [], available)
    requires root !in snapshot && ChosenFrom(path, snapshot[root := rootVersion])
    ensures Solves(p, root, rootVersion, snapshot)
  {
    var chosen := snapshot[root := rootVersion];
    forall m | m in chosen
      ensures PackagesOf(p, m, chosen[m]) != [] && chosen[m] in AllVersions(p, root, rootVersion, m)
    {
      ChosenIsOk(p, root, rootVersion, path, chosen, m);
    }
    forall m, d | m in chosen && d in DependenciesOf(p, m, chosen[m]) && d.modid != m
      ensures d.modid in chosen && Meets(p, d, chosen[d.modid])
    {
      ChosenIsMet(p, root, rootVersion, path, available, chosen, m, d);
    }
    forall m | m in snapshot ensures m in p.versions && snapshot[m] in p.versions[m] {
      assert m in chosen && chosen[m] == snapshot[m];
    }
    ClosedButForItself(p, chosen);
  }

  lemma {:induction false} ChooseOneMore(path: seq<Node>, node: Node, chosen: map<string, string>)
    requires ChosenFrom(path, chosen)
    ensures ChosenFrom(path + [node], chosen[node.modID := node.version])
  {
    var path' := path + [node];
    assert path'[|path|] == node;
    forall m | m in chosen && m != node.modID
      ensures exists i :: 0 <= i < |path'| && path'[i].modID == m && path'[i].version == chosen[m]
    {
      var i :| 0 <= i < |path| && path[i].modID == m && path[i].version == chosen[m];
      assert path'[i].modID == m;
    }
  }

  // The last version that each mod has on the path, but for the first node.
  function SnapshotOf(path: seq<Node>): map<string, string> {
    if |path| <= 1 then map[]
    else
      var node := path[|path| - 1];
      SnapshotOf(DropLast(path))[node.modID := node.version]
  }

  lemma {:induction false} SnapshotIsChosen(root: string, rootVersion: string, path: seq<Node>)
    requires path != [] && ChosenFrom(path[..1], map[root := rootVersion])
    requires forall i | 0 < i < |path| :: path[i].modID != root
    ensures root !in SnapshotOf(path) && ChosenFrom(path, SnapshotOf(path)[root := rootVersion])
  {
    if |path| == 1 {
      TakeAll(path);
    } else {
      var front, node := DropLast(path), path[|path| - 1];
      assert front[..1] == path[..1] && path == front + [node];
      SnapshotIsChosen(root, rootVersion, front);
      ChooseOneMore(front, node, SnapshotOf(front)[root := rootVersion]);
      UpdatesCommute(SnapshotOf(front), node.modID, node.version, root, rootVersion);
    }
  }

  // The snapshot of a search with an empty queue is a solution.
  lemma {:induction false} EndSolves(p: Provider, root: string, rootVersion: string, path: seq<Node>,
                                     available: Candidates)
    requires path != [] && Searching(p, root, rootVersion, path, [], available)
    ensures Solves(p, root, rootVersion, SnapshotOf(path))
  {
    FirstIsRoot(p, root, rootVersion, path);
    SnapshotIsChosen(root, rootVersion, path);
    PathSolves(p, root, rootVersion, path, available, SnapshotOf(path));
  }

  method BuildSnapshot(path: seq<Node>) returns (snapshot: map<string, string>)
    requires path != []
    ensures snapshot == SnapshotOf(path)
  {
    snapshot := map[];
    for i := 1 to |path|
      invariant snapshot == SnapshotOf(path[..i])
    {
      assert DropLast(path[..i + 1]) == path[..i];
      snapshot := snapshot[path[i].modID := path[i].version];
    }
    TakeAll(path);
  }

  lemma FirstIsRoot(p: Provider, root: string, rootVersion: string, path: seq<Node>)
    requires path != [] && PathOk(p, root, rootVersion, path)
    ensures ChosenFrom(path[..1], map[root := rootVersion])
  {
    assert NodeOk(p, root, rootVersion, path[0]) && path[..1][0] == path[0];
  }

  lemma RootIsFirst(p: Provider, root: string, path: seq<Node>, modID: string, queue: seq<string>,
                    available: Candidates)
    requires Covered(p, root, path, [modID] + queue, available)
    ensures modID == root <==> path == []
  {
    assert ([modID] + queue)[0] == modID;
  }

  lemma PlacementKeepsPath(p: Provider, root: string, rootVersion: string, modID: string, path: seq<Node>,
                           available: Candidates, node: Node)
    requires PathOk(p, root, rootVersion, path) && CandidatesOk(p, root, rootVersion, available)
    requires (modID == root <==> path == []) && modID in available && available[modID] != []
    requires Placement(p, modID, available[modID][|available[modID]| - 1], path, available, node)
    ensures PathOk(p, root, rootVersion, path + [node])
  {
    PushKeepsPath(p, root, rootVersion, path, node, available);
  }

  // Placing a candidate keeps all that is kept besides the rank.
  lemma {:induction false} PushSearching(p: Provider, root: string, rootVersion: string, path: seq<Node>,
                                         modID: string, queue: seq<string>, available: Candidates, node: Node,
                                         added: seq<string>)
    requires Searching(p, root, rootVersion, path, [modID] + queue, available)
    requires modID in available && available[modID] != []
    requires Placement(p, modID, available[modID][|available[modID]| - 1], path, available, node)
    requires Enqueued(available, node.versionSnapshot, added)
    ensures Searching(p, root, rootVersion, path + [node], queue + added, node.versionSnapshot)
  {
    RootIsFirst(p, root, path, modID, queue, available);
    PlacementKeepsPath(p, root, rootVersion, modID, path, available, node);
    NarrowedStaysOk(p, root, rootVersion, node.constraints, available, node.versionSnapshot);
    PushKeepsCover(p, root, path, node, queue, available, added);
  }

  lemma {:induction false} PushKeepsSearching(k: ORDINAL, p: Provider, root: string, rootVersion: string,
                                              path: seq<Node>, modID: string, queue: seq<string>,
                                              available: Candidates, node: Node)
    returns (k': ORDINAL)
    requires Live(k, p, root, rootVersion, Search(path, [modID] + queue, available))
    requires modID in available && available[modID] != []
    requires Placement(p, modID, available[modID][|available[modID]| - 1], path, available, node)
    ensures k' < k
    ensures Live(k', p, root, rootVersion,
                 Search(path + [node], queue + NewMods(available, node.constraints), node.versionSnapshot))
  {
    var added := NewMods(available, node.constraints);
    NewModsEnqueued(p, node.constraints, available, node.versionSnapshot);
    LiveParts(k, p, root, rootVersion, path, [modID] + queue, available);
    PushSearching(p, root, rootVersion, path, modID, queue, available, node, added);
    PushProgresses(p, root, rootVersion, path, node, queue, available, added);
    k' := NextRank(k, p, root, rootVersion, path, available, |queue| + 1,
                   path + [node], node.versionSnapshot, |queue + added|);
    LiveOf(k', p, root, rootVersion, path + [node], queue + added, node.versionSnapshot);
  }

  // The candidates of a node's snapshot without the version that it picked.
  function WithoutPick(n: Node): Candidates {
    if n.modID in n.versionSnapshot && n.versionSnapshot[n.modID] != [] then
      n.versionSnapshot[n.modID := DropLast(n.versionSnapshot[n.modID])]
    else n.versionSnapshot
  }

  lemma {:induction false} PopSearching(p: Provider, root: string, rootVersion: string, path: seq<Node>,
                                        modID: string, queue: seq<string>, available: Candidates)
    requires |path| >= 2 && Searching(p, root, rootVersion, path, [modID] + queue, available)
    ensures var n := path[|path| - 1];
            && Searching(p, root, rootVersion, DropLast(path), [n.modID, modID] + queue, WithoutPick(n))
            && Weight(p, root, rootVersion, WithoutPick(n)) < Weight(p, root, rootVersion, n.versionSnapshot)
  {
    var n := path[|path| - 1];
    NodeLeavesPath(p, root, rootVersion, path);
    PopKeepsCover(p, root, path, modID, queue, available, WithoutPick(n));
    DropWeighsLess(p, root, rootVersion, n.versionSnapshot, n.modID);
  }

  lemma {:induction false} PopKeepsSearching(k: ORDINAL, p: Provider, root: string, rootVersion: string,
                                             path: seq<Node>, modID: string, queue: seq<string>,
                                             available: Candidates)
    returns (k': ORDINAL)
    requires |path| >= 2
    requires Live(k, p, root, rootVersion, Search(path, [modID] + queue, available))
    ensures k' < k
    ensures var n := path[|path| - 1];
            Live(k', p, root, rootVersion, Search(DropLast(path), [n.modID, modID] + queue, WithoutPick(n)))
  {
    var n := path[|path| - 1];
    LiveParts(k, p, root, rootVersion, path, [modID] + queue, available);
    PopSearching(p, root, rootVersion, path, modID, queue, available);
    PopProgresses(p, root, rootVersion, path, |queue| + 1, available, WithoutPick(n), |queue| + 2);
    k' := NextRank(k, p, root, rootVersion, path, available, |queue| + 1, DropLast(path), WithoutPick(n), |queue| + 2);
    LiveOf(k', p, root, rootVersion, DropLast(path), [n.modID, modID] + queue, WithoutPick(n));
  }

  lemma {:induction false} DropKeepsSearching(k: ORDINAL, p: Provider, root: string, rootVersion: string,
                                              path: seq<Node>, modID: string, queue: seq<string>,
                                              available: Candidates)
    returns (k': ORDINAL)
    requires Live(k, p, root, rootVersion, Search(path, [modID] + queue, available))
    requires modID in available && available[modID] != []
    ensures var available' := available[modID := DropLast(available[modID])];
            k' < k && Live(k', p, root, rootVersion, Search(path, [modID] + queue, available'))
  {
    var available' := available[modID := DropLast(available[modID])];
    LiveParts(k, p, root, rootVersion, path, [modID] + queue, available);
    DropWeighsLess(p, root, rootVersion, available, modID);
    k' := NextRank(k, p, root, rootVersion, path, available, |queue| + 1, path, available', |queue| + 1);
    LiveOf(k', p, root, rootVersion, path, [modID] + queue, available');
  }

  // ----- What one turn of the search does

  datatype Turn = Continue(path: seq<Node>, queue: seq<string>, available: Candidates) | Stop(outcome: Outcome)

  function CandidatesOf(available: Candidates, modID: string): seq<string> {
    if modID in available then available[modID] else []
  }

  // The candidates when only the first n of a mod's are left.
  function FirstOnly(available: Candidates, modID: string, n: nat): Candidates
    requires n <= |CandidatesOf(available, modID)|
  {
    if modID in available then available[modID := available[modID][..n]] else available
  }

  // The candidates of a mod are tried from the last one on, and all but the first
  // n were refused, each after it the later ones had been dropped.
  ghost predicate RefusedDownTo(p: Provider, modID: string, path: seq<Node>, available: Candidates, n: nat) {
    && n <= |CandidatesOf(available, modID)|
    && forall i | n <= i < |CandidatesOf(available, modID)| ::
         Refused(p, modID, available[modID][i], path, FirstOnly(available, modID, i + 1))
  }

  // A turn that ends at a candidate: it is placed, or the search ends there.
  ghost predicate EndsAt(p: Provider, modID: string, version: string, path: seq<Node>, queue: seq<string>,
                         available: Candidates, r: Turn)
  {
    match r
    case Continue(path', queue', available') =>
      && |path'| == |path| + 1
      && var node := path'[|path|];
      && path' == path + [node] && Placement(p, modID, version, path, available, node)
      && queue' == queue + NewMods(available, node.constraints) && available' == node.versionSnapshot
    case Stop(outcome) => outcome == Invalid && Hopeless(p, modID, version, available)
  }

  // A turn without candidates: the last node is undone and its mod enqueued again,
  // with the candidates of its snapshot but for the version that it picked.
  ghost predicate Undoes(p: Provider, modID: string, path: seq<Node>, queue: seq<string>, r: Turn) {
    if |path| < 2 then r == Stop(Unsatisfiable)
    else
      var n := path[|path| - 1];
      r == if RejectsItself(p, n.modID, n.version) then Stop(Panicked)
      else Continue(DropLast(path), [n.modID, modID] + queue, WithoutPick(n))
  }

  ghost predicate TurnIs(p: Provider, modID: string, path: seq<Node>, queue: seq<string>, available: Candidates,
                         n: nat, r: Turn)
  {
    && RefusedDownTo(p, modID, path, available, n)
    && if n == 0 then Undoes(p, modID, path, queue, r)
       else EndsAt(p, modID, CandidatesOf(available, modID)[n - 1], path, queue, FirstOnly(available, modID, n), r)
  }

  // The refused candidates are dropped one by one.
  lemma {:induction false} DropsKeepSearching(k: ORDINAL, p: Provider, root: string, rootVersion: string,
                                              path: seq<Node>, modID: string, queue: seq<string>,
                                              available: Candidates, n: nat)
    returns (k': ORDINAL)
    requires Live(k, p, root, rootVersion, Search(path, [modID] + queue, available))
    requires n <= |CandidatesOf(available, modID)|
    ensures k' <= k && Live(k', p, root, rootVersion, Search(path, [modID] + queue, FirstOnly(available, modID, n)))
    decreases |CandidatesOf(available, modID)|
  {
    if n == |CandidatesOf(available, modID)| {
      AllLeft(available, modID);
      return k;
    }
    var available' := available[modID := DropLast(available[modID])];
    k' := DropKeepsSearching(k, p, root, rootVersion, path, modID, queue, available);
    k' := DropsKeepSearching(k', p, root, rootVersion, path, modID, queue, available', n);
    FirstOfFirst(available, modID, n);
  }

  lemma AllLeft(available: Candidates, modID: string)
    ensures FirstOnly(available, modID, |CandidatesOf(available, modID)|) == available
  {
    TakeAll(CandidatesOf(available, modID));
  }

  lemma FirstOfFirst(available: Candidates, modID: string, n: nat)
    requires n < |CandidatesOf(available, modID)|
    ensures var available' := available[modID := DropLast(available[modID])];
            && n <= |CandidatesOf(available', modID)|
            && FirstOnly(available', modID, n) == FirstOnly(available, modID, n)
  {
    assert DropLast(available[modID])[..n] == available[modID][..n];
  }

  // Every turn keeps the invariant, and its rank falls.
  lemma {:induction false} TurnKeepsLive(k: ORDINAL, p: Provider, root: string, rootVersion: string, path: seq<Node>,
                                         modID: string, queue: seq<string>, available: Candidates, n: nat, r: Turn)
    returns (k': ORDINAL)
    requires Live(k, p, root, rootVersion, Search(path, [modID] + queue, available))
    requires TurnIs(p, modID, path, queue, available, n, r) && r.Continue?
    ensures k' < k && Live(k', p, root, rootVersion, Search(r.path, r.queue, r.available))
  {
    if n == 0 {
      k' := PopKeepsSearching(k, p, root, rootVersion, path, modID, queue, available);
    } else {
      var left, version := LastOfFirst(available, modID, n);
      k' := DropsKeepSearching(k, p, root, rootVersion, path, modID, queue, available, n);
      k' := PlacedKeepsLive(k', p, root, rootVersion, path, modID, queue, left, version, r);
    }
  }

  lemma LastOfFirst(available: Candidates, modID: string, n: nat) returns (left: Candidates, version: string)
    requires 0 < n <= |CandidatesOf(available, modID)|
    ensures left == FirstOnly(available, modID, n) && version == CandidatesOf(available, modID)[n - 1]
    ensures modID in left && left[modID] != [] && version == left[modID][|left[modID]| - 1]
  {
    left, version := FirstOnly(available, modID, n), available[modID][n - 1];
  }

  lemma {:induction false} PlacedKeepsLive(k: ORDINAL, p: Provider, root: string, rootVersion: string,
                                           path: seq<Node>, modID: string, queue: seq<string>, available: Candidates,
                                           version: string, r: Turn)
    returns (k': ORDINAL)
    requires Live(k, p, root, rootVersion, Search(path, [modID] + queue, available))
    requires modID in available && available[modID] != [] && version == available[modID][|available[modID]| - 1]
    requires EndsAt(p, modID, version, path, queue, available, r) && r.Continue?
    ensures k' < k && Live(k', p, root, rootVersion, Search(r.path, r.queue, r.available))
  {
    k' := PushKeepsSearching(k, p, root, rootVersion, path, modID, queue, available, r.path[|path|]);
  }

  // ----- Why a search fails

  ghost predicate Listed(p: Provider, root: string, rootVersion: string, m: string, v: string) {
    v in AllVersions(p, root, rootVersion, m)
  }

  // Some listed release has no supported package, or two of them do not fit.
  ghost predicate Obstacle(p: Provider, root: string, rootVersion: string) {
    exists m, v, n, w ::
      && Listed(p, root, rootVersion, m, v) && Listed(p, root, rootVersion, n, w)
      && (PackagesOf(p, m, v) == [] || !Fits(p, m, v, n, w))
  }

  // Some listed release is unreadable or missing, or something that it depends on.
  ghost predicate Broken(p: Provider, root: string, rootVersion: string) {
    exists m, v :: Listed(p, root, rootVersion, m, v) && BrokenRelease(p, root, rootVersion, m, v)
  }

  ghost predicate BrokenRelease(p: Provider, root: string, rootVersion: string, m: string, v: string) {
    || !p.isVersion(v)
    || (m, v) !in p.releases
    || exists d :: d in DependenciesOf(p, m, v) &&
                   (!p.isConstraint(d.constraint) || BrokenMod(p, root, rootVersion, d.modid))
  }

  ghost predicate BrokenMod(p: Provider, root: string, rootVersion: string, m: string) {
    AllVersions(p, root, rootVersion, m) == [] || !Readable(p, AllVersions(p, root, rootVersion, m))
  }

  // The stated cause of each kind of failure.
  ghost predicate Caused(p: Provider, root: string, rootVersion: string, outcome: Outcome) {
    match outcome
    case Resolved(_) => false
    case Unsatisfiable => Obstacle(p, root, rootVersion)
    case Invalid => Broken(p, root, rootVersion)
    case Panicked => exists m, v :: Listed(p, root, rootVersion, m, v) && RejectsItself(p, m, v)
  }

  // As long as nothing stands in the way, every mod in the queue has candidates.
  ghost predicate Open(p: Provider, root: string, rootVersion: string, pending: seq<string>, available: Candidates) {
    || Obstacle(p, root, rootVersion)
    || ((forall m | m in available :: available[m] != []) && forall m | m in pending :: m in available)
  }

  lemma {:induction false} RefusedByObstacle(p: Provider, root: string, rootVersion: string, path: seq<Node>,
                                             pending: seq<string>, available: Candidates, modID: string,
                                             version: string)
    requires PathOk(p, root, rootVersion, path) && CandidatesOk(p, root, rootVersion, available)
    requires Open(p, root, rootVersion, pending, available) && Listed(p, root, rootVersion, modID, version)
    requires Refused(p, modID, version, path, available)
    ensures Obstacle(p, root, rootVersion)
  {
    if PackagesOf(p, modID, version) == [] {
      ObstacleBetween(p, root, rootVersion, modID, version, modID, version);
    } else if i :| 0 <= i < |path| && !FitWith(p, path[i], modID, version) {
      assert NodeOk(p, root, rootVersion, path[i]);
      ClashIsObstacle(p, root, rootVersion, path[i].modID, path[i].version, modID, version);
    } else {
      var d :| d in DependenciesOf(p, modID, version) && LeavesNothing(p, modID, version, available, d.modid);
      NothingLeftByObstacle(p, root, rootVersion, pending, available, modID, version, d.modid);
    }
  }

  lemma ObstacleBetween(p: Provider, root: string, rootVersion: string, m: string, v: string, n: string, w: string)
    requires Listed(p, root, rootVersion, m, v) && Listed(p, root, rootVersion, n, w)
    requires PackagesOf(p, m, v) == [] || !Fits(p, m, v, n, w)
    ensures Obstacle(p, root, rootVersion)
  {
  }

  lemma ClashIsObstacle(p: Provider, root: string, rootVersion: string, m: string, v: string, n: string, w: string)
    requires Listed(p, root, rootVersion, m, v) && Listed(p, root, rootVersion, n, w)
    requires !Fits(p, m, v, n, w) || !Fits(p, n, w, m, v)
    ensures Obstacle(p, root, rootVersion)
  {
  }

  lemma {:induction false} NothingLeftByObstacle(p: Provider, root: string, rootVersion: string, pending: seq<string>,
                                                 available: Candidates, modID: string, version: string, m: string)
    requires CandidatesOk(p, root, rootVersion, available) && Open(p, root, rootVersion, pending, available)
    requires Listed(p, root, rootVersion, modID, version) && LeavesNothing(p, modID, version, available, m)
    ensures Obstacle(p, root, rootVersion)
  {
    var left, deps := Left(p, available, m), DependenciesOf(p, modID, version);
    if left != [] {
      var w := left[0];
      KeepIsExact(p, Constraints(deps), m, left);
      assert w in left && Listed(p, root, rootVersion, m, w);
      var i :| 0 <= i < |deps| && deps[i].modid == m && !p.allows(deps[i].constraint, w);
      assert deps[i] in deps && !Meets(p, deps[i], w);
      ClashIsObstacle(p, root, rootVersion, modID, version, m, w);
    }
  }

  lemma HopelessIsBroken(p: Provider, root: string, rootVersion: string, available: Candidates,
                         modID: string, version: string)
    requires CandidatesOk(p, root, rootVersion, available) && Listed(p, root, rootVersion, modID, version)
    requires Hopeless(p, modID, version, available)
    ensures Broken(p, root, rootVersion)
  {
  }

  lemma EmptyIsObstacle(p: Provider, root: string, rootVersion: string, modID: string, queue: seq<string>,
                        available: Candidates)
    requires Open(p, root, rootVersion, [modID] + queue, available) && CandidatesOf(available, modID) == []
    ensures Obstacle(p, root, rootVersion)
  {
  }

  // The first candidate that is refused shows an obstacle.
  lemma RefusalIsObstacle(p: Provider, root: string, rootVersion: string, modID: string, path: seq<Node>,
                          queue: seq<string>, available: Candidates, n: nat)
    requires PathOk(p, root, rootVersion, path) && CandidatesOk(p, root, rootVersion, available)
    requires Open(p, root, rootVersion, [modID] + queue, available)
    requires RefusedDownTo(p, modID, path, available, n) && n < |CandidatesOf(available, modID)|
    ensures Obstacle(p, root, rootVersion)
  {
    var versions := available[modID];
    AllLeft(available, modID);
    assert versions[|versions| - 1] in versions;
    RefusedByObstacle(p, root, rootVersion, path, [modID] + queue, available, modID, versions[|versions| - 1]);
  }

  lemma StaysOpen(p: Provider, root: string, rootVersion: string, modID: string, queue: seq<string>,
                  available: Candidates, node: Node, added: seq<string>)
    requires Open(p, root, rootVersion, [modID] + queue, available)
    requires NarrowedBy(p, node.constraints, available, node.versionSnapshot)
    requires Enqueued(available, node.versionSnapshot, added)
    ensures Open(p, root, rootVersion, queue + added, node.versionSnapshot)
  {
  }

  // Every turn leaves the search open, or ends it for the stated cause.
  lemma {:induction false} TurnCaused(p: Provider, root: string, rootVersion: string, path: seq<Node>, modID: string,
                                      queue: seq<string>, available: Candidates, n: nat, r: Turn)
    requires Searching(p, root, rootVersion, path, [modID] + queue, available)
    requires Open(p, root, rootVersion, [modID] + queue, available)
    requires TurnIs(p, modID, path, queue, available, n, r)
    ensures match r
            case Continue(_, queue', available') => Open(p, root, rootVersion, queue', available')
            case Stop(outcome) => Caused(p, root, rootVersion, outcome)
  {
    if n == 0 {
      NothingLeftToTry(p, root, rootVersion, path, modID, queue, available);
      if |path| >= 2 {
        assert NodeOk(p, root, rootVersion, path[|path| - 1]);
      }
    } else {
      CandidateCaused(p, root, rootVersion, path, modID, queue, available, n, r);
    }
  }

  lemma NothingLeftToTry(p: Provider, root: string, rootVersion: string, path: seq<Node>, modID: string,
                         queue: seq<string>, available: Candidates)
    requires PathOk(p, root, rootVersion, path) && CandidatesOk(p, root, rootVersion, available)
    requires Open(p, root, rootVersion, [modID] + queue, available) && RefusedDownTo(p, modID, path, available, 0)
    ensures Obstacle(p, root, rootVersion)
  {
    if CandidatesOf(available, modID) == [] {
      EmptyIsObstacle(p, root, rootVersion, modID, queue, available);
    } else {
      RefusalIsObstacle(p, root, rootVersion, modID, path, queue, available, 0);
    }
  }

  lemma CandidateCaused(p: Provider, root: string, rootVersion: string, path: seq<Node>, modID: string,
                        queue: seq<string>, available: Candidates, n: nat, r: Turn)
    requires Searching(p, root, rootVersion, path, [modID] + queue, available)
    requires Open(p, root, rootVersion, [modID] + queue, available)
    requires n > 0 && TurnIs(p, modID, path, queue, available, n, r)
    ensures match r
            case Continue(_, queue', available') => Open(p, root, rootVersion, queue', available')
            case Stop(outcome) => Caused(p, root, rootVersion, outcome)
  {
    var left, version := FirstOnly(available, modID, n), available[modID][n - 1];
    match r
    case Continue(path', _, _) =>
      if n < |available[modID]| {
        RefusalIsObstacle(p, root, rootVersion, modID, path, queue, available, n);
      } else {
        AllLeft(available, modID);
        var node := path'[|path|];
        NewModsEnqueued(p, node.constraints, available, node.versionSnapshot);
        StaysOpen(p, root, rootVersion, modID, queue, available, node, NewMods(available, node.constraints));
      }
    case Stop(_) =>
      FewerAreOk(p, root, rootVersion, available, modID, n);
      assert version in available[modID];
      HopelessIsBroken(p, root, rootVersion, left, modID, version);
  }

  lemma FewerAreOk(p: Provider, root: string, rootVersion: string, available: Candidates, modID: string, n: nat)
    requires CandidatesOk(p, root, rootVersion, available) && n <= |CandidatesOf(available, modID)|
    ensures CandidatesOk(p, root, rootVersion, FirstOnly(available, modID, n))
  {
  }

  // No version of modID is left: undo the last node, and the version it picked.
  method Backtrack(p: Provider, ghost root: string, ghost rootVersion: string, modID: string, path: seq<Node>,
                   queue: seq<string>)
    returns (r: Turn)
    requires PathOk(p, root, rootVersion, path)
    ensures Undoes(p, modID, path, queue, r)
  {
    if |path| < 2 {
      return Stop(Unsatisfiable);
    }
    var lastNode := path[|path| - 1];
    assert NodeOk(p, root, rootVersion, lastNode);
    var modVersions := lastNode.versionSnapshot[lastNode.modID];
    if modVersions[|modVersions| - 1] != lastNode.version {
      return Stop(Panicked);
    }
    var restored := lastNode.versionSnapshot[lastNode.modID := DropLast(modVersions)];
    return Continue(DropLast(path), [lastNode.modID, modID] + queue, restored);
  }

  // The inner loop (repickVersion): tries candidates for modID until one is
  // placed, or undoes the last node of the path once none is left.
  method PlaceOrBacktrack(p: Provider, ghost root: string, ghost rootVersion: string, modID: string, path: seq<Node>,
                          queue: seq<string>, available0: Candidates, ghost k0: ORDINAL)
    returns (r: Turn, ghost n: nat, ghost k: ORDINAL)
    requires Live(k0, p, root, rootVersion, Search(path, [modID] + queue, available0))
    requires Open(p, root, rootVersion, [modID] + queue, available0)
    ensures TurnIs(p, modID, path, queue, available0, n, r)
    ensures match r
            case Continue(path', queue', available') =>
              && k < k0 && Live(k, p, root, rootVersion, Search(path', queue', available'))
              && Open(p, root, rootVersion, queue', available')
            case Stop(outcome) => Caused(p, root, rootVersion, outcome)
  {
    LiveParts(k0, p, root, rootVersion, path, [modID] + queue, available0);
    r, n := Repick(p, root, rootVersion, modID, path, queue, available0);
    TurnCaused(p, root, rootVersion, path, modID, queue, available0, n, r);
    k := k0;
    if r.Continue? {
      k := TurnKeepsLive(k0, p, root, rootVersion, path, modID, queue, available0, n, r);
    }
  }

  method Repick(p: Provider, ghost root: string, ghost rootVersion: string, modID: string, path: seq<Node>,
                queue: seq<string>, available0: Candidates)
    returns (r: Turn, ghost n: nat)
    requires PathOk(p, root, rootVersion, path)
    ensures TurnIs(p, modID, path, queue, available0, n, r)
  {
    var available := available0;
    n := |CandidatesOf(available0, modID)|;
    AllLeft(available0, modID);
    while modID in available && available[modID] != []
      invariant RefusedDownTo(p, modID, path, available0, n) && available == FirstOnly(available0, modID, n)
      decreases n
    {
      var versions := available[modID];
      var attempt := TryVersion(p, root, rootVersion, modID, versions[|versions| - 1], path, available, queue);
      match attempt {
        case Aborted => return Stop(Invalid), n;
        case Placed(node, available', queue') => return Continue(path + [node], queue', available'), n;
        case Rejected =>
          RefusedOneMore(p, modID, path, available0, n);
          n := n - 1;
          available := available[modID := DropLast(versions)];
      }
    }
    r := Backtrack(p, root, rootVersion, modID, path, queue);
  }

  lemma RefusedOneMore(p: Provider, modID: string, path: seq<Node>, available: Candidates, n: nat)
    requires 0 < n && RefusedDownTo(p, modID, path, available, n)
    requires Refused(p, modID, available[modID][n - 1], path, FirstOnly(available, modID, n))
    ensures RefusedDownTo(p, modID, path, available, n - 1)
    ensures var left := FirstOnly(available, modID, n);
            left[modID := DropLast(left[modID])] == FirstOnly(available, modID, n - 1)
  {
    assert DropLast(available[modID][..n]) == available[modID][..n - 1];
  }

  // ----- Runs of the search

  function FirstSearch(root: string, rootVersion: string): Search {
    Search([], [root], map[root := [rootVersion]])
  }

  ghost predicate Moves(p: Provider, s: Search, t: Turn) {
    s.pending != [] && exists n :: TurnIs(p, s.pending[0], s.path, s.pending[1..], s.available, n, t)
  }

  lemma TurnMoves(p: Provider, s: Search, n: nat, t: Turn)
    requires s.pending != [] && TurnIs(p, s.pending[0], s.path, s.pending[1..], s.available, n, t)
    ensures Moves(p, s, t)
  {
  }

  function Next(s: Search): Turn {
    Continue(s.path, s.pending, s.available)
  }

  ghost predicate IsRun(p: Provider, root: string, rootVersion: string, run: seq<Search>) {
    && run != [] && run[0] == FirstSearch(root, rootVersion)
    && forall i | 0 <= i < |run| - 1 :: Moves(p, run[i], Next(run[i + 1]))
  }

  // A search ends with its snapshot once the queue is empty, or in a turn that stops.
  ghost predicate EndsWith(p: Provider, s: Search, r: Outcome) {
    if s.pending == [] then r == Resolved(SnapshotOf(s.path)) else Moves(p, s, Stop(r))
  }

  lemma {:induction false} RunOneMore(p: Provider, root: string, rootVersion: string, run: seq<Search>, s: Search,
                                      t: Search)
    requires IsRun(p, root, rootVersion, run) && s == run[|run| - 1] && Moves(p, s, Next(t))
    ensures IsRun(p, root, rootVersion, run + [t])
  {
    var more := run + [t];
    forall i | 0 <= i < |more| - 1 ensures Moves(p, more[i], Next(more[i + 1])) {
      assert more[i] == run[i] && (i + 1 < |run| ==> more[i + 1] == run[i + 1]);
    }
  }

  lemma StartSearching(p: Provider, root: string, rootVersion: string)
    ensures var s := FirstSearch(root, rootVersion);
            && Searching(p, root, rootVersion, s.path, s.pending, s.available)
            && Open(p, root, rootVersion, s.pending, s.available)
  {
  }

  // Safety over all runs: whatever a run has placed, dropped and undone, the
  // search is in the invariant, open, and one rank lower with every turn.
  lemma {:induction false} RunIsLive(p: Provider, root: string, rootVersion: string, run: seq<Search>)
    returns (k: ORDINAL)
    requires IsRun(p, root, rootVersion, run)
    ensures var s := run[|run| - 1];
            Live(k, p, root, rootVersion, s) && Open(p, root, rootVersion, s.pending, s.available)
  {
    if |run| == 1 {
      var s := run[0];
      StartSearching(p, root, rootVersion);
      k := FirstRank(p, root, rootVersion, s.available, |s.pending|);
      LiveOf(k, p, root, rootVersion, s.path, s.pending, s.available);
    } else {
      var front, s, t := DropLast(run), run[|run| - 2], run[|run| - 1];
      forall i | 0 <= i < |front| - 1 ensures Moves(p, front[i], Next(front[i + 1])) {
        assert Moves(p, run[i], Next(run[i + 1]));
      }
      k := RunIsLive(p, root, rootVersion, front);
      assert Moves(p, run[|run| - 2], Next(run[|run| - 2 + 1]));
      k := MoveKeepsLive(k, p, root, rootVersion, s, t);
    }
  }

  lemma MoveKeepsLive(k: ORDINAL, p: Provider, root: string, rootVersion: string, s: Search, t: Search)
    returns (k': ORDINAL)
    requires Live(k, p, root, rootVersion, s) && Open(p, root, rootVersion, s.pending, s.available)
    requires Moves(p, s, Next(t))
    ensures k' < k && Live(k', p, root, rootVersion, t) && Open(p, root, rootVersion, t.pending, t.available)
  {
    var n :| TurnIs(p, s.pending[0], s.path, s.pending[1..], s.available, n, Next(t));
    HeadAndTail(s.pending);
    LiveParts(k, p, root, rootVersion, s.path, s.pending, s.available);
    k' := TurnKeepsLive(k, p, root, rootVersion, s.path, s.pending[0], s.pending[1..], s.available, n, Next(t));
    TurnCaused(p, root, rootVersion, s.path, s.pending[0], s.pending[1..], s.available, n, Next(t));
  }

  // What the end of a run means.
  lemma {:induction false} RunEnds(p: Provider, root: string, rootVersion: string, run: seq<Search>, r: Outcome)
    requires IsRun(p, root, rootVersion, run) && EndsWith(p, run[|run| - 1], r)
    ensures if r.Resolved? then Solves(p, root, rootVersion, r.snapshot) else Caused(p, root, rootVersion, r)
  {
    var s := run[|run| - 1];
    var k := RunIsLive(p, root, rootVersion, run);
    LiveParts(k, p, root, rootVersion, s.path, s.pending, s.available);
    if s.pending == [] {
      assert s.path != [];
      EndSolves(p, root, rootVersion, s.path, s.available);
    } else {
      var n :| TurnIs(p, s.pending[0], s.path, s.pending[1..], s.available, n, Stop(r));
      HeadAndTail(s.pending);
      TurnCaused(p, root, rootVersion, s.path, s.pending[0], s.pending[1..], s.available, n, Stop(r));
    }
  }

  lemma RootWasPlaced(k: ORDINAL, p: Provider, root: string, rootVersion: string, path: seq<Node>,
                      available: Candidates)
    requires Live(k, p, root, rootVersion, Search(path, [], available))
    ensures path != []
  {
    LiveParts(k, p, root, rootVersion, path, [], available);
  }

  // What each outcome tells a caller.
  lemma OutcomeMeans(p: Provider, root: string, rootVersion: string, r: Outcome)
    requires if r.Resolved? then Solves(p, root, rootVersion, r.snapshot) else Caused(p, root, rootVersion, r)
    ensures (forall m, v | Listed(p, root, rootVersion, m, v) :: !RejectsItself(p, m, v)) ==> !r.Panicked?
    ensures r.Resolved? && (forall m, v | Listed(p, root, rootVersion, m, v) :: SelfMet(p, m, v)) ==>
              Closed(p, r.snapshot[root := rootVersion])
  {
    if r.Resolved? && forall m, v | Listed(p, root, rootVersion, m, v) :: SelfMet(p, m, v) {
      var chosen := r.snapshot[root := rootVersion];
      forall m | m in chosen ensures SelfMet(p, m, chosen[m]) {
        assert Listed(p, root, rootVersion, m, chosen[m]);
      }
    }
  }

  method GetDependencySnapshot(p: Provider, root: string, rootVersion: string) returns (r: Outcome)
    ensures exists run :: IsRun(p, root, rootVersion, run) && EndsWith(p, run[|run| - 1], r)
    ensures r.Resolved? ==> Solves(p, root, rootVersion, r.snapshot)
    ensures !r.Resolved? ==> Caused(p, root, rootVersion, r)
    ensures (forall m, v | Listed(p, root, rootVersion, m, v) :: !RejectsItself(p, m, v)) ==> !r.Panicked?
    ensures r.Resolved? && (forall m, v | Listed(p, root, rootVersion, m, v) :: SelfMet(p, m, v)) ==>
              Closed(p, r.snapshot[root := rootVersion])
  {
    ghost var run;
    r, run := RunSearch(p, root, rootVersion);
    RunEnds(p, root, rootVersion, run, r);
    OutcomeMeans(p, root, rootVersion, r);
  }

  // The outer loop, which ends with the end of some run.
  method RunSearch(p: Provider, root: string, rootVersion: string) returns (r: Outcome, ghost run: seq<Search>)
    ensures IsRun(p, root, rootVersion, run) && EndsWith(p, run[|run| - 1], r)
  {
    var path: seq<Node>, queue, available := [], [root], map[root := [rootVersion]];
    run := [Search(path, queue, available)];
    ghost var k := RunIsLive(p, root, rootVersion, run);
    while |queue| > 0
      invariant Live(k, p, root, rootVersion, Search(path, queue, available))
      invariant Open(p, root, rootVersion, queue, available)
      invariant IsRun(p, root, rootVersion, run) && run[|run| - 1] == Search(path, queue, available)
      decreases k
    {
      HeadAndTail(queue);
      var turn;
      ghost var n;
      turn, n, k := PlaceOrBacktrack(p, root, rootVersion, queue[0], path, queue[1..], available, k);
      TurnMoves(p, Search(path, queue, available), n, turn);
      match turn {
        case Stop(outcome) => return outcome, run;
        case Continue(path', queue', available') =>
          RunOneMore(p, root, rootVersion, run, Search(path, queue, available), Search(path', queue', available'));
          path, queue, available := path', queue', available';
          run := run + [Search(path, queue, available)];
      }
    }
    RootWasPlaced(k, p, root, rootVersion, path, available);
    var snapshot := BuildSnapshot(path);
    r := Resolved(snapshot);
  }
}
