// The server's dependency resolver: it gathers constraints along naively picked
// versions, resolves every mod against all its constraints, and then checks that
// the picks it relied on are the versions it ended with.
module ServerResolver {
  import opened Seqs
  import opened Wrappers
  import opened VersionSort

  datatype Dependency = Dependency(modid: string, constraint: string)

  // The database, and what versions and constraints mean.
  datatype Provider<!V, !C> = Provider(
    packages: (string, string) -> seq<seq<Dependency>>,
    versions: map<string, seq<string>>,
    sem: SemVer<V>,
    text: V -> string,
    constraint: string -> Option<C>,
    meets: (C, V) -> bool)

  datatype Request = Request(modid: string, version: string, preReq: map<string, string>)

  datatype Item<C> = Item(constraint: C, preReq: map<string, string>)

  // One entry of the log of all constraints found so far.
  datatype Found<C> = Found(modid: string, item: Item<C>)

  datatype Outcome =
    Resolved(snapshot: map<string, string>) | Unreadable | NoneMatches(modid: string) | AssumptionFailed

  function Versions<V, C>(p: Provider<V, C>, modid: string): seq<string> {
    if modid in p.versions then p.versions[modid] else []
  }

  function Lookup(m: map<string, string>, k: string): string {
    if k in m then m[k] else ""
  }

  // ----- Picking versions

  predicate Meets<V, C>(p: Provider<V, C>, version: string, c: C) {
    match p.sem.parse(version)
    case None => false
    case Some(v) => p.meets(c, v)
  }

  // The highest version that meets a constraint.
  ghost predicate Naive<V, C>(p: Provider<V, C>, modid: string, c: C, version: string) {
    exists raw ::
      && raw in Versions(p, modid) && Meets(p, raw, c) && version == p.text(p.sem.parse(raw).value)
      && forall other | other in Versions(p, modid) && Meets(p, other, c) :: NotBelow(p.sem, raw, other)
  }

  method PickNaiveVersion<V(!new), C>(p: Provider<V, C>, modid: string, available: seq<string>, c: C)
    returns (ok: bool, version: string)
    requires IsOrder(p.sem) && available == Versions(p, modid)
    ensures ok ==> Naive(p, modid, c, version)
    ensures !ok ==> !Valid(p.sem, available) || forall v | v in available :: !Meets(p, v, c)
  {
    var parsed, sorted := SortVersions(p.sem, available);
    if !parsed {
      return false, "";
    }
    SameElements(sorted, available);
    for idx := |sorted| downto 0
      invariant forall i | idx <= i < |sorted| :: !Meets(p, sorted[i], c)
    {
      var v := p.sem.parse(sorted[idx]).value;
      if p.meets(c, v) {
        forall other | other in available && Meets(p, other, c) ensures NotBelow(p.sem, sorted[idx], other) {
          var j :| 0 <= j < |sorted| && sorted[j] == other;
          if j == idx {
            assert !p.sem.less(v, v);
          }
        }
        assert sorted[idx] in available;
        return true, p.text(v);
      }
    }
    return false, "";
  }

  // The last listed version that meets all constraints of a mod.
  predicate MeetsAll<V, C>(p: Provider<V, C>, version: string, items: seq<Item<C>>) {
    forall i | 0 <= i < |items| :: Meets(p, version, items[i].constraint)
  }

  ghost predicate Latest<V, C>(p: Provider<V, C>, modid: string, items: seq<Item<C>>, version: string) {
    exists i ::
      && 0 <= i < |Versions(p, modid)| && MeetsAll(p, Versions(p, modid)[i], items)
      && p.sem.parse(Versions(p, modid)[i]).Some? && version == p.text(p.sem.parse(Versions(p, modid)[i]).value)
      && forall j | i < j < |Versions(p, modid)| :: !MeetsAll(p, Versions(p, modid)[j], items)
  }

  datatype Choice = Chosen(version: string) | NoVersion | BadVersion

  method ResolveMod<V, C>(p: Provider<V, C>, modid: string, items: seq<Item<C>>) returns (choice: Choice)
    ensures choice.Chosen? ==> Latest(p, modid, items, choice.version)
    ensures choice.NoVersion? ==> forall v | v in Versions(p, modid) :: !MeetsAll(p, v, items)
    ensures choice.BadVersion? ==> !Valid(p.sem, Versions(p, modid))
  {
    var versions := Versions(p, modid);
    for idx := |versions| downto 0
      invariant forall i | idx <= i < |versions| :: !MeetsAll(p, versions[i], items)
    {
      match p.sem.parse(versions[idx]) {
        case None =>
          assert versions[idx] in versions;
          return BadVersion;
        case Some(v) =>
          var ok, i := true, 0;
          while i < |items| && ok
            invariant 0 <= i <= |items|
            invariant ok ==> forall j | 0 <= j < i :: Meets(p, versions[idx], items[j].constraint)
            invariant !ok ==> !MeetsAll(p, versions[idx], items)
          {
            ok := p.meets(items[i].constraint, v);
            i := i + 1;
          }
          if ok {
            return Chosen(p.text(v));
          }
      }
    }
    return NoVersion;
  }

  // ----- What was gathered

  function Flat(packages: seq<seq<Dependency>>): seq<Dependency> {
    if packages == [] then [] else Flat(DropLast(packages)) + packages[|packages| - 1]
  }

  function Deps<V, C>(p: Provider<V, C>, r: Request): seq<Dependency> {
    Flat(p.packages(r.modid, r.version))
  }

  function Log<V, C>(p: Provider<V, C>, r: Request, deps: seq<Dependency>): seq<Found<C>> {
    if deps == [] then []
    else
      var before, last := Log(p, r, DropLast(deps)), deps[|deps| - 1];
      match p.constraint(last.constraint)
      case None => before
      case Some(c) => before + [Found(last.modid, Item(c, r.preReq))]
  }

  function LogOf<V, C>(p: Provider<V, C>, requests: seq<Request>): seq<Found<C>> {
    if requests == [] then []
    else
      var last := requests[|requests| - 1];
      LogOf(p, DropLast(requests)) + Log(p, last, Deps(p, last))
  }

  function ItemsOf<C>(log: seq<Found<C>>, modid: string): seq<Item<C>> {
    if log == [] then []
    else
      var before, last := ItemsOf(DropLast(log), modid), log[|log| - 1];
      if last.modid == modid then before + [last.item] else before
  }

  lemma ItemsOneMore<C>(log: seq<Found<C>>, f: Found<C>, modid: string)
    ensures ItemsOf(log + [f], modid) == ItemsOf(log, modid) + if f.modid == modid then [f.item] else []
  {
    assert DropLast(log + [f]) == log;
  }

  lemma {:induction false} ItemIn<C>(log: seq<Found<C>>, modid: string, item: Item<C>)
    ensures item in ItemsOf(log, modid) <==> Found(modid, item) in log
  {
    if log != [] {
      ItemIn(DropLast(log), modid, item);
      assert log == DropLast(log) + [log[|log| - 1]];
    }
  }

  ghost predicate AllReadable<V, C>(p: Provider<V, C>, deps: seq<Dependency>) {
    forall i | 0 <= i < |deps| :: p.constraint(deps[i].constraint).Some?
  }

  // constraints groups the log by mod.
  ghost predicate Groups<C>(constraints: map<string, seq<Item<C>>>, log: seq<Found<C>>) {
    forall m :: if m in constraints then constraints[m] == ItemsOf(log, m) != [] else ItemsOf(log, m) == []
  }

  // The requests that were ever enqueued: the root, and then every mod that the
  // log names, once, with the version that was picked for its first constraint.
  ghost predicate Enqueued<V, C>(p: Provider<V, C>, requests: seq<Request>, log: seq<Found<C>>) {
    && requests != [] && requests[0].preReq == map[]
    && (forall i, j | 1 <= i < j < |requests| :: requests[i].modid != requests[j].modid)
    && (forall i | 1 <= i < |requests| :: NaivelyPicked(p, requests[i], ItemsOf(log, requests[i].modid)))
    && (forall f | f in log :: Named(requests, f.modid))
  }

  // One of the requests, but for the root, is for this mod.
  ghost predicate Named(requests: seq<Request>, modid: string) {
    exists i :: 1 <= i < |requests| && requests[i].modid == modid
  }

  lemma StaysNamed(requests: seq<Request>, r: Request, modid: string)
    requires requests != [] && (Named(requests, modid) || r.modid == modid)
    ensures Named(requests + [r], modid)
  {
    if Named(requests, modid) {
      var i :| 1 <= i < |requests| && requests[i].modid == modid;
      assert (requests + [r])[i].modid == modid;
    } else {
      assert (requests + [r])[|requests|].modid == modid;
    }
  }

  ghost predicate NaivelyPicked<V, C>(p: Provider<V, C>, r: Request, items: seq<Item<C>>) {
    items != [] && Naive(p, r.modid, items[0].constraint, r.version)
  }

  // What a request relies on: its own pick, and picks that had dependencies.
  ghost predicate ReliesOn<V, C>(p: Provider<V, C>, requests: seq<Request>) {
    && (forall i | 1 <= i < |requests| ::
          requests[i].modid in requests[i].preReq && requests[i].preReq[requests[i].modid] == requests[i].version)
    && (forall i, k | 0 <= i < |requests| && k in requests[i].preReq :: PickedBy(p, requests, i, k))
  }

  ghost predicate PickedBy<V, C>(p: Provider<V, C>, requests: seq<Request>, i: nat, k: string)
    requires i < |requests| && k in requests[i].preReq
  {
    exists j :: 1 <= j < |requests| && requests[j].modid == k && requests[j].version == requests[i].preReq[k]
                && (j == i || Deps(p, requests[j]) != [])
  }

  // ----- Gathering

  ghost predicate Gathering<V, C>(p: Provider<V, C>, root: Request, requests: seq<Request>, log: seq<Found<C>>,
                                  constraints: map<string, seq<Item<C>>>)
  {
    && Groups(constraints, log) && Enqueued(p, requests, log) && ReliesOn(p, requests) && requests[0] == root
  }

  lemma GroupsOneMore<C>(constraints: map<string, seq<Item<C>>>, log: seq<Found<C>>, f: Found<C>)
    requires Groups(constraints, log)
    ensures Groups(constraints[f.modid := (if f.modid in constraints then constraints[f.modid] else []) + [f.item]],
                   log + [f])
  {
    forall m
      ensures ItemsOf(log + [f], m) == ItemsOf(log, m) + if f.modid == m then [f.item] else []
    {
      ItemsOneMore(log, f, m);
    }
  }

  lemma FirstStays<C>(log: seq<Found<C>>, f: Found<C>, m: string)
    requires ItemsOf(log, m) != []
    ensures ItemsOf(log + [f], m) != [] && ItemsOf(log + [f], m)[0] == ItemsOf(log, m)[0]
  {
    ItemsOneMore(log, f, m);
  }

  lemma {:induction false} SomeFound<C>(log: seq<Found<C>>, m: string)
    ensures ItemsOf(log, m) != [] <==> exists f :: f in log && f.modid == m
  {
    if log != [] {
      SomeFound(DropLast(log), m);
      assert log == DropLast(log) + [log[|log| - 1]];
      assert log[|log| - 1] in log;
    }
  }

  lemma PicksStay<V, C>(p: Provider<V, C>, requests: seq<Request>, log: seq<Found<C>>, f: Found<C>)
    requires forall i | 1 <= i < |requests| :: NaivelyPicked(p, requests[i], ItemsOf(log, requests[i].modid))
    ensures forall i | 1 <= i < |requests| :: NaivelyPicked(p, requests[i], ItemsOf(log + [f], requests[i].modid))
  {
    forall i | 1 <= i < |requests| ensures NaivelyPicked(p, requests[i], ItemsOf(log + [f], requests[i].modid)) {
      FirstStays(log, f, requests[i].modid);
    }
  }

  // One more constraint on a mod that is enqueued.
  lemma KnownMod<V, C>(p: Provider<V, C>, requests: seq<Request>, log: seq<Found<C>>, f: Found<C>)
    requires Enqueued(p, requests, log) && ItemsOf(log, f.modid) != []
    ensures Enqueued(p, requests, log + [f])
  {
    PicksStay(p, requests, log, f);
    SomeFound(log, f.modid);
    assert Named(requests, f.modid);
  }

  lemma NewMod<V, C>(p: Provider<V, C>, requests: seq<Request>, log: seq<Found<C>>, f: Found<C>, r: Request)
    requires Enqueued(p, requests, log) && ItemsOf(log, f.modid) == []
    requires r.modid == f.modid && Naive(p, r.modid, f.item.constraint, r.version)
    ensures Enqueued(p, requests + [r], log + [f])
  {
    var requests', log' := requests + [r], log + [f];
    forall i | 1 <= i < |requests'| ensures NaivelyPicked(p, requests'[i], ItemsOf(log', requests'[i].modid)) {
      if i < |requests| {
        assert NaivelyPicked(p, requests[i], ItemsOf(log, requests[i].modid));
        FirstStays(log, f, requests[i].modid);
      } else {
        ItemsOneMore(log, f, f.modid);
      }
    }
    forall i | 1 <= i < |requests| ensures requests[i].modid != r.modid {
      assert NaivelyPicked(p, requests[i], ItemsOf(log, requests[i].modid));
    }
    forall g | g in log' ensures Named(requests', g.modid) {
      StaysNamed(requests, r, g.modid);
    }
  }

  lemma NewRelies<V, C>(p: Provider<V, C>, requests: seq<Request>, h: nat, r: Request)
    requires ReliesOn(p, requests) && h < |requests| && Deps(p, requests[h]) != []
    requires r.preReq == requests[h].preReq[r.modid := r.version]
    ensures ReliesOn(p, requests + [r])
  {
    var requests' := requests + [r];
    forall i, k | 0 <= i < |requests'| && k in requests'[i].preReq ensures PickedBy(p, requests', i, k) {
      if i == |requests| && k == r.modid {
        assert requests'[i].modid == k;
      } else {
        var from := if i < |requests| then i else h;
        assert PickedBy(p, requests, from, k);
        var j :| 1 <= j < |requests| && requests[j].modid == k && requests[j].version == requests[from].preReq[k]
                 && (j == from || Deps(p, requests[j]) != []);
        assert requests'[j].modid == k && requests'[j].version == requests'[i].preReq[k];
      }
    }
  }

  datatype Step<C> = Gathered(constraints: map<string, seq<Item<C>>>, queue: seq<Request>) | Failed(outcome: Outcome)

  // The sets grew together, or nothing did.
  ghost predicate Grows<V, C>(p: Provider<V, C>, before: map<string, seq<Item<C>>>, queue: seq<Request>,
                              after: map<string, seq<Item<C>>>, queue': seq<Request>)
  {
    || (after.Keys == before.Keys && queue' == queue)
    || (p.versions.Keys - after.Keys < p.versions.Keys - before.Keys)
  }

  // Gathering cannot go on with a dependency behind a log: its constraint or, where
  // its mod is new, one of the mod's versions cannot be read, or none of them meets
  // the constraint.
  ghost predicate Stuck<V, C>(p: Provider<V, C>, log: seq<Found<C>>, d: Dependency, outcome: Outcome) {
    match outcome
    case Unreadable =>
      p.constraint(d.constraint).None? || (ItemsOf(log, d.modid) == [] && !Valid(p.sem, Versions(p, d.modid)))
    case NoneMatches(modid) =>
      && modid == d.modid && p.constraint(d.constraint).Some? && ItemsOf(log, d.modid) == []
      && forall v | v in Versions(p, modid) :: !Meets(p, v, p.constraint(d.constraint).value)
    case _ => false
  }

  method GatherOne<V(!new), C>(p: Provider<V, C>, req: Request, dep: Dependency, constraints: map<string, seq<Item<C>>>,
                               queue: seq<Request>, ghost root: Request, ghost requests: seq<Request>, ghost h: nat,
                               ghost log: seq<Found<C>>)
    returns (step: Step<C>, ghost more: seq<Request>)
    requires IsOrder(p.sem) && Gathering(p, root, requests, log, constraints)
    requires h < |requests| && requests[h] == req && dep in Deps(p, req)
    ensures step.Failed? ==> step.outcome.Unreadable? || step.outcome.NoneMatches?
    ensures step.Gathered? ==>
              && p.constraint(dep.constraint).Some? && step.queue == queue + more
              && Gathering(p, root, requests + more,
                           log + [Found(dep.modid, Item(p.constraint(dep.constraint).value, req.preReq))],
                           step.constraints)
              && Grows(p, constraints, queue, step.constraints, step.queue)
    ensures step.Failed? ==> Stuck(p, log, dep, step.outcome)
  {
    more := [];
    match p.constraint(dep.constraint) {
      case None => step := Failed(Unreadable);
      case Some(con) =>
        var queue' := queue;
        ghost var f := Found(dep.modid, Item(con, req.preReq));
        if dep.modid !in constraints {
          var picked, version := PickNaiveVersion(p, dep.modid, Versions(p, dep.modid), con);
          if !picked {
            return Failed(if forall v | v in Versions(p, dep.modid) :: p.sem.parse(v).Some? then NoneMatches(dep.modid)
                          else Unreadable), more;
          }
          var r := Request(dep.modid, version, req.preReq[dep.modid := version]);
          queue', more := queue + [r], [r];
          NewMod(p, requests, log, f, r);
          NewRelies(p, requests, h, r);
        } else {
          KnownMod(p, requests, log, f);
          assert requests + [] == requests && queue + [] == queue;
        }
        GroupsOneMore(constraints, log, f);
        var items := if dep.modid in constraints then constraints[dep.modid] else [];
        step := Gathered(constraints[dep.modid := items + [Item(con, req.preReq)]], queue');
    }
  }

  lemma GrowsOn<V, C>(p: Provider<V, C>, a: map<string, seq<Item<C>>>, q: seq<Request>, b: map<string, seq<Item<C>>>,
                      r: seq<Request>, c: map<string, seq<Item<C>>>, s: seq<Request>)
    requires Grows(p, a, q, b, r) && Grows(p, b, r, c, s)
    ensures Grows(p, a, q, c, s)
  {
  }

  // The log after some of the dependencies of one request.
  ghost predicate LoggedSo<V, C>(p: Provider<V, C>, r: Request, deps: seq<Dependency>, before: seq<Found<C>>,
                                 log: seq<Found<C>>)
  {
    AllReadable(p, deps) && log == before + Log(p, r, deps)
  }

  lemma LoggedOneMore<V, C>(p: Provider<V, C>, r: Request, deps: seq<Dependency>, before: seq<Found<C>>,
                            log: seq<Found<C>>, d: Dependency)
    requires LoggedSo(p, r, deps, before, log) && p.constraint(d.constraint).Some?
    ensures LoggedSo(p, r, deps + [d], before,
                     log + [Found(d.modid, Item(p.constraint(d.constraint).value, r.preReq))])
  {
    assert DropLast(deps + [d]) == deps;
    Associative(before, Log(p, r, deps), [Found(d.modid, Item(p.constraint(d.constraint).value, r.preReq))]);
  }

  lemma {:induction false} FlatHas(packages: seq<seq<Dependency>>, i: nat)
    requires i < |packages|
    ensures forall d | d in packages[i] :: d in Flat(packages)
  {
    if i < |packages| - 1 {
      FlatHas(DropLast(packages), i);
    }
  }

  // Where a dependency of a package stands among all of them.
  lemma {:induction false} FlatAt(packages: seq<seq<Dependency>>, i: nat, j: nat) returns (k: nat)
    requires i < |packages| && j < |packages[i]|
    ensures k < |Flat(packages)| && Flat(packages)[k] == packages[i][j]
    ensures Flat(packages[..i]) + packages[i][..j] == Flat(packages)[..k]
  {
    if i == |packages| - 1 {
      k := |Flat(packages[..i])| + j;
    } else {
      assert DropLast(packages)[..i] == packages[..i];
      k := FlatAt(DropLast(packages), i, j);
    }
  }

  // Everything that is known in the middle of one request.
  ghost predicate Halfway<V, C>(p: Provider<V, C>, root: Request, requests: seq<Request>, h: nat, before: seq<Found<C>>,
                                deps: seq<Dependency>, log: seq<Found<C>>, constraints: map<string, seq<Item<C>>>)
  {
    && h < |requests| && LoggedSo(p, requests[h], deps, before, log)
    && Gathering(p, root, requests, log, constraints)
  }

  // Gathering is stuck at a dependency of the h-th request, behind the first ones.
  ghost predicate StuckAt<V, C>(p: Provider<V, C>, root: Request, requests: seq<Request>, h: nat, before: seq<Found<C>>,
                                deps: seq<Dependency>, d: Dependency, outcome: Outcome)
  {
    && h < |requests| && requests[0] == root && AllReadable(p, deps) && ReliesOn(p, requests)
    && Enqueued(p, requests, before + Log(p, requests[h], deps))
    && Stuck(p, before + Log(p, requests[h], deps), d, outcome)
  }

  method GatherPackage<V(!new), C>(p: Provider<V, C>, req: Request, deps: seq<Dependency>,
                                   constraints: map<string, seq<Item<C>>>, queue: seq<Request>, ghost root: Request,
                                   ghost requests: seq<Request>, ghost h: nat, ghost before: seq<Found<C>>,
                                   ghost sofar: seq<Dependency>, ghost log0: seq<Found<C>>)
    returns (step: Step<C>, ghost more: seq<Request>, ghost log: seq<Found<C>>, ghost at: nat)
    requires IsOrder(p.sem) && Halfway(p, root, requests, h, before, sofar, log0, constraints) && requests[h] == req
    requires forall d | d in deps :: d in Deps(p, req)
    ensures step.Failed? ==> step.outcome.Unreadable? || step.outcome.NoneMatches?
    ensures step.Gathered? ==>
              && step.queue == queue + more && Grows(p, constraints, queue, step.constraints, step.queue)
              && Halfway(p, root, requests + more, h, before, sofar + deps, log, step.constraints)
    ensures step.Failed? ==>
              at < |deps| && StuckAt(p, root, requests + more, h, before, sofar + deps[..at], deps[at], step.outcome)
  {
    step, more, log, at := Gathered(constraints, queue), [], log0, 0;
    assert requests + [] == requests && queue + [] == queue && sofar + deps[..0] == sofar;
    for j := 0 to |deps|
      invariant step.Gathered? && step.queue == queue + more &&
                Grows(p, constraints, queue, step.constraints, step.queue)
      invariant Halfway(p, root, requests + more, h, before, sofar + deps[..j], log, step.constraints)
    {
      ghost var step0, more0 := step, more;
      ghost var enqueued: seq<Request>;
      step, enqueued := GatherOne(p, req, deps[j], step.constraints, step.queue, root, requests + more, h, log);
      if step.Failed? {
        at := j;
        return;
      }
      LoggedOneMore(p, req, sofar + deps[..j], before, log, deps[j]);
      TakeOneMore(deps, j);
      Associative(sofar, deps[..j], [deps[j]]);
      Associative(requests, more, enqueued);
      Associative(queue, more, enqueued);
      GrowsOn(p, constraints, queue, step0.constraints, step0.queue, step.constraints, step.queue);
      more := more + enqueued;
      log := log + [Found(deps[j].modid, Item(p.constraint(deps[j].constraint).value, req.preReq))];
    }
    TakeAll(deps);
  }

  method GatherRequest<V(!new), C>(p: Provider<V, C>, req: Request, constraints: map<string, seq<Item<C>>>,
                                   queue: seq<Request>, ghost root: Request, ghost requests: seq<Request>, ghost h: nat,
                                   ghost before: seq<Found<C>>)
    returns (step: Step<C>, ghost more: seq<Request>, ghost log: seq<Found<C>>, ghost at: nat)
    requires IsOrder(p.sem) && h < |requests| && requests[h] == req && Gathering(p, root, requests, before, constraints)
    ensures step.Failed? ==> step.outcome.Unreadable? || step.outcome.NoneMatches?
    ensures step.Gathered? ==>
              && step.queue == queue + more && Grows(p, constraints, queue, step.constraints, step.queue)
              && Halfway(p, root, requests + more, h, before, Deps(p, req), log, step.constraints)
    ensures step.Failed? ==>
              && at < |Deps(p, req)|
              && StuckAt(p, root, requests + more, h, before, Deps(p, req)[..at], Deps(p, req)[at], step.outcome)
  {
    var pkgs := p.packages(req.modid, req.version);
    step, more, log, at := Gathered(constraints, queue), [], before, 0;
    assert requests + [] == requests && queue + [] == queue && before + [] == before && pkgs[..0] == [];
    for i := 0 to |pkgs|
      invariant step.Gathered? && step.queue == queue + more &&
                Grows(p, constraints, queue, step.constraints, step.queue)
      invariant Halfway(p, root, requests + more, h, before, Flat(pkgs[..i]), log, step.constraints)
    {
      ghost var step0 := step;
      ghost var enqueued: seq<Request>;
      FlatHas(pkgs, i);
      ghost var j;
      step, enqueued, log, j := GatherPackage(p, req, pkgs[i], step.constraints, step.queue, root, requests + more, h,
                                              before, Flat(pkgs[..i]), log);
      Associative(requests, more, enqueued);
      if step.Failed? {
        at := FlatAt(pkgs, i, j);
        more := more + enqueued;
        return;
      }
      assert DropLast(pkgs[..i + 1]) == pkgs[..i];
      Associative(queue, more, enqueued);
      GrowsOn(p, constraints, queue, step0.constraints, step0.queue, step.constraints, step.queue);
      more := more + enqueued;
    }
    TakeAll(pkgs);
  }

  // The constraints of all requests are in the log, and nothing else is.
  ghost predicate Explored<V, C>(p: Provider<V, C>, root: Request, requests: seq<Request>) {
    && Enqueued(p, requests, LogOf(p, requests)) && ReliesOn(p, requests) && requests[0] == root
    && forall i | 0 <= i < |requests| :: AllReadable(p, Deps(p, requests[i]))
  }

  ghost predicate ExploredTo<V, C>(p: Provider<V, C>, root: Request, requests: seq<Request>, h: nat, log: seq<Found<C>>,
                                   constraints: map<string, seq<Item<C>>>)
  {
    && h <= |requests| && log == LogOf(p, requests[..h]) && Gathering(p, root, requests, log, constraints)
    && forall i | 0 <= i < h :: AllReadable(p, Deps(p, requests[i]))
  }

  lemma ExploresOneMore<V, C>(p: Provider<V, C>, root: Request, requests: seq<Request>, h: nat, before: seq<Found<C>>,
                              constraints0: map<string, seq<Item<C>>>, more: seq<Request>, log: seq<Found<C>>,
                              constraints: map<string, seq<Item<C>>>)
    requires ExploredTo(p, root, requests, h, before, constraints0) && h < |requests|
    requires Halfway(p, root, requests + more, h, before, Deps(p, requests[h]), log, constraints)
    ensures ExploredTo(p, root, requests + more, h + 1, log, constraints)
  {
    var requests' := requests + more;
    LogOneRequestMore(p, requests, h, more);
    forall i | 0 <= i < h + 1 ensures AllReadable(p, Deps(p, requests'[i])) {
      if i < h {
        assert requests'[i] == requests[i];
      }
    }
  }

  lemma LogOneRequestMore<V, C>(p: Provider<V, C>, requests: seq<Request>, h: nat, more: seq<Request>)
    requires h < |requests|
    ensures LogOf(p, (requests + more)[..h + 1]) == LogOf(p, requests[..h]) + Log(p, requests[h], Deps(p, requests[h]))
  {
    assert (requests + more)[..h + 1] == requests[..h] + [requests[h]];
    assert DropLast(requests[..h] + [requests[h]]) == requests[..h];
  }

  // How gathering fails: at the k-th dependency of the h-th request.
  ghost predicate FailsAt<V, C>(p: Provider<V, C>, root: Request, requests: seq<Request>, h: nat, k: nat,
                                outcome: Outcome)
  {
    && h < |requests| && k < |Deps(p, requests[h])|
    && (forall i | 0 <= i < h :: AllReadable(p, Deps(p, requests[i])))
    && var deps := Deps(p, requests[h]);
    StuckAt(p, root, requests, h, LogOf(p, requests[..h]), deps[..k], deps[k], outcome)
  }

  method Gather<V(!new), C>(p: Provider<V, C>, root: Request)
    returns (step: Step<C>, ghost requests: seq<Request>)
    requires IsOrder(p.sem) && root.preReq == map[]
    ensures step.Failed? ==> step.outcome.Unreadable? || step.outcome.NoneMatches?
    ensures step.Gathered? ==> Explored(p, root, requests) && Groups(step.constraints, LogOf(p, requests))
    ensures step.Failed? ==> exists h, k :: FailsAt(p, root, requests, h, k, step.outcome)
  {
    var constraints: map<string, seq<Item<C>>>, queue := map[], [root];
    ghost var h, log: seq<Found<C>> := 0, [];
    requests := [root];
    NothingExplored(p, root);
    while queue != []
      invariant ExploredTo(p, root, requests, h, log, constraints) && queue == requests[h..]
      decreases p.versions.Keys - constraints.Keys, |queue|
    {
      var req := queue[0];
      queue := queue[1..];
      ghost var more: seq<Request>, log', at;
      step, more, log', at := GatherRequest(p, req, constraints, queue, root, requests, h, log);
      if step.Failed? {
        FailsSo(p, root, requests, h, more, at, step.outcome);
        requests := requests + more;
        return;
      }
      ExploresOneMore(p, root, requests, h, log, constraints, more, log', step.constraints);
      NextOnes(requests, h, more);
      constraints, queue := step.constraints, step.queue;
      requests, h, log := requests + more, h + 1, log';
    }
    AllExplored(p, root, requests, log, constraints);
    step := Gathered(constraints, queue);
  }

  lemma NothingExplored<V, C>(p: Provider<V, C>, root: Request)
    requires root.preReq == map[]
    ensures ExploredTo(p, root, [root], 0, [], map[])
  {
  }

  lemma AllExplored<V, C>(p: Provider<V, C>, root: Request, requests: seq<Request>, log: seq<Found<C>>,
                          constraints: map<string, seq<Item<C>>>)
    requires ExploredTo(p, root, requests, |requests|, log, constraints)
    ensures Explored(p, root, requests) && Groups(constraints, LogOf(p, requests))
  {
    TakeAll(requests);
  }

  lemma FailsSo<V, C>(p: Provider<V, C>, root: Request, requests: seq<Request>, h: nat, more: seq<Request>, k: nat,
                      outcome: Outcome)
    requires h < |requests| && k < |Deps(p, requests[h])|
    requires forall i | 0 <= i < h :: AllReadable(p, Deps(p, requests[i]))
    requires StuckAt(p, root, requests + more, h, LogOf(p, requests[..h]), Deps(p, requests[h])[..k],
                     Deps(p, requests[h])[k], outcome)
    ensures FailsAt(p, root, requests + more, h, k, outcome)
  {
    assert (requests + more)[..h] == requests[..h];
    forall i | 0 <= i < h ensures AllReadable(p, Deps(p, (requests + more)[i])) {
      assert (requests + more)[i] == requests[i];
    }
  }

  lemma NextOnes(requests: seq<Request>, h: nat, more: seq<Request>)
    requires h < |requests|
    ensures requests[h..][1..] + more == (requests + more)[h + 1..]
  {
  }

  // ----- Resolving and verifying

  method ResolveAll<V, C>(p: Provider<V, C>, constraints: map<string, seq<Item<C>>>) returns (outcome: Outcome)
    ensures outcome.Resolved? || outcome.NoneMatches? || outcome.Unreadable?
    ensures outcome.Resolved? ==>
              && outcome.snapshot.Keys == constraints.Keys
              && forall m | m in constraints :: Latest(p, m, constraints[m], outcome.snapshot[m])
    ensures outcome.Unreadable? ==> exists m :: m in constraints && !Valid(p.sem, Versions(p, m))
    ensures outcome.NoneMatches? ==>
              && outcome.modid in constraints
              && forall v | v in Versions(p, outcome.modid) :: !MeetsAll(p, v, constraints[outcome.modid])
  {
    var snapshot, left := map[], constraints.Keys;
    while left != {}
      invariant left <= constraints.Keys && snapshot.Keys == constraints.Keys - left
      invariant forall m | m in snapshot :: Latest(p, m, constraints[m], snapshot[m])
      decreases left
    {
      var modid :| modid in left;
      var choice := ResolveMod(p, modid, constraints[modid]);
      match choice {
        case NoVersion => return NoneMatches(modid);
        case BadVersion => return Unreadable;
        case Chosen(version) =>
          snapshot := snapshot[modid := version];
          left := left - {modid};
      }
    }
    return Resolved(snapshot);
  }

  predicate Holds(snapshot: map<string, string>, preReq: map<string, string>) {
    forall k | k in preReq :: Lookup(snapshot, k) == preReq[k]
  }

  method VerifyAssumptions<C>(constraints: map<string, seq<Item<C>>>, snapshot: map<string, string>) returns (ok: bool)
    ensures ok <==> forall m, i | m in constraints && 0 <= i < |constraints[m]| ::
                      Holds(snapshot, constraints[m][i].preReq)
  {
    var mods := constraints.Keys;
    while mods != {}
      invariant mods <= constraints.Keys
      invariant forall m, i | m in constraints.Keys - mods && 0 <= i < |constraints[m]| ::
                  Holds(snapshot, constraints[m][i].preReq)
      decreases mods
    {
      var modid :| modid in mods;
      for i := 0 to |constraints[modid]|
        invariant forall j | 0 <= j < i :: Holds(snapshot, constraints[modid][j].preReq)
      {
        var preReq := constraints[modid][i].preReq;
        var keys := preReq.Keys;
        while keys != {}
          invariant keys <= preReq.Keys && forall k | k in preReq.Keys - keys :: Lookup(snapshot, k) == preReq[k]
          decreases keys
        {
          var reqMod :| reqMod in keys;
          if Lookup(snapshot, reqMod) != preReq[reqMod] {
            return false;
          }
          keys := keys - {reqMod};
        }
      }
      mods := mods - {modid};
    }
    return true;
  }

  // ----- What an answer means

  lemma {:induction false} LogHas<V, C>(p: Provider<V, C>, r: Request, deps: seq<Dependency>, d: Dependency)
    requires AllReadable(p, deps) && d in deps
    ensures p.constraint(d.constraint).Some?
    ensures Found(d.modid, Item(p.constraint(d.constraint).value, r.preReq)) in Log(p, r, deps)
  {
    var last := deps[|deps| - 1];
    assert p.constraint(last.constraint).Some?;
    if last != d {
      assert d in DropLast(deps);
      forall i | 0 <= i < |DropLast(deps)| ensures p.constraint(DropLast(deps)[i].constraint).Some? {
        assert DropLast(deps)[i] == deps[i];
      }
      LogHas(p, r, DropLast(deps), d);
    }
  }

  lemma {:induction false} LogFrom<V, C>(p: Provider<V, C>, r: Request, deps: seq<Dependency>, f: Found<C>)
    requires f in Log(p, r, deps)
    ensures f.item.preReq == r.preReq && deps != []
  {
    if f in Log(p, r, DropLast(deps)) {
      LogFrom(p, r, DropLast(deps), f);
    }
  }

  lemma {:induction false} LogOfHas<V, C>(p: Provider<V, C>, requests: seq<Request>, h: nat, d: Dependency)
    requires h < |requests| && AllReadable(p, Deps(p, requests[h])) && d in Deps(p, requests[h])
    ensures p.constraint(d.constraint).Some?
    ensures Found(d.modid, Item(p.constraint(d.constraint).value, requests[h].preReq)) in LogOf(p, requests)
  {
    if h < |requests| - 1 {
      LogOfHas(p, DropLast(requests), h, d);
    } else {
      LogHas(p, requests[h], Deps(p, requests[h]), d);
    }
  }

  lemma {:induction false} LogOfFrom<V, C>(p: Provider<V, C>, requests: seq<Request>, f: Found<C>)
    requires f in LogOf(p, requests)
    ensures exists h :: 0 <= h < |requests| && f.item.preReq == requests[h].preReq && Deps(p, requests[h]) != []
  {
    var last := requests[|requests| - 1];
    if f in LogOf(p, DropLast(requests)) {
      LogOfFrom(p, DropLast(requests), f);
      var h :| 0 <= h < |DropLast(requests)| && f.item.preReq == DropLast(requests)[h].preReq
               && Deps(p, DropLast(requests)[h]) != [];
      assert requests[h] == DropLast(requests)[h];
    } else {
      LogFrom(p, last, Deps(p, last), f);
    }
  }

  // Every mod that was explored and has dependencies ended with its picked version.
  ghost predicate PicksHold<V, C>(p: Provider<V, C>, requests: seq<Request>, snapshot: map<string, string>) {
    forall i | 1 <= i < |requests| && Deps(p, requests[i]) != [] ::
      Lookup(snapshot, requests[i].modid) == requests[i].version
  }

  ghost predicate AllHold<C>(constraints: map<string, seq<Item<C>>>, snapshot: map<string, string>) {
    forall m, i | m in constraints && 0 <= i < |constraints[m]| :: Holds(snapshot, constraints[m][i].preReq)
  }

  // The check of the recorded assumptions is the check of the picks.
  lemma {:induction false} AssumptionsMean<V, C>(p: Provider<V, C>, root: Request, requests: seq<Request>,
                                                 constraints: map<string, seq<Item<C>>>, snapshot: map<string, string>)
    requires Explored(p, root, requests) && Groups(constraints, LogOf(p, requests))
    ensures AllHold(constraints, snapshot) <==> PicksHold(p, requests, snapshot)
  {
    if AllHold(constraints, snapshot) {
      forall i | 1 <= i < |requests| && Deps(p, requests[i]) != []
        ensures Lookup(snapshot, requests[i].modid) == requests[i].version
      {
        PickChecked(p, root, requests, constraints, snapshot, i);
      }
    }
    if PicksHold(p, requests, snapshot) {
      forall m, i | m in constraints && 0 <= i < |constraints[m]| ensures Holds(snapshot, constraints[m][i].preReq) {
        AssumptionHolds(p, root, requests, snapshot, m, constraints[m], i);
      }
    }
  }

  lemma PickChecked<V, C>(p: Provider<V, C>, root: Request, requests: seq<Request>,
                          constraints: map<string, seq<Item<C>>>, snapshot: map<string, string>, i: nat)
    requires Explored(p, root, requests) && Groups(constraints, LogOf(p, requests)) && AllHold(constraints, snapshot)
    requires 1 <= i < |requests| && Deps(p, requests[i]) != []
    ensures Lookup(snapshot, requests[i].modid) == requests[i].version
  {
    var d := Deps(p, requests[i])[0];
    LogOfHas(p, requests, i, d);
    var item := Item(p.constraint(d.constraint).value, requests[i].preReq);
    ItemIn(LogOf(p, requests), d.modid, item);
    var at :| 0 <= at < |ItemsOf(LogOf(p, requests), d.modid)| && ItemsOf(LogOf(p, requests), d.modid)[at] == item;
    assert constraints[d.modid][at] == item;
    assert Holds(snapshot, item.preReq);
  }

  lemma AssumptionHolds<V, C>(p: Provider<V, C>, root: Request, requests: seq<Request>, snapshot: map<string, string>,
                              m: string, items: seq<Item<C>>, i: nat)
    requires Explored(p, root, requests) && PicksHold(p, requests, snapshot)
    requires items == ItemsOf(LogOf(p, requests), m) && i < |items|
    ensures Holds(snapshot, items[i].preReq)
  {
    ItemIn(LogOf(p, requests), m, items[i]);
    LogOfFrom(p, requests, Found(m, items[i]));
    var h :| 0 <= h < |requests| && items[i].preReq == requests[h].preReq && Deps(p, requests[h]) != [];
    forall k | k in items[i].preReq ensures Lookup(snapshot, k) == items[i].preReq[k] {
      assert PickedBy(p, requests, h, k);
    }
  }

  // The answer: for each mod that something explored depends on, the latest
  // version that meets all gathered constraints, consistent with the picks.
  ghost predicate Solves<V, C>(p: Provider<V, C>, requests: seq<Request>, snapshot: map<string, string>) {
    var log := LogOf(p, requests);
    && (forall m :: m in snapshot <==> ItemsOf(log, m) != [])
    && (forall m | m in snapshot :: Latest(p, m, ItemsOf(log, m), snapshot[m]))
    && PicksHold(p, requests, snapshot)
  }

  method GetDependencySnapshot<V(!new), C>(p: Provider<V, C>, modid: string, version: string) returns (outcome: Outcome)
    requires IsOrder(p.sem)
    ensures outcome.Resolved? ==> exists requests ::
                Explored(p, Request(modid, version, map[]), requests) && Solves(p, requests, outcome.snapshot)
    ensures outcome.AssumptionFailed? ==> exists requests, i ::
                && Explored(p, Request(modid, version, map[]), requests)
                && 1 <= i < |requests| && Deps(p, requests[i]) != [] && !LatestIs(p, requests, i)
    ensures outcome.Unreadable? || outcome.NoneMatches? ==> exists requests ::
                FailsIn(p, Request(modid, version, map[]), requests, outcome)
  {
    var step;
    ghost var requests;
    step, requests := Gather(p, Request(modid, version, map[]));
    if step.Failed? {
      assert FailsIn(p, Request(modid, version, map[]), requests, step.outcome);
      return step.outcome;
    }
    var constraints := step.constraints;
    outcome := ResolveAll(p, constraints);
    if outcome.Resolved? {
      var ok := VerifyAssumptions(constraints, outcome.snapshot);
      AssumptionsMean(p, Request(modid, version, map[]), requests, constraints, outcome.snapshot);
      if ok {
        assert Solves(p, requests, outcome.snapshot);
      } else {
        PickFailed(p, requests, constraints, outcome.snapshot);
        outcome := AssumptionFailed;
      }
    } else {
      assert Unresolved(p, requests, outcome);
      assert FailsIn(p, Request(modid, version, map[]), requests, outcome);
    }
  }

  // The call fails while it gathers these requests, or behind them while it resolves.
  ghost predicate FailsIn<V, C>(p: Provider<V, C>, root: Request, requests: seq<Request>, outcome: Outcome) {
    || (exists h, k :: FailsAt(p, root, requests, h, k, outcome))
    || (Explored(p, root, requests) && Unresolved(p, requests, outcome))
  }

  // A mod that was gathered has an unreadable version, or none that meets all its
  // constraints.
  ghost predicate Unresolved<V, C>(p: Provider<V, C>, requests: seq<Request>, outcome: Outcome) {
    match outcome
    case Unreadable => exists m :: ItemsOf(LogOf(p, requests), m) != [] && !Valid(p.sem, Versions(p, m))
    case NoneMatches(modid) =>
      && ItemsOf(LogOf(p, requests), modid) != []
      && forall v | v in Versions(p, modid) :: !MeetsAll(p, v, ItemsOf(LogOf(p, requests), modid))
    case _ => false
  }

  ghost predicate LatestIs<V, C>(p: Provider<V, C>, requests: seq<Request>, i: nat)
    requires i < |requests|
  {
    Latest(p, requests[i].modid, ItemsOf(LogOf(p, requests), requests[i].modid), requests[i].version)
  }

  lemma LatestOnce<V, C>(p: Provider<V, C>, m: string, items: seq<Item<C>>, a: string, b: string)
    requires Latest(p, m, items, a) && Latest(p, m, items, b)
    ensures a == b
  {
  }

  lemma PickFailed<V, C>(p: Provider<V, C>, requests: seq<Request>, constraints: map<string, seq<Item<C>>>,
                         snapshot: map<string, string>)
    requires !PicksHold(p, requests, snapshot) && Enqueued(p, requests, LogOf(p, requests))
    requires Groups(constraints, LogOf(p, requests)) && snapshot.Keys == constraints.Keys
    requires forall m | m in constraints :: Latest(p, m, constraints[m], snapshot[m])
    ensures exists i :: 1 <= i < |requests| && Deps(p, requests[i]) != [] && !LatestIs(p, requests, i)
  {
    var i :| 1 <= i < |requests| && Deps(p, requests[i]) != [] &&
             Lookup(snapshot, requests[i].modid) != requests[i].version;
    var m := requests[i].modid;
    assert NaivelyPicked(p, requests[i], ItemsOf(LogOf(p, requests), m));
    assert m in constraints;
    if LatestIs(p, requests, i) {
      LatestOnce(p, m, constraints[m], snapshot[m], requests[i].version);
    }
  }

  // A dependency is met by the snapshot.
  ghost predicate Met<V, C>(p: Provider<V, C>, snapshot: map<string, string>, d: Dependency) {
    && d.modid in snapshot && p.constraint(d.constraint).Some?
    && exists raw :: raw in Versions(p, d.modid) && Meets(p, raw, p.constraint(d.constraint).value)
                     && snapshot[d.modid] == p.text(p.sem.parse(raw).value)
  }

  ghost predicate AllMet<V, C>(p: Provider<V, C>, snapshot: map<string, string>, modid: string, version: string) {
    forall d | d in Deps(p, Request(modid, version, map[])) :: Met(p, snapshot, d)
  }

  // Every constraint that was gathered is met: those of the root, and those of
  // every explored version.
  lemma {:induction false} ExploredAreMet<V, C>(p: Provider<V, C>, root: Request, requests: seq<Request>,
                                                snapshot: map<string, string>, h: nat)
    requires Explored(p, root, requests) && Solves(p, requests, snapshot) && h < |requests|
    ensures AllMet(p, snapshot, requests[h].modid, requests[h].version)
  {
    forall d | d in Deps(p, Request(requests[h].modid, requests[h].version, map[])) ensures Met(p, snapshot, d) {
      assert d in Deps(p, requests[h]);
      LogOfHas(p, requests, h, d);
      DemandMet(p, requests, snapshot, d, Item(p.constraint(d.constraint).value, requests[h].preReq));
    }
  }

  lemma DemandMet<V, C>(p: Provider<V, C>, requests: seq<Request>, snapshot: map<string, string>, d: Dependency,
                        item: Item<C>)
    requires Solves(p, requests, snapshot) && Found(d.modid, item) in LogOf(p, requests)
    requires p.constraint(d.constraint) == Some(item.constraint)
    ensures Met(p, snapshot, d)
  {
    var items := ItemsOf(LogOf(p, requests), d.modid);
    ItemIn(LogOf(p, requests), d.modid, item);
    assert item in items;
    assert Latest(p, d.modid, items, snapshot[d.modid]);
    var i :| 0 <= i < |Versions(p, d.modid)| && MeetsAll(p, Versions(p, d.modid)[i], items)
             && p.sem.parse(Versions(p, d.modid)[i]).Some?
             && snapshot[d.modid] == p.text(p.sem.parse(Versions(p, d.modid)[i]).value);
    var raw := Versions(p, d.modid)[i];
    var at :| 0 <= at < |items| && items[at] == item;
    assert Meets(p, raw, items[at].constraint);
    assert raw in Versions(p, d.modid);
  }

  // The snapshot answers for itself: all dependencies of its versions are met.
  ghost predicate Closed<V, C>(p: Provider<V, C>, snapshot: map<string, string>) {
    forall m | m in snapshot :: AllMet(p, snapshot, m, snapshot[m])
  }

  // The snapshot is closed if and only if the mods whose picked version had no
  // dependencies did not end with another version whose dependencies are not met.
  lemma {:induction false} ClosedWhen<V, C>(p: Provider<V, C>, root: Request, requests: seq<Request>,
                                            snapshot: map<string, string>)
    requires Explored(p, root, requests) && Solves(p, requests, snapshot)
    ensures Closed(p, snapshot) <==>
            forall i | 1 <= i < |requests| && Deps(p, requests[i]) == [] ::
              AllMet(p, snapshot, requests[i].modid, snapshot[requests[i].modid])
    ensures forall i | 1 <= i < |requests| :: requests[i].modid in snapshot
  {
    forall i | 1 <= i < |requests| ensures requests[i].modid in snapshot {
      assert NaivelyPicked(p, requests[i], ItemsOf(LogOf(p, requests), requests[i].modid));
    }
    if forall i | 1 <= i < |requests| && Deps(p, requests[i]) == [] ::
        AllMet(p, snapshot, requests[i].modid, snapshot[requests[i].modid]) {
      forall m | m in snapshot ensures AllMet(p, snapshot, m, snapshot[m]) {
        SomeFound(LogOf(p, requests), m);
        var f :| f in LogOf(p, requests) && f.modid == m;
        var i :| 1 <= i < |requests| && requests[i].modid == f.modid;
        if Deps(p, requests[i]) != [] {
          ExploredAreMet(p, root, requests, snapshot, i);
        }
      }
    }
  }

  // No mod of the database has both a version with dependencies and one without.
  ghost predicate Uniform<V, C>(p: Provider<V, C>) {
    forall m, a, b | a in Versions(p, m) && b in Versions(p, m) && p.sem.parse(a).Some? && p.sem.parse(b).Some? ::
      Deps(p, Release(p, m, a)) == [] ==> Deps(p, Release(p, m, b)) == []
  }

  function Release<V, C>(p: Provider<V, C>, m: string, raw: string): Request
    requires p.sem.parse(raw).Some?
  {
    Request(m, p.text(p.sem.parse(raw).value), map[])
  }

  // With such a database every answer is closed.
  lemma {:induction false} ClosedWhenUniform<V, C>(p: Provider<V, C>, root: Request, requests: seq<Request>,
                                                   snapshot: map<string, string>)
    requires Explored(p, root, requests) && Solves(p, requests, snapshot) && Uniform(p)
    ensures Closed(p, snapshot)
  {
    ClosedWhen(p, root, requests, snapshot);
    forall i | 1 <= i < |requests| && Deps(p, requests[i]) == []
      ensures AllMet(p, snapshot, requests[i].modid, snapshot[requests[i].modid])
    {
      var m := requests[i].modid;
      assert NaivelyPicked(p, requests[i], ItemsOf(LogOf(p, requests), m));
      var a :| a in Versions(p, m) && p.sem.parse(a).Some? && requests[i].version == p.text(p.sem.parse(a).value);
      assert Latest(p, m, ItemsOf(LogOf(p, requests), m), snapshot[m]);
      var j :| 0 <= j < |Versions(p, m)| && p.sem.parse(Versions(p, m)[j]).Some?
               && snapshot[m] == p.text(p.sem.parse(Versions(p, m)[j]).value);
      var b := Versions(p, m)[j];
      assert b in Versions(p, m);
      assert Deps(p, Release(p, m, a)) == Deps(p, requests[i]);
      assert Deps(p, Release(p, m, b)) == [];
    }
  }
}
