// A database for which the answer of the server's resolver is not closed: a mod
// ends with another version than the one that was explored, and that one has
// dependencies.
module ServerLimits {
  import opened Seqs
  import opened Wrappers
  import opened VersionSort
  import opened ServerResolver

  const ANY := "any"
  const OLD := "old"

  // R depends on A and B, B on an old A, and only A 1 on anything.
  function Packages(m: string, v: string): seq<seq<Dependency>> {
    if m == "R" then [[Dependency("A", ANY), Dependency("B", ANY)]]
    else if m == "B" then [[Dependency("A", OLD)]]
    else if m == "A" && v == "1" then [[Dependency("X", ANY)]]
    else []
  }

  function Number(v: string): Option<int> {
    if v == "1" then Some(1) else if v == "2" then Some(2) else None
  }

  function Text(n: int): string {
    if n == 1 then "1" else "2"
  }

  function Limit(text: string): Option<int> {
    if text == OLD then Some(1) else Some(2)
  }

  function Database(): Provider<int, int> {
    Provider((m, v) => Packages(m, v), map["A" := ["1", "2"], "B" := ["1"]], SemVer(v => Number(v), (a, b) => a < b),
             n => Text(n), t => Limit(t), (c, v) => v <= c)
  }

  const ROOT := Request("R", "1", map[])

  const SNAPSHOT: map<string, string> := map["A" := "1", "B" := "1"]

  lemma DepsOf(r: Request)
    ensures Deps(Database(), r) == if Packages(r.modid, r.version) == [] then [] else Packages(r.modid, r.version)[0]
  {
    var packages := Packages(r.modid, r.version);
    if packages != [] {
      assert DropLast(packages) == [] && Flat(DropLast(packages)) == [];
      assert [] + packages[0] == packages[0];
    }
  }

  // Only A 1 asks for anything but A and B.
  lemma DepsAre(r: Request, d: Dependency)
    requires d in Deps(Database(), r) && !(r.modid == "A" && r.version == "1")
    ensures d.modid == "A" || d.modid == "B"
  {
    DepsOf(r);
  }

  lemma AllReadableHere(m: string)
    ensures Valid(Database().sem, Versions(Database(), m))
  {
  }

  lemma FirstVersionMeets(m: string, t: string)
    requires m == "A" || m == "B"
    ensures "1" in Versions(Database(), m) && Meets(Database(), "1", Limit(t).value)
  {
    assert Versions(Database(), m)[0] == "1";
  }

  lemma PicksAre(version: string)
    ensures Naive(Database(), "A", 2, version) ==> version == "2"
    ensures Naive(Database(), "B", 2, version) ==> version == "1"
  {
    var p := Database();
    assert Versions(p, "A") == ["1", "2"] && Versions(p, "A")[1] == "2" && Meets(p, "2", 2);
    assert Versions(p, "B") == ["1"];
  }

  // ----- What is gathered

  // Every constraint in the log is that of a dependency of some request.
  ghost predicate FromRequests(requests: seq<Request>, log: seq<Found<int>>) {
    forall f | f in log :: exists j, d ::
                             && 0 <= j < |requests| && d in Deps(Database(), requests[j])
                             && d.modid == f.modid && f.item.constraint == Limit(d.constraint).value
  }

  lemma {:induction false} LogFromDeps(r: Request, deps: seq<Dependency>, f: Found<int>) returns (d: Dependency)
    requires f in Log(Database(), r, deps)
    ensures d in deps && d.modid == f.modid && f.item.constraint == Limit(d.constraint).value
  {
    var before, last := Log(Database(), r, DropLast(deps)), deps[|deps| - 1];
    if f in before {
      d := LogFromDeps(r, DropLast(deps), f);
    } else {
      d := last;
    }
  }

  lemma {:induction false} LogOfFromDeps(requests: seq<Request>, f: Found<int>) returns (j: nat, d: Dependency)
    requires f in LogOf(Database(), requests)
    ensures j < |requests| && d in Deps(Database(), requests[j])
    ensures d.modid == f.modid && f.item.constraint == Limit(d.constraint).value
  {
    var last := requests[|requests| - 1];
    if f in LogOf(Database(), DropLast(requests)) {
      j, d := LogOfFromDeps(DropLast(requests), f);
    } else {
      j := |requests| - 1;
      d := LogFromDeps(last, Deps(Database(), last), f);
    }
  }

  lemma LogIsFromRequests(requests: seq<Request>, h: nat, k: nat)
    requires h < |requests| && k <= |Deps(Database(), requests[h])|
    ensures FromRequests(requests, LogOf(Database(), requests[..h]) +
                         Log(Database(), requests[h], Deps(Database(), requests[h])[..k]))
  {
    var front, deps := LogOf(Database(), requests[..h]), Deps(Database(), requests[h])[..k];
    forall f | f in front + Log(Database(), requests[h], deps)
      ensures exists j, d ::
                && 0 <= j < |requests| && d in Deps(Database(), requests[j])
                && d.modid == f.modid && f.item.constraint == Limit(d.constraint).value
    {
      if f in front {
        var j, d := LogOfFromDeps(requests[..h], f);
        assert requests[j] == requests[..h][j];
      } else {
        var d := LogFromDeps(requests[h], deps, f);
        assert d in Deps(Database(), requests[h]);
      }
    }
  }

  // The root's own constraints stand in front.
  ghost predicate Begins(log: seq<Found<int>>) {
    && |log| >= 2 && log[0].modid == "A" && log[0].item.constraint == 2
    && log[1].modid == "B" && log[1].item.constraint == 2
  }

  lemma RootLog()
    ensures Begins(Log(Database(), ROOT, Deps(Database(), ROOT)))
  {
    var d, e := Dependency("A", ANY), Dependency("B", ANY);
    DepsOf(ROOT);
    assert Deps(Database(), ROOT) == [d, e] && DropLast([d, e]) == [d] && DropLast([d]) == [];
    assert Log(Database(), ROOT, [d]) == [] + [Found("A", Item(2, map[]))];
  }

  lemma {:induction false} LogBegins(requests: seq<Request>)
    requires requests != [] && requests[0] == ROOT
    ensures Begins(LogOf(Database(), requests))
  {
    if |requests| == 1 {
      RootLog();
      assert DropLast(requests) == [] && requests == [ROOT];
      StartsEmpty(Log(Database(), ROOT, Deps(Database(), ROOT)));
    } else {
      LogBegins(DropLast(requests));
    }
  }

  lemma StartsEmpty<T>(s: seq<T>)
    ensures [] + s == s
  {
  }

  lemma {:induction false} FirstItems(log: seq<Found<int>>)
    requires Begins(log)
    ensures ItemsOf(log, "A") != [] && ItemsOf(log, "A")[0].constraint == 2
    ensures ItemsOf(log, "B") != [] && ItemsOf(log, "B")[0].constraint == 2
  {
    if |log| == 2 {
      var f, g := log[0], log[1];
      assert log == [f] + [g] && [] + [f] == [f];
      forall m | m == "A" || m == "B" ensures ItemsOf(log, m) == [if m == "A" then f.item else g.item] {
        ItemsOneMore([], f, m);
        ItemsOneMore([f], g, m);
      }
    } else {
      FirstItems(DropLast(log));
    }
  }

  // So A and B are enqueued, with the versions 2 and 1, and nothing else is.
  lemma Gathered(requests: seq<Request>, log: seq<Found<int>>, i: nat)
    requires Enqueued(Database(), requests, log) && requests[0] == ROOT && FromRequests(requests, log) && Begins(log)
    requires 1 <= i < |requests|
    ensures var r := requests[i];
            (r.modid == "A" && r.version == "2") || (r.modid == "B" && r.version == "1")
  {
    PickIs(requests, log, i);
    if requests[i].modid != "A" && requests[i].modid != "B" {
      var m := requests[i].modid;
      assert NaivelyPicked(Database(), requests[i], ItemsOf(log, m));
      SomeFound(log, m);
      var f :| f in log && f.modid == m;
      var j: nat, d :| j < |requests| && d in Deps(Database(), requests[j]) && d.modid == m;
      if j > 0 {
        PickIs(requests, log, j);
      }
      DepsAre(requests[j], d);
    }
  }

  lemma PickIs(requests: seq<Request>, log: seq<Found<int>>, i: nat)
    requires Enqueued(Database(), requests, log) && Begins(log) && 1 <= i < |requests|
    ensures requests[i].modid == "A" ==> requests[i].version == "2"
    ensures requests[i].modid == "B" ==> requests[i].version == "1"
  {
    FirstItems(log);
    PicksAre(requests[i].version);
    assert NaivelyPicked(Database(), requests[i], ItemsOf(log, requests[i].modid));
  }

  // ----- The call

  lemma NotStuck(log: seq<Found<int>>, d: Dependency, outcome: Outcome)
    requires d.modid == "A" || d.modid == "B"
    ensures !Stuck(Database(), log, d, outcome)
  {
    AllReadableHere(d.modid);
    FirstVersionMeets(d.modid, d.constraint);
  }

  lemma AsksForAOrB(requests: seq<Request>, h: nat, k: nat)
    requires h < |requests| && requests[0] == ROOT && k < |Deps(Database(), requests[h])|
    requires Enqueued(Database(), requests, LogOf(Database(), requests[..h]) +
                      Log(Database(), requests[h], Deps(Database(), requests[h])[..k]))
    ensures var d := Deps(Database(), requests[h])[k]; d.modid == "A" || d.modid == "B"
  {
    if h > 0 {
      LogBegins(requests[..h]);
      LogIsFromRequests(requests, h, k);
      Gathered(requests, LogOf(Database(), requests[..h]) +
               Log(Database(), requests[h], Deps(Database(), requests[h])[..k]), h);
    }
    DepsAre(requests[h], Deps(Database(), requests[h])[k]);
  }

  lemma NeverStuck(requests: seq<Request>, h: nat, k: nat, outcome: Outcome)
    ensures !FailsAt(Database(), ROOT, requests, h, k, outcome)
  {
    if FailsAt(Database(), ROOT, requests, h, k, outcome) {
      AsksForAOrB(requests, h, k);
      NotStuck(LogOf(Database(), requests[..h]) + Log(Database(), requests[h], Deps(Database(), requests[h])[..k]),
               Deps(Database(), requests[h])[k], outcome);
    }
  }

  // What is known behind all requests.
  lemma AllGathered(requests: seq<Request>)
    requires Explored(Database(), ROOT, requests)
    ensures FromRequests(requests, LogOf(Database(), requests)) && Begins(LogOf(Database(), requests))
  {
    LogBegins(requests);
    forall f | f in LogOf(Database(), requests)
      ensures exists j, d ::
                && 0 <= j < |requests| && d in Deps(Database(), requests[j])
                && d.modid == f.modid && f.item.constraint == Limit(d.constraint).value
    {
      var j, d := LogOfFromDeps(requests, f);
    }
  }

  lemma GatheredMods(requests: seq<Request>, m: string)
    requires Explored(Database(), ROOT, requests)
    ensures ItemsOf(LogOf(Database(), requests), m) != [] <==> m == "A" || m == "B"
  {
    var log := LogOf(Database(), requests);
    AllGathered(requests);
    FirstItems(log);
    if ItemsOf(log, m) != [] {
      SomeFound(log, m);
      var f :| f in log && f.modid == m;
      assert Named(requests, f.modid);
      var i :| 1 <= i < |requests| && requests[i].modid == m;
      Gathered(requests, log, i);
    }
  }

  lemma OneMeetsAll(requests: seq<Request>, m: string)
    requires Explored(Database(), ROOT, requests) && (m == "A" || m == "B")
    ensures MeetsAll(Database(), "1", ItemsOf(LogOf(Database(), requests), m))
  {
    var log := LogOf(Database(), requests);
    AllGathered(requests);
    forall i | 0 <= i < |ItemsOf(log, m)| ensures Meets(Database(), "1", ItemsOf(log, m)[i].constraint) {
      var f := Found(m, ItemsOf(log, m)[i]);
      ItemIn(log, m, f.item);
      assert f in log;
      var j, d :| 0 <= j < |requests| && d in Deps(Database(), requests[j])
                  && d.modid == m && f.item.constraint == Limit(d.constraint).value;
      FirstVersionMeets(m, d.constraint);
    }
  }

  lemma NeverUnresolved(requests: seq<Request>, outcome: Outcome)
    requires Explored(Database(), ROOT, requests)
    ensures !Unresolved(Database(), requests, outcome)
  {
    match outcome
    case Unreadable =>
      forall m ensures Valid(Database().sem, Versions(Database(), m)) {
        AllReadableHere(m);
      }
    case NoneMatches(m) =>
      GatheredMods(requests, m);
      if m == "A" || m == "B" {
        OneMeetsAll(requests, m);
        FirstVersionMeets(m, ANY);
      }
    case _ =>
  }

  lemma LatestOfB(requests: seq<Request>)
    requires Explored(Database(), ROOT, requests)
    ensures Latest(Database(), "B", ItemsOf(LogOf(Database(), requests), "B"), "1")
  {
    OneMeetsAll(requests, "B");
    assert Versions(Database(), "B")[0] == "1";
  }

  lemma BIsEnqueued(requests: seq<Request>) returns (i: nat)
    requires Explored(Database(), ROOT, requests)
    ensures 1 <= i < |requests| && requests[i].modid == "B" && requests[i].version == "1"
  {
    var log := LogOf(Database(), requests);
    AllGathered(requests);
    assert log[1] in log && Named(requests, "B");
    i :| 1 <= i < |requests| && requests[i].modid == "B";
    Gathered(requests, log, i);
  }

  // B's demand on A is among the constraints.
  lemma OldAIsAsked(requests: seq<Request>) returns (at: nat)
    requires Explored(Database(), ROOT, requests)
    ensures var items := ItemsOf(LogOf(Database(), requests), "A"); at < |items| && items[at].constraint == 1
  {
    var i := BIsEnqueued(requests);
    var d := Dependency("A", OLD);
    DepsOf(requests[i]);
    assert Packages("B", "1")[0][0] == d;
    LogOfHas(Database(), requests, i, d);
    var item := Item(1, requests[i].preReq);
    ItemIn(LogOf(Database(), requests), "A", item);
    var items := ItemsOf(LogOf(Database(), requests), "A");
    at :| 0 <= at < |items| && items[at] == item;
  }

  lemma FirstIsLatest(items: seq<Item<int>>, at: nat)
    requires MeetsAll(Database(), "1", items) && at < |items| && items[at].constraint == 1
    ensures Latest(Database(), "A", items, "1")
  {
    var p := Database();
    assert !Meets(p, "2", items[at].constraint);
    assert Versions(p, "A")[0] == "1" && Versions(p, "A")[1] == "2";
  }

  lemma LatestOfA(requests: seq<Request>)
    requires Explored(Database(), ROOT, requests)
    ensures Latest(Database(), "A", ItemsOf(LogOf(Database(), requests), "A"), "1")
  {
    var at := OldAIsAsked(requests);
    OneMeetsAll(requests, "A");
    FirstIsLatest(ItemsOf(LogOf(Database(), requests), "A"), at);
  }

  lemma PicksAreLatest(requests: seq<Request>, i: nat)
    requires Explored(Database(), ROOT, requests) && 1 <= i < |requests| && Deps(Database(), requests[i]) != []
    ensures LatestIs(Database(), requests, i)
  {
    AllGathered(requests);
    Gathered(requests, LogOf(Database(), requests), i);
    DepsOf(requests[i]);
    LatestOfB(requests);
  }

  lemma EntryIs(requests: seq<Request>, snapshot: map<string, string>, m: string)
    requires Explored(Database(), ROOT, requests) && Solves(Database(), requests, snapshot)
    ensures m in snapshot <==> m == "A" || m == "B"
    ensures m in snapshot ==> snapshot[m] == "1"
  {
    GatheredMods(requests, m);
    if m == "A" {
      LatestOfA(requests);
      LatestOnce(Database(), m, ItemsOf(LogOf(Database(), requests), m), snapshot[m], "1");
    } else if m == "B" {
      LatestOfB(requests);
      LatestOnce(Database(), m, ItemsOf(LogOf(Database(), requests), m), snapshot[m], "1");
    }
  }

  lemma SnapshotIs(requests: seq<Request>, snapshot: map<string, string>)
    requires Explored(Database(), ROOT, requests) && Solves(Database(), requests, snapshot)
    ensures snapshot == SNAPSHOT
  {
    forall m
      ensures m in snapshot <==> m == "A" || m == "B"
      ensures m in snapshot ==> snapshot[m] == "1"
    {
      EntryIs(requests, snapshot, m);
    }
    OnesForBoth(snapshot);
  }

  lemma OnesForBoth(snapshot: map<string, string>)
    requires forall m :: (m in snapshot <==> m == "A" || m == "B") && (m in snapshot ==> snapshot[m] == "1")
    ensures snapshot == SNAPSHOT
  {
  }

  lemma NotClosed()
    ensures !Closed(Database(), SNAPSHOT) && !Uniform(Database())
  {
    var p, d, first, second := Database(), Dependency("X", ANY), Request("A", "1", map[]), Request("A", "2", map[]);
    DepsOf(first);
    DepsOf(second);
    assert Packages("A", "1")[0][0] == d && d in Deps(p, first) && !Met(p, SNAPSHOT, d);
    assert !AllMet(p, SNAPSHOT, "A", SNAPSHOT["A"]);
    assert Versions(p, "A")[0] == "1" && Versions(p, "A")[1] == "2";
    assert Release(p, "A", "1") == first && Release(p, "A", "2") == second;
  }

  // The call succeeds, with a snapshot in which A 1 misses its dependency.
  method AnswerNotClosed() returns (outcome: Outcome)
    ensures outcome == Resolved(SNAPSHOT) && !Closed(Database(), SNAPSHOT) && !Uniform(Database())
  {
    outcome := GetDependencySnapshot(Database(), "R", "1");
    NotClosed();
    match outcome {
      case Resolved(snapshot) =>
        ghost var requests :| Explored(Database(), ROOT, requests) && Solves(Database(), requests, snapshot);
        SnapshotIs(requests, snapshot);
      case AssumptionFailed =>
        ghost var requests, i :| && Explored(Database(), ROOT, requests) && 1 <= i < |requests|
                                 && Deps(Database(), requests[i]) != [] && !LatestIs(Database(), requests, i);
        PicksAreLatest(requests, i);
      case _ =>
        ghost var requests :| FailsIn(Database(), ROOT, requests, outcome);
        CannotFail(requests, outcome);
    }
  }

  lemma CannotFail(requests: seq<Request>, outcome: Outcome)
    ensures !FailsIn(Database(), ROOT, requests, outcome)
  {
    forall h, k ensures !FailsAt(Database(), ROOT, requests, h, k, outcome) {
      NeverStuck(requests, h, k, outcome);
    }
    if Explored(Database(), ROOT, requests) {
      NeverUnresolved(requests, outcome);
    }
  }
}
