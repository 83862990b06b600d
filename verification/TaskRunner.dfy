// The build runner: a depth-first walk over tasks with a marker per task name
// that is absent, false while the task runs, and true once it is done.
module TaskRunner {
  import opened Wrappers
  import opened Seqs

  // A command is a script of some statements, which may call the shell's exit, or
  // a reference to a task.
  datatype Cmd = Script(statements: nat, mayExit: bool) | Ref(task: nat)

  datatype Task = Task(short: string, deps: seq<string>, cmds: seq<Cmd>, ignoreExit: bool)

  // All task objects, and the list that maps names to them.
  datatype Project = Project(defs: seq<Task>, tasks: map<string, nat>)

  // The task parser gives every task a name and lists it under that name.
  ghost predicate ProjectOk(p: Project) {
    && (forall i | 0 <= i < |p.defs| :: p.defs[i].short != "")
    && (forall name | name in p.tasks :: p.tasks[name] < |p.defs| && p.defs[p.tasks[name]].short == name)
    && forall i, k | 0 <= i < |p.defs| && 0 <= k < |p.defs[i].cmds| && p.defs[i].cmds[k].Ref? ::
         p.defs[i].cmds[k].task < |p.defs|
  }

  // Where the list has the task's name, it has this task.
  ghost predicate AsListed(p: Project, id: nat) {
    id < |p.defs| && (p.defs[id].short in p.tasks ==> p.tasks[p.defs[id].short] == id)
  }

  ghost predicate RefsAsListed(p: Project) {
    forall i, k | 0 <= i < |p.defs| && 0 <= k < |p.defs[i].cmds| && p.defs[i].cmds[k].Ref? ::
      AsListed(p, p.defs[i].cmds[k].task)
  }

  // The task was found in the list, or a reference led to it.
  ghost predicate Found(p: Project, id: nat) {
    id < |p.defs| && (RefsAsListed(p) ==> AsListed(p, id))
  }

  ghost predicate OnlyFound(p: Project, ids: seq<nat>) {
    forall i | 0 <= i < |ids| :: Found(p, ids[i])
  }

  ghost predicate MayExit(p: Project) {
    exists i, k :: 0 <= i < |p.defs| && 0 <= k < |p.defs[i].cmds| && p.defs[i].cmds[k].Script? &&
                   p.defs[i].cmds[k].mayExit
  }

  // What one statement of a script may do.
  datatype StatementResult = Fine | ExitStatus | OtherError | ConsoleError | ShellExit

  predicate Done(marks: map<string, bool>, name: string) {
    name in marks && marks[name]
  }

  // The tasks that are marked as running.
  function Running(marks: map<string, bool>): set<string> {
    set name | name in marks && !marks[name]
  }

  ghost predicate CompletedBefore(p: Project, order: seq<nat>, n: nat, name: string) {
    exists j :: 0 <= j < n && j < |order| && order[j] < |p.defs| && p.defs[order[j]].short == name
  }

  // Every completed task comes behind all tasks that it depends on, and no name
  // is completed twice.
  ghost predicate Topological(p: Project, order: seq<nat>) {
    && (forall i | 0 <= i < |order| :: order[i] < |p.defs|)
    && (forall i, d | 0 <= i < |order| && d in p.defs[order[i]].deps :: CompletedBefore(p, order, i, d))
    && forall i, j | 0 <= i < j < |order| :: p.defs[order[i]].short != p.defs[order[j]].short
  }

  ghost predicate StartedOnce(p: Project, started: seq<nat>) {
    && (forall i | 0 <= i < |started| :: started[i] < |p.defs|)
    && forall i, j | 0 <= i < j < |started| :: p.defs[started[i]].short != p.defs[started[j]].short
  }

  lemma {:induction false} CompleteOne(p: Project, order: seq<nat>, id: nat)
    requires Topological(p, order) && id < |p.defs|
    requires forall d | d in p.defs[id].deps :: CompletedBefore(p, order, |order|, d)
    requires !CompletedBefore(p, order, |order|, p.defs[id].short)
    ensures Topological(p, order + [id])
  {
    var order' := order + [id];
    CompleteNames(p, order, id);
    forall n: nat, name | n <= |order| ensures CompletedBefore(p, order', n, name) <==>
                                               CompletedBefore(p, order, n, name) {
      if j :| 0 <= j < n && p.defs[order[j]].short == name && order[j] < |p.defs| {
        assert order'[j] == order[j];
      }
      if j :| 0 <= j < n && j < |order'| && order'[j] < |p.defs| && p.defs[order'[j]].short == name {
        assert order'[j] == order[j];
      }
    }
    assert order'[|order|] == id;
    forall i, d | 0 <= i < |order'| && d in p.defs[order'[i]].deps ensures CompletedBefore(p, order', i, d) {
      assert i < |order| ==> order'[i] == order[i] && CompletedBefore(p, order, i, d);
    }
    forall i | 0 <= i < |order| ensures p.defs[order'[i]].short != p.defs[id].short {
      assert order'[i] == order[i];
    }
  }

  lemma {:induction false} CompleteNames(p: Project, order: seq<nat>, id: nat)
    requires (forall i | 0 <= i < |order| :: order[i] < |p.defs|) && id < |p.defs|
    ensures forall name :: CompletedBefore(p, order + [id], |order + [id]|, name) <==>
                           CompletedBefore(p, order, |order|, name) || name == p.defs[id].short
  {
    var order' := order + [id];
    assert order'[|order|] == id;
    forall name ensures CompletedBefore(p, order', |order'|, name) <==>
                        CompletedBefore(p, order, |order|, name) || name == p.defs[id].short
    {
      if j :| 0 <= j < |order| && p.defs[order[j]].short == name {
        assert order'[j] == order[j];
      }
    }
  }

  // The runner's state: the markers, the bodies that were started, the tasks
  // marked as done in that order, whether a script called the shell's exit, the
  // commands (task and place) that were carried out, and the tasks that were up
  // to date.
  datatype Trace = Trace(marks: map<string, bool>, started: seq<nat>, order: seq<nat>, exited: bool,
                         ran: set<(nat, nat)>, skipped: set<nat>)

  ghost predicate WasStarted(p: Project, started: seq<nat>, name: string) {
    exists i :: 0 <= i < |started| && started[i] < |p.defs| && p.defs[started[i]].short == name
  }

  ghost predicate Consistent(p: Project, t: Trace) {
    match t
    case Trace(marks, started, order, exited, _, _) =>
      && StartedOnce(p, started)
      && (forall name :: name in marks <==> WasStarted(p, started, name))
      && (forall i | 0 <= i < |order| :: order[i] < |p.defs|)
      && (forall name :: Done(marks, name) <==> CompletedBefore(p, order, |order|, name))
      && (!exited ==> Topological(p, order))
  }

  // All commands of a task were carried out.
  ghost predicate AllRan(p: Project, t: Trace, id: nat) {
    id < |p.defs| && forall k | 0 <= k < |p.defs[id].cmds| :: (id, k) in t.ran
  }

  // A task is done when it was up to date or all its commands were carried out,
  // and a reference to a task is carried out when that task is done.
  ghost predicate CommandsOk(p: Project, t: Trace) {
    && (forall i | 0 <= i < |t.order| :: t.order[i] in t.skipped || AllRan(p, t, t.order[i]))
    && (!t.exited ==> forall id, k | (id, k) in t.ran :: RefDone(p, t.marks, id, k))
  }

  ghost predicate RefDone(p: Project, marks: map<string, bool>, id: nat, k: nat) {
    id < |p.defs| && k < |p.defs[id].cmds| && p.defs[id].cmds[k].Ref? && p.defs[id].cmds[k].task < |p.defs| ==>
      Done(marks, p.defs[p.defs[id].cmds[k].task].short)
  }

  lemma CommandsKept(p: Project, t: Trace, u: Trace)
    requires CommandsOk(p, t) && t.order == u.order && t.ran <= u.ran && t.skipped <= u.skipped
    requires forall name | Done(t.marks, name) :: Done(u.marks, name)
    requires t.exited ==> u.exited
    requires forall id, k | (id, k) in u.ran && (id, k) !in t.ran :: !u.exited ==> RefDone(p, u.marks, id, k)
    ensures CommandsOk(p, u)
  {
  }

  lemma FinishKeepsCommands(p: Project, t: Trace, id: nat)
    requires CommandsOk(p, t) && id < |p.defs| && (id in t.skipped || AllRan(p, t, id))
    ensures CommandsOk(p, Finished(t, id, p.defs[id].short))
  {
  }

  // The number of tasks without a marker.
  function CountUnmarked(defs: seq<Task>, marks: map<string, bool>): nat {
    if defs == [] then 0
    else CountUnmarked(DropLast(defs), marks) + if defs[|defs| - 1].short in marks then 0 else 1
  }

  function Unmarked(p: Project, t: Trace): nat {
    CountUnmarked(p.defs, t.marks)
  }

  lemma {:induction false} MarkingCounts(defs: seq<Task>, marks: map<string, bool>, id: nat, name: string, value: bool)
    requires id < |defs| && defs[id].short == name
    ensures var after := CountUnmarked(defs, marks[name := value]);
            if name in marks then after == CountUnmarked(defs, marks) else after < CountUnmarked(defs, marks)
  {
    MarkingNeverAdds(DropLast(defs), marks, name, value);
    if id < |defs| - 1 {
      MarkingCounts(DropLast(defs), marks, id, name, value);
    }
  }

  lemma {:induction false} MarkingNeverAdds(defs: seq<Task>, marks: map<string, bool>, name: string, value: bool)
    ensures var after := CountUnmarked(defs, marks[name := value]);
            && after <= CountUnmarked(defs, marks)
            && (name in marks ==> after == CountUnmarked(defs, marks))
  {
    if defs != [] {
      MarkingNeverAdds(DropLast(defs), marks, name, value);
    }
  }

  // Markers that were there stay as they are, and the orders only grow.  Grows
  // and Sound stand under a quantifier, so that the runner's methods handle each
  // as one fact; the lemmas about them open it with Same.
  ghost predicate Grows(p: Project, s: Trace, t: Trace) {
    forall u {:trigger Same(t, u)} | Same(t, u) :: GrowsTo(p, s, u)
  }

  ghost predicate GrowsTo(p: Project, s: Trace, t: Trace) {
    match s
    case Trace(marks, started, order, exited, ran, skipped) =>
      && (forall name | name in marks :: name in t.marks && t.marks[name] == marks[name])
      && started <= t.started && order <= t.order
      && (exited ==> t.exited) && ran <= t.ran && skipped <= t.skipped
      && Unmarked(p, t) <= Unmarked(p, s)
  }

  lemma GrowsParts(p: Project, s: Trace, t: Trace)
    requires Grows(p, s, t)
    ensures GrowsTo(p, s, t)
  {
    assert Same(t, t);
  }

  lemma GrowsFurther(p: Project, s: Trace, t: Trace, u: Trace)
    requires Grows(p, s, t) && Grows(p, t, u)
    ensures Grows(p, s, u) && (t.exited ==> u.exited) && t.ran <= u.ran && Unmarked(p, u) <= Unmarked(p, s)
  {
    GrowsParts(p, s, t);
    GrowsParts(p, t, u);
  }

  // What holds of the runner's state all along.
  ghost predicate Sound(p: Project, t: Trace) {
    forall u {:trigger Same(t, u)} | Same(t, u) ::
      && Consistent(p, u) && CommandsOk(p, u)
      && OnlyFound(p, u.order) && (u.exited ==> MayExit(p))
  }

  lemma SoundParts(p: Project, t: Trace)
    requires Sound(p, t)
    ensures Consistent(p, t) && CommandsOk(p, t) && OnlyFound(p, t.order) && (t.exited ==> MayExit(p))
  {
    assert Same(t, t);
  }

  function Marked(t: Trace, id: nat, name: string): Trace {
    t.(marks := t.marks[name := false], started := t.started + [id])
  }

  lemma {:induction false} StartOne(p: Project, started: seq<nat>, id: nat)
    requires StartedOnce(p, started) && id < |p.defs| && !WasStarted(p, started, p.defs[id].short)
    ensures StartedOnce(p, started + [id])
    ensures forall n :: WasStarted(p, started + [id], n) <==> WasStarted(p, started, n) || n == p.defs[id].short
  {
    var started' := started + [id];
    assert started'[|started|] == id;
    forall n ensures WasStarted(p, started', n) <==> WasStarted(p, started, n) || n == p.defs[id].short {
      if WasStarted(p, started, n) {
        var i :| 0 <= i < |started| && started[i] < |p.defs| && p.defs[started[i]].short == n;
        assert started'[i] == started[i];
      }
    }
    forall i | 0 <= i < |started| ensures p.defs[started'[i]].short != p.defs[id].short {
      assert WasStarted(p, started, p.defs[started[i]].short);
    }
  }

  lemma {:induction false} MarkKeeps(p: Project, t: Trace, id: nat)
    requires Consistent(p, t) && id < |p.defs| && p.defs[id].short !in t.marks
    ensures var u := Marked(t, id, p.defs[id].short);
            Consistent(p, u) && Running(u.marks) == Running(t.marks) + {p.defs[id].short}
  {
    StartOne(p, t.started, id);
    var u := Marked(t, id, p.defs[id].short);
    forall n ensures Done(u.marks, n) <==> Done(t.marks, n) {}
  }

  lemma {:induction false} MarkGrows(p: Project, t: Trace, id: nat)
    requires id < |p.defs| && p.defs[id].short !in t.marks
    ensures var u := Marked(t, id, p.defs[id].short);
            GrowsTo(p, t, u) && Unmarked(p, u) < Unmarked(p, t)
  {
    MarkingCounts(p.defs, t.marks, id, p.defs[id].short, false);
  }

  function Finished(t: Trace, id: nat, name: string): Trace {
    t.(marks := t.marks[name := true], order := t.order + [id])
  }

  lemma {:induction false} FinishKeeps(p: Project, t: Trace, id: nat)
    requires Consistent(p, t) && id < |p.defs|
    requires p.defs[id].short in Running(t.marks)
    requires !t.exited ==> AllDone(t, p.defs[id].deps)
    ensures var u := Finished(t, id, p.defs[id].short);
            Consistent(p, u) && Running(u.marks) == Running(t.marks) - {p.defs[id].short}
  {
    CompleteNames(p, t.order, id);
    var name := p.defs[id].short;
    assert !Done(t.marks, name);
    if !t.exited {
      CompleteOne(p, t.order, id);
    }
    var u := Finished(t, id, name);
    forall n ensures Done(u.marks, n) <==> CompletedBefore(p, u.order, |u.order|, n) {
      assert Done(u.marks, n) <==> Done(t.marks, n) || n == name;
    }
    forall n ensures n in u.marks <==> WasStarted(p, u.started, n) {
      assert n in u.marks <==> n in t.marks;
    }
  }

  // A body between its own two markers leaves the markers around it alone.
  lemma {:induction false} BodyGrows(p: Project, s: Trace, t: Trace, id: nat)
    requires id < |p.defs| && p.defs[id].short !in s.marks && Grows(p, Marked(s, id, p.defs[id].short), t)
    ensures Grows(p, s, t) && Grows(p, s, Finished(t, id, p.defs[id].short))
    ensures p.defs[id].short in Running(t.marks) && Unmarked(p, t) < Unmarked(p, s)
  {
    GrowsParts(p, Marked(s, id, p.defs[id].short), t);
    MarkGrows(p, s, id);
    assert p.defs[id].short in Marked(s, id, p.defs[id].short).marks;
    MarkingCounts(p.defs, t.marks, id, p.defs[id].short, true);
  }

  lemma ListedUnderItsName(p: Project, name: string)
    requires ProjectOk(p) && name in p.tasks
    ensures p.tasks[name] < |p.defs| && p.defs[p.tasks[name]].short == name && Found(p, p.tasks[name])
  {
  }

  lemma RefExists(p: Project, id: nat, k: nat)
    requires ProjectOk(p) && id < |p.defs| && k < |p.defs[id].cmds| && p.defs[id].cmds[k].Ref?
    ensures Found(p, p.defs[id].cmds[k].task)
  {
  }

  ghost predicate AllDone(t: Trace, names: seq<string>) {
    forall d | d in names :: Done(t.marks, d)
  }

  lemma AllStayDone(p: Project, s: Trace, t: Trace, names: seq<string>)
    requires AllDone(s, names) && Grows(p, s, t)
    ensures AllDone(t, names)
  {
    GrowsParts(p, s, t);
  }

  lemma OneMoreDone(t: Trace, names: seq<string>, name: string)
    requires AllDone(t, names) && Done(t.marks, name)
    ensures AllDone(t, names + [name])
  {
  }

  lemma SoundMarked(p: Project, t: Trace, id: nat)
    requires Sound(p, t) && id < |p.defs| && p.defs[id].short !in t.marks
    ensures var u := Marked(t, id, p.defs[id].short);
            Sound(p, u) && Running(u.marks) == Running(t.marks) + {p.defs[id].short}
  {
    SoundParts(p, t);
    MarkKeeps(p, t, id);
    CommandsKept(p, t, Marked(t, id, p.defs[id].short));
  }

  lemma SoundFinished(p: Project, t: Trace, id: nat)
    requires Sound(p, t) && Found(p, id) && p.defs[id].short in Running(t.marks)
    requires !t.exited ==> AllDone(t, p.defs[id].deps)
    requires id in t.skipped || AllRan(p, t, id)
    ensures var u := Finished(t, id, p.defs[id].short);
            Sound(p, u) && Running(u.marks) == Running(t.marks) - {p.defs[id].short}
  {
    SoundParts(p, t);
    FinishKeeps(p, t, id);
    FinishKeepsCommands(p, t, id);
  }

  // Apart from the markers and the orders: more tasks are up to date, more
  // commands carried out, or a script has called the shell's exit.
  lemma SoundFurther(p: Project, t: Trace, u: Trace)
    requires Sound(p, t) && t.(exited := u.exited, ran := u.ran, skipped := u.skipped) == u
    requires (t.exited ==> u.exited) && t.ran <= u.ran && t.skipped <= u.skipped && (u.exited ==> MayExit(p))
    requires !u.exited ==> forall id, k | (id, k) in u.ran && (id, k) !in t.ran :: RefDone(p, u.marks, id, k)
    ensures Sound(p, u) && Grows(p, t, u)
  {
    SoundParts(p, t);
    CommandsKept(p, t, u);
    assert GrowsTo(p, t, u);
  }

  // ----- A calm run

  // In a calm run nothing is cancelled, no task is up to date, no check fails, no
  // statement fails or exits, and every stamp is written.  It comes down to the
  // walk over the markers below, which ends with None where the runner fails.
  type Marks = map<string, bool>

  ghost predicate Keeps(before: Marks, after: Marks) {
    forall name | name in before :: name in after && after[name] == before[name]
  }

  lemma {:induction false} KeepingCounts(defs: seq<Task>, before: Marks, after: Marks)
    requires Keeps(before, after)
    ensures CountUnmarked(defs, after) <= CountUnmarked(defs, before)
  {
    if defs != [] {
      KeepingCounts(DropLast(defs), before, after);
    }
  }

  ghost function WalkTask(p: Project, marks: Marks, id: nat): (r: Option<Marks>)
    requires ProjectOk(p) && id < |p.defs|
    ensures r.Some? ==> Keeps(marks, r.value)
    decreases CountUnmarked(p.defs, marks), 0, 0
  {
    var name := p.defs[id].short;
    if name in marks then
      if marks[name] then Some(marks) else None
    else
      MarkingCounts(p.defs, marks, id, name, false);
      match WalkDeps(p, marks[name := false], id, 0)
      case None => None
      case Some(behindDeps) =>
        KeepingCounts(p.defs, marks[name := false], behindDeps);
        WalkRest(p, behindDeps, id)
  }

  // The commands of a task and the marker at the end.
  ghost function WalkRest(p: Project, marks: Marks, id: nat): (r: Option<Marks>)
    requires ProjectOk(p) && id < |p.defs|
    ensures r.Some? ==> Keeps(marks - {p.defs[id].short}, r.value)
    decreases CountUnmarked(p.defs, marks), 2, 0
  {
    match WalkCommands(p, marks, id, 0)
    case None => None
    case Some(next) => Some(next[p.defs[id].short := true])
  }

  // The dependencies of a task from the k-th one on.
  ghost function WalkDeps(p: Project, marks: Marks, id: nat, k: nat): (r: Option<Marks>)
    requires ProjectOk(p) && id < |p.defs| && k <= |p.defs[id].deps|
    ensures r.Some? ==> Keeps(marks, r.value)
    decreases CountUnmarked(p.defs, marks), 1, |p.defs[id].deps| - k
  {
    var deps := p.defs[id].deps;
    if k == |deps| then Some(marks)
    else
      match WalkDep(p, marks, deps[k])
      case None => None
      case Some(next) =>
        KeepingCounts(p.defs, marks, next);
        WalkDeps(p, next, id, k + 1)
  }

  ghost function WalkDep(p: Project, marks: Marks, name: string): (r: Option<Marks>)
    requires ProjectOk(p)
    ensures r.Some? ==> Keeps(marks, r.value)
    decreases CountUnmarked(p.defs, marks), 1, 0
  {
    if Done(marks, name) then Some(marks)
    else if name !in p.tasks then None
    else WalkTask(p, marks, p.tasks[name])
  }

  ghost function WalkCommands(p: Project, marks: Marks, id: nat, k: nat): (r: Option<Marks>)
    requires ProjectOk(p) && id < |p.defs| && k <= |p.defs[id].cmds|
    ensures r.Some? ==> Keeps(marks, r.value)
    decreases CountUnmarked(p.defs, marks), 1, |p.defs[id].cmds| - k
  {
    var cmds := p.defs[id].cmds;
    if k == |cmds| then Some(marks)
    else
      match WalkCommand(p, marks, id, k)
      case None => None
      case Some(next) =>
        KeepingCounts(p.defs, marks, next);
        WalkCommands(p, next, id, k + 1)
  }

  ghost function WalkCommand(p: Project, marks: Marks, id: nat, k: nat): (r: Option<Marks>)
    requires ProjectOk(p) && id < |p.defs| && k < |p.defs[id].cmds|
    ensures r.Some? ==> Keeps(marks, r.value)
    decreases CountUnmarked(p.defs, marks), 1, 0
  {
    match p.defs[id].cmds[k]
    case Script(statements, _) => if statements == 0 then None else Some(marks)
    case Ref(task) => WalkTask(p, marks, task)
  }

  datatype Check = Skip | Run | CheckFailed

  class RuntimeCtx {
    const p: Project
    var runTasks: map<string, bool>
    ghost var started: seq<nat>
    ghost var order: seq<nat>
    ghost var exited: bool
    ghost var ran: set<(nat, nat)>
    ghost var skipped: set<nat>
    ghost var calm: bool

    ghost function Now(): Trace
      reads this
    {
      Trace(runTasks, started, order, exited, ran, skipped)
    }

    ghost predicate Valid()
      reads this
    {
      ProjectOk(p) && Sound(p, Now())
    }

    // No script left early, and exactly the tasks of stack are running.
    ghost predicate OnStack(stack: set<string>)
      reads this
    {
      !exited ==> Running(runTasks) == stack
    }

    // A run that has been calm so far is where the walk is.
    ghost predicate Follows(ok: bool, walk: Option<Marks>)
      reads this
    {
      calm ==> walk == if ok then Some(runTasks) else None
    }

    constructor (p: Project)
      requires ProjectOk(p)
      ensures Valid() && this.p == p && Now() == Trace(map[], [], [], false, {}, {}) && calm
    {
      calm := true;
      this.p, runTasks, started, order, exited := p, map[], [], [], false;
      ran, skipped := {}, {};
    }

    method RunTaskInternal(id: nat, dryRun: bool, ghost stack: set<string>) returns (ok: bool)
      requires Valid() && Found(p, id) && OnStack(stack)
      modifies this
      ensures Valid() && Grows(p, old(Now()), Now()) && (calm ==> old(calm))
      ensures ok && !exited ==> Done(runTasks, p.defs[id].short) && Running(runTasks) == stack
      ensures Follows(ok, WalkTask(p, old(runTasks), id))
      decreases Unmarked(p, Now()), 2
    {
      var cancelled: bool := *;
      if cancelled {
        calm := false;
        return false;
      }
      var task := p.defs[id];
      if task.short in runTasks {
        return runTasks[task.short];
      }
      ghost var before := Now();
      SoundMarked(p, before, id);
      MarkGrows(p, before, id);
      runTasks := runTasks[task.short := false];
      started := started + [id];
      ok := RunBody(id, dryRun, before, stack);
    }

    // What follows the marker: the dependencies, the checks, the commands.
    method RunBody(id: nat, dryRun: bool, ghost before: Trace, ghost stack: set<string>) returns (ok: bool)
      requires Valid() && Found(p, id) && p.defs[id].short !in before.marks
      requires Now() == Marked(before, id, p.defs[id].short) && OnStack(stack + {p.defs[id].short})
      requires !exited ==> p.defs[id].short !in stack
      modifies this
      ensures Valid() && Grows(p, before, Now()) && (calm ==> old(calm))
      ensures ok && !exited ==> Done(runTasks, p.defs[id].short) && Running(runTasks) == stack
      ensures Follows(ok, WalkTask(p, before.marks, id))
      decreases Unmarked(p, Now()), 5
    {
      ghost var inner := stack + {p.defs[id].short};
      ok := RunDeps(id, dryRun, inner);
      BodyGrows(p, before, Now(), id);
      GrowsParts(p, Marked(before, id, p.defs[id].short), Now());
      if ok {
        ok := CheckAndRun(id, dryRun, before, inner);
        GrowsParts(p, before, Now());
      }
    }

    method CheckAndRun(id: nat, dryRun: bool, ghost before: Trace, ghost inner: set<string>) returns (ok: bool)
      requires Valid() && Found(p, id) && p.defs[id].short !in before.marks
      requires Grows(p, Marked(before, id, p.defs[id].short), Now()) && OnStack(inner)
      requires !exited ==> AllDone(Now(), p.defs[id].deps)
      modifies this
      ensures Valid() && Grows(p, before, Now()) && (calm ==> old(calm))
      ensures ok && !exited ==> Done(runTasks, p.defs[id].short) && Running(runTasks) == inner - {p.defs[id].short}
      ensures Follows(ok, WalkRest(p, old(runTasks), id))
      decreases Unmarked(p, Now()), 4, 2
    {
      BodyGrows(p, before, Now(), id);
      var check: Check := *;
      match check {
        case CheckFailed =>
          calm := false;
          return false;
        case Skip =>
          calm := false;
          ghost var behindDeps := Now();
          Skipped(id);
          GrowsFurther(p, Marked(before, id, p.defs[id].short), behindDeps, Now());
          BodyGrows(p, before, Now(), id);
          Finish(id);
          return true;
        case Run =>
          ok := RunAndFinish(id, dryRun, before, inner);
      }
    }

    method RunAndFinish(id: nat, dryRun: bool, ghost before: Trace, ghost inner: set<string>) returns (ok: bool)
      requires Valid() && Found(p, id) && p.defs[id].short !in before.marks
      requires Grows(p, Marked(before, id, p.defs[id].short), Now()) && OnStack(inner)
      requires !exited ==> AllDone(Now(), p.defs[id].deps)
      modifies this
      ensures Valid() && Grows(p, before, Now()) && (calm ==> old(calm))
      ensures ok && !exited ==> Done(runTasks, p.defs[id].short) && Running(runTasks) == inner - {p.defs[id].short}
      ensures Follows(ok, WalkRest(p, old(runTasks), id))
      decreases Unmarked(p, Now()), 4, 1
    {
      var left: bool;
      ghost var behindDeps := Now();
      ok, left := RunCommands(id, dryRun, inner);
      GrowsFurther(p, Marked(before, id, p.defs[id].short), behindDeps, Now());
      BodyGrows(p, before, Now(), id);
      if !ok || left {
        return ok;
      }
      if !exited {
        AllStayDone(p, behindDeps, Now(), p.defs[id].deps);
      }
      Finish(id);
      var stamped: bool := *;
      if !stamped {
        calm := false;
      }
      return stamped;
    }

    // The task is up to date.
    ghost method Skipped(id: nat)
      requires Valid()
      modifies this`skipped
      ensures Valid() && Now() == old(Now()).(skipped := old(skipped) + {id}) && Grows(p, old(Now()), Now())
    {
      SoundParts(p, Now());
      SoundFurther(p, Now(), Now().(skipped := skipped + {id}));
      skipped := skipped + {id};
    }

    method Finish(id: nat)
      requires id in skipped || AllRan(p, Now(), id)
      requires Valid() && Found(p, id) && p.defs[id].short in Running(runTasks)
      requires !exited ==> AllDone(Now(), p.defs[id].deps)
      modifies this`runTasks, this`order
      ensures Valid() && Now() == Finished(old(Now()), id, p.defs[id].short)
      ensures Running(runTasks) == Running(old(runTasks)) - {p.defs[id].short}
    {
      SoundFinished(p, Now(), id);
      runTasks := runTasks[p.defs[id].short := true];
      order := order + [id];
    }

    method RunDeps(id: nat, dryRun: bool, ghost stack: set<string>) returns (ok: bool)
      requires Valid() && id < |p.defs| && OnStack(stack)
      modifies this
      ensures Valid() && Grows(p, old(Now()), Now()) && (calm ==> old(calm))
      ensures ok ==> OnStack(stack) && (!exited ==> AllDone(Now(), p.defs[id].deps))
      ensures Follows(ok, WalkDeps(p, old(runTasks), id, 0))
      decreases Unmarked(p, Now()), 3
    {
      var deps := p.defs[id].deps;
      for k := 0 to |deps|
        invariant Valid() && Grows(p, old(Now()), Now()) && OnStack(stack)
        invariant !exited ==> AllDone(Now(), deps[..k])
        invariant calm ==> old(calm) && WalkDeps(p, old(runTasks), id, 0) == WalkDeps(p, runTasks, id, k)
      {
        TakeOneMore(deps, k);
        if !Done(runTasks, deps[k]) {
          if deps[k] !in p.tasks {
            return false;
          }
          ListedUnderItsName(p, deps[k]);
          ghost var before := Now();
          GrowsParts(p, old(Now()), before);
          ok := RunTaskInternal(p.tasks[deps[k]], dryRun, stack);
          GrowsFurther(p, old(Now()), before, Now());
          if !ok {
            return false;
          }
          if !exited {
            AllStayDone(p, before, Now(), deps[..k]);
          }
        }
        if !exited {
          OneMoreDone(Now(), deps[..k], deps[k]);
        }
      }
      TakeAll(deps);
      return true;
    }

    // left says that a script called the shell's exit: the task then ends
    // without an error and without its mark.
    method RunCommands(id: nat, dryRun: bool, ghost stack: set<string>) returns (ok: bool, left: bool)
      requires Valid() && id < |p.defs| && OnStack(stack)
      modifies this
      ensures Valid() && Grows(p, old(Now()), Now()) && (calm ==> old(calm) && !left)
      ensures ok ==> OnStack(stack) && if left then exited else AllRan(p, Now(), id)
      ensures Follows(ok, WalkCommands(p, old(runTasks), id, 0))
      decreases Unmarked(p, Now()), 4, 0
    {
      var cmds := p.defs[id].cmds;
      for k := 0 to |cmds|
        invariant Valid() && Grows(p, old(Now()), Now()) && OnStack(stack)
        invariant forall j | 0 <= j < k :: (id, j) in ran
        invariant calm ==> old(calm) && WalkCommands(p, old(runTasks), id, 0) == WalkCommands(p, runTasks, id, k)
      {
        ghost var before := Now();
        GrowsParts(p, old(Now()), before);
        ok, left := RunCommand(id, k, dryRun, stack);
        GrowsFurther(p, old(Now()), before, Now());
        if !ok || left {
          return;
        }
        var cancelled: bool := *;
        if cancelled {
          calm := false;
          return false, false;
        }
      }
      return true, false;
    }

    method RunCommand(id: nat, k: nat, dryRun: bool, ghost stack: set<string>) returns (ok: bool, left: bool)
      requires Valid() && id < |p.defs| && k < |p.defs[id].cmds| && OnStack(stack)
      modifies this
      ensures Valid() && Grows(p, old(Now()), Now()) && (calm ==> old(calm) && !left)
      ensures ok ==> OnStack(stack) && if left then exited else (id, k) in ran
      ensures Follows(ok, WalkCommand(p, old(runTasks), id, k))
      decreases Unmarked(p, Now()), 3
    {
      match p.defs[id].cmds[k] {
        case Script(statements, mayExit) =>
          // A script without statements is taken for a task reference.
          if statements == 0 {
            return false, false;
          }
          SoundParts(p, Now());
          SoundFurther(p, Now(), Now().(exited := exited || mayExit));
          ok, left := RunScript(id, statements, mayExit, dryRun);
          if !ok || left {
            return;
          }
        case Ref(task) =>
          RefExists(p, id, k);
          ok := RunTaskInternal(task, dryRun, stack);
          left := false;
          if !ok {
            return;
          }
      }
      ghost var before := Now();
      CarriedOut(id, k);
      GrowsFurther(p, old(Now()), before, Now());
    }

    ghost method CarriedOut(id: nat, k: nat)
      requires Valid() && (!exited ==> RefDone(p, runTasks, id, k))
      modifies this`ran
      ensures Valid() && Now() == old(Now()).(ran := old(ran) + {(id, k)}) && Grows(p, old(Now()), Now())
    {
      SoundParts(p, Now());
      SoundFurther(p, Now(), Now().(ran := ran + {(id, k)}));
      ran := ran + {(id, k)};
    }

    method RunScript(id: nat, statements: nat, mayExit: bool, dryRun: bool) returns (ok: bool, left: bool)
      requires id < |p.defs|
      modifies this`exited, this`calm
      ensures exited == (old(exited) || left) && (left ==> mayExit) && (calm ==> old(calm) && ok && !left)
    {
      for k := 0 to statements
        invariant exited == old(exited) && (calm ==> old(calm))
      {
        if !dryRun {
          var result: StatementResult := *;
          if result != Fine {
            calm := false;
          }
          match result {
            case Fine =>
            case ExitStatus =>
              if !p.defs[id].ignoreExit {
                return false, false;
              }
            case OtherError => return false, false;
            case ConsoleError => return false, false;
            case ShellExit =>
              if mayExit {
                exited := true;
                return true, true;
              }
          }
        }
      }
      return true, false;
    }
  }

  // ----- What the completion order means

  // Every completed task is the one that the list has under its name.
  ghost predicate AllAsListed(p: Project, order: seq<nat>) {
    forall i | 0 <= i < |order| :: AsListed(p, order[i])
  }

  predicate Needs(p: Project, name: string, dep: string) {
    name in p.tasks && p.tasks[name] < |p.defs| && dep in p.defs[p.tasks[name]].deps
  }

  ghost predicate IsChain(p: Project, names: seq<string>) {
    && names != []
    && forall k | 0 <= k < |names| - 1 :: Needs(p, names[k], names[k + 1])
  }

  // Along a chain of dependencies from a completed task, every name is
  // completed, and each one earlier than the one that needs it.
  lemma {:induction false} ChainIsCompleted(p: Project, order: seq<nat>, names: seq<string>, i: nat) returns (j: nat)
    requires ProjectOk(p) && Topological(p, order) && AllAsListed(p, order) && IsChain(p, names)
    requires i < |order| && p.defs[order[i]].short == names[0]
    ensures j < |order| && p.defs[order[j]].short == names[|names| - 1]
    ensures j <= i && (|names| > 1 ==> j < i)
    decreases |names|
  {
    if |names| == 1 {
      return i;
    }
    assert Needs(p, names[0], names[1]);
    ListedUnderItsName(p, names[0]);
    assert AsListed(p, order[i]);
    assert CompletedBefore(p, order, i, names[1]);
    var k: nat :| k < i && order[k] < |p.defs| && p.defs[order[k]].short == names[1];
    assert IsChain(p, names[1..]) by {
      forall m | 0 <= m < |names[1..]| - 1 ensures Needs(p, names[1..][m], names[1..][m + 1]) {
        assert names[1..][m] == names[m + 1] && names[1..][m + 1] == names[m + 2];
      }
    }
    j := ChainIsCompleted(p, order, names[1..], k);
  }

  // A run that ends without an error, and without a script's exit, has
  // completed everything the task depends on, and no chain of dependencies
  // from it comes back to where it was: a cycle always ends in an error.
  lemma {:induction false} NilMeansNoCycle(p: Project, end: Trace, task: string, names: seq<string>)
    requires ProjectOk(p) && Consistent(p, end) && !end.exited && AllAsListed(p, end.order)
    requires CompletedBefore(p, end.order, |end.order|, task)
    requires IsChain(p, names) && names[0] == task
    ensures Done(end.marks, names[|names| - 1])
    ensures |names| > 1 ==> names[|names| - 1] != task
    ensures forall k | 0 <= k < |names| - 1 :: names[|names| - 1] != names[k]
  {
    var i: nat :| i < |end.order| && p.defs[end.order[i]].short == task;
    var j := ChainIsCompleted(p, end.order, names, i);
    assert CompletedBefore(p, end.order, |end.order|, names[|names| - 1]);
    forall k | 0 <= k < |names| - 1 ensures names[|names| - 1] != names[k] {
      ChainPart(p, names, 0, k);
      ChainPart(p, names, k, |names| - 1);
      var m := ChainIsCompleted(p, end.order, names[..k + 1], i);
      var n := ChainIsCompleted(p, end.order, names[k..], m);
      assert n < m;
      assert p.defs[end.order[n]].short != p.defs[end.order[m]].short;
    }
  }

  lemma ChainPart(p: Project, names: seq<string>, a: nat, b: nat)
    requires IsChain(p, names) && a <= b < |names|
    ensures IsChain(p, names[a..b + 1]) && (b == |names| - 1 ==> names[a..b + 1] == names[a..])
    ensures names[a..b + 1][0] == names[a] && names[a..b + 1][b - a] == names[b]
  {
  }

  // No chain of dependencies from a task comes back to where it was.
  ghost predicate NoCycle(p: Project, task: string) {
    forall names, k | IsChain(p, names) && names[0] == task && 0 <= k < |names| - 1 :: names[|names| - 1] != names[k]
  }

  // The task is done and no other one is running.
  ghost predicate Ended(p: Project, end: Trace, task: string) {
    CompletedBefore(p, end.order, |end.order|, task) && Running(end.marks) == {}
  }

  // Every calm run from this task succeeds.
  ghost predicate CalmSucceeds(p: Project, task: string)
    requires ProjectOk(p)
  {
    task in p.tasks && WalkTask(p, map[], p.tasks[task]).Some?
  }

  // A nil result, with no script that calls exit, means that everything the task
  // depends on was completed, that the order of completion is topological, and
  // that there is no cycle.
  method RunTask(p: Project, task: string, dryRun: bool) returns (ok: bool, ghost end: Trace, ghost calm: bool)
    requires ProjectOk(p)
    ensures Consistent(p, end) && CommandsOk(p, end)
    ensures end.exited ==> MayExit(p)
    ensures ok && !end.exited ==> Ended(p, end, task)
    ensures ok && !MayExit(p) ==> Topological(p, end.order) && Ended(p, end, task)
    ensures ok && !MayExit(p) && RefsAsListed(p) ==> NoCycle(p, task)
    ensures calm ==> (ok <==> CalmSucceeds(p, task))
  {
    var ctx := new RuntimeCtx(p);
    if task !in p.tasks {
      return false, ctx.Now(), true;
    }
    ListedUnderItsName(p, task);
    ok := ctx.RunTaskInternal(p.tasks[task], dryRun, {});
    end, calm := ctx.Now(), ctx.calm;
    SoundParts(p, end);
    if ok && !end.exited {
      OrderIsTopological(p, end);
      forall names, k | RefsAsListed(p) && IsChain(p, names) && names[0] == task && 0 <= k < |names| - 1
        ensures names[|names| - 1] != names[k]
      {
        assert forall i | 0 <= i < |end.order| :: Found(p, end.order[i]);
        NilMeansNoCycle(p, end, task, names);
      }
    }
  }

  lemma OrderIsTopological(p: Project, t: Trace)
    requires Consistent(p, t) && !t.exited
    ensures Topological(p, t.order)
  {
  }
}
