// When a calm run of the build runner succeeds, and a cycle that it passes over.
module TaskWalk {
  import opened Wrappers
  import opened Seqs
  import opened TaskRunner

  // Every task is the one that the list has under its name.
  ghost predicate AllListed(p: Project) {
    forall id | 0 <= id < |p.defs| :: p.defs[id].short in p.tasks && p.tasks[p.defs[id].short] == id
  }

  // What a task needs is there, and has a lower number.
  ghost predicate DepNumbered(p: Project, number: map<nat, nat>, id: nat, dep: string) {
    dep in p.tasks && p.tasks[dep] in number && id in number && number[p.tasks[dep]] < number[id]
  }

  ghost predicate CmdNumbered(number: map<nat, nat>, id: nat, cmd: Cmd) {
    match cmd
    case Script(statements, _) => statements > 0
    case Ref(task) => task in number && id in number && number[task] < number[id]
  }

  ghost predicate TaskNumbered(p: Project, number: map<nat, nat>, id: nat) {
    && id < |p.defs|
    && (forall k | 0 <= k < |p.defs[id].deps| :: DepNumbered(p, number, id, p.defs[id].deps[k]))
    && forall k | 0 <= k < |p.defs[id].cmds| :: CmdNumbered(number, id, p.defs[id].cmds[k])
  }

  // The tasks can be numbered so that each one comes behind all that it needs.
  ghost predicate Numbered(p: Project, number: map<nat, nat>) {
    forall id | id in number :: TaskNumbered(p, number, id)
  }

  // ----- A numbering is enough

  // The tasks that are running have no number below n.
  ghost predicate NoneBelow(p: Project, marks: Marks, number: map<nat, nat>, n: nat) {
    forall id | id in number && id < |p.defs| && p.defs[id].short in Running(marks) :: number[id] >= n
  }

  ghost predicate Ready(p: Project, marks: Marks, number: map<nat, nat>, n: nat) {
    ProjectOk(p) && AllListed(p) && Numbered(p, number) && NoneBelow(p, marks, number, n)
  }

  ghost predicate Succeeds(marks: Marks, walk: Option<Marks>) {
    walk.Some? && Running(walk.value) == Running(marks)
  }

  lemma {:induction false} WalkTaskSucceeds(p: Project, marks: Marks, id: nat, number: map<nat, nat>)
    requires id in number && Ready(p, marks, number, number[id] + 1)
    ensures var walk := WalkTask(p, marks, id);
            Succeeds(marks, walk) && Done(walk.value, p.defs[id].short)
    decreases number[id], 2, 0
  {
    assert TaskNumbered(p, number, id);
    var name := p.defs[id].short;
    assert name !in Running(marks);
    if name !in marks {
      var start := marks[name := false];
      StartIsReady(p, marks, id, number);
      WalkDepsSucceed(p, start, id, 0, number);
      var behindDeps := WalkDeps(p, start, id, 0).value;
      WalkCommandsSucceed(p, behindDeps, id, 0, number);
      EndsAsBefore(marks, name, WalkCommands(p, behindDeps, id, 0).value);
    }
  }

  lemma StartIsReady(p: Project, marks: Marks, id: nat, number: map<nat, nat>)
    requires id in number && Ready(p, marks, number, number[id] + 1) && id < |p.defs|
    ensures Ready(p, marks[p.defs[id].short := false], number, number[id])
  {
  }

  lemma EndsAsBefore(marks: Marks, name: string, end: Marks)
    requires name !in marks && Running(end) == Running(marks[name := false])
    ensures Running(end[name := true]) == Running(marks)
  {
    assert Running(marks[name := false]) == Running(marks) + {name};
    assert Running(end[name := true]) == Running(end) - {name};
  }

  lemma {:induction false} WalkDepsSucceed(p: Project, marks: Marks, id: nat, k: nat, number: map<nat, nat>)
    requires id in number && Ready(p, marks, number, number[id]) && id < |p.defs| && k <= |p.defs[id].deps|
    ensures Succeeds(marks, WalkDeps(p, marks, id, k))
    decreases number[id], 1, |p.defs[id].deps| - k
  {
    var deps := p.defs[id].deps;
    if k < |deps| {
      assert TaskNumbered(p, number, id) && DepNumbered(p, number, id, deps[k]);
      if !Done(marks, deps[k]) {
        WalkTaskSucceeds(p, marks, p.tasks[deps[k]], number);
      }
      WalkDepsSucceed(p, WalkDep(p, marks, deps[k]).value, id, k + 1, number);
    }
  }

  lemma {:induction false} WalkCommandsSucceed(p: Project, marks: Marks, id: nat, k: nat, number: map<nat, nat>)
    requires id in number && Ready(p, marks, number, number[id]) && id < |p.defs| && k <= |p.defs[id].cmds|
    ensures Succeeds(marks, WalkCommands(p, marks, id, k))
    decreases number[id], 1, |p.defs[id].cmds| - k
  {
    var cmds := p.defs[id].cmds;
    if k < |cmds| {
      assert TaskNumbered(p, number, id) && CmdNumbered(number, id, cmds[k]);
      if cmds[k].Ref? {
        WalkTaskSucceeds(p, marks, cmds[k].task, number);
      }
      WalkCommandsSucceed(p, WalkCommand(p, marks, id, k).value, id, k + 1, number);
    }
  }

  // ----- and a walk that succeeds leaves one behind

  // The tasks that are done, and only they, are numbered, with the numbers below
  // their number; at most n names have no marker.  The quantifier lets the lemmas
  // on the walk handle this as one fact; those that look into it open it with
  // Tracked.
  datatype Numbers = Numbers(marks: Marks, number: map<nat, nat>, n: nat)

  ghost predicate Tracks(p: Project, s: Numbers) {
    forall marks, number, n | s == Numbers(marks, number, n) ::
      && Numbered(p, number) && Bounded(number) && CountUnmarked(p.defs, marks) <= n
      && forall name :: Done(marks, name) <==> HasNumber(p, number, name)
  }

  ghost predicate HasNumber(p: Project, number: map<nat, nat>, name: string) {
    name in p.tasks && p.tasks[name] in number
  }

  ghost predicate Bounded(number: map<nat, nat>) {
    forall id | id in number :: number[id] < |number|
  }

  lemma Tracked(p: Project, marks: Marks, number: map<nat, nat>, n: nat)
    requires Tracks(p, Numbers(marks, number, n))
    ensures Numbered(p, number) && Bounded(number) && CountUnmarked(p.defs, marks) <= n
    ensures forall name :: Done(marks, name) <==> HasNumber(p, number, name)
  {
  }

  // What a walk has been through is done.
  ghost predicate DepsDone(p: Project, marks: Marks, id: nat, from: nat) {
    id < |p.defs| && forall k | from <= k < |p.defs[id].deps| :: Done(marks, p.defs[id].deps[k])
  }

  ghost predicate CmdDone(p: Project, marks: Marks, cmd: Cmd) {
    match cmd
    case Script(statements, _) => statements > 0
    case Ref(task) => task < |p.defs| && Done(marks, p.defs[task].short)
  }

  ghost predicate CmdsDone(p: Project, marks: Marks, id: nat, from: nat) {
    id < |p.defs| && forall k | from <= k < |p.defs[id].cmds| :: CmdDone(p, marks, p.defs[id].cmds[k])
  }

  lemma WalkedTaskIsDone(p: Project, marks: Marks, id: nat)
    requires ProjectOk(p) && id < |p.defs| && WalkTask(p, marks, id).Some?
    ensures Done(WalkTask(p, marks, id).value, p.defs[id].short)
  {
  }

  lemma {:induction false} WalkedDepsAreDone(p: Project, marks: Marks, id: nat, k: nat)
    requires ProjectOk(p) && id < |p.defs| && k <= |p.defs[id].deps| && WalkDeps(p, marks, id, k).Some?
    ensures DepsDone(p, WalkDeps(p, marks, id, k).value, id, k)
    decreases |p.defs[id].deps| - k
  {
    if k < |p.defs[id].deps| {
      var next := WalkDep(p, marks, p.defs[id].deps[k]).value;
      if !Done(marks, p.defs[id].deps[k]) {
        WalkedTaskIsDone(p, marks, p.tasks[p.defs[id].deps[k]]);
      }
      WalkedDepsAreDone(p, next, id, k + 1);
    }
  }

  lemma {:induction false} WalkedCommandsAreDone(p: Project, marks: Marks, id: nat, k: nat)
    requires ProjectOk(p) && id < |p.defs| && k <= |p.defs[id].cmds| && WalkCommands(p, marks, id, k).Some?
    ensures CmdsDone(p, WalkCommands(p, marks, id, k).value, id, k)
    decreases |p.defs[id].cmds| - k
  {
    if k < |p.defs[id].cmds| {
      var next := WalkCommand(p, marks, id, k).value;
      if p.defs[id].cmds[k].Ref? {
        WalkedTaskIsDone(p, marks, p.defs[id].cmds[k].task);
      }
      assert CmdDone(p, next, p.defs[id].cmds[k]);
      WalkedCommandsAreDone(p, next, id, k + 1);
    }
  }

  lemma {:induction false} TaskLeavesNumbers(p: Project, marks: Marks, id: nat, number: map<nat, nat>, n: nat)
    returns (more: map<nat, nat>)
    requires ProjectOk(p) && AllListed(p) && Tracks(p, Numbers(marks, number, n))
    requires id < |p.defs| && WalkTask(p, marks, id).Some?
    ensures Tracks(p, Numbers(WalkTask(p, marks, id).value, more, n))
    decreases n, 0, 0
  {
    var name := p.defs[id].short;
    if name in marks {
      return number;
    }
    var start := marks[name := false];
    StartTracks(p, marks, number, n, id);
    var behindDeps := WalkDeps(p, start, id, 0).value;
    WalkedDepsAreDone(p, start, id, 0);
    more := DepsLeaveNumbers(p, start, id, 0, number, n - 1);
    WalkedCommandsAreDone(p, behindDeps, id, 0);
    more := CommandsLeaveNumbers(p, behindDeps, id, 0, more, n - 1);
    var end := WalkCommands(p, behindDeps, id, 0).value;
    assert DepsDone(p, end, id, 0) && name in end && !end[name];
    more := NumberOneMore(p, end, id, more, n);
  }

  lemma StartTracks(p: Project, marks: Marks, number: map<nat, nat>, n: nat, id: nat)
    requires id < |p.defs| && p.defs[id].short !in marks && Tracks(p, Numbers(marks, number, n))
    ensures n > 0 && Tracks(p, Numbers(marks[p.defs[id].short := false], number, n - 1))
  {
    Tracked(p, marks, number, n);
    var name := p.defs[id].short;
    MarkingCounts(p.defs, marks, id, name, false);
    assert forall other :: Done(marks[name := false], other) <==> Done(marks, other);
  }

  lemma {:induction false} DepsLeaveNumbers(p: Project, marks: Marks, id: nat, k: nat, number: map<nat, nat>, n: nat)
    returns (more: map<nat, nat>)
    requires ProjectOk(p) && AllListed(p) && Tracks(p, Numbers(marks, number, n))
    requires id < |p.defs| && k <= |p.defs[id].deps| && WalkDeps(p, marks, id, k).Some?
    ensures Tracks(p, Numbers(WalkDeps(p, marks, id, k).value, more, n))
    decreases n, 1, |p.defs[id].deps| - k
  {
    more := number;
    if k < |p.defs[id].deps| {
      var dep := p.defs[id].deps[k];
      if !Done(marks, dep) {
        more := TaskLeavesNumbers(p, marks, p.tasks[dep], number, n);
      }
      more := DepsLeaveNumbers(p, WalkDep(p, marks, dep).value, id, k + 1, more, n);
    }
  }

  lemma {:induction false} CommandsLeaveNumbers(p: Project, marks: Marks, id: nat, k: nat, number: map<nat, nat>,
                                                n: nat)
    returns (more: map<nat, nat>)
    requires ProjectOk(p) && AllListed(p) && Tracks(p, Numbers(marks, number, n))
    requires id < |p.defs| && k <= |p.defs[id].cmds| && WalkCommands(p, marks, id, k).Some?
    ensures Tracks(p, Numbers(WalkCommands(p, marks, id, k).value, more, n))
    decreases n, 1, |p.defs[id].cmds| - k
  {
    more := number;
    if k < |p.defs[id].cmds| {
      var cmd := p.defs[id].cmds[k];
      if cmd.Ref? {
        more := TaskLeavesNumbers(p, marks, cmd.task, number, n);
      }
      more := CommandsLeaveNumbers(p, WalkCommand(p, marks, id, k).value, id, k + 1, more, n);
    }
  }

  // The task that is finished gets the next number.
  lemma {:induction false} NumberOneMore(p: Project, marks: Marks, id: nat, number: map<nat, nat>, n: nat)
    returns (more: map<nat, nat>)
    requires ProjectOk(p) && AllListed(p) && id < |p.defs| && !Done(marks, p.defs[id].short)
    requires Tracks(p, Numbers(marks, number, n)) && DepsDone(p, marks, id, 0) && CmdsDone(p, marks, id, 0)
    ensures Tracks(p, Numbers(marks[p.defs[id].short := true], more, n))
  {
    Tracked(p, marks, number, n);
    assert !HasNumber(p, number, p.defs[id].short);
    more := number[id := |number|];
    StaysNumbered(p, id, number);
    NewIsNumbered(p, marks, id, number);
    OneMoreDone(p, marks, id, number);
    MarkingCounts(p.defs, marks, id, p.defs[id].short, true);
  }

  lemma StaysNumbered(p: Project, id: nat, number: map<nat, nat>)
    requires Numbered(p, number) && Bounded(number) && id !in number
    ensures var more := number[id := |number|];
            Bounded(more) && forall i | i in number :: TaskNumbered(p, more, i)
  {
    var more := number[id := |number|];
    assert more - {id} == number;
    forall i | i in number ensures TaskNumbered(p, more, i) {
      assert TaskNumbered(p, number, i);
      forall k | 0 <= k < |p.defs[i].deps| ensures DepNumbered(p, more, i, p.defs[i].deps[k]) {
        assert DepNumbered(p, number, i, p.defs[i].deps[k]);
      }
      forall k | 0 <= k < |p.defs[i].cmds| ensures CmdNumbered(more, i, p.defs[i].cmds[k]) {
        assert CmdNumbered(number, i, p.defs[i].cmds[k]);
      }
    }
  }

  lemma NewIsNumbered(p: Project, marks: Marks, id: nat, number: map<nat, nat>)
    requires AllListed(p) && Bounded(number) && id !in number
    requires DepsDone(p, marks, id, 0) && CmdsDone(p, marks, id, 0)
    requires forall name :: Done(marks, name) <==> HasNumber(p, number, name)
    ensures TaskNumbered(p, number[id := |number|], id)
  {
    var more := number[id := |number|];
    forall k | 0 <= k < |p.defs[id].deps| ensures DepNumbered(p, more, id, p.defs[id].deps[k]) {
      assert HasNumber(p, number, p.defs[id].deps[k]);
    }
    forall k | 0 <= k < |p.defs[id].cmds| ensures CmdNumbered(more, id, p.defs[id].cmds[k]) {
      assert CmdDone(p, marks, p.defs[id].cmds[k]);
    }
  }

  lemma OneMoreDone(p: Project, marks: Marks, id: nat, number: map<nat, nat>)
    requires ProjectOk(p) && AllListed(p) && id < |p.defs|
    requires forall name :: Done(marks, name) <==> HasNumber(p, number, name)
    ensures var more, end := number[id := |number|], marks[p.defs[id].short := true];
            forall name :: Done(end, name) <==> HasNumber(p, more, name)
  {
    var more, end := number[id := |number|], marks[p.defs[id].short := true];
    forall name ensures Done(end, name) <==> HasNumber(p, more, name) {
      assert HasNumber(p, more, name) <==> HasNumber(p, number, name) || name == p.defs[id].short;
    }
  }

  // A calm run succeeds exactly if the tasks it needs are all there, none has an
  // empty script, and they can be numbered so that each one comes behind those
  // that it depends on or refers to.
  lemma {:induction false} CalmSucceedsExactly(p: Project, task: string)
    requires ProjectOk(p) && AllListed(p)
    ensures CalmSucceeds(p, task) <==> exists number :: Numbered(p, number) && HasNumber(p, number, task)
  {
    if CalmSucceeds(p, task) {
      var id := p.tasks[task];
      var n := CountUnmarked(p.defs, map[]);
      var number := TaskLeavesNumbers(p, map[], id, map[], n);
      Tracked(p, WalkTask(p, map[], id).value, number, n);
      WalkedTaskIsDone(p, map[], id);
    }
    if number :| Numbered(p, number) && HasNumber(p, number, task) {
      WalkTaskSucceeds(p, map[], p.tasks[task], number);
    }
  }

  // ----- A referenced task that has the name of a listed one

  const BESIDE: Project :=
    Project([Task("r", ["x", "b"], [], false), Task("x", [], [Ref(3)], false), Task("b", ["b"], [], false),
             Task("b", [], [], false)],
            map["r" := 0, "x" := 1, "b" := 2])

  // The command of x runs the task that is not listed, so that "b" is done when
  // r comes to it, and the listed one, which needs itself, is never looked at:
  // every calm run succeeds, although there is a cycle.
  lemma {:induction false} CyclePasses()
    ensures ProjectOk(BESIDE) && !MayExit(BESIDE) && !RefsAsListed(BESIDE) && !NoCycle(BESIDE, "r")
    ensures CalmSucceeds(BESIDE, "r")
  {
    BesideIsOk();
    BesideCycle();
    BesideWalk();
  }

  lemma BesideIsOk()
    ensures ProjectOk(BESIDE) && !MayExit(BESIDE) && !RefsAsListed(BESIDE)
  {
    assert BESIDE.defs[1].cmds[0] == Ref(3) && BESIDE.tasks["b"] == 2;
  }

  lemma ShortCycle(p: Project, task: string, dep: string)
    requires Needs(p, task, dep) && Needs(p, dep, dep)
    ensures !NoCycle(p, task)
  {
    var names := [task, dep, dep];
    assert IsChain(p, names) && names[0] == task && names[2] == names[1];
  }

  lemma BesideCycle()
    ensures !NoCycle(BESIDE, "r")
  {
    ShortCycle(BESIDE, "r", "b");
  }

  lemma BesideWalk()
    ensures ProjectOk(BESIDE) && WalkTask(BESIDE, map[], 0).Some?
  {
    BesideIsOk();
    assert "r" != "x" && "r" != "b" && "x" != "b";
    var inR: Marks := map["r" := false];
    var inX: Marks := inR["x" := false];
    var inB: Marks := inX["b" := false];
    var b: Marks := inX["b" := true];
    var x: Marks := b["x" := true];
    assert WalkDeps(BESIDE, inB, 3, 0) == Some(inB);
    assert WalkCommands(BESIDE, inB, 3, 0) == Some(inB);
    assert inB["b" := true] == b;
    assert WalkTask(BESIDE, inX, 3) == Some(b);
    assert WalkDeps(BESIDE, inX, 1, 0) == Some(inX);
    assert WalkCommand(BESIDE, inX, 1, 0) == Some(b);
    assert WalkCommands(BESIDE, inX, 1, 0) == WalkCommands(BESIDE, b, 1, 1) == Some(b);
    assert WalkTask(BESIDE, inR, 1) == Some(x);
    assert WalkDeps(BESIDE, inR, 0, 0) == WalkDeps(BESIDE, x, 0, 1) == WalkDeps(BESIDE, x, 0, 2) == Some(x);
    assert WalkCommands(BESIDE, x, 0, 0) == Some(x);
  }
}
