// The download queue: one Run, its workers, NextResult and Abort as a state
// machine whose steps are the queue's critical sections.
module DownloadQueue {
  import opened ByteStrings
  import opened Seqs
  import opened Download

  // A worker before it starts; transferring; past its checks; past the decrement
  // of active; past the append; about to report an error; past that; gone early.
  datatype Worker = Idle | Busy | Checked | Released | Delivered | Failing | FailedOut | Gone

  datatype Runner = Starting | Draining | Finishing | Returned(ok: bool)

  datatype Config<D> = Config(hash: Bytes -> D, items: seq<Item<D>>, maxParallel: nat)

  datatype State = State(
    active: int, failed: bool, cancelled: bool, done: bool,
    next: nat, runner: Runner, workers: seq<Worker>,
    results: map<nat, Transfer>,
    appended: seq<nat>, finished: seq<nat>, handed: seq<nat>)

  datatype Step =
    | Cancel | Abort
    | Spawn | StopOnError | StopOnCancel | StartDrain | EndDrain | Return
    | Leave(i: nat) | Check(i: nat, responses: seq<Response>) | Fail(i: nat)
    | HandleError(i: nat) | Release(i: nat) | Deliver(i: nat)
    | Take

  ghost function Init<D>(c: Config<D>): State {
    State(0, false, false, false, 0, Starting, seq(|c.items|, _ => Idle), map[], [], [], [])
  }

  predicate At(s: State, i: nat, w: Worker) {
    i < |s.workers| && s.workers[i] == w
  }

  predicate Enabled<D(==)>(c: Config<D>, s: State, step: Step) {
    match step
    case Cancel => true
    case Abort => true
    case Spawn => s.runner == Starting && s.next < |s.workers| && s.active < c.maxParallel && !s.failed
    case StopOnError => s.runner == Starting && s.next < |s.workers| && s.active < c.maxParallel && s.failed
    case StopOnCancel => s.runner == Starting && s.next < |s.workers| && s.cancelled
    case StartDrain => s.runner == Starting && s.next >= |s.workers|
    case EndDrain => s.runner == Draining && s.active <= 0
    case Return => s.runner == Finishing
    case Leave(i) => At(s, i, Busy) && (s.failed || s.cancelled)
    case Check(i, responses) =>
      At(s, i, Busy) && i < |c.items| && Passes(c.hash, c.items[i], AfterTries(c.items[i], responses))
    case Fail(i) => At(s, i, Busy)
    case HandleError(i) => At(s, i, Failing)
    case Release(i) => At(s, i, Checked)
    case Deliver(i) => At(s, i, Released)
    case Take => s.finished != []
  }

  function Apply<D(==)>(c: Config<D>, s: State, step: Step): State
    requires Enabled(c, s, step)
  {
    match step
    case Cancel => s.(cancelled := true)
    case Abort => s.(failed := true)
    case Spawn =>
      s.(active := s.active + 1, workers := s.workers[s.next := Busy], next := s.next + 1)
    case StopOnError => s.(done := true, runner := Returned(false))
    case StopOnCancel => s.(done := true, runner := Returned(false))
    case StartDrain => s.(runner := Draining)
    case EndDrain => s.(done := true, runner := Finishing)
    case Return => s.(runner := Returned(!s.failed))
    case Leave(i) => s.(workers := s.workers[i := Gone])
    case Check(i, responses) =>
      s.(workers := s.workers[i := Checked], results := s.results[i := AfterTries(c.items[i], responses)])
    case Fail(i) => s.(workers := s.workers[i := Failing])
    case HandleError(i) =>
      s.(failed := true, active := s.active - 1, workers := s.workers[i := FailedOut])
    case Release(i) => s.(active := s.active - 1, workers := s.workers[i := Released])
    case Deliver(i) =>
      s.(workers := s.workers[i := Delivered], appended := s.appended + [i], finished := s.finished + [i])
    case Take => s.(finished := s.finished[1..], handed := s.handed + [s.finished[0]])
  }

  // ----- The invariant

  predicate Holds(w: Worker) {
    w == Busy || w == Checked || w == Failing || w == Gone
  }

  // The started workers that have not decremented active yet.
  ghost function Holders(workers: seq<Worker>): set<nat> {
    set i: nat | i < |workers| && Holds(workers[i])
  }

  predicate Verified(w: Worker) {
    w == Checked || w == Released || w == Delivered
  }

  ghost predicate ResultOk<D(!new)>(c: Config<D>, i: nat, t: Transfer) {
    i < |c.items| && exists responses :: t == AfterTries(c.items[i], responses) && Passes(c.hash, c.items[i], t)
  }

  ghost predicate CountsActive<D>(c: Config<D>, s: State) {
    && s.active == |Holders(s.workers)|
    && s.active <= c.maxParallel
    && s.next <= |s.workers| == |c.items|
    && forall i | 0 <= i < |s.workers| :: s.workers[i] == Idle <==> i >= s.next
  }

  ghost predicate HandsOutInOrder(s: State) {
    && s.appended == s.handed + s.finished
    && (forall i :: i in s.appended <==> At(s, i, Delivered))
    && forall j, k | 0 <= j < k < |s.appended| :: s.appended[j] != s.appended[k]
  }

  ghost predicate OnlyVerified<D(!new)>(c: Config<D>, s: State) {
    forall i | 0 <= i < |s.workers| && Verified(s.workers[i]) :: i in s.results && ResultOk(c, i, s.results[i])
  }

  ghost predicate ErrorsStick(s: State) {
    && (forall i | 0 <= i < |s.workers| && s.workers[i] == FailedOut :: s.failed)
    && (s.runner == Draining || s.runner == Finishing || s.runner == Returned(true) ==> s.next == |s.workers|)
    && (s.runner == Finishing || s.runner == Returned(true) ==>
          forall i | 0 <= i < |s.workers| :: !Holds(s.workers[i]))
    && (s.runner == Returned(true) ==> forall i | 0 <= i < |s.workers| :: s.workers[i] != FailedOut)
  }

  ghost predicate Inv<D(!new)>(c: Config<D>, s: State) {
    CountsActive(c, s) && HandsOutInOrder(s) && OnlyVerified(c, s) && ErrorsStick(s)
  }

  // ----- Every step keeps it

  lemma {:induction false} HoldersChange(workers: seq<Worker>, i: nat, w: Worker)
    requires i < |workers|
    ensures var before, after := |Holders(workers)|, |Holders(workers[i := w])|;
            && (Holds(workers[i]) == Holds(w) ==> after == before)
            && (!Holds(workers[i]) && Holds(w) ==> after == before + 1)
            && (Holds(workers[i]) && !Holds(w) ==> after == before - 1)
  {
    var a, b := Holders(workers), Holders(workers[i := w]);
    if Holds(workers[i]) == Holds(w) {
      assert a == b;
    } else if Holds(w) {
      assert b == a + {i};
    } else {
      assert a == b + {i};
    }
  }

  lemma {:induction false} InitInv<D(!new)>(c: Config<D>)
    ensures Inv(c, Init(c))
  {
    assert Holders(Init(c).workers) == {};
  }

  lemma {:induction false} CountKept<D(!new)>(c: Config<D>, s: State, step: Step)
    requires Inv(c, s) && Enabled(c, s, step)
    ensures CountsActive(c, Apply(c, s, step))
  {
    var t := Apply(c, s, step);
    match step
    case Spawn => WorkerStarts(c, s, t);
    case Leave(i) => WorkerChanges(c, s, i, Gone, t);
    case Check(i, _) => WorkerChanges(c, s, i, Checked, t);
    case Fail(i) => WorkerChanges(c, s, i, Failing, t);
    case HandleError(i) => WorkerChanges(c, s, i, FailedOut, t);
    case Release(i) => WorkerChanges(c, s, i, Released, t);
    case Deliver(i) => WorkerChanges(c, s, i, Delivered, t);
    case _ => assert t.workers == s.workers && t.next == s.next && t.active == s.active;
  }

  lemma WorkerStarts<D>(c: Config<D>, s: State, t: State)
    requires CountsActive(c, s) && s.next < |s.workers| && s.active < c.maxParallel
    requires t.workers == s.workers[s.next := Busy] && t.next == s.next + 1 && t.active == s.active + 1
    ensures CountsActive(c, t)
  {
    HoldersChange(s.workers, s.next, Busy);
  }

  // A started worker goes on, and gives its slot back or not.
  lemma WorkerChanges<D>(c: Config<D>, s: State, i: nat, w: Worker, t: State)
    requires CountsActive(c, s) && i < |s.workers| && s.workers[i] != Idle && w != Idle
    requires t.workers == s.workers[i := w] && t.next == s.next && (Holds(w) ==> Holds(s.workers[i]))
    requires t.active == s.active - if Holds(s.workers[i]) && !Holds(w) then 1 else 0
    ensures CountsActive(c, t)
  {
    HoldersChange(s.workers, i, w);
  }

  lemma {:induction false} OrderKept<D(!new)>(c: Config<D>, s: State, step: Step)
    requires Inv(c, s) && Enabled(c, s, step)
    ensures HandsOutInOrder(Apply(c, s, step))
  {
    match step
    case Take => HeadAndTail(s.finished); TakenInOrder(s.handed, s.finished);
    case Deliver(i) => DeliveredInOrder(s, i);
    case _ => DeliveredStay(c, s, step);
  }

  lemma DeliveredStay<D(!new)>(c: Config<D>, s: State, step: Step)
    requires Inv(c, s) && Enabled(c, s, step) && !step.Deliver?
    ensures forall i :: At(Apply(c, s, step), i, Delivered) <==> At(s, i, Delivered)
  {
  }

  lemma TakenInOrder(handed: seq<nat>, finished: seq<nat>)
    requires finished != []
    ensures handed + finished == (handed + [finished[0]]) + finished[1..]
  {
  }

  lemma DeliveredInOrder(s: State, i: nat)
    requires HandsOutInOrder(s) && At(s, i, Released)
    ensures s.appended + [i] == s.handed + (s.finished + [i])
    ensures forall j | 0 <= j < |s.appended| :: s.appended[j] != i
  {
    forall j | 0 <= j < |s.appended| ensures s.appended[j] != i {
      assert s.appended[j] in s.appended;
    }
  }

  lemma VerifiedKept<D(!new)>(c: Config<D>, s: State, step: Step)
    requires Inv(c, s) && Enabled(c, s, step)
    ensures OnlyVerified(c, Apply(c, s, step))
  {
  }

  lemma {:induction false} ErrorsKept<D(!new)>(c: Config<D>, s: State, step: Step)
    requires Inv(c, s) && Enabled(c, s, step)
    ensures ErrorsStick(Apply(c, s, step))
  {
    var t := Apply(c, s, step);
    if step.EndDrain? {
      assert Holders(s.workers) == {};
      forall i | 0 <= i < |s.workers| ensures !Holds(s.workers[i]) {
        assert i !in Holders(s.workers);
      }
    }
  }

  lemma {:induction false} StepKeepsInv<D(!new)>(c: Config<D>, s: State, step: Step)
    requires Inv(c, s) && Enabled(c, s, step)
    ensures Inv(c, Apply(c, s, step))
  {
    CountKept(c, s, step);
    OrderKept(c, s, step);
    VerifiedKept(c, s, step);
    ErrorsKept(c, s, step);
  }

  // ----- Runs

  ghost predicate Reaches<D>(c: Config<D>, steps: seq<Step>, s: State) {
    if steps == [] then s == Init(c)
    else exists prev ::
           && Reaches(c, DropLast(steps), prev)
           && Enabled(c, prev, steps[|steps| - 1]) && s == Apply(c, prev, steps[|steps| - 1])
  }

  lemma {:induction false} ReachableInv<D(!new)>(c: Config<D>, steps: seq<Step>, s: State)
    requires Reaches(c, steps, s)
    ensures Inv(c, s)
  {
    if steps == [] {
      InitInv(c);
    } else {
      var prev :| Reaches(c, DropLast(steps), prev)
                  && Enabled(c, prev, steps[|steps| - 1]) && s == Apply(c, prev, steps[|steps| - 1]);
      ReachableInv(c, DropLast(steps), prev);
      StepKeepsInv(c, prev, steps[|steps| - 1]);
    }
  }

  // The bytes up to the file's offset have the item's size and digest.
  ghost predicate VerifiedFile<D>(c: Config<D>, i: nat, t: Transfer) {
    && i < |c.items|
    && t.pos <= |t.file| && t.pos < TWO_32
    && (c.items[i].checksum.Some? ==> c.hash(t.file[..t.pos]) == c.items[i].checksum.value)
    && (c.items[i].filesize > 0 && c.items[i].checksum.None? ==> t.pos == c.items[i].filesize)
    && (c.items[i].filesize > 0 && c.items[i].checksum.Some? && t.filesize > 0 ==>
          exists responses :: t == AfterTries(c.items[i], responses)
                              && (t.pos == c.items[i].filesize <==> KeepsLength(c.items[i], responses)))
  }

  lemma {:induction false} ResultIsVerified<D(!new)>(c: Config<D>, i: nat, t: Transfer)
    requires ResultOk(c, i, t)
    ensures VerifiedFile(c, i, t)
  {
    var responses :| t == AfterTries(c.items[i], responses) && Passes(c.hash, c.items[i], t);
    PassedIsVerified(c.hash, c.items[i], responses);
  }

  // At any moment of any interleaving: active counts the workers that hold a
  // slot and respects the limit, and NextResult got distinct items, in the
  // order in which they were appended, each with a verified transfer.
  lemma {:induction false} QueueIsSafe<D(!new)>(c: Config<D>, steps: seq<Step>, s: State)
    requires Reaches(c, steps, s)
    ensures 0 <= s.active == |Holders(s.workers)| <= c.maxParallel
    ensures s.handed <= s.appended
    ensures forall j, k | 0 <= j < k < |s.handed| :: s.handed[j] != s.handed[k]
    ensures forall i | i in s.handed :: i in s.results && VerifiedFile(c, i, s.results[i])
  {
    ReachableInv(c, steps, s);
    forall j, k | 0 <= j < k < |s.handed| ensures s.handed[j] != s.handed[k] {
      assert s.appended[j] == s.handed[j] && s.appended[k] == s.handed[k];
    }
    forall i | i in s.handed ensures i in s.results && VerifiedFile(c, i, s.results[i]) {
      assert i in s.appended;
      ResultIsVerified(c, i, s.results[i]);
    }
  }

  // If Run returns nil, every queued item was started once and passed its checks.
  lemma {:induction false} NilMeansAllVerified<D(!new)>(c: Config<D>, steps: seq<Step>, s: State)
    requires Reaches(c, steps, s) && s.runner == Returned(true)
    ensures forall i | 0 <= i < |c.items| ::
              (At(s, i, Released) || At(s, i, Delivered)) && i in s.results && VerifiedFile(c, i, s.results[i])
  {
    ReachableInv(c, steps, s);
    forall i | 0 <= i < |c.items|
      ensures (At(s, i, Released) || At(s, i, Delivered)) && i in s.results && VerifiedFile(c, i, s.results[i])
    {
      assert !Holds(s.workers[i]) && s.workers[i] != FailedOut && s.workers[i] != Idle;
      assert Verified(s.workers[i]);
      ResultIsVerified(c, i, s.results[i]);
    }
  }

  // A worker is started at most once: every later Spawn takes a later item.
  lemma {:induction false} StartedOnce<D(!new)>(c: Config<D>, steps: seq<Step>, s: State, n: nat, prev: State, i: nat)
    requires Reaches(c, steps, s) && n <= |steps| && Reaches(c, steps[..n], prev)
    requires i < |prev.workers| && prev.workers[i] != Idle
    ensures i < |s.workers| && s.workers[i] != Idle && i < s.next
  {
    if n == |steps| {
      assert steps[..n] == steps;
      Deterministic(c, steps, s, prev);
      ReachableInv(c, steps, s);
    } else {
      var last := LastState(c, steps, s);
      assert DropLast(steps)[..n] == steps[..n];
      StartedOnce(c, DropLast(steps), last, n, prev, i);
      ReachableInv(c, DropLast(steps), last);
      StaysStarted(c, last, steps[|steps| - 1], i);
    }
  }

  lemma LastState<D>(c: Config<D>, steps: seq<Step>, s: State) returns (last: State)
    requires steps != [] && Reaches(c, steps, s)
    ensures Reaches(c, DropLast(steps), last)
    ensures Enabled(c, last, steps[|steps| - 1]) && s == Apply(c, last, steps[|steps| - 1])
  {
    last :| Reaches(c, DropLast(steps), last)
            && Enabled(c, last, steps[|steps| - 1]) && s == Apply(c, last, steps[|steps| - 1]);
  }

  lemma StaysStarted<D(!new)>(c: Config<D>, s: State, step: Step, i: nat)
    requires Inv(c, s) && Enabled(c, s, step) && i < |s.workers| && s.workers[i] != Idle
    ensures var t := Apply(c, s, step); i < |t.workers| && t.workers[i] != Idle && i < t.next
  {
  }

  lemma {:induction false} Deterministic<D(!new)>(c: Config<D>, steps: seq<Step>, s: State, t: State)
    requires Reaches(c, steps, s) && Reaches(c, steps, t)
    ensures s == t
  {
    if steps != [] {
      var a :| Reaches(c, DropLast(steps), a)
               && Enabled(c, a, steps[|steps| - 1]) && s == Apply(c, a, steps[|steps| - 1]);
      var b :| Reaches(c, DropLast(steps), b)
               && Enabled(c, b, steps[|steps| - 1]) && t == Apply(c, b, steps[|steps| - 1]);
      Deterministic(c, DropLast(steps), a, b);
    }
  }

  // A worker that left early keeps its slot, so Run can never return nil.
  lemma {:induction false} GoneBlocksRun<D(!new)>(c: Config<D>, steps: seq<Step>, s: State, i: nat)
    requires Reaches(c, steps, s) && At(s, i, Gone)
    ensures !Enabled(c, s, EndDrain) && s.runner != Finishing && s.runner != Returned(true)
  {
    ReachableInv(c, steps, s);
    assert Holds(s.workers[i]);
    assert i in Holders(s.workers);
  }

  lemma GoneStays<D(!new)>(c: Config<D>, s: State, i: nat, step: Step)
    requires CountsActive(c, s) && At(s, i, Gone) && Enabled(c, s, step)
    ensures At(Apply(c, s, step), i, Gone)
  {
  }

  // Whatever happens after a worker left early, Run never gets past its drain
  // loop: the slot is not given back any more.
  lemma {:induction false} GoneForever<D(!new)>(c: Config<D>, steps: seq<Step>, s: State, i: nat, more: seq<Step>,
                                                t: State)
    requires Reaches(c, steps, s) && At(s, i, Gone) && Reaches(c, steps + more, t)
    ensures At(t, i, Gone) && !Enabled(c, t, EndDrain) && t.runner != Finishing && t.runner != Returned(true)
    decreases |more|
  {
    if more == [] {
      assert steps + more == steps;
      Deterministic(c, steps, s, t);
    } else {
      var last := more[|more| - 1];
      assert DropLast(steps + more) == steps + DropLast(more) && (steps + more)[|steps + more| - 1] == last;
      var prev :| Reaches(c, steps + DropLast(more), prev) && Enabled(c, prev, last) && t == Apply(c, prev, last);
      GoneForever(c, steps, s, i, DropLast(more), prev);
      ReachableInv(c, steps + DropLast(more), prev);
      GoneStays(c, prev, i, last);
    }
    GoneBlocksRun(c, steps + more, t, i);
  }

  lemma {:induction false} TakeStep<D(!new)>(c: Config<D>, steps: seq<Step>, s: State, step: Step)
    returns (steps': seq<Step>, s': State)
    requires Reaches(c, steps, s) && Enabled(c, s, step)
    ensures s' == Apply(c, s, step) && Reaches(c, steps', s') && steps' == steps + [step]
  {
    steps', s' := steps + [step], Apply(c, s, step);
    assert DropLast(steps') == steps;
  }

  // Run can return nil before the last result is appended: NextResult then
  // finds the queue done and empty, and misses a verified item.
  lemma {:induction false} ResultCanBeMissed<D(!new)>(c: Config<D>, responses: seq<Response>)
    returns (steps: seq<Step>, s: State)
    requires |c.items| == 1 && c.maxParallel >= 1 && Passes(c.hash, c.items[0], AfterTries(c.items[0], responses))
    ensures Reaches(c, steps, s)
    ensures s.runner == Returned(true) && s.done && s.finished == [] && s.handed == [] && At(s, 0, Released)
  {
    steps, s := [], Init(c);
    steps, s := TakeStep(c, steps, s, Spawn);
    steps, s := TakeStep(c, steps, s, Check(0, responses));
    steps, s := TakeStep(c, steps, s, Release(0));
    steps, s := TakeStep(c, steps, s, StartDrain);
    steps, s := TakeStep(c, steps, s, EndDrain);
    steps, s := TakeStep(c, steps, s, Return);
  }

  // Once Run returned nil, a result is missing from the list exactly while its
  // worker stands between the decrement of active and the append.  So when
  // NextResult finds the queue done and its list empty, everything was handed out
  // if and only if no worker stands there.
  lemma {:induction false} MissedOnlyWhileReleased<D(!new)>(c: Config<D>, steps: seq<Step>, s: State)
    requires Reaches(c, steps, s) && s.runner == Returned(true)
    ensures forall i | 0 <= i < |c.items| :: i !in s.appended <==> At(s, i, Released)
    ensures (forall i | 0 <= i < |c.items| :: i in s.appended) <==> forall i: nat :: !At(s, i, Released)
    ensures s.finished == [] ==>
              ((forall i | 0 <= i < |c.items| :: i in s.handed) <==> forall i: nat :: !At(s, i, Released))
  {
    NilMeansAllVerified(c, steps, s);
    ReachableInv(c, steps, s);
    forall i | 0 <= i < |c.items| ensures i !in s.appended <==> At(s, i, Released) {
      assert At(s, i, Released) || At(s, i, Delivered);
      assert i in s.appended <==> At(s, i, Delivered);
    }
    assert s.finished == [] ==> s.appended == s.handed;
  }
}
