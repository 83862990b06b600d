// The cleanup at the end of a remote import.  It ranges over a mod's version
// list while it removes versions that are not stored any more from the same
// array, so every removal moves the elements that are still to come.
module RemoteCleanup {
  import opened Seqs
  import opened VersionIndex

  // The array behind the list, the list's length and the count of the callback.
  datatype State = State(a: seq<string>, live: nat, count: int)

  // append(list[:idx], list[idx+1:]...) in place: what lies behind the list stays.
  function ShiftLeft(a: seq<string>, idx: nat, live: nat): seq<string>
    requires idx < live <= |a|
  {
    a[..idx] + a[idx + 1..live] + a[live - 1..]
  }

  function IndexOf(a: seq<string>, live: nat, v: string): (idx: nat)
    requires live <= |a|
    ensures idx <= live && (forall i | 0 <= i < idx :: a[i] != v) && (idx < live ==> a[idx] == v)
  {
    if live == 0 then 0
    else
      var idx := IndexOf(a, live - 1, v);
      if idx < live - 1 then idx else if a[live - 1] == v then live - 1 else live
  }

  function BatchedRemove(s: State, v: string): (r: State)
    requires s.live <= |s.a|
    ensures |r.a| == |s.a| && r.live <= |r.a| && r.count == s.count
  {
    var idx := IndexOf(s.a, s.live, v);
    if idx == s.live then s else s.(a := ShiftLeft(s.a, idx, s.live), live := s.live - 1)
  }

  function List(s: State): seq<string>
    requires s.live <= |s.a|
  {
    s.a[..s.live]
  }

  // One turn of the loop, which reads the array as it is now.
  function Turn(stored: set<string>, s: State, i: nat): (r: State)
    requires i < |s.a| && s.live <= |s.a|
    ensures |r.a| == |s.a| && r.live <= |r.a|
  {
    if s.a[i] in stored then s else var t := BatchedRemove(s, s.a[i]); t.(count := t.count - 1)
  }

  function Sweep(stored: set<string>, s: State, i: nat): (r: State)
    requires i <= |s.a| && s.live <= |s.a|
    ensures |r.a| == |s.a| && r.live <= |r.a|
    decreases |s.a| - i
  {
    if i == |s.a| then s else Sweep(stored, Turn(stored, s, i), i + 1)
  }

  // The list that the index has afterwards; [] also where the key is dropped.
  function Cleaned(stored: set<string>, versions: seq<string>): seq<string> {
    var s := Sweep(stored, State(versions, |versions|, |versions|), 0);
    if s.count == 0 then [] else List(s)
  }

  method ShiftInPlace(a: array<string>, idx: nat, live: nat)
    requires idx < live <= a.Length
    modifies a
    ensures a[..] == ShiftLeft(old(a[..]), idx, live)
  {
    ghost var before := a[..];
    for k := idx to live - 1
      invariant forall j | idx <= j < k :: a[j] == before[j + 1]
      invariant forall j | 0 <= j < a.Length && !(idx <= j < k) :: a[j] == before[j]
    {
      a[k] := a[k + 1];
    }
    ShiftLeftIs(before, idx, live, a[..]);
  }

  lemma ShiftLeftIs(before: seq<string>, idx: nat, live: nat, after: seq<string>)
    requires idx < live <= |before| == |after|
    requires forall j | idx <= j < live - 1 :: after[j] == before[j + 1]
    requires forall j | 0 <= j < |before| && !(idx <= j < live - 1) :: after[j] == before[j]
    ensures after == ShiftLeft(before, idx, live)
  {
  }

  method Remove(a: array<string>, live: nat, v: string) returns (live': nat)
    requires live <= a.Length
    modifies a
    ensures live' <= a.Length
    ensures forall count :: State(a[..], live', count) == BatchedRemove(State(old(a[..]), live, count), v)
  {
    for idx := 0 to live
      invariant forall i | 0 <= i < idx :: a[i] != v
      invariant a[..] == old(a[..])
    {
      if a[idx] == v {
        ShiftInPlace(a, idx, live);
        return live - 1;
      }
    }
    return live;
  }

  method Cleanup(stored: set<string>, versions: array<string>) returns (list: seq<string>)
    modifies versions
    ensures list == Cleaned(stored, old(versions[..]))
  {
    var live: nat, count: int := versions.Length, versions.Length;
    ghost var start := versions[..];
    for i := 0 to versions.Length
      invariant live <= versions.Length
      invariant Sweep(stored, State(versions[..], live, count), i) == Sweep(stored, State(start, |start|, |start|), 0)
    {
      var version := versions[i];
      if version !in stored {
        live := Remove(versions, live, version);
        count := count - 1;
      }
    }
    return if count == 0 then [] else versions[..live];
  }

  // ----- When the cleanup does what it is for

  // The versions that should be left.
  function Remaining(stored: set<string>, versions: seq<string>): seq<string> {
    if versions == [] then []
    else if versions[0] in stored then [versions[0]] + Remaining(stored, versions[1..])
    else Remaining(stored, versions[1..])
  }

  lemma {:induction false} RemainingFacts(stored: set<string>, versions: seq<string>)
    ensures forall v :: v in Remaining(stored, versions) <==> v in versions && v in stored
    ensures |Remaining(stored, versions)| <= |versions|
    ensures |Remaining(stored, versions)| == |versions| <==> forall v | v in versions :: v in stored
    ensures (forall v | v in versions :: v in stored) ==> Remaining(stored, versions) == versions
  {
    if versions != [] {
      assert versions == [versions[0]] + versions[1..];
      RemainingFacts(stored, versions[1..]);
    }
  }

  lemma RemainingOfNone(stored: set<string>, versions: seq<string>)
    requires forall v | v in versions :: v !in stored
    ensures Remaining(stored, versions) == []
  {
  }

  // With every version stored nothing changes.
  lemma {:induction false} AllStored(stored: set<string>, s: State, i: nat)
    requires i <= |s.a| && s.live <= |s.a| && forall j | 0 <= j < |s.a| :: s.a[j] in stored
    ensures Sweep(stored, s, i) == s
    decreases |s.a| - i
  {
    if i < |s.a| {
      AllStored(stored, s, i + 1);
    }
  }

  lemma TurnAtMissing(stored: set<string>, s: State, i: nat)
    requires i < |s.a| && s.live <= |s.a| && s.a[i] !in stored
    ensures var r := Turn(stored, s, i);
            && r.count == s.count - 1 && r.a == BatchedRemove(s, s.a[i]).a && r.live == BatchedRemove(s, s.a[i]).live
            && forall j | 0 <= j < |s.a| :: r.a[j] in s.a
  {
  }

  // With none stored every turn counts down, so the key is dropped.
  lemma {:induction false} NoneStored(stored: set<string>, s: State, i: nat)
    requires i <= |s.a| && s.live <= |s.a| && forall j | 0 <= j < |s.a| :: s.a[j] !in stored
    ensures Sweep(stored, s, i).count == s.count - (|s.a| - i)
    decreases |s.a| - i
  {
    if i < |s.a| {
      TurnAtMissing(stored, s, i);
      NoneStored(stored, Turn(stored, s, i), i + 1);
    }
  }

  // ----- What the loop reads, and what that leaves

  function Repeat(v: string, n: nat): seq<string> {
    if n == 0 then [] else [v] + Repeat(v, n - 1)
  }

  // The missing versions that the loop reads, from a point where t is to come and
  // r stale copies of the last version stand behind the list: behind a removed
  // version it skips one, and then it reads the stale copies.
  function Reads(stored: set<string>, t: seq<string>, r: nat): seq<string>
    decreases |t|, 1
  {
    if t == [] then []
    else if t[0] in stored then (if |t| == 1 then [] else Reads(stored, t[1..], r))
    else [t[0]] + ReadsBehind(stored, t, r)
  }

  function ReadsBehind(stored: set<string>, t: seq<string>, r: nat): seq<string>
    requires t != []
    decreases |t|, 0
  {
    if |t| == 1 then Repeat(t[0], r)
    else if |t| == 2 then (if t[1] in stored then [] else Repeat(t[1], r + 1))
    else Reads(stored, t[2..], r + 1)
  }

  // Each of them takes one copy out of the list, if there is one.
  function RemoveEach(list: seq<string>, vs: seq<string>): seq<string>
    decreases |vs|
  {
    if vs == [] then list else RemoveEach(RemoveFirst(list, vs[0]), vs[1..])
  }

  lemma RemoveOneMore(list: seq<string>, v: string, vs: seq<string>)
    ensures RemoveEach(list, [v] + vs) == RemoveEach(RemoveFirst(list, v), vs)
  {
    assert ([v] + vs)[1..] == vs;
  }

  // What a turn does that reads a missing version: the first copy leaves the list,
  // what lies behind the list stays, and the last version is left there too.
  ghost predicate Removed(s: State, v: string, r: State)
    requires s.live <= |s.a|
  {
    && r.live <= s.live && |r.a| == |s.a| && r.count == s.count - 1
    && List(r) == RemoveFirst(List(s), v)
    && (forall j | s.live <= j < |s.a| :: r.a[j] == s.a[j])
    && (v in List(s) ==> r.live == s.live - 1 && r.a[s.live - 1] == s.a[s.live - 1])
  }

  lemma {:induction false} RemovesFirst(s: State, v: string)
    requires s.live <= |s.a|
    ensures var r := BatchedRemove(s, v); Removed(s, v, r.(count := s.count - 1))
  {
    var list, idx := List(s), IndexOf(s.a, s.live, v);
    if idx == s.live {
      RemoveAbsent(list, v);
    } else {
      RemoveFirstIs(list, v, idx);
      assert ShiftLeft(s.a, idx, s.live)[..s.live - 1] == list[..idx] + list[idx + 1..];
    }
  }

  // The list and the count of a state.
  ghost function Left(s: State): (seq<string>, int) {
    (if s.live <= |s.a| then List(s) else s.a, s.count)
  }

  // A loop: the stored versions, one turn, and what is left in the end from a
  // state and a position on.
  datatype Form = Form(stored: set<string>, turn: (State, nat) -> State, end: (State, nat) -> (seq<string>, int))

  ghost predicate TurnIs(l: Form, s: State, i: nat) {
    i < |s.a| && s.live <= |s.a| ==> if s.a[i] in l.stored then l.turn(s, i) == s else Removed(s, s.a[i], l.turn(s, i))
  }

  ghost predicate EndIs(l: Form, s: State, i: nat) {
    l.end(s, i) == if i >= |s.a| then Left(s) else l.end(l.turn(s, i), i + 1)
  }

  // The loops whose turns do what is stated, which is all that the proofs use.
  type Loop = l: Form | forall s, i :: TurnIs(l, s, i) && EndIs(l, s, i) ghost witness TheLoop({})

  ghost function TheLoop(stored: set<string>): (l: Form)
    ensures forall s, i :: TurnIs(l, s, i) && EndIs(l, s, i)
    ensures l.stored == stored
    ensures forall s: State, i: nat | i <= |s.a| && s.live <= |s.a| :: l.end(s, i) == Left(Sweep(stored, s, i))
  {
    LoopAsStated(stored);
    FormOf(stored)
  }

  ghost function FormOf(stored: set<string>): Form {
    Form(stored,
         (s: State, i: nat) => if i < |s.a| && s.live <= |s.a| then Turn(stored, s, i) else s,
         (s: State, i: nat) => Left(if i <= |s.a| && s.live <= |s.a| then Sweep(stored, s, i) else s))
  }

  lemma {:induction false} LoopAsStated(stored: set<string>)
    ensures forall s, i :: TurnIs(FormOf(stored), s, i) && EndIs(FormOf(stored), s, i)
  {
    forall s: State, i: nat ensures TurnIs(FormOf(stored), s, i) && EndIs(FormOf(stored), s, i) {
      TurnAsStated(stored, s, i);
      EndAsStated(stored, s, i);
    }
  }

  lemma TurnAsStated(stored: set<string>, s: State, i: nat)
    ensures TurnIs(FormOf(stored), s, i)
  {
    if i < |s.a| && s.live <= |s.a| {
      RemovesFirst(s, s.a[i]);
    }
  }

  lemma EndAsStated(stored: set<string>, s: State, i: nat)
    ensures EndIs(FormOf(stored), s, i)
  {
    if i < |s.a| && s.live <= |s.a| {
      var l, next := FormOf(stored), Turn(stored, s, i);
      assert l.turn(s, i) == next && l.end(s, i) == Left(Sweep(stored, s, i));
      assert l.end(next, i + 1) == Left(Sweep(stored, next, i + 1));
    }
  }

  // From position i on, the loop takes vs out of a list.
  ghost predicate TakesOut(l: Loop, s: State, i: nat, list: seq<string>, vs: seq<string>) {
    l.end(s, i) == (RemoveEach(list, vs), s.count - |vs|)
  }

  lemma TakesOneMore(l: Loop, s: State, i: nat, list: seq<string>, vs: seq<string>)
    requires i < |s.a| && s.live <= |s.a| && s.a[i] !in l.stored
    requires TakesOut(l, l.turn(s, i), i + 1, RemoveFirst(list, s.a[i]), vs)
    ensures TakesOut(l, s, i, list, [s.a[i]] + vs)
  {
    assert TurnIs(l, s, i) && EndIs(l, s, i);
    RemoveOneMore(list, s.a[i], vs);
  }

  // A turn at a stored version changes nothing.
  lemma TakesOn(l: Loop, s: State, i: nat, list: seq<string>, vs: seq<string>)
    requires i < |s.a| && s.live <= |s.a| && s.a[i] in l.stored && TakesOut(l, s, i + 1, list, vs)
    ensures TakesOut(l, s, i, list, vs)
  {
    assert TurnIs(l, s, i) && EndIs(l, s, i);
  }

  // The state of a list with stale copies of z behind it.
  ghost predicate Stands(s: State, list: seq<string>, z: string) {
    s.live == |list| <= |s.a| && s.a[..s.live] == list && forall j | s.live <= j < |s.a| :: s.a[j] == z
  }

  // Reading the stale copies.
  lemma {:induction false} StaleReads(l: Loop, s: State, i: nat, z: string, list: seq<string>)
    requires s.live <= i <= |s.a| && List(s) == list && forall j | i <= j < |s.a| :: s.a[j] == z
    ensures TakesOut(l, s, i, list, if z in l.stored then [] else Repeat(z, |s.a| - i))
    decreases |s.a| - i
  {
    assert TurnIs(l, s, i) && EndIs(l, s, i);
    if i < |s.a| {
      assert s.a[i] == z;
      if z in l.stored {
        StaleReads(l, s, i + 1, z, list);
        TakesOn(l, s, i, list, []);
      } else {
        StaleReads(l, l.turn(s, i), i + 1, z, RemoveFirst(list, z));
        TakesOneMore(l, s, i, list, Repeat(z, |s.a| - i - 1));
      }
    }
  }

  // t is the end of a list.
  ghost predicate EndsIn(list: seq<string>, t: seq<string>) {
    |t| <= |list| && list[|list| - |t|..] == t
  }

  lemma ShorterEnd(list: seq<string>, t: seq<string>)
    requires t != [] && EndsIn(list, t)
    ensures EndsIn(list, t[1..])
  {
  }

  lemma {:induction false} RemovedInFront(list: seq<string>, t: seq<string>)
    requires t != [] && EndsIn(list, t)
    ensures |RemoveFirst(list, t[0])| == |list| - 1 && EndsIn(RemoveFirst(list, t[0]), t[1..])
  {
    if list[0] != t[0] {
      assert |t| < |list| && list[1..][|list| - 1 - |t|..] == t;
      RemovedInFront(list[1..], t);
    }
  }

  // The loop over any list, from position i, where t is to come and r stale copies
  // stand behind the list.
  lemma {:induction false} RunIs(l: Loop, s: State, i: nat, list: seq<string>, t: seq<string>, r: nat)
    requires t != [] && EndsIn(list, t) && Stands(s, list, t[|t| - 1])
    requires i + |t| == |list| && |s.a| == |list| + r
    ensures TakesOut(l, s, i, list, Reads(l.stored, t, r))
    decreases |t|, 2
  {
    assert s.a[i] == list[i..][0] == t[0];
    if t[0] !in l.stored {
      RunFrom(l, s, i, list, t, r);
    } else if |t| == 1 {
      StaleReads(l, s, i + 1, t[0], list);
      TakesOn(l, s, i, list, []);
    } else {
      ShorterEnd(list, t);
      RunIs(l, s, i + 1, list, t[1..], r);
      TakesOn(l, s, i, list, Reads(l.stored, t[1..], r));
    }
  }

  lemma {:induction false} RunFrom(l: Loop, s: State, i: nat, list: seq<string>, t: seq<string>, r: nat)
    requires t != [] && EndsIn(list, t) && Stands(s, list, t[|t| - 1]) && t[0] !in l.stored
    requires i + |t| == |list| && |s.a| == |list| + r
    ensures TakesOut(l, s, i, list, Reads(l.stored, t, r))
    decreases |t|, 1
  {
    assert s.a[i] == list[i..][0] == t[0];
    MissingRead(l, s, i, list, t);
    RunBehind(l, l.turn(s, i), i + 1, RemoveFirst(list, t[0]), t, r);
    TakesOneMore(l, s, i, list, ReadsBehind(l.stored, t, r));
  }

  // Reading a missing version takes it out and leaves one more stale element.
  lemma {:induction false} MissingRead(l: Loop, s: State, i: nat, list: seq<string>, t: seq<string>)
    requires t != [] && EndsIn(list, t) && Stands(s, list, t[|t| - 1]) && t[0] !in l.stored && i + |t| == |list|
    ensures var s', rest := l.turn(s, i), RemoveFirst(list, t[0]);
            && Stands(s', rest, t[|t| - 1]) && |rest| == |list| - 1 && EndsIn(rest, t[1..])
            && |s'.a| == |s.a| && s'.count == s.count - 1
  {
    assert s.a[i] == list[i..][0] == t[0];
    assert s.a[s.live - 1] == list[i..][|t| - 1] == t[|t| - 1];
    RemovedInFront(list, t);
    assert TurnIs(l, s, i) && t[0] in list;
  }

  // Behind the removal of t's first version, with rest as the list.
  lemma {:induction false} RunBehind(l: Loop, s: State, i: nat, rest: seq<string>, t: seq<string>, r: nat)
    requires t != [] && EndsIn(rest, t[1..]) && Stands(s, rest, t[|t| - 1]) && t[0] !in l.stored
    requires i + |t| == |rest| + 2 && |s.a| == |rest| + 1 + r
    ensures TakesOut(l, s, i, rest, ReadsBehind(l.stored, t, r))
    decreases |t|, 0
  {
    if |t| <= 2 {
      RunBehindLast(l, s, i, rest, t, r);
    } else {
      ShorterEnd(rest, t[1..]);
      assert t[1..][1..] == t[2..];
      RunIs(l, s, i, rest, t[2..], r + 1);
    }
  }

  lemma RunBehindLast(l: Loop, s: State, i: nat, rest: seq<string>, t: seq<string>, r: nat)
    requires 1 <= |t| <= 2 && Stands(s, rest, t[|t| - 1]) && t[0] !in l.stored
    requires i + |t| == |rest| + 2 && |s.a| == |rest| + 1 + r
    ensures TakesOut(l, s, i, rest, ReadsBehind(l.stored, t, r))
  {
    StaleReads(l, s, i, t[|t| - 1], rest);
  }

  // So the sweep over a list takes out what it reads.
  lemma {:induction false} SweepIs(stored: set<string>, versions: seq<string>)
    requires versions != []
    ensures var s := State(versions, |versions|, |versions|);
            var taken := Reads(stored, versions, 0);
            && List(Sweep(stored, s, 0)) == RemoveEach(versions, taken)
            && Sweep(stored, s, 0).count == |versions| - |taken|
  {
    var s := State(versions, |versions|, |versions|);
    RunIs(TheLoop(stored), s, 0, versions, versions, 0);
  }

  lemma {:induction false} RepeatLength(v: string, n: nat)
    ensures |Repeat(v, n)| == n && multiset(Repeat(v, n))[v] == n && forall u | u in Repeat(v, n) :: u == v
  {
    if n > 0 {
      RepeatLength(v, n - 1);
    }
  }

  // ----- When exactly the stored versions remain

  lemma {:induction false} ReadsAreMissing(stored: set<string>, t: seq<string>, r: nat)
    ensures forall v | v in Reads(stored, t, r) :: v !in stored && v in t
    decreases |t|
  {
    if t != [] {
      if t[0] in stored {
        if |t| > 1 {
          ReadsAreMissing(stored, t[1..], r);
        }
      } else if |t| == 1 {
        RepeatLength(t[0], r);
      } else if |t| == 2 {
        RepeatLength(t[1], r + 1);
      } else {
        ReadsAreMissing(stored, t[2..], r + 1);
      }
    }
  }

  lemma {:induction false} RemoveKeepsRemaining(stored: set<string>, list: seq<string>, v: string)
    requires v !in stored
    ensures Remaining(stored, RemoveFirst(list, v)) == Remaining(stored, list)
  {
    if list != [] && list[0] != v {
      RemoveKeepsRemaining(stored, list[1..], v);
      assert ([list[0]] + RemoveFirst(list[1..], v))[1..] == RemoveFirst(list[1..], v);
    }
  }

  lemma {:induction false} RemoveEachIs(stored: set<string>, list: seq<string>, vs: seq<string>)
    requires forall v | v in vs :: v !in stored
    ensures Remaining(stored, RemoveEach(list, vs)) == Remaining(stored, list)
    ensures multiset(RemoveEach(list, vs)) == multiset(list) - multiset(vs)
    decreases |vs|
  {
    if vs != [] {
      HeadAndTail(vs);
      RemoveKeepsRemaining(stored, list, vs[0]);
      RemoveFromMultiset(list, vs[0]);
      RemoveEachIs(stored, RemoveFirst(list, vs[0]), vs[1..]);
      assert multiset(vs) == multiset{vs[0]} + multiset(vs[1..]);
    }
  }

  // Every missing version is read as often as it is listed.
  ghost predicate AllRead(stored: set<string>, versions: seq<string>) {
    forall v | v !in stored :: multiset(versions)[v] <= multiset(Reads(stored, versions, 0))[v]
  }

  // For any list, with duplicates or without: the cleanup leaves exactly the stored
  // versions if none is stored, or if every missing one is read often enough and
  // the reads are not as many as the versions, which would drop the key.
  ghost predicate CleansExactly(stored: set<string>, versions: seq<string>) {
    || (forall v | v in versions :: v !in stored)
    || (AllRead(stored, versions) && |Reads(stored, versions, 0)| != |versions|)
  }

  lemma {:induction false} CleanedIs(stored: set<string>, versions: seq<string>)
    requires versions != []
    ensures Cleaned(stored, versions) ==
            var taken := Reads(stored, versions, 0);
            if |taken| == |versions| then [] else RemoveEach(versions, taken)
  {
    SweepIs(stored, versions);
  }

  lemma {:induction false} LeftIsRemaining(stored: set<string>, versions: seq<string>)
    ensures RemoveEach(versions, Reads(stored, versions, 0)) == Remaining(stored, versions) <==>
            AllRead(stored, versions)
  {
    var taken := Reads(stored, versions, 0);
    var left := RemoveEach(versions, taken);
    ReadsAreMissing(stored, versions, 0);
    RemoveEachIs(stored, versions, taken);
    RemainingFacts(stored, versions);
    RemainingFacts(stored, left);
    forall v ensures v in left <==> multiset(versions)[v] > multiset(taken)[v] {
      assert v in left <==> v in multiset(left);
    }
  }

  lemma {:induction false} CleanupExactness(stored: set<string>, versions: seq<string>)
    ensures Cleaned(stored, versions) == Remaining(stored, versions) <==> CleansExactly(stored, versions)
  {
    if forall v | v in versions :: v !in stored {
      RemainingOfNone(stored, versions);
      NoneStored(stored, State(versions, |versions|, |versions|), 0);
    } else {
      var v :| v in versions && v in stored;
      RemainingFacts(stored, versions);
      assert v in Remaining(stored, versions);
      CleanedIs(stored, versions);
      LeftIsRemaining(stored, versions);
    }
  }

  // ----- Lists without duplicates

  // No version that is not stored stands behind another one, but for the very
  // last two.
  ghost predicate NoneSkipped(stored: set<string>, t: seq<string>) {
    forall i | 0 <= i < |t| - 1 && t[i] !in stored && t[i + 1] !in stored :: i + 2 == |t|
  }

  lemma {:induction false} NoneSkippedTail(stored: set<string>, t: seq<string>, n: nat)
    requires n <= |t| && (n == 1 ==> t[0] in stored)
    requires n == 2 ==> |t| > 2 ==> t[0] !in stored && t[1] in stored
    requires n <= 2 && (n == 2 ==> |t| > 2)
    ensures NoneSkipped(stored, t) <==> NoneSkipped(stored, t[n..])
  {
    var u := t[n..];
    if NoneSkipped(stored, u) {
      forall i | 0 <= i < |t| - 1 && t[i] !in stored && t[i + 1] !in stored ensures i + 2 == |t| {
        assert i >= n ==> u[i - n] == t[i] && u[i - n + 1] == t[i + 1];
      }
    }
    if NoneSkipped(stored, t) {
      forall i | 0 <= i < |u| - 1 && u[i] !in stored && u[i + 1] !in stored ensures i + 2 == |u| {
        assert u[i] == t[i + n] && u[i + 1] == t[i + n + 1];
      }
    }
  }

  function Lost(stored: set<string>, t: seq<string>): int {
    |t| - |Remaining(stored, t)|
  }

  predicate EndsInPair(stored: set<string>, t: seq<string>) {
    |t| >= 2 && t[|t| - 1] !in stored && t[|t| - 2] !in stored
  }

  // Without duplicates every missing version is read exactly if none is skipped.
  lemma {:induction false} ReadUnlessSkipped(stored: set<string>, t: seq<string>, r: nat)
    requires NoDuplicates(t)
    ensures (forall v | v in t && v !in stored :: v in Reads(stored, t, r)) <==> NoneSkipped(stored, t)
    decreases |t|
  {
    if t == [] {
    } else if t[0] in stored {
      HeadAndTail(t);
      NoneSkippedTail(stored, t, 1);
      if |t| > 1 {
        ReadUnlessSkipped(stored, t[1..], r);
      }
    } else if |t| == 1 {
    } else if |t| == 2 {
      RepeatLength(t[1], r + 1);
      assert Repeat(t[1], r + 1)[0] == t[1];
    } else {
      SkippedOrNot(stored, t, r);
    }
  }

  lemma {:induction false} SkippedOrNot(stored: set<string>, t: seq<string>, r: nat)
    requires NoDuplicates(t) && |t| > 2 && t[0] !in stored
    ensures (forall v | v in t && v !in stored :: v in Reads(stored, t, r)) <==> NoneSkipped(stored, t)
    decreases |t|, 0
  {
    var rest := t[2..];
    assert t == [t[0], t[1]] + rest;
    ReadUnlessSkipped(stored, rest, r + 1);
    ReadsAreMissing(stored, rest, r + 1);
    if t[1] in stored {
      NoneSkippedTail(stored, t, 2);
      assert t[0] !in rest;
    } else {
      assert t[0] !in stored && t[0 + 1] !in stored;
      assert t[1] !in rest && t[1] != t[0];
      assert t[1] in t && t[1] !in Reads(stored, t, r);
    }
  }

  lemma {:induction false} ReadsCount(stored: set<string>, t: seq<string>, r: nat)
    requires t != [] && NoneSkipped(stored, t)
    ensures var lost := Lost(stored, t);
            |Reads(stored, t, r)| ==
            if t[|t| - 1] in stored then lost else 2 * lost + r - if EndsInPair(stored, t) then 2 else 1
    decreases |t|
  {
    if |t| == 1 {
      assert t[1..] == [];
      RepeatLength(t[0], r);
    } else if t[0] in stored {
      NoneSkippedTail(stored, t, 1);
      ReadsCount(stored, t[1..], r);
    } else if |t| == 2 {
      RemainingOfTwo(stored, t);
      RepeatLength(t[1], r + 1);
    } else {
      assert t[0] !in stored && t[0 + 1] in stored;
      assert t[1..][1..] == t[2..];
      NoneSkippedTail(stored, t, 2);
      ReadsCount(stored, t[2..], r + 1);
    }
  }

  lemma RemainingOfTwo(stored: set<string>, t: seq<string>)
    requires |t| == 2 && t[0] !in stored
    ensures Remaining(stored, t) == if t[1] in stored then [t[1]] else []
  {
    var u := t[1..];
    assert u == [t[1]] && u[1..] == [];
    assert Remaining(stored, u) == (if t[1] in stored then [t[1]] + Remaining(stored, u[1..]) else []);
  }

  lemma {:induction false} CountOfDistinct(s: seq<string>, v: string)
    requires NoDuplicates(s)
    ensures multiset(s)[v] == if v in s then 1 else 0
  {
    if s != [] {
      HeadAndTail(s);
      CountOfDistinct(s[1..], v);
      assert multiset(s) == multiset{s[0]} + multiset(s[1..]);
    }
  }

  // Without duplicates: no missing version stands behind another one, except as
  // the last, and the last one, when it is missing, is not read so often that the
  // count reaches zero.
  lemma {:induction false} DistinctExactness(stored: set<string>, versions: seq<string>)
    requires NoDuplicates(versions) && exists v :: v in versions && v in stored
    ensures Cleaned(stored, versions) == Remaining(stored, versions) <==>
            && NoneSkipped(stored, versions)
            && (versions[|versions| - 1] in stored
                || |versions| != 2 * Lost(stored, versions) - if EndsInPair(stored, versions) then 2 else 1)
  {
    var n, taken := |versions|, Reads(stored, versions, 0);
    CleanupExactness(stored, versions);
    ReadUnlessSkipped(stored, versions, 0);
    forall v ensures multiset(versions)[v] <= multiset(taken)[v] <==> (v in versions ==> v in taken) {
      CountOfDistinct(versions, v);
      assert v in taken <==> v in multiset(taken);
    }
    if NoneSkipped(stored, versions) {
      ReadsCount(stored, versions, 0);
      RemainingFacts(stored, versions);
      var v :| v in versions && v in stored;
      assert v in Remaining(stored, versions);
    }
  }

  // In particular: all stored, and the list stays as it is; none, and it is gone.
  lemma {:induction false} AllOrNothing(stored: set<string>, versions: seq<string>)
    ensures (forall v | v in versions :: v in stored) ==> Cleaned(stored, versions) == versions
    ensures (forall v | v in versions :: v !in stored) ==> Cleaned(stored, versions) == []
  {
    var s := State(versions, |versions|, |versions|);
    if forall v | v in versions :: v in stored {
      AllStored(stored, s, 0);
    }
    if forall v | v in versions :: v !in stored {
      NoneStored(stored, s, 0);
    }
  }

  // A stored version between two missing ones is lost, and of two missing ones
  // in front of a stored one the second stays.
  lemma {:induction false} CleanupGoesWrong()
    ensures Cleaned({"2"}, ["1", "2", "3"]) == [] && Remaining({"2"}, ["1", "2", "3"]) == ["2"]
    ensures "2" in Cleaned({"3"}, ["1", "2", "3"])
  {
    assert "1" != "2" && "2" != "3" && "1" != "3";
    var a := ["1", "2", "3"];
    CleanedIs({"2"}, a);
    CleanedIs({"3"}, a);
    assert a[2..] == ["3"] && a[1..] == ["2", "3"] && a[1..][1..] == ["3"] && ["3"][1..] == [];
    assert Repeat("3", 1) == ["3"] + Repeat("3", 0);
    assert Reads({"2"}, a, 0) == ["1"] + Reads({"2"}, ["3"], 1) == ["1", "3", "3"];
    assert Reads({"3"}, a, 0) == ["1"] + Reads({"3"}, ["3"], 1) == ["1"];
    RemoveOneMore(a, "1", []);
    assert RemoveEach(a, ["1"]) == a[1..];
  }
}
