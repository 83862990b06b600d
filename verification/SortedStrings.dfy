// Strings in the order of Go's sort.Strings, and binary search among them.
module SortedStrings {
  import opened Seqs

  predicate AtMost(a: string, b: string) {
    a == [] || (b != [] && (a[0] < b[0] || (a[0] == b[0] && AtMost(a[1..], b[1..]))))
  }

  lemma {:induction false} OneWay(a: string, b: string)
    ensures AtMost(a, b) || AtMost(b, a)
    ensures AtMost(a, b) && AtMost(b, a) ==> a == b
  {
    if a != [] && b != [] && a[0] == b[0] {
      OneWay(a[1..], b[1..]);
      HeadAndTail(a);
      HeadAndTail(b);
    }
  }

  lemma {:induction false} Transitive(a: string, b: string, c: string)
    requires AtMost(a, b) && AtMost(b, c)
    ensures AtMost(a, c)
  {
    if a != [] && a[0] == b[0] == c[0] {
      Transitive(a[1..], b[1..], c[1..]);
    }
  }

  ghost predicate Sorted(s: seq<string>) {
    forall i, j | 0 <= i < j < |s| :: AtMost(s[i], s[j])
  }

  // Only one sorted list has a given multiset of elements, so it does not
  // matter how it was sorted.
  lemma {:induction false} SortedOnce(a: seq<string>, b: seq<string>)
    requires Sorted(a) && Sorted(b) && multiset(a) == multiset(b)
    ensures a == b
  {
    SameLength(a, b);
    if a != [] {
      HeadAndTail(a);
      HeadAndTail(b);
      FirstIsLeast(a, b[0]);
      FirstIsLeast(b, a[0]);
      OneWay(a[0], b[0]);
      assert multiset(a[1..]) == multiset(a) - multiset{a[0]};
      assert multiset(b[1..]) == multiset(b) - multiset{b[0]};
      TailSorted(a);
      TailSorted(b);
      SortedOnce(a[1..], b[1..]);
    }
  }

  lemma SameLength(a: seq<string>, b: seq<string>)
    requires multiset(a) == multiset(b)
    ensures |a| == |b|
  {
    assert |multiset(a)| == |a| && |multiset(b)| == |b|;
  }

  lemma TailSorted(a: seq<string>)
    requires Sorted(a) && a != []
    ensures Sorted(a[1..])
  {
  }

  lemma FirstIsLeast(a: seq<string>, v: string)
    requires Sorted(a) && a != [] && v in multiset(a)
    ensures AtMost(a[0], v)
  {
    var i :| 0 <= i < |a| && a[i] == v;
    OneWay(v, v);
  }

  function Insert(s: seq<string>, v: string): seq<string> {
    if s == [] || AtMost(v, s[0]) then [v] + s else [s[0]] + Insert(s[1..], v)
  }

  function Sort(s: seq<string>): seq<string> {
    if s == [] then [] else Insert(Sort(s[1..]), s[0])
  }

  lemma {:induction false} InsertSorts(s: seq<string>, v: string)
    requires Sorted(s)
    ensures Sorted(Insert(s, v)) && multiset(Insert(s, v)) == multiset(s) + multiset{v}
  {
    if s != [] {
      HeadAndTail(s);
      if AtMost(v, s[0]) {
        forall j | 0 <= j < |s| ensures AtMost(v, s[j]) {
          if j > 0 {
            Transitive(v, s[0], s[j]);
          }
        }
      } else {
        OneWay(v, s[0]);
        TailSorted(s);
        var rest := Insert(s[1..], v);
        InsertSorts(s[1..], v);
        forall j | 0 <= j < |rest| ensures AtMost(s[0], rest[j]) {
          assert rest[j] in multiset(rest);
          if rest[j] != v {
            assert rest[j] in s[1..];
            var i :| 0 <= i < |s[1..]| && s[1..][i] == rest[j];
            assert AtMost(s[0], s[i + 1]);
          }
        }
      }
    }
  }

  lemma {:induction false} SortSorts(s: seq<string>)
    ensures Sorted(Sort(s)) && multiset(Sort(s)) == multiset(s)
  {
    if s != [] {
      HeadAndTail(s);
      SortSorts(s[1..]);
      InsertSorts(Sort(s[1..]), s[0]);
    }
  }

  // sort.Strings on a short list.
  method SortStrings(s: seq<string>) returns (sorted: seq<string>)
    ensures sorted == Sort(s) && Sorted(sorted) && multiset(sorted) == multiset(s)
    ensures forall v :: v in sorted <==> v in s
  {
    SortSorts(s);
    sorted := Sort(s);
    assert forall v :: v in sorted <==> v in multiset(sorted);
    assert forall v :: v in s <==> v in multiset(s);
  }

  // sort.SearchStrings: the first position whose element is not below v.
  method SearchStrings(s: seq<string>, v: string) returns (idx: nat)
    requires Sorted(s)
    ensures idx <= |s|
    ensures forall i | 0 <= i < idx :: !AtMost(v, s[i])
    ensures forall i | idx <= i < |s| :: AtMost(v, s[i])
    ensures v in s <==> idx < |s| && s[idx] == v
  {
    idx := 0;
    var end := |s|;
    while idx < end
      invariant 0 <= idx <= end <= |s|
      invariant forall i | 0 <= i < idx :: !AtMost(v, s[i])
      invariant forall i | end <= i < |s| :: AtMost(v, s[i])
    {
      var mid := (idx + end) / 2;
      if AtMost(v, s[mid]) {
        forall i | mid < i < |s| ensures AtMost(v, s[i]) {
          Transitive(v, s[mid], s[i]);
        }
        end := mid;
      } else {
        forall i | 0 <= i < mid ensures !AtMost(v, s[i]) {
          if AtMost(v, s[i]) {
            Transitive(v, s[i], s[mid]);
          }
        }
        idx := mid + 1;
      }
    }
    FoundAt(s, v, idx);
  }

  lemma FoundAt(s: seq<string>, v: string, idx: nat)
    requires Sorted(s) && idx <= |s|
    requires forall i | 0 <= i < idx :: !AtMost(v, s[i])
    requires forall i | idx <= i < |s| :: AtMost(v, s[i])
    ensures v in s <==> idx < |s| && s[idx] == v
  {
    OneWay(v, v);
    forall i | idx <= i < |s| && s[i] == v ensures s[idx] == v {
      assert i == idx || AtMost(s[idx], v);
      OneWay(s[idx], v);
    }
  }
}
