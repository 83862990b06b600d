// Sorting version strings: the strings and their parsed forms are two lists
// that are swapped in lockstep.
module VersionSort {
  import opened Wrappers

  // Parsing and precedence of versions; the order is left open.
  datatype SemVer<!V> = SemVer(parse: string -> Option<V>, less: (V, V) -> bool)

  // less is a strict weak order, as precedence is: two versions that differ in
  // their build metadata only are equivalent.
  ghost predicate IsOrder<V(!new)>(sem: SemVer<V>) {
    && (forall a, b :: sem.less(a, b) ==> !sem.less(b, a))
    && (forall a, b, c :: !sem.less(a, b) && !sem.less(b, c) ==> !sem.less(a, c))
  }

  predicate Valid<V>(sem: SemVer<V>, versions: seq<string>) {
    forall v | v in versions :: sem.parse(v).Some?
  }

  // No version comes before a lower one.
  ghost predicate Ascending<V>(sem: SemVer<V>, versions: seq<string>) {
    forall i, j | 0 <= i < j < |versions| :: NotBelow(sem, versions[j], versions[i])
  }

  predicate NotBelow<V>(sem: SemVer<V>, a: string, b: string) {
    sem.parse(a).Some? && sem.parse(b).Some? && !sem.less(sem.parse(a).value, sem.parse(b).value)
  }

  function Swapped<T>(s: seq<T>, i: nat, j: nat): seq<T>
    requires i < |s| && j < |s|
  {
    s[i := s[j]][j := s[i]]
  }

  lemma SwapPermutes<T>(s: seq<T>, i: nat, j: nat)
    requires i < |s| && j < |s|
    ensures multiset(Swapped(s, i, j)) == multiset(s)
  {
  }

  class StringVersionCollection<V(!new)> {
    const sem: SemVer<V>
    var versions: seq<string>
    var decoded: seq<V>

    ghost predicate Lockstep()
      reads this
    {
      && |versions| == |decoded|
      && forall i | 0 <= i < |versions| :: sem.parse(versions[i]) == Some(decoded[i])
    }

    constructor (sem: SemVer<V>, versions: seq<string>, decoded: seq<V>)
      requires |versions| == |decoded|
      requires forall i | 0 <= i < |versions| :: sem.parse(versions[i]) == Some(decoded[i])
      ensures Lockstep() && this.sem == sem && this.versions == versions
    {
      this.sem, this.versions, this.decoded := sem, versions, decoded;
    }

    predicate Less(i: nat, j: nat)
      requires i < |decoded| && j < |decoded|
      reads this
    {
      sem.less(decoded[i], decoded[j])
    }

    method Swap(i: nat, j: nat)
      requires Lockstep() && i < |versions| && j < |versions|
      modifies this
      ensures Lockstep()
      ensures versions == Swapped(old(versions), i, j) && decoded == Swapped(old(decoded), i, j)
      ensures multiset(versions) == multiset(old(versions))
    {
      SwapPermutes(versions, i, j);
      versions := versions[i := versions[j]][j := versions[i]];
      decoded := decoded[i := decoded[j]][j := decoded[i]];
    }

    ghost predicate SortedBut(n: nat, hole: nat)
      requires n <= |decoded|
      reads this
    {
      forall i, j | 0 <= i < j < n && j != hole :: !sem.less(decoded[j], decoded[i])
    }

    // The library's sort of a short list, on Less and Swap alone.
    method Sort()
      requires Lockstep() && IsOrder(sem)
      modifies this
      ensures Lockstep() && Ascending(sem, versions)
      ensures multiset(versions) == multiset(old(versions))
    {
      var n, i := |versions|, 1;
      while i < n
        invariant 0 < i && |versions| == n && (i <= n || n == 0)
        invariant Lockstep() && multiset(versions) == multiset(old(versions))
        invariant i <= n ==> SortedBut(i, i)
      {
        var j := i;
        while j > 0 && Less(j, j - 1)
          invariant 0 <= j <= i < n == |versions| == |decoded|
          invariant Lockstep() && multiset(versions) == multiset(old(versions))
          invariant SortedBut(i + 1, j)
          invariant forall k | j < k <= i :: !sem.less(decoded[k], decoded[j])
          decreases j
        {
          Swap(j, j - 1);
          j := j - 1;
        }
        assert forall k | 0 <= k < j :: !sem.less(decoded[j], decoded[k]);
        i := i + 1;
      }
    }
  }

  // Parses and sorts a list, or fails at a version that cannot be read.
  method SortVersions<V(!new)>(sem: SemVer<V>, versions: seq<string>) returns (ok: bool, sorted: seq<string>)
    requires IsOrder(sem)
    ensures ok <==> Valid(sem, versions)
    ensures ok ==> multiset(sorted) == multiset(versions) && Ascending(sem, sorted)
    ensures !ok ==> sorted == versions
  {
    var decoded: seq<V> := [];
    for i := 0 to |versions|
      invariant |decoded| == i
      invariant forall j | 0 <= j < i :: sem.parse(versions[j]) == Some(decoded[j])
    {
      match sem.parse(versions[i]) {
        case None =>
          assert versions[i] in versions;
          return false, versions;
        case Some(v) => decoded := decoded + [v];
      }
    }
    var coll := new StringVersionCollection(sem, versions, decoded);
    coll.Sort();
    return true, coll.versions;
  }
}
