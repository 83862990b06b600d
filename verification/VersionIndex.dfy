// The in-memory index from a key to a list of strings, kept sorted and free of
// duplicates by Save.
module VersionIndex {
  import opened Seqs
  import opened VersionSort

  type Cache = map<string, seq<string>>

  function Lookup(cache: Cache, key: string): seq<string> {
    if key in cache then cache[key] else []
  }

  function RemoveFirst(list: seq<string>, value: string): seq<string> {
    if list == [] then [] else if list[0] == value then list[1..] else [list[0]] + RemoveFirst(list[1..], value)
  }

  lemma {:induction false} RemoveFirstIs(list: seq<string>, value: string, idx: nat)
    requires idx < |list| && list[idx] == value && forall i | 0 <= i < idx :: list[i] != value
    ensures RemoveFirst(list, value) == list[..idx] + list[idx + 1..]
  {
    if idx > 0 {
      RemoveFirstIs(list[1..], value, idx - 1);
      assert list[1..][..idx - 1] == list[1..idx] && list[..idx] == [list[0]] + list[1..idx];
    }
  }

  lemma {:induction false} RemoveAbsent(list: seq<string>, value: string)
    requires value !in list
    ensures RemoveFirst(list, value) == list
  {
    if list != [] {
      RemoveAbsent(list[1..], value);
    }
  }

  lemma {:induction false} RemoveFromMultiset(list: seq<string>, value: string)
    ensures multiset(RemoveFirst(list, value)) == multiset(list) - multiset{value}
  {
    if list != [] {
      assert list == [list[0]] + list[1..];
      RemoveFromMultiset(list[1..], value);
    }
  }

  // Of neighbouring equal strings only one stays.
  function Dedup(list: seq<string>): seq<string> {
    if |list| <= 1 then list
    else if list[0] == list[1] then Dedup(list[1..])
    else [list[0]] + Dedup(list[1..])
  }

  lemma {:induction false} DedupFacts(list: seq<string>)
    ensures forall v :: v in Dedup(list) <==> v in list
    ensures list != [] ==> Dedup(list) != [] && Dedup(list)[0] == list[0]
    ensures (forall i | 0 <= i < |list| - 1 :: list[i] != list[i + 1]) ==> Dedup(list) == list
  {
    if |list| > 1 {
      DedupFacts(list[1..]);
      assert list == [list[0]] + list[1..];
      if forall i | 0 <= i < |list| - 1 :: list[i] != list[i + 1] {
        forall i | 0 <= i < |list[1..]| - 1 ensures list[1..][i] != list[1..][i + 1] {
          assert list[i + 1] != list[i + 2];
        }
      }
    }
  }

  // Equal precedence means equal strings, among the strings of a list.
  ghost predicate DistinctPrecedences<V>(sem: SemVer<V>, list: seq<string>) {
    forall a, b | a in list && b in list && NotBelow(sem, a, b) && NotBelow(sem, b, a) :: a == b
  }

  lemma {:induction false} DedupAscending<V(!new)>(sem: SemVer<V>, list: seq<string>)
    requires Ascending(sem, list)
    ensures Ascending(sem, Dedup(list))
    ensures DistinctPrecedences(sem, list) ==> NoDuplicates(Dedup(list))
  {
    if |list| > 1 {
      var rest := list[1..];
      AscendingTail(sem, list);
      DedupAscending(sem, rest);
      DedupFacts(rest);
      if list[0] != list[1] {
        InFront(sem, list[0], Dedup(rest));
        if DistinctPrecedences(sem, list) {
          FirstStaysApart(sem, list);
          assert DistinctPrecedences(sem, rest);
        }
      }
    }
  }

  lemma AscendingTail<V(!new)>(sem: SemVer<V>, list: seq<string>)
    requires Ascending(sem, list) && |list| > 1
    ensures Ascending(sem, list[1..]) && forall v | v in list[1..] :: NotBelow(sem, v, list[0])
  {
  }

  lemma InFront<V(!new)>(sem: SemVer<V>, first: string, s: seq<string>)
    requires Ascending(sem, s) && forall v | v in s :: NotBelow(sem, v, first)
    ensures Ascending(sem, [first] + s)
  {
  }

  lemma FirstStaysApart<V(!new)>(sem: SemVer<V>, list: seq<string>)
    requires Ascending(sem, list) && DistinctPrecedences(sem, list) && |list| > 1 && list[0] != list[1]
    ensures list[0] !in list[1..]
  {
  }

  lemma {:induction false} DedupStep(list: seq<string>, idx: nat)
    requires idx < |list| - 1
    ensures var rest := Dedup(list[idx + 1..]);
            && Dedup(list[idx..]) == (if list[idx] == list[idx + 1] then rest else [list[idx]] + rest)
            && rest != [] && rest[0] == list[idx + 1]
  {
    DedupFacts(list[idx + 1..]);
    assert list[idx..][1..] == list[idx + 1..];
  }

  method Deduplicate(list: seq<string>) returns (v: seq<string>)
    ensures v == Dedup(list)
  {
    v := list;
    if |v| > 0 {
      var last := v[|v| - 1];
      var idx := |v| - 2;
      ghost var back := [last];
      LastAlone(list);
      while idx >= 0
        invariant -1 <= idx < |list| - 1 && last == list[idx + 1]
        invariant v == list[..idx + 1] + back && back == Dedup(list[idx + 1..])
        decreases idx
      {
        DedupStep(list, idx);
        TakeOneMore(list, idx);
        InMiddle(list[..idx], list[idx], back);
        if v[idx] == last {
          v := v[..idx] + v[idx + 1..];
        } else {
          last := v[idx];
          back := [last] + back;
        }
        idx := idx - 1;
      }
      AllBack(list, back);
    }
  }

  lemma LastAlone(list: seq<string>)
    requires list != []
    ensures list == list[..|list| - 1] + [list[|list| - 1]] && Dedup(list[|list| - 1..]) == [list[|list| - 1]]
  {
  }

  lemma AllBack(list: seq<string>, back: seq<string>)
    ensures list[..0] + back == back && list[0..] == list
  {
  }

  // What Save makes of a list: sorted in some way, then without neighbours alike.
  ghost predicate SavedList<V>(sem: SemVer<V>, before: seq<string>, after: seq<string>) {
    exists sorted :: multiset(sorted) == multiset(before) && Ascending(sem, sorted) && after == Dedup(sorted)
  }

  ghost predicate Saved<V>(sem: SemVer<V>, before: Cache, after: Cache) {
    && after.Keys == before.Keys
    && forall key | key in before :: SavedList(sem, before[key], after[key])
  }

  ghost predicate Permuted(before: Cache, after: Cache) {
    && after.Keys == before.Keys
    && forall key | key in before :: multiset(after[key]) == multiset(before[key])
  }

  // Save keeps the strings of every list, in ascending order.
  lemma {:induction false} SavedFacts<V(!new)>(sem: SemVer<V>, before: seq<string>, after: seq<string>)
    requires SavedList(sem, before, after)
    ensures Ascending(sem, after) && forall v :: v in after <==> v in before
    ensures DistinctPrecedences(sem, before) ==> NoDuplicates(after)
    ensures NoDuplicates(before) ==> multiset(after) == multiset(before) && NoDuplicates(after)
  {
    var sorted :| multiset(sorted) == multiset(before) && Ascending(sem, sorted) && after == Dedup(sorted);
    DedupFacts(sorted);
    DedupAscending(sem, sorted);
    SameElements(sorted, before);
    if NoDuplicates(before) {
      PermutedNoDuplicates(before, sorted);
    }
  }

  lemma {:induction false} CountOnce(list: seq<string>, v: string)
    ensures NoDuplicates(list) ==> multiset(list)[v] <= 1
    ensures !NoDuplicates(list) ==> exists w :: multiset(list)[w] > 1
  {
    if list != [] {
      var rest := DropLast(list);
      assert list == rest + [list[|list| - 1]];
      CountOnce(rest, v);
      if NoDuplicates(list) {
        assert list[|list| - 1] == v ==> v !in rest;
      } else if NoDuplicates(rest) {
        var i, j :| 0 <= i < j < |list| && list[i] == list[j];
        assert j == |list| - 1 && list[j] in rest;
        assert multiset(list)[list[j]] > 1;
      } else {
        var w :| multiset(rest)[w] > 1;
        assert multiset(list)[w] > 1;
      }
    }
  }

  lemma {:induction false} PermutedNoDuplicates(a: seq<string>, b: seq<string>)
    requires multiset(a) == multiset(b) && NoDuplicates(a)
    ensures NoDuplicates(b)
  {
    if !NoDuplicates(b) {
      CountOnce(b, "");
      var w :| multiset(b)[w] > 1;
      CountOnce(a, w);
    }
  }

  class StringListIndex<V(!new)> {
    const sem: SemVer<V>
    var cache: Cache
    var batchMode: bool

    constructor (sem: SemVer<V>)
      ensures this.sem == sem && cache == map[] && !batchMode
    {
      this.sem, cache, batchMode := sem, map[], false;
    }

    ghost predicate AllValid()
      reads this
    {
      forall key | key in cache :: Valid(sem, cache[key])
    }

    method Clear()
      modifies this`cache
      ensures cache == map[]
    {
      cache := map[];
    }

    // Sorts every list in place and then drops duplicates; a version that cannot
    // be read stops it before any list has been deduplicated.
    method Save() returns (ok: bool)
      requires IsOrder(sem)
      modifies this`cache
      ensures ok <==> old(AllValid())
      ensures ok ==> Saved(sem, old(cache), cache)
      ensures !ok ==> Permuted(old(cache), cache)
    {
      ghost var before := cache;
      ok := SortAll();
      if ok {
        DeduplicateAll(before);
      }
    }

    method SortAll() returns (ok: bool)
      requires IsOrder(sem)
      modifies this`cache
      ensures ok <==> old(AllValid())
      ensures Permuted(old(cache), cache)
      ensures ok ==> forall key | key in cache :: Ascending(sem, cache[key])
    {
      ghost var before := cache;
      var keys := cache.Keys;
      while keys != {}
        invariant keys <= before.Keys && Permuted(before, cache)
        invariant forall key | key in keys :: cache[key] == before[key]
        invariant forall key | key in before && key !in keys :: Ascending(sem, cache[key]) && Valid(sem, before[key])
        decreases keys
      {
        var key :| key in keys;
        var sorted;
        ok, sorted := SortVersions(sem, cache[key]);
        if !ok {
          return false;
        }
        cache := cache[key := sorted];
        keys := keys - {key};
      }
      return true;
    }

    method DeduplicateAll(ghost before: Cache)
      requires Permuted(before, cache) && forall key | key in cache :: Ascending(sem, cache[key])
      modifies this`cache
      ensures Saved(sem, before, cache)
    {
      ghost var sorted := cache;
      var keys := cache.Keys;
      while keys != {}
        invariant keys <= before.Keys && cache.Keys == before.Keys
        invariant forall key | key in keys :: cache[key] == sorted[key]
        invariant forall key | key in before && key !in keys :: SavedList(sem, before[key], cache[key])
        decreases keys
      {
        var key :| key in keys;
        assert multiset(sorted[key]) == multiset(before[key]);
        var list := Deduplicate(cache[key]);
        cache := cache[key := list];
        keys := keys - {key};
      }
    }

    method Add(key: string, value: string) returns (ok: bool)
      requires IsOrder(sem)
      modifies this`cache
      ensures var added := old(cache)[key := Lookup(old(cache), key) + [value]];
              if batchMode then ok && cache == added
              else && (ok <==> forall k | k in added :: Valid(sem, added[k]))
                   && (ok ==> Saved(sem, added, cache))
                   && (!ok ==> Permuted(added, cache))
    {
      cache := cache[key := Lookup(cache, key) + [value]];
      if batchMode {
        return true;
      }
      ok := Save();
    }

    // Deletes the first occurrence, as the batched form does.
    method RemoveFromCache(key: string, value: string)
      modifies this`cache
      ensures cache == if key in old(cache) then old(cache)[key := RemoveFirst(old(cache)[key], value)] else old(cache)
    {
      if key in cache {
        var list := cache[key];
        for idx := 0 to |list|
          invariant cache == old(cache) && forall i | 0 <= i < idx :: list[i] != value
        {
          if list[idx] == value {
            RemoveFirstIs(list, value, idx);
            cache := cache[key := list[..idx] + list[idx + 1..]];
            return;
          }
        }
        RemoveAbsent(list, value);
        assert cache == cache[key := list];
      }
    }

    method Remove(key: string, value: string) returns (ok: bool)
      requires IsOrder(sem)
      modifies this`cache
      ensures var removed :=
                if key in old(cache) then old(cache)[key := RemoveFirst(old(cache)[key], value)] else old(cache);
              if batchMode then ok && cache == removed
              else && (ok <==> forall k | k in removed :: Valid(sem, removed[k]))
                   && (ok ==> Saved(sem, removed, cache))
    {
      RemoveFromCache(key, value);
      if batchMode {
        return true;
      }
      ok := Save();
    }
  }
}
