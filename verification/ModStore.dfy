// The local mod store: releases in a bucket under "modid#version", and an index
// from each mod to its versions that has to agree with the bucket.
module ModStore {
  import opened Seqs
  import opened VersionSort
  import opened VersionIndex

  datatype Release = Release(modid: string, version: string, content: string)

  datatype Value = Meta(title: string) | Rel(release: Release)

  type Bucket = map<string, Value>

  function Key(modID: string, version: string): string {
    modID + ['#'] + version
  }

  predicate PlainID(modID: string) {
    '#' !in modID
  }

  lemma KeysDiffer(m: string, v: string, n: string, w: string)
    requires PlainID(m) && PlainID(n) && Key(m, v) == Key(n, w)
    ensures m == n && v == w
  {
    FirstSeparator(m, v, n, w, '#');
  }

  // The key of a mod with # in its ID is also that of a release of another mod.
  lemma SharedKey(m: string, v: string) returns (n: string, w: string)
    requires !PlainID(m)
    ensures PlainID(n) && n != m && Key(n, w) == Key(m, v)
  {
    var i := FirstSharp(m);
    n, w := m[..i], m[i + 1..] + ['#'] + v;
    assert m == n + ['#'] + m[i + 1..];
  }

  function FirstSharp(m: string): (i: nat)
    requires !PlainID(m)
    ensures i < |m| && m[i] == '#' && '#' !in m[..i]
  {
    if m[0] == '#' then 0
    else
      assert m == [m[0]] + m[1..];
      var i := FirstSharp(m[1..]) + 1;
      assert m[..i] == [m[0]] + m[1..][..i - 1];
      i
  }

  ghost predicate ListOk<V>(sem: SemVer<V>, list: seq<string>) {
    NoDuplicates(list) && Ascending(sem, list) && Valid(sem, list)
  }

  // The index lists exactly the versions in the bucket, sorted, each one once.
  ghost predicate Agree<V>(sem: SemVer<V>, cache: Cache, bucket: Bucket) {
    && (forall m | m in cache :: PlainID(m) && ListOk(sem, cache[m]))
    && (forall m, v | PlainID(m) :: Key(m, v) in bucket <==> v in Lookup(cache, m))
    && forall m, v | PlainID(m) && Key(m, v) in bucket :: Holds(bucket[Key(m, v)], m, v)
  }

  predicate Holds(value: Value, modID: string, version: string) {
    value.Rel? && value.release.modid == modID && value.release.version == version
  }

  lemma {:induction false} PutRelease(bucket: Bucket, r: Release, m: string, v: string)
    requires PlainID(r.modid) && PlainID(m)
    requires Key(m, v) in bucket ==> Holds(bucket[Key(m, v)], m, v)
    ensures var bucket' := bucket[Key(r.modid, r.version) := Rel(r)];
            && (Key(m, v) in bucket' <==> Key(m, v) in bucket || (m == r.modid && v == r.version))
            && (Key(m, v) in bucket' ==> Holds(bucket'[Key(m, v)], m, v))
  {
    if Key(m, v) == Key(r.modid, r.version) {
      KeysDiffer(m, v, r.modid, r.version);
    }
  }

  lemma {:induction false} SavedStaysOk<V(!new)>(sem: SemVer<V>, before: seq<string>, after: seq<string>)
    requires NoDuplicates(before) && Valid(sem, before) && SavedList(sem, before, after)
    ensures ListOk(sem, after) && forall v :: v in after <==> v in before
  {
    SavedFacts(sem, before, after);
  }

  lemma {:induction false} AddKeepsAgreement<V(!new)>(sem: SemVer<V>, cache: Cache, bucket: Bucket, r: Release,
                                                      cache': Cache)
    requires Agree(sem, cache, bucket) && PlainID(r.modid) && r.version !in Lookup(cache, r.modid)
    requires var added := cache[r.modid := Lookup(cache, r.modid) + [r.version]];
             Saved(sem, added, cache') && forall k | k in added :: Valid(sem, added[k])
    ensures Agree(sem, cache', bucket[Key(r.modid, r.version) := Rel(r)])
  {
    var added := cache[r.modid := Lookup(cache, r.modid) + [r.version]];
    forall m | m in added ensures ListOk(sem, cache'[m]) && forall v :: v in cache'[m] <==> v in added[m] {
      SavedStaysOk(sem, added[m], cache'[m]);
    }
    var bucket' := bucket[Key(r.modid, r.version) := Rel(r)];
    forall m, v | PlainID(m)
      ensures Key(m, v) in bucket' <==> v in Lookup(cache', m)
      ensures Key(m, v) in bucket' ==> Holds(bucket'[Key(m, v)], m, v)
    {
      PutRelease(bucket, r, m, v);
      assert v in Lookup(added, m) <==> v in Lookup(cache, m) || (m == r.modid && v == r.version);
    }
  }

  lemma OverwriteKeepsAgreement<V(!new)>(sem: SemVer<V>, cache: Cache, bucket: Bucket, r: Release)
    requires Agree(sem, cache, bucket) && PlainID(r.modid) && r.version in Lookup(cache, r.modid)
    ensures Agree(sem, cache, bucket[Key(r.modid, r.version) := Rel(r)])
  {
  }

  lemma {:induction false} RemoveFirstFacts<V>(sem: SemVer<V>, list: seq<string>, value: string)
    requires NoDuplicates(list) && Valid(sem, list)
    ensures var r := RemoveFirst(list, value);
            && NoDuplicates(r) && Valid(sem, r) && forall v :: v in r <==> v in list && v != value
  {
    if list != [] {
      assert list == [list[0]] + list[1..];
      RemoveFirstFacts(sem, list[1..], value);
      forall j | 0 <= j < |list[1..]| ensures list[1..][j] != list[0] {
        assert list[1..][j] == list[j + 1];
      }
      var rest := RemoveFirst(list[1..], value);
      forall j | 0 <= j < |rest| ensures rest[j] != list[0] {
        assert rest[j] in rest;
      }
    }
  }

  lemma {:induction false} DeleteKeepsAgreement<V(!new)>(sem: SemVer<V>, cache: Cache, bucket: Bucket, m0: string,
                                                         v0: string, cache': Cache)
    requires Agree(sem, cache, bucket) && PlainID(m0)
    requires var removed := if m0 in cache then cache[m0 := RemoveFirst(cache[m0], v0)] else cache;
             Saved(sem, removed, cache')
    ensures Agree(sem, cache', bucket - {Key(m0, v0)})
  {
    var removed := if m0 in cache then cache[m0 := RemoveFirst(cache[m0], v0)] else cache;
    var bucket' := bucket - {Key(m0, v0)};
    forall m | m in removed ensures ListOk(sem, cache'[m]) && forall v :: v in cache'[m] <==> v in removed[m] {
      RemoveFirstFacts(sem, cache[m], v0);
      SavedStaysOk(sem, removed[m], cache'[m]);
    }
    forall m, v | PlainID(m) ensures Key(m, v) in bucket' <==> v in Lookup(cache', m) {
      if Key(m, v) == Key(m0, v0) {
        KeysDiffer(m, v, m0, v0);
      }
      RemovedFrom(sem, cache, m0, v0, m, v);
    }
  }

  lemma RemovedFrom<V(!new)>(sem: SemVer<V>, cache: Cache, m0: string, v0: string, m: string, v: string)
    requires forall k | k in cache :: ListOk(sem, cache[k])
    ensures var removed := if m0 in cache then cache[m0 := RemoveFirst(cache[m0], v0)] else cache;
            v in Lookup(removed, m) <==> v in Lookup(cache, m) && !(m == m0 && v == v0)
  {
    if m0 in cache {
      RemoveFirstFacts(sem, cache[m0], v0);
    }
  }

  // The index lists the release as well, and nothing else has changed.
  ghost predicate ListsOneMore(before: Cache, after: Cache, r: Release) {
    forall m, v :: v in Lookup(after, m) <==> v in Lookup(before, m) || (m == r.modid && v == r.version)
  }

  lemma SavedLists<V(!new)>(sem: SemVer<V>, cache: Cache, cache': Cache, r: Release)
    requires Saved(sem, cache[r.modid := Lookup(cache, r.modid) + [r.version]], cache')
    ensures ListsOneMore(cache, cache', r)
  {
    var added := cache[r.modid := Lookup(cache, r.modid) + [r.version]];
    forall m, v ensures v in Lookup(cache', m) <==> v in Lookup(added, m) {
      if m in added {
        SavedFacts(sem, added[m], cache'[m]);
      }
    }
  }

  // The index takes the version: it has it already, or all versions can be read.
  ghost predicate CanList<V>(sem: SemVer<V>, cache: Cache, r: Release) {
    || r.version in Lookup(cache, r.modid)
    || var added := cache[r.modid := Lookup(cache, r.modid) + [r.version]];
       forall m | m in added :: VersionSort.Valid(sem, added[m])
  }

  ghost predicate AllRead<V>(sem: SemVer<V>, cache: Cache) {
    forall m, v | v in Lookup(cache, m) :: sem.parse(v).Some?
  }

  // Where all listed versions can be read, that depends on the new one alone.
  lemma CanListReadable<V>(sem: SemVer<V>, cache: Cache, r: Release)
    requires AllRead(sem, cache)
    ensures CanList(sem, cache, r) <==> sem.parse(r.version).Some?
  {
    var added := cache[r.modid := Lookup(cache, r.modid) + [r.version]];
    assert r.version in added[r.modid];
    forall m, v | m in added && v in added[m]
      ensures v in Lookup(cache, m) || (m == r.modid && v == r.version) {
    }
  }

  ghost predicate Imported(releases: seq<Release>, m: string, v: string) {
    exists r :: r in releases && r.modid == m && r.version == v
  }

  lemma ImportedOneMore(releases: seq<Release>, i: nat)
    requires i < |releases|
    ensures forall m, v :: Imported(releases[..i + 1], m, v) <==>
                           Imported(releases[..i], m, v) || (m == releases[i].modid && v == releases[i].version)
  {
    TakeOneMore(releases, i);
    var more := releases[..i + 1];
    forall m, v
      ensures Imported(more, m, v) <==> Imported(releases[..i], m, v) ||
                                        (m == releases[i].modid && v == releases[i].version)
    {
      assert releases[i] in more;
      if r :| r in releases[..i] && r.modid == m && r.version == v {
        assert r in more;
      }
    }
  }

  // Every version can be read and every file imported, up to the n-th release.
  ghost predicate Importable<V>(sem: SemVer<V>, releases: seq<Release>, filesOk: nat -> bool, n: nat) {
    forall i | 0 <= i < n && i < |releases| :: sem.parse(releases[i].version).Some? && filesOk(i)
  }

  ghost predicate HasKeys(bucket: Bucket, releases: seq<Release>) {
    forall key :: key in bucket <==> exists r :: r in releases && key == Key(r.modid, r.version)
  }

  ghost predicate HasVersions(cache: Cache, releases: seq<Release>) {
    forall m, v :: v in Lookup(cache, m) <==> Imported(releases, m, v)
  }

  lemma OneMoreKey(bucket: Bucket, releases: seq<Release>, i: nat)
    requires i < |releases| && HasKeys(bucket, releases[..i])
    ensures var r := releases[i];
            HasKeys(bucket[Key(r.modid, r.version) := Rel(r)], releases[..i + 1])
  {
    TakeOneMore(releases, i);
    assert releases[i] in releases[..i + 1];
    assert forall r | r in releases[..i] :: r in releases[..i + 1];
  }

  lemma OneMoreVersion<V(!new)>(sem: SemVer<V>, before: Cache, after: Cache, releases: seq<Release>, i: nat)
    requires i < |releases| && HasVersions(before, releases[..i]) && ListsOneMore(before, after, releases[i])
    requires AllRead(sem, before) && sem.parse(releases[i].version).Some?
    ensures HasVersions(after, releases[..i + 1]) && AllRead(sem, after)
  {
    ImportedOneMore(releases, i);
  }

  class LocalMods<V(!new)> {
    const idx: StringListIndex<V>
    var bucket: Bucket

    ghost predicate Valid()
      reads this, idx
    {
      IsOrder(idx.sem) && !idx.batchMode && Agree(idx.sem, idx.cache, bucket)
    }

    constructor (sem: SemVer<V>)
      requires IsOrder(sem)
      ensures Valid() && fresh(idx) && idx.sem == sem && bucket == map[]
    {
      idx := new StringListIndex(sem);
      bucket := map[];
    }

    // Metadata is stored under the bare ID, which no release's key is if it is free of #.
    method SaveLocalMod(modID: string, title: string)
      requires Valid()
      modifies this`bucket
      ensures PlainID(modID) ==> Valid()
      ensures bucket == old(bucket)[modID := Meta(title)]
    {
      forall m, v ensures PlainID(modID) ==> Key(m, v) != modID {
        assert Key(m, v)[|m|] == '#';
      }
      bucket := bucket[modID := Meta(title)];
    }

    // filesOk says whether the release's files can be imported, and ok that the
    // transaction is committed.  One that fails is rolled back
    // in the bucket, while the index keeps what was appended to it: after a
    // version that cannot be read, no later Save of the index succeeds.
    method SaveLocalModRelease(release: Release, filesOk: bool) returns (ok: bool)
      requires IsOrder(idx.sem) && !idx.batchMode
      modifies this`bucket, idx`cache
      ensures ok <==> filesOk && CanList(idx.sem, old(idx.cache), release)
      ensures ok && old(Valid()) && PlainID(release.modid) ==> Valid()
      ensures bucket == if ok then old(bucket)[Key(release.modid, release.version) := Rel(release)] else old(bucket)
      ensures ok ==> ListsOneMore(old(idx.cache), idx.cache, release)
      ensures old(Valid()) && idx.sem.parse(release.version).None? && PlainID(release.modid) ==> !ok && !idx.AllValid()
    {
      ghost var before := bucket;
      var versions := Lookup(idx.cache, release.modid);
      var isNew := true;
      for i := 0 to |versions|
        invariant isNew ==> forall j | 0 <= j < i :: versions[j] != release.version
        invariant !isNew ==> release.version in versions
      {
        if versions[i] == release.version {
          isNew := false;
          break;
        }
      }
      if isNew {
        ghost var cache := idx.cache;
        ghost var added := cache[release.modid := Lookup(cache, release.modid) + [release.version]];
        ok := idx.Add(release.modid, release.version);
        if !ok {
          SameElements(idx.cache[release.modid], added[release.modid]);
          assert release.version in idx.cache[release.modid];
          return false;
        }
        SavedLists(idx.sem, cache, idx.cache, release);
        if old(Valid()) && PlainID(release.modid) {
          AddKeepsAgreement(idx.sem, cache, bucket, release, idx.cache);
        }
      } else if old(Valid()) && PlainID(release.modid) {
        OverwriteKeepsAgreement(idx.sem, idx.cache, bucket, release);
      }
      var rollback := bucket;
      bucket := bucket[Key(release.modid, release.version) := Rel(release)];
      if !filesOk {
        bucket := rollback;
        return false;
      }
      return true;
    }

    method DeleteLocalModRelease(release: Release) returns (ok: bool)
      requires Valid()
      modifies this`bucket, idx`cache
      ensures ok && (PlainID(release.modid) ==> Valid())
      ensures bucket == old(bucket) - {Key(release.modid, release.version)}
    {
      ghost var before, cache := bucket, idx.cache;
      bucket := bucket - {Key(release.modid, release.version)};
      if release.modid in cache {
        RemoveFirstFacts(idx.sem, cache[release.modid], release.version);
      }
      ok := idx.Remove(release.modid, release.version);
      if PlainID(release.modid) {
        DeleteKeepsAgreement(idx.sem, cache, before, release.modid, release.version, idx.cache);
      }
    }

    // Everything is cleared, and the callback saves what it finds; filesOk says
    // whether the files of the i-th release can be imported.  The bucket has
    // the releases' keys and the index their versions; the two agree if no key is
    // shared.
    method ImportMods(releases: seq<Release>, filesOk: nat -> bool) returns (ok: bool)
      requires IsOrder(idx.sem) && !idx.batchMode
      modifies this`bucket, idx`cache
      ensures ok <==> Importable(idx.sem, releases, filesOk, |releases|)
      ensures ok && (forall r | r in releases :: PlainID(r.modid)) ==> Valid()
      ensures ok ==> forall key :: key in bucket <==> exists r :: r in releases && key == Key(r.modid, r.version)
      ensures ok ==> forall m, v :: v in Lookup(idx.cache, m) <==> Imported(releases, m, v)
      ensures !ok ==> bucket == old(bucket)
    {
      var rollback := bucket;
      bucket := map[];
      idx.Clear();
      for i := 0 to |releases|
        invariant (forall r | r in releases :: PlainID(r.modid)) ==> Valid()
        invariant Importable(idx.sem, releases, filesOk, i) && AllRead(idx.sem, idx.cache)
        invariant HasKeys(bucket, releases[..i]) && HasVersions(idx.cache, releases[..i])
      {
        ghost var stored, listed := bucket, idx.cache;
        CanListReadable(idx.sem, listed, releases[i]);
        ok := SaveLocalModRelease(releases[i], filesOk(i));
        if !ok {
          bucket := rollback;
          return false;
        }
        OneMoreKey(stored, releases, i);
        OneMoreVersion(idx.sem, listed, idx.cache, releases, i);
      }
      TakeAll(releases);
      return true;
    }

    // The release is stored, and no stored version of its mod is higher.
    ghost predicate IsLatest(r: Release)
      reads this, idx
    {
      && Key(r.modid, r.version) in bucket && bucket[Key(r.modid, r.version)] == Rel(r)
      && forall v | Key(r.modid, v) in bucket :: NotBelow(idx.sem, r.version, v)
    }

    // One release a mod, the latest; the lookup in the bucket never misses.
    method GetMods() returns (ok: bool, result: seq<Release>)
      requires Valid()
      ensures ok
      ensures forall r | r in result :: PlainID(r.modid) && IsLatest(r)
      ensures forall i, j | 0 <= i < j < |result| :: result[i].modid != result[j].modid
      ensures forall m, v | PlainID(m) && Key(m, v) in bucket :: exists r :: r in result && r.modid == m
    {
      result := [];
      var keys := idx.cache.Keys;
      while keys != {}
        invariant keys <= idx.cache.Keys
        invariant forall r | r in result :: r.modid in idx.cache && r.modid !in keys && PlainID(r.modid) && IsLatest(r)
        invariant forall i, j | 0 <= i < j < |result| :: result[i].modid != result[j].modid
        invariant forall m | m in idx.cache && m !in keys && idx.cache[m] != [] ::
                    exists r :: r in result && r.modid == m
        decreases keys
      {
        var modID :| modID in keys;
        var versions := idx.cache[modID];
        if |versions| > 0 {
          var version := versions[|versions| - 1];
          assert version in Lookup(idx.cache, modID);
          if Key(modID, version) !in bucket || !bucket[Key(modID, version)].Rel? {
            return false, result;
          }
          var release := bucket[Key(modID, version)].release;
          LastIsLatest(modID);
          result := result + [release];
          assert release in result;
        }
        keys := keys - {modID};
      }
      return true, result;
    }

    lemma LastIsLatest(modID: string)
      requires Valid() && modID in idx.cache && idx.cache[modID] != []
      ensures var versions := idx.cache[modID];
              var key := Key(modID, versions[|versions| - 1]);
              && key in bucket && bucket[key].Rel? && bucket[key].release.modid == modID
              && IsLatest(bucket[key].release)
    {
    }
  }
}
