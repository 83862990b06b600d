// One run of the modsync export: mods that are not listed yet are built, listed
// ones are updated, and the index is pruned to the mods of the database.
module ModsyncExport {
  import opened Seqs
  import opened SortedStrings
  import opened Modsync

  // ----- Building the packs of a new mod

  predicate AllConvert(rows: seq<Row>) {
    forall i | 0 <= i < |rows| :: rows[i].metadata.Some?
  }

  function AllReleases(rows: seq<Row>): (r: seq<Release>)
    requires AllConvert(rows)
    ensures |r| == |rows|
  {
    seq(|rows|, i requires 0 <= i < |rows| => Release(rows[i].version, rows[i].metadata.value))
  }

  // Every pack is full, but the last may hold fewer releases, though not none.
  ghost predicate FullButLast(packs: seq<seq<Release>>) {
    && (forall i | 0 <= i < |packs| - 1 :: |packs[i]| == PACK_SIZE)
    && (packs != [] ==> 1 <= |packs[|packs| - 1]| <= PACK_SIZE)
  }

  lemma {:induction false} FullButLastCount(packs: seq<seq<Release>>)
    requires FullButLast(packs)
    ensures |packs| == (|Flatten(packs)| + PACK_SIZE - 1) / PACK_SIZE
  {
    if packs != [] {
      var front := DropLast(packs);
      if |front| > 0 {
        assert |packs[|front| - 1]| == PACK_SIZE;
      }
      AllFull(front);
    }
  }

  lemma {:induction false} AllFull(packs: seq<seq<Release>>)
    requires forall i | 0 <= i < |packs| :: |packs[i]| == PACK_SIZE
    ensures |Flatten(packs)| == PACK_SIZE * |packs|
  {
    if packs != [] {
      AllFull(DropLast(packs));
    }
  }

  ghost predicate AllStored(files: Files, count: nat) {
    forall i: nat | i < count :: i in files && |files[i]| == PACK_SIZE
  }

  // The packs written so far are full, and with the open one they hold releases.
  ghost predicate Filling(files: Files, current: nat, pack: seq<Release>, releases: seq<Release>) {
    && AllStored(files, current)
    && Flatten(Packs(files, 0, current)) + pack == releases
    && |releases| == PACK_SIZE * current + |pack|
    && NO_PACK !in files
  }

  lemma FillsOneMore(files: Files, current: nat, pack: seq<Release>, releases: seq<Release>, r: Release)
    requires Filling(files, current, pack, releases)
    ensures Filling(files, current, pack + [r], releases + [r])
  {
  }

  lemma PackFilled(files: Files, current: nat, pack: seq<Release>, releases: seq<Release>)
    requires Filling(files, current, pack, releases) && |pack| == PACK_SIZE && current < NO_PACK
    ensures Filling(files[current := pack], current + 1, [], releases)
  {
    PackWritten(files, 0, current, pack);
    FlattenOneMore(Packs(files, 0, current), pack);
    assert releases + [] == releases;
  }

  lemma Filled(files: Files, current: nat, pack: seq<Release>, releases: seq<Release>, files': Files, count: nat)
    requires Filling(files, current, pack, releases) && |pack| < PACK_SIZE && current < NO_PACK
    requires if pack == [] then files' == files && count == current
             else files' == files[current := pack] && count == current + 1
    ensures Flatten(Packs(files', 0, count)) == releases && FullButLast(Packs(files', 0, count))
    ensures (forall i: nat | i < count :: i in files') && NO_PACK !in files'
  {
    if pack == [] {
      assert Flatten(Packs(files, 0, current)) + pack == Flatten(Packs(files, 0, current));
    } else {
      PackWritten(files, 0, current, pack);
      FlattenOneMore(Packs(files, 0, current), pack);
    }
    forall i | 0 <= i < count
      ensures Packs(files', 0, count)[i] == Pack(files', i)
    {
      PacksAt(files', 0, count, i);
    }
  }

  ghost predicate AllAre(stamps: seq<int>, now: int) {
    forall i | 0 <= i < |stamps| :: stamps[i] == now
  }

  lemma OneMoreStamp(stamps: seq<int>, now: int)
    requires AllAre(stamps, now)
    ensures AllAre(stamps + [now], now)
  {
  }

  // files are the packs that an earlier entry of the same name may have left.
  method BuildModIndex(hash: string -> string, modid: string, rows: seq<Row>, files: Files, now: int)
    returns (entry: ModEntry?)
    requires NO_PACK !in files && |rows| < NO_PACK
    ensures entry != null <==> AllConvert(rows)
    ensures entry != null ==>
              && fresh(entry) && entry.modid == modid && entry.Valid(hash)
              && entry.Published() == AllReleases(rows)
              && FullButLast(Packs(entry.packs, 0, |entry.packsLastModified|))
              && (AllAre(entry.packsLastModified, now))
              && entry.lastModified == now
  {
    var packs: Files, stamps: seq<int>, pack, current: nat := files, [], [], 0;
    var versionNumbers: seq<string> := [];
    ghost var releases: seq<Release> := [];
    for idx := 0 to |rows|
      invariant AllRead(rows, idx, releases, versionNumbers)
      invariant current == |stamps| <= idx && |pack| < PACK_SIZE && AllAre(stamps, now)
      invariant Filling(packs, current, pack, releases)
    {
      match rows[idx].metadata {
        case None => return null;
        case Some(metadata) =>
          var rel := Release(rows[idx].version, metadata);
          ReadsOneMore(rows, idx, releases, versionNumbers);
          FillsOneMore(packs, current, pack, releases, rel);
          versionNumbers := versionNumbers + [rel.version];
          pack, releases := pack + [rel], releases + [rel];
      }
      if |pack| >= PACK_SIZE {
        PackFilled(packs, current, pack, releases);
        OneMoreStamp(stamps, now);
        packs, stamps, pack, current := packs[current := pack], stamps + [now], [], current + 1;
      }
    }
    TakeAll(rows);
    entry := Finish(hash, modid, packs, stamps, pack, versionNumbers, releases, now);
  }

  method Finish(hash: string -> string, modid: string, packs: Files, stamps: seq<int>, pack: seq<Release>,
                versionNumbers: seq<string>, ghost releases: seq<Release>, now: int)
    returns (entry: ModEntry)
    requires Filling(packs, |stamps|, pack, releases) && versionNumbers == Versions(releases)
    requires |pack| < PACK_SIZE && |stamps| < NO_PACK && AllAre(stamps, now)
    ensures fresh(entry) && entry.modid == modid && entry.Valid(hash) && entry.lastModified == now
    ensures entry.Published() == releases
    ensures FullButLast(Packs(entry.packs, 0, |entry.packsLastModified|))
    ensures AllAre(entry.packsLastModified, now)
  {
    entry := new ModEntry(modid, now, packs);
    entry.packsLastModified := stamps;
    if |pack| > 0 {
      OneMoreStamp(stamps, now);
      entry.WritePack(|stamps|, pack, now);
    }
    Filled(packs, |stamps|, pack, releases, entry.packs, |entry.packsLastModified|);
    entry.Seal(hash, versionNumbers);
  }

  // What the loop has read of the rows.
  ghost predicate AllRead(rows: seq<Row>, idx: nat, releases: seq<Release>, numbers: seq<string>) {
    && idx <= |rows| && (forall i | 0 <= i < idx :: rows[i].metadata.Some?)
    && releases == AllReleases(rows[..idx]) && numbers == Versions(releases)
  }

  lemma ReadsOneMore(rows: seq<Row>, idx: nat, releases: seq<Release>, numbers: seq<string>)
    requires idx < |rows| && rows[idx].metadata.Some? && AllRead(rows, idx, releases, numbers)
    ensures var rel := Release(rows[idx].version, rows[idx].metadata.value);
            AllRead(rows, idx + 1, releases + [rel], numbers + [rel.version])
  {
  }

  // ----- The run over all mods

  // A public mod as the database has it: its own and its releases' dates, and
  // what the queries for all releases, all versions and recent releases return.
  datatype ModRow = ModRow(modid: string, updated: int, releaseUpdated: int, releases: seq<Row>, versions: set<string>,
                           since: int -> seq<Row>)

  function Ids(index: seq<ModEntry>): (r: seq<string>)
    ensures |r| == |index|
  {
    seq(|index|, i requires 0 <= i < |index| => index[i].modid)
  }

  function DbIds(db: seq<ModRow>): (r: seq<string>)
    ensures |r| == |db|
  {
    seq(|db|, i requires 0 <= i < |db| => db[i].modid)
  }

  // The strings of a list that another one holds, or those that it does not.
  function Only(s: seq<string>, ids: seq<string>, listed: bool): seq<string> {
    if s == [] then []
    else
      var rest, last := Only(DropLast(s), ids, listed), s[|s| - 1];
      if (last in ids) == listed then rest + [last] else rest
  }

  lemma {:induction false} OnlyConcat(a: seq<string>, b: seq<string>, ids: seq<string>, listed: bool)
    ensures Only(a + b, ids, listed) == Only(a, ids, listed) + Only(b, ids, listed)
    decreases |b|
  {
    if b == [] {
      assert a + b == a;
    } else {
      assert DropLast(a + b) == a + DropLast(b);
      OnlyConcat(a, DropLast(b), ids, listed);
      Associative(Only(a, ids, listed), Only(DropLast(b), ids, listed), [b[|b| - 1]]);
    }
  }

  lemma {:induction false} OnlyHolds(s: seq<string>, ids: seq<string>, listed: bool)
    ensures forall v :: v in Only(s, ids, listed) <==> v in s && (v in ids) == listed
  {
    if s != [] {
      OnlyHolds(DropLast(s), ids, listed);
      assert s == DropLast(s) + [s[|s| - 1]];
    }
  }

  lemma {:induction false} OnlyDistinct(s: seq<string>, ids: seq<string>, listed: bool)
    requires NoDuplicates(s)
    ensures NoDuplicates(Only(s, ids, listed))
  {
    if s != [] {
      OnlyDistinct(DropLast(s), ids, listed);
      OnlyHolds(DropLast(s), ids, listed);
    }
  }

  // What the index holds after a run: the mods that it held and that are still
  // in the database, and then the new ones, in the database's order.
  function NextIds(before: seq<string>, db: seq<string>): seq<string> {
    Only(before, db, true) + Only(db, before, false)
  }

  // Exactly the mods of the database, and none of them twice.
  lemma {:induction false} IndexIsDatabase(before: seq<string>, db: seq<string>)
    ensures forall v :: v in NextIds(before, db) <==> v in db
    ensures NoDuplicates(before) && NoDuplicates(db) ==> NoDuplicates(NextIds(before, db))
  {
    OnlyHolds(before, db, true);
    OnlyHolds(db, before, false);
    if NoDuplicates(before) && NoDuplicates(db) {
      OnlyDistinct(before, db, true);
      OnlyDistinct(db, before, false);
      var a, b := Only(before, db, true), Only(db, before, false);
      forall i, j | 0 <= i < |a| && 0 <= j < |b| ensures a[i] != b[j] {
        assert a[i] in before && b[j] !in before;
      }
    }
  }

  lemma KeptAll(s: seq<string>, ids: seq<string>)
    requires forall v | v in s :: v in ids
    ensures Only(s, ids, true) == s
  {
  }

  // Mods that the database does not have leave the index, from its end on.
  method Prune(mods: seq<ModEntry>, dbModIDs: seq<string>) returns (kept: seq<ModEntry>)
    ensures Ids(kept) == Only(Ids(mods), dbModIDs, true)
    ensures forall e | e in kept :: e in mods
  {
    var sorted := SortStrings(dbModIDs);
    kept := mods;
    ghost var done: seq<ModEntry> := [];
    var idx := |mods| - 1;
    TakeAll(mods);
    while idx >= 0
      invariant -1 <= idx < |mods| && kept == mods[..idx + 1] + done
      invariant forall e | e in done :: e in mods
      invariant Only(Ids(mods), dbModIDs, true) == Only(Ids(mods[..idx + 1]), dbModIDs, true) + Ids(done)
      decreases idx
    {
      TakeOneMore(mods, idx);
      InMiddle(mods[..idx], mods[idx], done);
      PruneStep(mods[..idx], mods[idx], dbModIDs, done);
      var id := kept[idx].modid;
      var found := SearchStrings(sorted, id);
      if found >= |sorted| || sorted[found] != id {
        kept := kept[..idx] + kept[idx + 1..];
      } else {
        done := [kept[idx]] + done;
      }
      idx := idx - 1;
    }
    assert kept == done;
  }

  lemma PruneStep(front: seq<ModEntry>, e: ModEntry, db: seq<string>, done: seq<ModEntry>)
    ensures Only(Ids(front + [e]), db, true) + Ids(done) ==
            Only(Ids(front), db, true) + if e.modid in db then Ids([e] + done) else Ids(done)
  {
    assert Ids(front + [e]) == Ids(front) + [e.modid] && DropLast(Ids(front) + [e.modid]) == Ids(front);
    assert Ids([e] + done) == [e.modid] + Ids(done);
    Associative(Only(Ids(front), db, true), [e.modid], Ids(done));
  }

  lemma RefreshedHere(hash: string -> string, passed: PassedAll, order: seq<Release>, published: seq<Release>,
                      checksum: string)
    requires Refreshed(hash, passed, Here, order, published, checksum)
    ensures checksum == Checksum(hash, Versions(published))
  {
    var numbers :| Described(passed, Here, order, published, numbers) && checksum == Checksum(hash, numbers);
    PublishedHere(passed, order, published, numbers);
    ChecksumIgnoresOrder(hash, numbers, Versions(published));
  }

  function LastUpdate(stamps: seq<int>): int {
    if stamps == [] then 0
    else
      var before := LastUpdate(DropLast(stamps));
      if stamps[|stamps| - 1] > before then stamps[|stamps| - 1] else before
  }

  method FindLastUpdate(stamps: seq<int>) returns (last: int)
    ensures last == LastUpdate(stamps)
  {
    last := 0;
    for i := 0 to |stamps|
      invariant last == LastUpdate(stamps[..i])
    {
      assert DropLast(stamps[..i + 1]) == stamps[..i];
      if stamps[i] > last {
        last := stamps[i];
      }
    }
    TakeAll(stamps);
  }

  // The last entry of each mod.
  function LastEntries(index: seq<ModEntry>): map<string, ModEntry> {
    if index == [] then map[]
    else
      var e := index[|index| - 1];
      LastEntries(DropLast(index))[e.modid := e]
  }

  lemma {:induction false} LastEntriesFacts(index: seq<ModEntry>)
    ensures var m := LastEntries(index);
            && (forall id :: id in m <==> id in Ids(index))
            && forall id | id in m :: m[id] in index && m[id].modid == id
  {
    if index != [] {
      LastEntriesFacts(DropLast(index));
      assert Ids(index) == Ids(DropLast(index)) + [index[|index| - 1].modid];
    }
  }

  method MapMods(index: seq<ModEntry>) returns (modMap: map<string, ModEntry>)
    ensures modMap == LastEntries(index)
  {
    modMap := map[];
    for i := 0 to |index|
      invariant modMap == LastEntries(index[..i])
    {
      assert DropLast(index[..i + 1]) == index[..i];
      modMap := modMap[index[i].modid := index[i]];
    }
    TakeAll(index);
  }

  // Packs are numbered in 32 bits.
  const FEW := 0x1000_0000

  // What is known of an entry at one time.
  datatype EntryState = EntryState(packs: Files, stamps: seq<int>, checksum: string)

  ghost function StateOf(e: ModEntry): EntryState
    reads e
  {
    EntryState(e.packs, e.packsLastModified, e.versionChecksum)
  }

  function PacksOf(s: EntryState): seq<seq<Release>> {
    Packs(s.packs, 0, |s.stamps|)
  }

  // A listed mod after a run: as before if none of its releases is newer than its
  // packs, and otherwise updated with the releases since then.
  ghost predicate Exported(hash: string -> string, before: EntryState, row: ModRow, cwd: WorkingDir,
                           after: EntryState) {
    var last := LastUpdate(before.stamps);
    if row.releaseUpdated <= last then after == before
    else exists order ::
           Refreshed(hash,
                     PassAll(PacksOf(before), Converted(row.since(last)),
                             row.versions - DeletedVersions(row.since(last))),
                     cwd, order, Flatten(PacksOf(after)), after.checksum)
  }

  ghost predicate HasPacks(s: EntryState) {
    forall i: nat | i < |s.stamps| :: i in s.packs
  }

  // When a visit of a listed mod succeeds: nothing is newer than its packs, or the
  // newer releases convert and no pack is missing.
  ghost predicate Updatable(before: EntryState, row: ModRow) {
    var last := LastUpdate(before.stamps);
    row.releaseUpdated > last ==> Convertible(row.since(last)) && HasPacks(before)
  }

  ghost predicate ValidState(hash: string -> string, s: EntryState) {
    HasPacks(s) && s.checksum == Checksum(hash, Versions(Flatten(PacksOf(s))))
  }

  method VisitListed(hash: string -> string, entry: ModEntry, row: ModRow, cwd: WorkingDir, now: int) returns (ok: bool)
    requires NO_PACK !in entry.packs && |entry.packsLastModified| < FEW && forall t :: |row.since(t)| < FEW
    requires cwd.Elsewhere? ==> NO_PACK !in cwd.files
    modifies entry
    ensures ok <==> Updatable(old(StateOf(entry)), row)
    ensures ok ==> NO_PACK !in entry.packs && Exported(hash, old(StateOf(entry)), row, cwd, StateOf(entry))
    ensures ok && cwd.Here? && ValidState(hash, old(StateOf(entry))) ==> ValidState(hash, StateOf(entry))
    ensures entry.lastModified == if row.updated > old(entry.lastModified) then now else old(entry.lastModified)
  {
    var lastIdxUpdate := FindLastUpdate(entry.packsLastModified);
    if row.updated > entry.lastModified {
      entry.lastModified := now;
    }
    ok := true;
    if row.releaseUpdated > lastIdxUpdate {
      ghost var order, passed;
      ghost var since := row.since(lastIdxUpdate);
      passed := PassAll(PacksOf(StateOf(entry)), Converted(since), row.versions - DeletedVersions(since));
      ok, order := entry.Update(hash, row.versions, row.since(lastIdxUpdate), cwd, now);
      if ok {
        assert Refreshed(hash, passed, cwd, order, Flatten(PacksOf(StateOf(entry))), entry.versionChecksum);
        if cwd.Here? {
          RefreshedHere(hash, passed, order, entry.Published(), entry.versionChecksum);
        }
      }
    }
  }

  ghost function States(index: seq<ModEntry>): map<ModEntry, EntryState>
    reads set e | e in index
  {
    map e | e in index :: StateOf(e)
  }

  // The entries can be worked on; visited lists the mods that were dealt with.
  ghost predicate Sound(hash: string -> string, states: map<ModEntry, EntryState>, visited: seq<string>, here: bool) {
    forall e | e in states ::
      && NO_PACK !in states[e].packs && (e.modid !in visited ==> |states[e].stamps| < FEW)
      && (here ==> ValidState(hash, states[e]))
  }

  ghost predicate Visited(modMap: map<string, ModEntry>, ids: seq<string>, e: ModEntry) {
    e.modid in ids && e.modid in modMap && modMap[e.modid] == e
  }

  // No entry was touched but those of the mods that were dealt with.
  ghost predicate Untouched(modMap: map<string, ModEntry>, start: map<ModEntry, EntryState>,
                            states: map<ModEntry, EntryState>, ids: seq<string>) {
    states.Keys == start.Keys && forall e | e in states && !Visited(modMap, ids, e) :: states[e] == start[e]
  }

  ghost predicate RowExported(hash: string -> string, modMap: map<string, ModEntry>, start: map<ModEntry, EntryState>,
                              states: map<ModEntry, EntryState>, row: ModRow, cwd: string -> WorkingDir) {
    row.modid in modMap ==>
      var e := modMap[row.modid];
      e in states && e in start && Exported(hash, start[e], row, cwd(row.modid), states[e])
  }

  // The entries of the first i rows are exported, and no other one has changed.
  ghost predicate ExportedTo(hash: string -> string, modMap: map<string, ModEntry>, start: map<ModEntry, EntryState>,
                             states: map<ModEntry, EntryState>, db: seq<ModRow>, i: nat, cwd: string -> WorkingDir)
    requires i <= |db|
  {
    && Untouched(modMap, start, states, DbIds(db)[..i])
    && forall j | 0 <= j < i :: RowExported(hash, modMap, start, states, db[j], cwd)
  }

  lemma ExportsOneMore(hash: string -> string, modMap: map<string, ModEntry>, start: map<ModEntry, EntryState>,
                       states: map<ModEntry, EntryState>, db: seq<ModRow>, i: nat, cwd: string -> WorkingDir,
                       after: EntryState)
    requires i < |db| && NoDuplicates(DbIds(db)) && db[i].modid in modMap && modMap[db[i].modid] in states
    requires forall id | id in modMap :: modMap[id].modid == id
    requires ExportedTo(hash, modMap, start, states, db, i, cwd)
    requires Exported(hash, states[modMap[db[i].modid]], db[i], cwd(db[i].modid), after)
    ensures ExportedTo(hash, modMap, start, states[modMap[db[i].modid] := after], db, i + 1, cwd)
  {
    var entry := modMap[db[i].modid];
    NextId(DbIds(db), i, []);
    UntouchedOneMore(modMap, start, states, DbIds(db), i, entry, after);
    forall j | 0 <= j < i ensures RowExported(hash, modMap, start, states[entry := after], db[j], cwd) {
      assert DbIds(db)[j] != DbIds(db)[i];
      StaysExported(hash, modMap, start, states, db[j], cwd, entry, after);
    }
  }

  lemma StaysExported(hash: string -> string, modMap: map<string, ModEntry>, start: map<ModEntry, EntryState>,
                      states: map<ModEntry, EntryState>, row: ModRow, cwd: string -> WorkingDir, entry: ModEntry,
                      after: EntryState)
    requires RowExported(hash, modMap, start, states, row, cwd) && row.modid != entry.modid
    requires forall id | id in modMap :: modMap[id].modid == id
    ensures RowExported(hash, modMap, start, states[entry := after], row, cwd)
  {
  }

  lemma UntouchedOneMore(modMap: map<string, ModEntry>, start: map<ModEntry, EntryState>,
                         states: map<ModEntry, EntryState>, ids: seq<string>, i: nat, entry: ModEntry,
                         after: EntryState)
    requires i < |ids| && ids[i] == entry.modid && ids[i] !in ids[..i] && entry in states
    requires entry.modid in modMap && modMap[entry.modid] == entry
    requires Untouched(modMap, start, states, ids[..i])
    ensures Untouched(modMap, start, states[entry := after], ids[..i + 1]) && states[entry] == start[entry]
  {
  }

  lemma StaysSound(hash: string -> string, states: map<ModEntry, EntryState>, ids: seq<string>, i: nat, here: bool,
                   entry: ModEntry, after: EntryState)
    requires i < |ids| && ids[i] == entry.modid
    requires Sound(hash, states, ids[..i], here) && entry in states
    requires NO_PACK !in after.packs && (here ==> ValidState(hash, after))
    ensures Sound(hash, states[entry := after], ids[..i + 1], here)
  {
  }

  lemma ReadyToVisit(hash: string -> string, states: map<ModEntry, EntryState>, ids: seq<string>, i: nat, here: bool,
                     entry: ModEntry)
    requires i < |ids| && NoDuplicates(ids) && ids[i] == entry.modid
    requires Sound(hash, states, ids[..i], here) && entry in states
    ensures NO_PACK !in states[entry].packs && |states[entry].stamps| < FEW
    ensures here ==> ValidState(hash, states[entry])
  {
  }

  method VisitOne(hash: string -> string, ghost index: seq<ModEntry>, entry: ModEntry, row: ModRow, cwd: WorkingDir,
                  now: int)
    returns (ok: bool, ghost after: EntryState)
    requires entry in index && NO_PACK !in entry.packs && |entry.packsLastModified| < FEW
    requires forall t :: |row.since(t)| < FEW
    requires cwd.Elsewhere? ==> NO_PACK !in cwd.files
    modifies entry
    ensures States(index) == old(States(index))[entry := after]
    ensures ok <==> Updatable(old(StateOf(entry)), row)
    ensures ok ==> NO_PACK !in after.packs && Exported(hash, old(StateOf(entry)), row, cwd, after)
    ensures ok && cwd.Here? && ValidState(hash, old(StateOf(entry))) ==> ValidState(hash, after)
  {
    ok := VisitListed(hash, entry, row, cwd, now);
    after := StateOf(entry);
    forall e | e in index ensures StateOf(e) == if e == entry then after else old(StateOf(e)) {
    }
  }

  lemma OneMoreBuilt(hash: string -> string, added: seq<ModEntry>, entry: ModEntry, db: seq<ModRow>)
    requires AllValid(hash, added) && AllBuilt(added, db) && AllValid(hash, [entry]) && AllBuilt([entry], db)
    ensures AllValid(hash, added + [entry]) && AllBuilt(added + [entry], db)
  {
  }

  ghost predicate AllValid(hash: string -> string, index: seq<ModEntry>)
    reads set e | e in index
  {
    forall e | e in index :: e.Valid(hash)
  }

  // Every new entry was built from its mod's releases.
  ghost predicate AllBuilt(added: seq<ModEntry>, db: seq<ModRow>)
    reads set e | e in added
  {
    forall e | e in added :: exists row :: row in db && row.modid == e.modid && BuiltFrom(e, row.releases)
  }

  ghost predicate BuiltFrom(e: ModEntry, rows: seq<Row>)
    reads e
  {
    && AllConvert(rows)
    && e.Published() == AllReleases(rows) && FullButLast(PacksOf(StateOf(e)))
  }

  // The new entries so far.
  ghost predicate AddedOk(hash: string -> string, added: seq<ModEntry>, db: seq<ModRow>, ids: seq<string>)
    reads set e | e in added
  {
    AllValid(hash, added) && AllBuilt(added, db) && Ids(added) == ids
  }

  ghost predicate RunTo(hash: string -> string, modMap: map<string, ModEntry>, start: map<ModEntry, EntryState>,
                        states: map<ModEntry, EntryState>, db: seq<ModRow>, i: nat, cwd: string -> WorkingDir,
                        here: bool)
    requires i <= |db|
  {
    Sound(hash, states, DbIds(db)[..i], here) && ExportedTo(hash, modMap, start, states, db, i, cwd)
  }

  // When a mod can be exported: its releases convert where it is new, and where it
  // is listed it can be updated if it has to be.
  ghost predicate CanExport(modMap: map<string, ModEntry>, start: map<ModEntry, EntryState>, row: ModRow) {
    if row.modid !in modMap then AllConvert(row.releases)
    else modMap[row.modid] in start && Updatable(start[modMap[row.modid]], row)
  }

  lemma AddedOneMore(hash: string -> string, added: seq<ModEntry>, entry: ModEntry, db: seq<ModRow>, i: nat,
                     listed: seq<string>)
    requires i < |db| && AddedOk(hash, added, db, Only(DbIds(db)[..i], listed, false)) && NoDuplicates(DbIds(db))
    requires db[i].modid !in listed && entry.modid == db[i].modid
    requires AllValid(hash, [entry]) && AllBuilt([entry], db)
    ensures AddedOk(hash, added + [entry], db, Only(DbIds(db)[..i + 1], listed, false))
  {
    OneMoreBuilt(hash, added, entry, db);
    NextId(DbIds(db), i, listed);
    IdsOneMore(added, entry);
  }

  method BuildNext(hash: string -> string, ghost index: seq<ModEntry>, before: seq<ModEntry>, db: seq<ModRow>, i: nat,
                   files: string -> Files, now: int)
    returns (ok: bool, added: seq<ModEntry>)
    requires i < |db| && ReadableRows(db) && NO_PACK !in files(db[i].modid)
    requires AddedOk(hash, before, db, Only(DbIds(db)[..i], Ids(index), false)) && NoDuplicates(DbIds(db))
    requires db[i].modid !in Ids(index)
    ensures ok <==> AllConvert(db[i].releases)
    ensures States(index) == old(States(index))
    ensures ok ==> AddedOk(hash, added, db, Only(DbIds(db)[..i + 1], Ids(index), false))
    ensures ok ==> forall e | e in added :: e in before || fresh(e)
  {
    var built := BuildOne(hash, db, i, files, now);
    if built == null {
      return false, before;
    }
    var entry: ModEntry := built;
    AddedOneMore(hash, before, entry, db, i, Ids(index));
    return true, before + [entry];
  }

  lemma RunsOneMore(hash: string -> string, modMap: map<string, ModEntry>, start: map<ModEntry, EntryState>,
                    states: map<ModEntry, EntryState>, db: seq<ModRow>, i: nat, cwd: string -> WorkingDir, here: bool,
                    after: EntryState)
    requires i < |db| && NoDuplicates(DbIds(db)) && db[i].modid in modMap && modMap[db[i].modid] in states
    requires forall id | id in modMap :: modMap[id].modid == id
    requires RunTo(hash, modMap, start, states, db, i, cwd, here)
    requires Exported(hash, states[modMap[db[i].modid]], db[i], cwd(db[i].modid), after)
    requires NO_PACK !in after.packs && (here ==> ValidState(hash, after))
    ensures RunTo(hash, modMap, start, states[modMap[db[i].modid] := after], db, i + 1, cwd, here)
  {
    ExportsOneMore(hash, modMap, start, states, db, i, cwd, after);
    StaysSound(hash, states, DbIds(db), i, here, modMap[db[i].modid], after);
  }

  method VisitNext(hash: string -> string, index: seq<ModEntry>, modMap: map<string, ModEntry>,
                   ghost start: map<ModEntry, EntryState>, db: seq<ModRow>, i: nat, cwd: string -> WorkingDir,
                   ghost here: bool, now: int)
    returns (ok: bool)
    requires i < |db| && NoDuplicates(DbIds(db)) && ReadableRows(db) && db[i].modid in modMap
    requires forall id | id in modMap :: modMap[id] in index && modMap[id].modid == id
    requires RunTo(hash, modMap, start, States(index), db, i, cwd, here) && modMap[db[i].modid] in start
    requires var c := cwd(db[i].modid); if c.Here? then true else !here && NO_PACK !in c.files
    modifies set e | e in index
    ensures ok <==> CanExport(modMap, start, db[i])
    ensures ok ==> RunTo(hash, modMap, start, States(index), db, i + 1, cwd, here)
  {
    var entry := modMap[db[i].modid];
    ghost var states, after := States(index), StateOf(entry);
    NextId(DbIds(db), i, []);
    assert entry in states && states[entry] == StateOf(entry) == start[entry];
    ReadyToVisit(hash, states, DbIds(db), i, here, entry);
    ok, after := VisitOne(hash, index, entry, db[i], cwd(db[i].modid), now);
    if ok {
      RunsOneMore(hash, modMap, start, states, db, i, cwd, here, after);
    }
  }

  // The new entries stay as they are meanwhile.
  method VisitBeside(hash: string -> string, index: seq<ModEntry>, modMap: map<string, ModEntry>,
                     ghost start: map<ModEntry, EntryState>, db: seq<ModRow>, i: nat, cwd: string -> WorkingDir,
                     ghost here: bool, now: int, ghost added: seq<ModEntry>, ghost ids: seq<string>)
    returns (ok: bool)
    requires AddedOk(hash, added, db, ids) && forall e | e in added :: e !in index
    requires i < |db| && NoDuplicates(DbIds(db)) && ReadableRows(db) && db[i].modid in modMap
    requires forall id | id in modMap :: modMap[id] in index && modMap[id].modid == id
    requires RunTo(hash, modMap, start, States(index), db, i, cwd, here) && modMap[db[i].modid] in start
    requires var c := cwd(db[i].modid); if c.Here? then true else !here && NO_PACK !in c.files
    modifies set e | e in index
    ensures ok <==> CanExport(modMap, start, db[i])
    ensures ok ==> RunTo(hash, modMap, start, States(index), db, i + 1, cwd, here)
    ensures AddedOk(hash, added, db, ids)
  {
    ok := VisitNext(hash, index, modMap, start, db, i, cwd, here, now);
  }

  method VisitAll(hash: string -> string, index: seq<ModEntry>, modMap: map<string, ModEntry>, db: seq<ModRow>,
                  files: string -> Files, cwd: string -> WorkingDir, ghost here: bool, now: int)
    returns (ok: bool, added: seq<ModEntry>)
    requires NoDuplicates(DbIds(db)) && ReadableRows(db) && Sound(hash, States(index), [], here)
    requires forall id :: NO_PACK !in files(id) && if cwd(id).Here? then true else !here && NO_PACK !in cwd(id).files
    requires modMap == LastEntries(index)
    modifies set e | e in index
    ensures ok <==> forall row | row in db :: CanExport(modMap, old(States(index)), row)
    ensures ok ==> RunTo(hash, modMap, old(States(index)), States(index), db, |db|, cwd, here)
    ensures ok ==> AddedOk(hash, added, db, Only(DbIds(db), Ids(index), false)) && forall e | e in added :: fresh(e)
  {
    added := [];
    LastEntriesFacts(index);
    ghost var start := States(index);
    for i := 0 to |db|
      invariant RunTo(hash, modMap, start, States(index), db, i, cwd, here)
      invariant forall j | 0 <= j < i :: CanExport(modMap, start, db[j])
      invariant AddedOk(hash, added, db, Only(DbIds(db)[..i], Ids(index), false)) && forall e | e in added :: fresh(e)
    {
      if db[i].modid !in modMap {
        BuiltInstead(hash, modMap, start, States(index), db, i, cwd, here);
        ok, added := BuildNext(hash, index, added, db, i, files, now);
      } else {
        NextId(DbIds(db), i, Ids(index));
        ok := VisitBeside(hash, index, modMap, start, db, i, cwd, here, now, added, Ids(added));
      }
      if !ok {
        assert db[i] in db && !CanExport(modMap, start, db[i]);
        return;
      }
    }
    TakeAll(DbIds(db));
    ok := true;
  }

  lemma BuiltInstead(hash: string -> string, modMap: map<string, ModEntry>, start: map<ModEntry, EntryState>,
                     states: map<ModEntry, EntryState>, db: seq<ModRow>, i: nat, cwd: string -> WorkingDir, here: bool)
    requires i < |db| && NoDuplicates(DbIds(db)) && db[i].modid !in modMap
    requires RunTo(hash, modMap, start, states, db, i, cwd, here)
    ensures RunTo(hash, modMap, start, states, db, i + 1, cwd, here)
  {
  }

  method BuildOne(hash: string -> string, db: seq<ModRow>, i: nat, files: string -> Files, now: int)
    returns (entry: ModEntry?)
    requires i < |db| && ReadableRows(db) && NO_PACK !in files(db[i].modid)
    ensures entry != null <==> AllConvert(db[i].releases)
    ensures entry != null ==>
              fresh(entry) && entry.modid == db[i].modid && AllValid(hash, [entry]) && AllBuilt([entry], db)
  {
    entry := BuildModIndex(hash, db[i].modid, db[i].releases, files(db[i].modid), now);
    if entry != null {
      assert db[i] in db && BuiltFrom(entry, db[i].releases);
    }
  }

  // files are the pack files in the export directory, and cwd says where the last
  // packs are read again.
  method UpdateModsyncExport(hash: string -> string, index: seq<ModEntry>, db: seq<ModRow>, files: string -> Files,
                             cwd: string -> WorkingDir, now: int)
    returns (ok: bool, newIndex: seq<ModEntry>)
    requires NoDuplicates(DbIds(db)) && ReadableRows(db)
    requires forall e | e in index :: NO_PACK !in e.packs && |e.packsLastModified| < FEW
    requires forall id :: NO_PACK !in files(id) && (cwd(id).Elsewhere? ==> NO_PACK !in cwd(id).files)
    modifies set e | e in index
    ensures ok <==> forall row | row in db :: CanExport(LastEntries(index), old(States(index)), row)
    ensures ok ==> Ids(newIndex) == NextIds(Ids(index), DbIds(db))
    ensures ok ==> forall e | e in newIndex && e !in index :: fresh(e) && AllBuilt([e], db) && AllValid(hash, [e])
    ensures ok ==> AllExported(hash, old(States(index)), States(index), LastEntries(index), db, cwd)
    ensures ok && (forall id :: cwd(id).Here?) && old(AllValid(hash, index)) ==> AllValid(hash, newIndex)
  {
    ghost var here := (forall id :: cwd(id).Here?) && AllValid(hash, index);
    newIndex := index;
    var modMap := MapMods(index);
    StartsSound(hash, index, here);
    LastEntriesFacts(index);
    var added;
    ok, added := VisitAll(hash, index, modMap, db, files, cwd, here, now);
    if ok {
      newIndex := Prune(index + added, DbIds(db));
      PrunedIs(index, added, DbIds(db));
      EachBuilt(hash, index, added, newIndex, db);
      if here {
        EndsValid(hash, index, added, newIndex, DbIds(db));
      }
    }
  }

  // What a run does: the last entry of each mod in the database is exported, and
  // no other one changes.
  ghost predicate AllExported(hash: string -> string, start: map<ModEntry, EntryState>, end: map<ModEntry, EntryState>,
                              modMap: map<string, ModEntry>, db: seq<ModRow>, cwd: string -> WorkingDir)
  {
    ExportedTo(hash, modMap, start, end, db, |db|, cwd)
  }

  lemma EachBuilt(hash: string -> string, index: seq<ModEntry>, added: seq<ModEntry>, newIndex: seq<ModEntry>,
                  db: seq<ModRow>)
    requires AllValid(hash, added) && AllBuilt(added, db) && forall e | e in newIndex :: e in index + added
    ensures forall e | e in newIndex && e !in index :: e in added && AllBuilt([e], db) && AllValid(hash, [e])
  {
  }

  lemma EndsValid(hash: string -> string, index: seq<ModEntry>, added: seq<ModEntry>, newIndex: seq<ModEntry>,
                  ids: seq<string>)
    requires Sound(hash, States(index), ids, true) && AllValid(hash, added)
    requires forall e | e in newIndex :: e in index + added
    ensures AllValid(hash, newIndex)
  {
    forall e | e in newIndex ensures e.Valid(hash) {
      if e in index {
        assert ValidState(hash, States(index)[e]);
      }
    }
  }

  lemma StartsSound(hash: string -> string, index: seq<ModEntry>, here: bool)
    requires forall e | e in index :: NO_PACK !in e.packs && |e.packsLastModified| < FEW
    requires here ==> AllValid(hash, index)
    ensures Sound(hash, States(index), [], here)
  {
  }

  ghost predicate ReadableRows(db: seq<ModRow>) {
    forall i | 0 <= i < |db| :: |db[i].releases| < FEW && forall t :: |db[i].since(t)| < FEW
  }

  lemma NextId(ids: seq<string>, i: nat, before: seq<string>)
    requires NoDuplicates(ids) && i < |ids|
    ensures ids[i] !in ids[..i] && ids[..i + 1] == ids[..i] + [ids[i]]
    ensures Only(ids[..i + 1], before, false) ==
            Only(ids[..i], before, false) + if ids[i] in before then [] else [ids[i]]
  {
  }

  lemma IdsOneMore(added: seq<ModEntry>, entry: ModEntry)
    ensures Ids(added + [entry]) == Ids(added) + [entry.modid]
  {
  }

  lemma PrunedIs(index: seq<ModEntry>, added: seq<ModEntry>, db: seq<string>)
    requires Ids(added) == Only(db, Ids(index), false)
    ensures Only(Ids(index + added), db, true) == NextIds(Ids(index), db)
  {
    assert Ids(index + added) == Ids(index) + Ids(added);
    OnlyConcat(Ids(index), Ids(added), db, true);
    OnlyHolds(db, Ids(index), false);
    KeptAll(Ids(added), db);
  }
}
