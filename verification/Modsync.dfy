// The modsync exporter: the releases of a mod are published in numbered packs,
// next to an index entry whose checksum has to describe them.
module Modsync {
  import opened Seqs
  import opened Wrappers
  import opened SortedStrings

  const PACK_SIZE := 10

  // The number of the pack that an entry without packs reads as its last one.
  const NO_PACK: nat := 0xFFFF_FFFF

  datatype Release = Release(version: string, metadata: string)

  // A release as the database has it; metadata is None where it does not convert.
  datatype Row = Row(version: string, deleted: bool, metadata: Option<string>)

  // The pack files of one mod, by number.
  type Files = map<nat, seq<Release>>

  // ----- Lists of packs

  function Pack(files: Files, num: nat): seq<Release> {
    if num in files then files[num] else []
  }

  function Packs(files: Files, from: nat, end: nat): (r: seq<seq<Release>>)
    requires from <= end
    ensures |r| == end - from
  {
    if from == end then [] else Packs(files, from, end - 1) + [Pack(files, end - 1)]
  }

  function Flatten(packs: seq<seq<Release>>): seq<Release> {
    if packs == [] then [] else Flatten(DropLast(packs)) + packs[|packs| - 1]
  }

  function Versions(releases: seq<Release>): (r: seq<string>)
    ensures |r| == |releases|
  {
    if releases == [] then [] else Versions(DropLast(releases)) + [releases[|releases| - 1].version]
  }

  lemma {:induction false} PacksAt(files: Files, from: nat, end: nat, i: nat)
    requires from <= i < end
    ensures Packs(files, from, end)[i - from] == Pack(files, i)
    decreases end
  {
    if i < end - 1 {
      PacksAt(files, from, end - 1, i);
    }
  }

  lemma {:induction false} PacksFrame(files: Files, files': Files, from: nat, end: nat)
    requires from <= end && forall i | from <= i < end :: Pack(files, i) == Pack(files', i)
    ensures Packs(files, from, end) == Packs(files', from, end)
    decreases end
  {
    if from < end {
      PacksFrame(files, files', from, end - 1);
    }
  }

  lemma {:induction false} PacksSplit(files: Files, from: nat, mid: nat, end: nat)
    requires from <= mid <= end
    ensures Packs(files, from, end) == Packs(files, from, mid) + Packs(files, mid, end)
    decreases end
  {
    if mid < end {
      PacksSplit(files, from, mid, end - 1);
      Associative(Packs(files, from, mid), Packs(files, mid, end - 1), [Pack(files, end - 1)]);
    }
  }

  lemma {:induction false} FlattenConcat(a: seq<seq<Release>>, b: seq<seq<Release>>)
    ensures Flatten(a + b) == Flatten(a) + Flatten(b)
    decreases |b|
  {
    if b == [] {
      assert a + b == a;
    } else {
      var front, p := DropLast(b), b[|b| - 1];
      assert b == front + [p] && a + b == (a + front) + [p];
      FlattenConcat(a, front);
      FlattenOneMore(a + front, p);
      Associative(Flatten(a), Flatten(front), p);
    }
  }

  lemma FlattenOne(p: seq<Release>)
    ensures Flatten([p]) == p
  {
  }

  lemma FlattenOneMore(packs: seq<seq<Release>>, p: seq<Release>)
    ensures Flatten(packs + [p]) == Flatten(packs) + p
  {
  }

  lemma {:induction false} VersionsConcat(a: seq<Release>, b: seq<Release>)
    ensures Versions(a + b) == Versions(a) + Versions(b)
    decreases |b|
  {
    if b == [] {
      assert a + b == a;
    } else {
      assert DropLast(a + b) == a + DropLast(b);
      VersionsConcat(a, DropLast(b));
    }
  }

  lemma VersionsOne(r: Release)
    ensures Versions([r]) == [r.version]
  {
  }

  // ----- The checksum

  function Concat(s: seq<string>): string {
    if s == [] then "" else s[0] + Concat(s[1..])
  }

  function Checksum(hash: string -> string, versions: seq<string>): string {
    hash(Concat(Sort(versions)))
  }

  // The checksum depends on the versions only, not on their order.
  lemma {:induction false} ChecksumIgnoresOrder(hash: string -> string, a: seq<string>, b: seq<string>)
    requires multiset(a) == multiset(b)
    ensures Checksum(hash, a) == Checksum(hash, b)
  {
    SortSorts(a);
    SortSorts(b);
    SortedOnce(Sort(a), Sort(b));
  }

  // ----- One pass over the existing packs

  // From the last release of a pack to the first: replaced by its new form, which
  // is then used up, or kept, or dropped.
  datatype Passed = Passed(releases: seq<Release>, pending: map<string, Release>)

  function PassPack(p: seq<Release>, pending: map<string, Release>, kept: set<string>): Passed {
    if p == [] then Passed([], pending)
    else
      var last := p[|p| - 1];
      if last.version in pending then
        var rest := PassPack(DropLast(p), pending - {last.version}, kept);
        rest.(releases := rest.releases + [pending[last.version]])
      else
        var rest := PassPack(DropLast(p), pending, kept);
        if last.version in kept then rest.(releases := rest.releases + [last]) else rest
  }

  datatype PassedAll = PassedAll(packs: seq<seq<Release>>, pending: map<string, Release>)

  function PassAll(packs: seq<seq<Release>>, pending: map<string, Release>, kept: set<string>): (r: PassedAll)
    ensures |r.packs| == |packs|
  {
    if packs == [] then PassedAll([], pending)
    else
      var before := PassAll(DropLast(packs), pending, kept);
      var last := PassPack(packs[|packs| - 1], before.pending, kept);
      PassedAll(before.packs + [last.releases], last.pending)
  }

  ghost predicate Named(pending: map<string, Release>) {
    forall v | v in pending :: pending[v].version == v
  }

  // How often a version is in a list of releases.
  function Count(releases: seq<Release>, v: string): nat {
    multiset(Versions(releases))[v]
  }

  lemma CountConcat(a: seq<Release>, b: seq<Release>, v: string)
    ensures Count(a + b, v) == Count(a, v) + Count(b, v)
  {
    VersionsConcat(a, b);
  }

  lemma CountLast(p: seq<Release>, v: string)
    requires p != []
    ensures Count(p, v) == Count(DropLast(p), v) + if p[|p| - 1].version == v then 1 else 0
  {
  }

  // How many copies of a version a pass leaves of count ones.
  function Left(count: nat, pending: bool, kept: bool): nat {
    if pending && count > 0 then 1 + (if kept then count - 1 else 0) else if kept then count else 0
  }

  lemma {:induction false} PassPackPending(p: seq<Release>, pending: map<string, Release>, kept: set<string>, v: string)
    ensures var r := PassPack(p, pending, kept);
            && (v in r.pending <==> v in pending && Count(p, v) == 0)
            && (v in r.pending ==> r.pending[v] == pending[v])
            && r.pending.Keys <= pending.Keys
  {
    if p != [] {
      var last := p[|p| - 1];
      CountLast(p, v);
      PassPackPending(DropLast(p), if last.version in pending then pending - {last.version} else pending, kept, v);
    }
  }

  lemma {:induction false} PassPackCounts(p: seq<Release>, pending: map<string, Release>, kept: set<string>, v: string)
    requires Named(pending)
    ensures Count(PassPack(p, pending, kept).releases, v) == Left(Count(p, v), v in pending, v in kept)
  {
    if p != [] {
      var last := p[|p| - 1];
      CountLast(p, v);
      if last.version in pending {
        PassPackCounts(DropLast(p), pending - {last.version}, kept, v);
        CountAppended(PassPack(DropLast(p), pending - {last.version}, kept).releases, pending[last.version], v);
      } else {
        PassPackCounts(DropLast(p), pending, kept, v);
        CountAppended(PassPack(DropLast(p), pending, kept).releases, last, v);
      }
    }
  }

  lemma CountAppended(p: seq<Release>, r: Release, v: string)
    ensures Count(p + [r], v) == Count(p, v) + if r.version == v then 1 else 0
  {
  }

  lemma {:induction false} PassAllPending(packs: seq<seq<Release>>, pending: map<string, Release>, kept: set<string>,
                                          v: string)
    ensures var r := PassAll(packs, pending, kept);
            && (v in r.pending <==> v in pending && Count(Flatten(packs), v) == 0)
            && (v in r.pending ==> r.pending[v] == pending[v])
            && r.pending.Keys <= pending.Keys
  {
    if packs != [] {
      var p := packs[|packs| - 1];
      PassAllPending(DropLast(packs), pending, kept, v);
      PassPackPending(p, PassAll(DropLast(packs), pending, kept).pending, kept, v);
      CountConcat(Flatten(DropLast(packs)), p, v);
    }
  }

  lemma PassAllNamed(packs: seq<seq<Release>>, pending: map<string, Release>, kept: set<string>)
    requires Named(pending)
    ensures Named(PassAll(packs, pending, kept).pending)
    ensures PassAll(packs, pending, kept).pending.Keys <= pending.Keys
  {
    var left := PassAll(packs, pending, kept).pending;
    forall v | v in left ensures v in pending && left[v].version == v {
      PassAllPending(packs, pending, kept, v);
    }
  }

  lemma {:induction false} PassAllCounts(packs: seq<seq<Release>>, pending: map<string, Release>, kept: set<string>,
                                         v: string)
    requires Named(pending)
    ensures Count(Flatten(PassAll(packs, pending, kept).packs), v) ==
            Left(Count(Flatten(packs), v), v in pending, v in kept)
  {
    if packs != [] {
      var p := packs[|packs| - 1];
      PassAllCounts(DropLast(packs), pending, kept, v);
      PassAllPending(DropLast(packs), pending, kept, v);
      PassAllNamed(DropLast(packs), pending, kept);
      var before := PassAll(DropLast(packs), pending, kept);
      PassPackCounts(p, before.pending, kept, v);
      CountConcat(Flatten(DropLast(packs)), p, v);
      var last := PassPack(p, before.pending, kept);
      FlattenOneMore(before.packs, last.releases);
      CountConcat(Flatten(before.packs), last.releases, v);
    }
  }

  // The releases with a version from some set, in their order.
  function Among(releases: seq<Release>, vs: set<string>): seq<Release> {
    if releases == [] then []
    else
      var rest, last := Among(DropLast(releases), vs), releases[|releases| - 1];
      if last.version in vs then rest + [last] else rest
  }

  lemma {:induction false} AmongConcat(a: seq<Release>, b: seq<Release>, vs: set<string>)
    ensures Among(a + b, vs) == Among(a, vs) + Among(b, vs)
    decreases |b|
  {
    if b == [] {
      assert a + b == a;
    } else {
      assert DropLast(a + b) == a + DropLast(b);
      AmongConcat(a, DropLast(b), vs);
      Associative(Among(a, vs), Among(DropLast(b), vs), [b[|b| - 1]]);
    }
  }

  // What was not converted anew passes unchanged and in order, if it is kept.
  lemma {:induction false} PassPackOthers(p: seq<Release>, pending: map<string, Release>, kept: set<string>,
                                          others: set<string>)
    requires Named(pending) && others !! pending.Keys
    ensures Among(PassPack(p, pending, kept).releases, others) == Among(p, others * kept)
  {
    if p != [] {
      var last := p[|p| - 1];
      var found := last.version in pending;
      var pending' := if found then pending - {last.version} else pending;
      PassPackOthers(DropLast(p), pending', kept, others);
      var rest := PassPack(DropLast(p), pending', kept);
      var r := if found then pending[last.version] else last;
      AmongConcat(rest.releases, [r], others);
      assert DropLast([r]) == [];
    }
  }

  lemma {:induction false} PassAllOthers(packs: seq<seq<Release>>, pending: map<string, Release>, kept: set<string>,
                                         others: set<string>)
    requires Named(pending) && others !! pending.Keys
    ensures Among(Flatten(PassAll(packs, pending, kept).packs), others) == Among(Flatten(packs), others * kept)
  {
    if packs != [] {
      var p := packs[|packs| - 1];
      PassAllOthers(DropLast(packs), pending, kept, others);
      var before := PassAll(DropLast(packs), pending, kept);
      PassAllNamed(DropLast(packs), pending, kept);
      PassPackOthers(p, before.pending, kept, others);
      AmongConcat(Flatten(DropLast(packs)), p, others * kept);
      var last := PassPack(p, before.pending, kept);
      FlattenOneMore(before.packs, last.releases);
      AmongConcat(Flatten(before.packs), last.releases, others);
    }
  }

  // Every new form that is used up stands in a pack.
  lemma {:induction false} PassPackPlaces(p: seq<Release>, pending: map<string, Release>, kept: set<string>, v: string)
    requires v in pending && v !in PassPack(p, pending, kept).pending
    ensures pending[v] in PassPack(p, pending, kept).releases
  {
    var last := p[|p| - 1];
    if last.version != v {
      PassPackPlaces(DropLast(p), if last.version in pending then pending - {last.version} else pending, kept, v);
    }
  }

  // ----- Rows of the database

  function Converted(rows: seq<Row>): map<string, Release> {
    if rows == [] then map[]
    else
      var before, row := Converted(DropLast(rows)), rows[|rows| - 1];
      if !row.deleted && row.metadata.Some? then before[row.version := Release(row.version, row.metadata.value)]
      else before
  }

  predicate Convertible(rows: seq<Row>) {
    forall i | 0 <= i < |rows| && !rows[i].deleted :: rows[i].metadata.Some?
  }

  function DeletedVersions(rows: seq<Row>): set<string> {
    set i | 0 <= i < |rows| && rows[i].deleted :: rows[i].version
  }

  method Convert(rows: seq<Row>) returns (ok: bool, converted: map<string, Release>, deleted: seq<string>)
    ensures ok <==> Convertible(rows)
    ensures ok ==> converted == Converted(rows)
    ensures ok ==> forall v :: v in deleted <==> v in DeletedVersions(rows)
  {
    converted, deleted := map[], [];
    for i := 0 to |rows|
      invariant Convertible(rows[..i]) && converted == Converted(rows[..i])
      invariant forall v :: v in deleted <==> exists j :: 0 <= j < i && rows[j].deleted && rows[j].version == v
    {
      assert DropLast(rows[..i + 1]) == rows[..i];
      var row := rows[i];
      if row.deleted {
        deleted := deleted + [row.version];
      } else {
        match row.metadata {
          case None => return false, map[], [];
          case Some(metadata) => converted := converted[row.version := Release(row.version, metadata)];
        }
      }
    }
    TakeAll(rows);
    ok := true;
  }

  // ----- The loop over one pack, from its end

  method IsGone(version: string, versions: set<string>, deleted: seq<string>) returns (gone: bool)
    requires Sorted(deleted)
    ensures gone <==> version !in versions || version in deleted
  {
    gone := version !in versions;
    if !gone {
      var delIdx := SearchStrings(deleted, version);
      gone := delIdx < |deleted| && deleted[delIdx] == version;
    }
  }

  method PassOverPack(releases: seq<Release>, before: map<string, Release>, versions: set<string>, deleted: seq<string>,
                      ghost kept: set<string>, listed: seq<string>)
    returns (rels: seq<Release>, pending: map<string, Release>, numbers: seq<string>, modified: bool)
    requires Sorted(deleted) && forall v :: v in kept <==> v in versions && v !in deleted
    ensures Passed(rels, pending) == PassPack(releases, before, kept)
    ensures Lists(numbers, listed, rels)
    ensures !modified ==> rels == releases
  {
    rels, pending, numbers, modified := releases, before, listed, false;
    ghost var done: seq<Release> := [];
    var idx := |rels| - 1;
    TakeAll(releases);
    while idx >= 0
      invariant -1 <= idx < |releases| && rels == releases[..idx + 1] + done
      invariant StillToPass(releases[..idx + 1], pending, kept, done) == PassPack(releases, before, kept)
      invariant Lists(numbers, listed, done)
      invariant !modified ==> rels == releases
      decreases idx
    {
      var version := rels[idx].version;
      ghost var front := releases[..idx];
      TakeOneMore(releases, idx);
      PassStep(front, releases[idx], pending, kept, done);
      InMiddle(front, releases[idx], done);
      if version in pending {
        var rel := pending[version];
        rels := rels[idx := rel];
        InMiddle(front, rel, done);
        pending, modified := pending - {version}, true;
        ListsOneMore(numbers, listed, rel, done);
        numbers := numbers + [rel.version];
        done := [rel] + done;
      } else {
        var gone := IsGone(version, versions, deleted);
        if gone {
          rels, modified := rels[..idx] + rels[idx + 1..], true;
        } else {
          ListsOneMore(numbers, listed, rels[idx], done);
          numbers := numbers + [version];
          done := [rels[idx]] + done;
        }
      }
      idx := idx - 1;
    }
    assert rels == done;
  }

  ghost function StillToPass(front: seq<Release>, pending: map<string, Release>, kept: set<string>,
                             done: seq<Release>): Passed {
    var r := PassPack(front, pending, kept);
    r.(releases := r.releases + done)
  }

  lemma PassStep(front: seq<Release>, r: Release, pending: map<string, Release>, kept: set<string>, done: seq<Release>)
    ensures StillToPass(front + [r], pending, kept, done) ==
            if r.version in pending then StillToPass(front, pending - {r.version}, kept, [pending[r.version]] + done)
            else if r.version in kept then StillToPass(front, pending, kept, [r] + done)
            else StillToPass(front, pending, kept, done)
  {
  }

  // numbers holds the versions of listed and, in some order, those of releases.
  ghost predicate Lists(numbers: seq<string>, listed: seq<string>, releases: seq<Release>) {
    multiset(numbers) == multiset(listed) + multiset(Versions(releases))
  }

  lemma ListsOneMore(numbers: seq<string>, listed: seq<string>, r: Release, releases: seq<Release>)
    requires Lists(numbers, listed, releases)
    ensures Lists(numbers + [r.version], listed, [r] + releases)
    ensures Lists(numbers + [r.version], listed, releases + [r])
  {
    VersionsConcat([r], releases);
    VersionsConcat(releases, [r]);
    VersionsOne(r);
  }

  // ----- The releases behind the last pack

  // order holds every pending release once.
  ghost predicate Enumerates(order: seq<Release>, pending: map<string, Release>) {
    && (forall r | r in order :: r.version in pending && pending[r.version] == r)
    && (forall v :: Count(order, v) == if v in pending then 1 else 0)
  }

  lemma EnumeratesOneMore(order: seq<Release>, done: map<string, Release>, v: string, r: Release)
    requires Enumerates(order, done) && v !in done && r.version == v
    ensures Enumerates(order + [r], done[v := r])
  {
  }

  // Of the packs behind count stamps, those from the last one on were written
  // anew up to cur and hold written.
  ghost predicate Grown(files0: Files, last: nat, files: Files, count: nat, cur: nat, written: seq<Release>) {
    && last <= cur <= count
    && count == (if cur == last then last + 1 else cur)
    && (forall i | 0 <= i < last :: Pack(files, i) == Pack(files0, i))
    && (cur == last ==> files == files0)
    && (forall i: nat | i < count :: i in files)
    && NO_PACK !in files
    && Flatten(Packs(files, last, cur)) == written
  }

  lemma GrowsOneMore(files0: Files, last: nat, files: Files, count: nat, cur: nat, written: seq<Release>,
                     p: seq<Release>)
    requires Grown(files0, last, files, count, cur, written) && cur < NO_PACK
    ensures Grown(files0, last, files[cur := p], cur + 1, cur + 1, written + p)
  {
    PackWritten(files, last, cur, p);
    FlattenOneMore(Packs(files, last, cur), p);
  }

  // Pack numbers are of type uint32.
  function NextNumber(num: nat): (r: nat)
    ensures num < NO_PACK ==> r == num + 1
  {
    (num + 1) % 0x1_0000_0000
  }

  // time.Now for one pack: a new stamp, or the stamp of an old one renewed.
  function Touch(stamps: seq<int>, num: nat, now: int): seq<int> {
    if |stamps| <= num then stamps + [now] else stamps[num := now]
  }

  // Packs are written below the export directory, but the last one is read again
  // relative to the working directory: the same place, or another one.
  datatype WorkingDir = Here | Elsewhere(files: Files)

  ghost function LastPack(cwd: WorkingDir, packs: seq<seq<Release>>): Option<seq<Release>> {
    if packs == [] then None
    else if cwd.Here? then Some(packs[|packs| - 1])
    else if |packs| - 1 in cwd.files then Some(cwd.files[|packs| - 1])
    else None
  }

  // What is published after an update whose pass over the packs left passed, and
  // which read the last pack again as read.
  ghost predicate Updated(passed: PassedAll, read: Option<seq<Release>>, order: seq<Release>, published: seq<Release>) {
    match read
    case None => order == [] && published == Flatten(passed.packs)
    case Some(base) =>
      && passed.packs != [] && Enumerates(order, passed.pending)
      && published == Flatten(DropLast(passed.packs)) +
                      if base + order == [] then passed.packs[|passed.packs| - 1] else base + order
  }

  // numbers lists the packs after the pass and the releases added behind.
  ghost predicate Described(passed: PassedAll, cwd: WorkingDir, order: seq<Release>, published: seq<Release>,
                            numbers: seq<string>)
  {
    match passed
    case PassedAll(packs, _) =>
      && Updated(passed, LastPack(cwd, packs), order, published)
      && multiset(numbers) == multiset(Versions(Flatten(packs) + order))
  }

  ghost predicate Refreshed(hash: string -> string, passed: PassedAll, cwd: WorkingDir, order: seq<Release>,
                            published: seq<Release>, checksum: string)
  {
    exists numbers :: Described(passed, cwd, order, published, numbers) && checksum == Checksum(hash, numbers)
  }

  // A mod's index entry, and the pack files that stand beside it.
  class ModEntry {
    const modid: string
    var lastModified: int
    var packsLastModified: seq<int>
    var versionChecksum: string
    var packs: Files

    constructor (modid: string, now: int, packs: Files)
      ensures this.modid == modid && lastModified == now && packsLastModified == [] && this.packs == packs
    {
      this.modid, lastModified, packsLastModified, versionChecksum, this.packs := modid, now, [], "", packs;
    }

    ghost function Published(): seq<Release>
      reads this
    {
      Flatten(Packs(packs, 0, |packsLastModified|))
    }

    ghost predicate Stored()
      reads this
    {
      (forall i: nat | i < |packsLastModified| :: i in packs) && NO_PACK !in packs
    }

    // The packs are there, and the checksum describes them.
    ghost predicate Valid(hash: string -> string)
      reads this
    {
      Stored() && versionChecksum == Checksum(hash, Versions(Published()))
    }

    method WritePack(num: nat, rels: seq<Release>, now: int)
      modifies this`packs, this`packsLastModified
      ensures packs == old(packs)[num := rels] && packsLastModified == Touch(old(packsLastModified), num, now)
    {
      packs := packs[num := rels];
      packsLastModified :=
        if |packsLastModified| <= num then packsLastModified + [now] else packsLastModified[num := now];
    }

    method WriteNext(ghost files0: Files, ghost last: nat, cur: nat, ghost written: seq<Release>, rels: seq<Release>,
                     now: int)
      requires Grown(files0, last, packs, |packsLastModified|, cur, written) && cur < NO_PACK
      modifies this`packs, this`packsLastModified
      ensures Grown(files0, last, packs, |packsLastModified|, cur + 1, written + rels)
    {
      GrowsOneMore(files0, last, packs, |packsLastModified|, cur, written, rels);
      WritePack(cur, rels, now);
    }

    // base is what was read of the last pack.
    method AppendNew(base: seq<Release>, pending: map<string, Release>, last: nat, now: int, listed: seq<string>)
      returns (numbers: seq<string>, ghost order: seq<Release>)
      requires Named(pending)
      requires Stored() && last + 1 == |packsLastModified| && last + |pending| < NO_PACK
      modifies this`packs, this`packsLastModified
      ensures Enumerates(order, pending) && Lists(numbers, listed, order)
      ensures Stored() && |packsLastModified| > last
      ensures forall i | 0 <= i < last :: Pack(packs, i) == Pack(old(packs), i)
      ensures Flatten(Packs(packs, last, |packsLastModified|)) ==
              if base + order == [] then Pack(old(packs), last) else base + order
    {
      numbers, order := listed, [];
      var left, rels, current := pending, base, last;
      ghost var files0, written: seq<Release> := packs, [];
      AllToTake(pending, listed);
      NothingYet(base);
      while left != map[]
        invariant Taken(pending, left, order, numbers, listed)
        invariant current >= last && Grown(files0, last, packs, |packsLastModified|, current, written)
        invariant SameReleases(written, rels, base, order)
        invariant current + |left| <= last + |pending|
        decreases |left|
      {
        var version :| version in left;
        var rel := left[version];
        TakeNext(pending, left, order, numbers, listed, version);
        BothGrow(written, rels, base, order, rel);
        left := left - {version};
        numbers, order := numbers + [rel.version], order + [rel];
        rels := rels + [rel];
        if |rels| >= PACK_SIZE {
          WriteNext(files0, last, current, written, rels, now);
          Flushed(written, rels, base, order);
          written, rels := written + rels, [];
          current := NextNumber(current);
        }
      }
      NoneToTake(pending, left, order, numbers, listed);
      if |rels| > 0 {
        WriteNext(files0, last, current, written, rels, now);
        Flushed(written, rels, base, order);
        written, current, rels := written + rels, current + 1, [];
      }
      AllWritten(written, base, order);
      LastOnly(packs, last);
    }

    // The loop over the existing packs.
    method PassOverPacks(before: map<string, Release>, versions: set<string>, deleted: seq<string>,
                         ghost kept: set<string>, now: int)
      returns (ok: bool, pending: map<string, Release>, numbers: seq<string>)
      requires Sorted(deleted) && forall v :: v in kept <==> v in versions && v !in deleted
      modifies this`packs, this`packsLastModified
      ensures |packsLastModified| == |old(packsLastModified)| && packs.Keys == old(packs.Keys)
      ensures ok <==> forall i: nat | i < |packsLastModified| :: i in packs
      ensures ok ==> PassedAll(Packs(packs, 0, |packsLastModified|), pending) ==
                     PassAll(Packs(old(packs), 0, |packsLastModified|), before, kept)
      ensures ok ==> Lists(numbers, [], Published())
    {
      pending, numbers := before, [];
      ghost var files0 := packs;
      for num := 0 to |packsLastModified|
        invariant |packsLastModified| == |old(packsLastModified)|
        invariant PassedTo(files0, packs, num, before, pending, kept, numbers)
      {
        if num !in packs {
          return false, pending, numbers;
        }
        var rels, pending', numbers', modified := PassOverPack(packs[num], pending, versions, deleted, kept, numbers);
        PassesOneMore(files0, packs, num, before, pending, kept, numbers, rels, numbers');
        if modified {
          packsLastModified := packsLastModified[num := now];
          packs := packs[num := rels];
        } else {
          SameFile(packs, num, rels);
        }
        pending, numbers := pending', numbers';
      }
      ok := true;
    }

    method AddNew(pending: map<string, Release>, listed: seq<string>, cwd: WorkingDir, now: int)
      returns (numbers: seq<string>, ghost order: seq<Release>)
      requires Stored() && (cwd.Elsewhere? ==> NO_PACK !in cwd.files)
      requires Named(pending) && |packsLastModified| + |pending| < NO_PACK
      requires Lists(listed, [], Published())
      modifies this`packs, this`packsLastModified
      ensures Stored()
      ensures Described(PassedAll(Packs(old(packs), 0, |old(packsLastModified)|), pending), cwd, order, Published(),
                        numbers)
    {
      var n := |packsLastModified|;
      ghost var files0, passed := packs, PassedAll(Packs(packs, 0, n), pending);
      var current := if n == 0 then NO_PACK else n - 1;
      if n > 0 {
        PacksAt(packs, 0, n, n - 1);
      }
      var files := if cwd.Here? then packs else cwd.files;
      if current in files {
        numbers, order := AppendNew(files[current], pending, current, now, listed);
        PublishedParts(files0, packs, n, |packsLastModified|);
        DescribedWith(passed, cwd, files[current], order, Published(), listed, numbers);
      } else {
        numbers, order := listed, [];
        DescribedWithout(passed, cwd, Published(), listed);
      }
    }

    method SortAndPass(before: map<string, Release>, versions: set<string>, deleted: seq<string>,
                       ghost kept: set<string>, now: int)
      returns (ok: bool, pending: map<string, Release>, numbers: seq<string>)
      requires forall v :: v in kept <==> v in versions && v !in deleted
      modifies this`packs, this`packsLastModified
      ensures |packsLastModified| == |old(packsLastModified)| && packs.Keys == old(packs.Keys)
      ensures ok <==> forall i: nat | i < |packsLastModified| :: i in packs
      ensures ok ==> PassedAll(Packs(packs, 0, |packsLastModified|), pending) ==
                     PassAll(Packs(old(packs), 0, |packsLastModified|), before, kept)
      ensures ok ==> Lists(numbers, [], Published())
    {
      var sorted := SortStrings(deleted);
      ok, pending, numbers := PassOverPacks(before, versions, sorted, kept, now);
    }

    method Seal(hash: string -> string, numbers: seq<string>)
      modifies this`versionChecksum
      ensures versionChecksum == Checksum(hash, numbers)
    {
      var sorted := SortStrings(numbers);
      versionChecksum := hash(Concat(sorted));
    }

    method Refresh(hash: string -> string, converted: map<string, Release>, versions: set<string>, deleted: seq<string>,
                   ghost kept: set<string>, cwd: WorkingDir, now: int)
      returns (ok: bool, ghost order: seq<Release>)
      requires forall v :: v in kept <==> v in versions && v !in deleted
      requires NO_PACK !in packs && (cwd.Elsewhere? ==> NO_PACK !in cwd.files)
      requires Named(converted) && |packsLastModified| + |converted| < NO_PACK
      modifies this`packs, this`packsLastModified, this`versionChecksum
      ensures ok <==> forall i: nat | i < |old(packsLastModified)| :: i in old(packs)
      ensures ok ==> Stored()
      ensures ok ==> Refreshed(hash, PassAll(Packs(old(packs), 0, |old(packsLastModified)|), converted, kept), cwd,
                               order,
                               Published(), versionChecksum)
    {
      order := [];
      var pending, numbers;
      ok, pending, numbers := SortAndPass(converted, versions, deleted, kept, now);
      if ok {
        PendingFits(Packs(old(packs), 0, |packsLastModified|), converted, kept);
        numbers, order := AddNew(pending, numbers, cwd, now);
        Seal(hash, numbers);
      }
    }

    // The update of a listed mod.  order lists the new releases that were added.
    method Update(hash: string -> string, versions: set<string>, rows: seq<Row>, cwd: WorkingDir, now: int)
      returns (ok: bool, ghost order: seq<Release>)
      requires NO_PACK !in packs && (cwd.Elsewhere? ==> NO_PACK !in cwd.files)
      requires |packsLastModified| + |rows| < NO_PACK
      modifies this`packs, this`packsLastModified, this`versionChecksum
      ensures ok <==> Convertible(rows) && forall i: nat | i < |old(packsLastModified)| :: i in old(packs)
      ensures ok ==> Stored()
      ensures ok ==>
                Refreshed(hash,
                          PassAll(Packs(old(packs), 0, |old(packsLastModified)|), Converted(rows),
                                  versions - DeletedVersions(rows)),
                          cwd, order, Published(), versionChecksum)
    {
      order := [];
      var converted, deleted;
      ok, converted, deleted := Convert(rows);
      if ok {
        ConvertedFacts(rows);
        ok, order := Refresh(hash, converted, versions, deleted, versions - DeletedVersions(rows), cwd, now);
      }
    }
  }

  ghost predicate SameReleases(a: seq<Release>, b: seq<Release>, c: seq<Release>, d: seq<Release>) {
    a + b == c + d
  }

  lemma NothingYet(base: seq<Release>)
    ensures SameReleases([], base, base, [])
  {
  }

  lemma BothGrow(written: seq<Release>, rels: seq<Release>, base: seq<Release>, order: seq<Release>, r: Release)
    requires SameReleases(written, rels, base, order)
    ensures SameReleases(written, rels + [r], base, order + [r])
  {
    Associative(written, rels, [r]);
    Associative(base, order, [r]);
  }

  lemma Flushed(written: seq<Release>, rels: seq<Release>, base: seq<Release>, order: seq<Release>)
    requires SameReleases(written, rels, base, order)
    ensures SameReleases(written + rels, [], base, order)
  {
  }

  lemma AllWritten(written: seq<Release>, base: seq<Release>, order: seq<Release>)
    requires SameReleases(written, [], base, order)
    ensures written == base + order
  {
  }

  lemma LastOnly(files: Files, last: nat)
    ensures Flatten(Packs(files, last, last + 1)) == Pack(files, last) && Flatten(Packs(files, last, last)) == []
  {
  }

  // All pending releases but those left stand in order.
  ghost predicate Taken(pending: map<string, Release>, left: map<string, Release>, order: seq<Release>,
                        numbers: seq<string>, listed: seq<string>)
  {
    && left.Keys <= pending.Keys && (forall v | v in left :: left[v] == pending[v])
    && Enumerates(order, pending - left.Keys) && Lists(numbers, listed, order)
  }

  lemma AllToTake(pending: map<string, Release>, listed: seq<string>)
    ensures Taken(pending, pending, [], listed, listed)
  {
  }

  lemma NoneToTake(pending: map<string, Release>, left: map<string, Release>, order: seq<Release>,
                   numbers: seq<string>, listed: seq<string>)
    requires Taken(pending, left, order, numbers, listed) && left == map[]
    ensures Enumerates(order, pending) && Lists(numbers, listed, order)
  {
  }

  lemma TakeNext(pending: map<string, Release>, left: map<string, Release>, order: seq<Release>,
                 numbers: seq<string>, listed: seq<string>, v: string)
    requires Named(pending) && Taken(pending, left, order, numbers, listed) && v in left
    ensures Taken(pending, left - {v}, order + [left[v]], numbers + [left[v].version], listed)
    ensures |left - {v}| == |left| - 1
  {
    assert (left - {v}).Keys == left.Keys - {v};
    assert pending - (left - {v}).Keys == (pending - left.Keys)[v := left[v]];
    EnumeratesOneMore(order, pending - left.Keys, v, left[v]);
    ListsOneMore(numbers, listed, left[v], order);
  }

  ghost predicate PassedTo(files0: Files, files: Files, num: nat, before: map<string, Release>,
                           pending: map<string, Release>, kept: set<string>, numbers: seq<string>)
  {
    && UntouchedFrom(files0, files, num)
    && PassedPacks(Packs(files0, 0, num), Packs(files, 0, num), before, pending, kept, numbers)
  }

  // The packs in front are there, and the ones behind are as they were.
  ghost predicate UntouchedFrom(files0: Files, files: Files, num: nat) {
    && files.Keys == files0.Keys
    && (forall i: nat | i < num :: i in files0)
    && (forall i: nat | num <= i :: Pack(files, i) == Pack(files0, i))
  }

  lemma UntouchedOneMore(files0: Files, files: Files, num: nat, rels: seq<Release>)
    requires UntouchedFrom(files0, files, num) && num in files
    ensures UntouchedFrom(files0, files[num := rels], num + 1)
    ensures Packs(files0, 0, num + 1) == Packs(files0, 0, num) + [Pack(files, num)]
  {
    PackWritten(files, 0, num, rels);
  }

  // The packs after a pass, with what is left pending and the versions listed.
  ghost predicate PassedPacks(packs0: seq<seq<Release>>, packs: seq<seq<Release>>, before: map<string, Release>,
                              pending: map<string, Release>, kept: set<string>, numbers: seq<string>)
  {
    PassedAll(packs, pending) == PassAll(packs0, before, kept) && Lists(numbers, [], Flatten(packs))
  }

  lemma PassesOneMore(files0: Files, files: Files, num: nat, before: map<string, Release>,
                      pending: map<string, Release>,
                      kept: set<string>, listed: seq<string>, rels: seq<Release>, numbers: seq<string>)
    requires PassedTo(files0, files, num, before, pending, kept, listed) && num in files
    requires rels == PassPack(Pack(files, num), pending, kept).releases && Lists(numbers, listed, rels)
    ensures PassedTo(files0, files[num := rels], num + 1, before, PassPack(Pack(files, num), pending, kept).pending,
                     kept, numbers)
  {
    PackWritten(files, 0, num, rels);
    UntouchedOneMore(files0, files, num, rels);
    PassedOneMore(Packs(files0, 0, num), Packs(files, 0, num), Pack(files, num), before, pending, kept, listed,
                  numbers);
  }

  lemma PassedOneMore(packs0: seq<seq<Release>>, packs: seq<seq<Release>>, p: seq<Release>,
                      before: map<string, Release>, pending: map<string, Release>, kept: set<string>,
                      listed: seq<string>, numbers: seq<string>)
    requires PassedPacks(packs0, packs, before, pending, kept, listed)
    requires Lists(numbers, listed, PassPack(p, pending, kept).releases)
    ensures var last := PassPack(p, pending, kept);
            PassedPacks(packs0 + [p], packs + [last.releases], before, last.pending, kept, numbers)
  {
    PassAllOneMore(packs0, p, before, kept);
    ListsMore(numbers, listed, packs, PassPack(p, pending, kept).releases);
  }

  lemma SameFile(files: Files, num: nat, rels: seq<Release>)
    requires num in files && files[num] == rels
    ensures files[num := rels] == files
  {
  }

  lemma PackWritten(files: Files, from: nat, num: nat, rels: seq<Release>)
    requires from <= num
    ensures Packs(files[num := rels], from, num + 1) == Packs(files, from, num) + [rels]
    ensures num in files ==> files[num := rels].Keys == files.Keys
    ensures forall i | i != num :: Pack(files[num := rels], i) == Pack(files, i)
  {
    PacksFrame(files, files[num := rels], from, num);
  }

  lemma ListsMore(numbers: seq<string>, listed: seq<string>, packs: seq<seq<Release>>, rels: seq<Release>)
    requires Lists(listed, [], Flatten(packs)) && Lists(numbers, listed, rels)
    ensures Lists(numbers, [], Flatten(packs + [rels]))
  {
    FlattenOneMore(packs, rels);
    VersionsConcat(Flatten(packs), rels);
  }

  lemma PassAllOneMore(packs: seq<seq<Release>>, p: seq<Release>, pending: map<string, Release>, kept: set<string>)
    ensures var before := PassAll(packs, pending, kept);
            var last := PassPack(p, before.pending, kept);
            PassAll(packs + [p], pending, kept) == PassedAll(before.packs + [last.releases], last.pending)
  {
  }

  lemma {:induction false} ConvertedFacts(rows: seq<Row>)
    ensures Named(Converted(rows)) && |Converted(rows)| <= |rows|
  {
    if rows != [] {
      ConvertedFacts(DropLast(rows));
    }
  }

  lemma PendingFits(packs: seq<seq<Release>>, pending: map<string, Release>, kept: set<string>)
    requires Named(pending)
    ensures Named(PassAll(packs, pending, kept).pending)
    ensures |PassAll(packs, pending, kept).pending| <= |pending|
  {
    var left := PassAll(packs, pending, kept).pending;
    PassAllNamed(packs, pending, kept);
    SubsetSize(left.Keys, pending.Keys);
    assert |left.Keys| == |left| && |pending.Keys| == |pending|;
  }

  lemma PublishedParts(files0: Files, files: Files, n: nat, count: nat)
    requires 0 < n <= count && forall i | 0 <= i < n - 1 :: Pack(files, i) == Pack(files0, i)
    ensures Flatten(Packs(files, 0, count)) == Flatten(DropLast(Packs(files0, 0, n))) +
                                               Flatten(Packs(files, n - 1, count))
  {
    PacksSplit(files, 0, n - 1, count);
    FlattenConcat(Packs(files, 0, n - 1), Packs(files, n - 1, count));
    PacksFrame(files0, files, 0, n - 1);
    assert DropLast(Packs(files0, 0, n)) == Packs(files0, 0, n - 1);
  }

  lemma DescribedWith(passed: PassedAll, cwd: WorkingDir, base: seq<Release>, order: seq<Release>,
                      published: seq<Release>, listed: seq<string>, numbers: seq<string>)
    requires passed.packs != [] && LastPack(cwd, passed.packs) == Some(base) && Enumerates(order, passed.pending)
    requires published == Flatten(DropLast(passed.packs)) +
                          if base + order == [] then passed.packs[|passed.packs| - 1] else base + order
    requires Lists(listed, [], Flatten(passed.packs)) && Lists(numbers, listed, order)
    ensures Described(passed, cwd, order, published, numbers)
  {
    VersionsConcat(Flatten(passed.packs), order);
  }

  lemma DescribedWithout(passed: PassedAll, cwd: WorkingDir, published: seq<Release>, listed: seq<string>)
    requires LastPack(cwd, passed.packs) == None && published == Flatten(passed.packs)
    requires Lists(listed, [], Flatten(passed.packs))
    ensures Described(passed, cwd, [], published, listed)
  {
    assert Flatten(passed.packs) + [] == Flatten(passed.packs);
  }

  // ----- What an update means for the releases

  lemma {:induction false} PassAllPlaces(packs: seq<seq<Release>>, pending: map<string, Release>, kept: set<string>,
                                         v: string)
    requires v in pending && v !in PassAll(packs, pending, kept).pending
    ensures pending[v] in Flatten(PassAll(packs, pending, kept).packs)
  {
    var p, before := packs[|packs| - 1], PassAll(DropLast(packs), pending, kept);
    var last := PassPack(p, before.pending, kept);
    FlattenOneMore(before.packs, last.releases);
    PassAllPending(DropLast(packs), pending, kept, v);
    if v in before.pending {
      PassPackPlaces(p, before.pending, kept, v);
    } else {
      PassAllPlaces(DropLast(packs), pending, kept, v);
    }
  }

  lemma FrontAndLast(packs: seq<seq<Release>>, order: seq<Release>)
    requires packs != []
    ensures Flatten(DropLast(packs)) + (packs[|packs| - 1] + order) == Flatten(packs) + order
  {
  }

  // With the last pack in reach, the packs hold in the end what they held, with
  // the new forms, without what is gone, and with the new releases behind.
  lemma PublishedHere(passed: PassedAll, order: seq<Release>, published: seq<Release>,
                      numbers: seq<string>)
    requires Described(passed, Here, order, published, numbers)
    ensures published == Flatten(passed.packs) + order
    ensures multiset(numbers) == multiset(Versions(published))
  {
  }

  lemma {:induction false} UpdateConserves(packs: seq<seq<Release>>, conv: map<string, Release>, kept: set<string>,
                                           order: seq<Release>, published: seq<Release>, numbers: seq<string>,
                                           v: string)
    requires packs != [] && Named(conv)
    requires Described(PassAll(packs, conv, kept), Here, order, published, numbers)
    ensures var before := Count(Flatten(packs), v);
            Count(published, v) ==
            if v in conv then (if v in kept && before > 0 then before else 1) else if v in kept then before else 0
    ensures v in conv ==> conv[v] in published
  {
    var passed := PassAll(packs, conv, kept);
    PublishedHere(passed, order, published, numbers);
    CountConcat(Flatten(passed.packs), order, v);
    PassAllCounts(packs, conv, kept, v);
    PassAllPending(packs, conv, kept, v);
    if v in conv {
      if v in passed.pending {
        PresentOnce(order, passed.pending, v);
      } else {
        PassAllPlaces(packs, conv, kept, v);
      }
    }
  }

  // The releases that have no new form keep their order.
  lemma {:induction false} UpdateKeepsOrder(packs: seq<seq<Release>>, conv: map<string, Release>, kept: set<string>,
                                            order: seq<Release>, published: seq<Release>, numbers: seq<string>,
                                            others: set<string>)
    requires packs != [] && Named(conv) && others !! conv.Keys
    requires Described(PassAll(packs, conv, kept), Here, order, published, numbers)
    ensures Among(published, others) == Among(Flatten(packs), others * kept)
  {
    var passed := PassAll(packs, conv, kept);
    PublishedHere(passed, order, published, numbers);
    AmongConcat(Flatten(passed.packs), order, others);
    PassAllOthers(packs, conv, kept, others);
    PassAllNamed(packs, conv, kept);
    NoneAmong(order, others);
  }

  lemma {:induction false} NoneAmong(releases: seq<Release>, vs: set<string>)
    requires forall r | r in releases :: r.version !in vs
    ensures Among(releases, vs) == []
  {
    if releases != [] {
      NoneAmong(DropLast(releases), vs);
    }
  }

  lemma {:induction false} CountPositive(releases: seq<Release>, v: string)
    ensures Count(releases, v) > 0 <==> exists r :: r in releases && r.version == v
  {
    if releases != [] {
      CountPositive(DropLast(releases), v);
      CountLast(releases, v);
      var last := releases[|releases| - 1];
      assert releases == DropLast(releases) + [last];
      assert forall r :: r in releases <==> r in DropLast(releases) || r == last;
    }
  }

  lemma PresentOnce(order: seq<Release>, pending: map<string, Release>, v: string)
    requires Enumerates(order, pending) && v in pending
    ensures pending[v] in order
  {
    CountPositive(order, v);
  }

  // A release that was in no pack is published exactly if the last pack could be
  // read again; otherwise this update, and every later one, leaves it out.
  lemma {:induction false} NewReleasesNeedLastPack(packs: seq<seq<Release>>, conv: map<string, Release>,
                                                   kept: set<string>,
                                                   cwd: WorkingDir, order: seq<Release>, published: seq<Release>,
                                                   numbers: seq<string>, v: string)
    requires Named(conv) && v in conv && Count(Flatten(packs), v) == 0
    requires Described(PassAll(packs, conv, kept), cwd, order, published, numbers)
    ensures Count(published, v) > 0 <==> LastPack(cwd, PassAll(packs, conv, kept).packs).Some?
  {
    var passed := PassAll(packs, conv, kept);
    PassAllPending(packs, conv, kept, v);
    match LastPack(cwd, passed.packs) {
      case None => PassAllUnplaced(packs, conv, kept, v);
      case Some(base) =>
        PresentOnce(order, passed.pending, v);
        CountConcat(base, order, v);
        CountConcat(Flatten(DropLast(passed.packs)), base + order, v);
    }
  }

  lemma PassAllUnplaced(packs: seq<seq<Release>>, conv: map<string, Release>, kept: set<string>, v: string)
    requires Named(conv) && Count(Flatten(packs), v) == 0
    ensures Count(Flatten(PassAll(packs, conv, kept).packs), v) == 0
  {
    PassAllCounts(packs, conv, kept, v);
  }

  // What was hashed is what is published if and only if the pack that was read
  // again, where there was one to write, has the versions of the last pack.
  lemma {:induction false} HashedIsPublished(passed: PassedAll, cwd: WorkingDir, order: seq<Release>,
                                             published: seq<Release>, numbers: seq<string>)
    requires Described(passed, cwd, order, published, numbers)
    ensures multiset(numbers) == multiset(Versions(published)) <==>
            match LastPack(cwd, passed.packs)
            case None => true
            case Some(base) =>
              base + order == [] || multiset(Versions(base)) == multiset(Versions(passed.packs[|passed.packs| - 1]))
  {
    match LastPack(cwd, passed.packs)
    case None => assert Flatten(passed.packs) + [] == Flatten(passed.packs);
    case Some(base) =>
      FrontAndLast(passed.packs, order);
      HashedWith(Flatten(DropLast(passed.packs)), passed.packs[|passed.packs| - 1], base, order, published, numbers);
  }

  lemma HashedWith(front: seq<Release>, last: seq<Release>, base: seq<Release>, order: seq<Release>,
                   published: seq<Release>, numbers: seq<string>)
    requires multiset(numbers) == multiset(Versions(front + (last + order)))
    requires published == front + if base + order == [] then last else base + order
    ensures multiset(numbers) == multiset(Versions(published)) <==>
            base + order == [] || multiset(Versions(base)) == multiset(Versions(last))
  {
    if base + order == [] {
      assert order == [] && last + order == last;
    } else {
      SameVersions(front, last, base, order);
    }
  }

  lemma SameVersions(front: seq<Release>, a: seq<Release>, b: seq<Release>, order: seq<Release>)
    ensures multiset(Versions(front + (a + order))) == multiset(Versions(front + (b + order))) <==>
            multiset(Versions(a)) == multiset(Versions(b))
  {
    VersionsBetween(front, a, order);
    VersionsBetween(front, b, order);
    Cancel(multiset(Versions(front)) + multiset(Versions(order)), multiset(Versions(a)), multiset(Versions(b)));
  }

  lemma VersionsBetween(front: seq<Release>, a: seq<Release>, order: seq<Release>)
    ensures multiset(Versions(front + (a + order))) ==
            (multiset(Versions(front)) + multiset(Versions(order))) + multiset(Versions(a))
  {
    VersionsConcat(front, a + order);
    VersionsConcat(a, order);
  }

  lemma Cancel(c: multiset<string>, a: multiset<string>, b: multiset<string>)
    ensures c + a == c + b <==> a == b
  {
    assert a == (c + a) - c && b == (c + b) - c;
  }
}
