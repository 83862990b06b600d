// Reading back a table of contents: whatever the order of the entries, the
// reader's map is exactly what the listing holds.
module KarTocRoundTrip {
  import opened ByteStrings
  import opened Seqs
  import opened KarToc
  import opened KarReader

  ghost predicate At(b: Bytes, pos: nat, part: Bytes) {
    pos + |part| <= |b| && b[pos..pos + |part|] == part
  }

  lemma {:induction false} AtParts(b: Bytes, pos: nat, x: Bytes, y: Bytes)
    requires At(b, pos, x + y)
    ensures At(b, pos, x) && At(b, pos + |x|, y)
  {
    assert b[pos..pos + |x|] == (x + y)[..|x|];
    assert b[pos + |x|..pos + |x| + |y|] == (x + y)[|x|..];
  }

  ghost predicate Small(file: KarFile) {
    0 <= file.offset < TWO_31 && 0 <= file.size < TWO_31 && 0 <= file.decSize < TWO_31
  }

  ghost predicate EntriesOk(es: seq<Entry>) {
    forall i | 0 <= i < |es| :: Small(es[i].file) && |es[i].name| <= 2048
  }

  lemma {:induction false} DecodeEncoded(b: Bytes, pos: nat, e: Entry)
    requires At(b, pos, EncodeEntry(e)) && Small(e.file) && |e.name| <= 2048
    ensures DecodeEntry(b, pos) == Decoded(e, pos + |EncodeEntry(e)|)
  {
    var file, name := e.file, e.name;
    Int32RoundTrip(file.offset);
    Int32RoundTrip(file.size);
    Int32RoundTrip(file.decSize);
    Int16RoundTrip(|name|);
    var rest3 := Put(|name|, 2) + name;
    var rest2 := Put(file.decSize, 4) + rest3;
    var rest1 := Put(file.size, 4) + rest2;
    AtParts(b, pos, Put(file.offset, 4), rest1);
    AtParts(b, pos + 4, Put(file.size, 4), rest2);
    AtParts(b, pos + 8, Put(file.decSize, 4), rest3);
    AtParts(b, pos + 12, Put(|name|, 2), name);
  }

  function WalkAll(es: seq<Entry>, stack: seq<Bytes>, items: map<Bytes, KarFile>): Walk
    decreases |es|
  {
    if es == [] then Walk(stack, items)
    else
      match WalkEntry(es[0], stack, items)
      case Walk(stack', items') => WalkAll(es[1..], stack', items')
      case Popped => Popped
  }

  function ItemsOf(w: Walk): TocResult {
    match w
    case Walk(_, items) => Done(items)
    case Popped => Undefined
  }

  // Reading encoded entries walks over them.
  lemma {:induction false} ReadEncoded(b: Bytes, pos: nat, es: seq<Entry>, stack: seq<Bytes>,
                                       items: map<Bytes, KarFile>)
    requires At(b, pos, EncodeAll(es)) && EntriesOk(es)
    ensures ReadToc(b, pos, |es|, stack, items) == ItemsOf(WalkAll(es, stack, items))
    decreases |es|
  {
    if es != [] {
      var next := FirstStep(b, pos, es, stack, items);
      var w := WalkEntry(es[0], stack, items);
      if w.Walk? {
        ReadEncoded(b, next, es[1..], w.stack, w.items);
      }
    }
  }

  lemma FirstStep(b: Bytes, pos: nat, es: seq<Entry>, stack: seq<Bytes>, items: map<Bytes, KarFile>)
    returns (next: nat)
    requires es != [] && At(b, pos, EncodeAll(es)) && EntriesOk(es)
    ensures At(b, next, EncodeAll(es[1..])) && EntriesOk(es[1..])
    ensures var w := WalkEntry(es[0], stack, items);
            ReadToc(b, pos, |es|, stack, items) ==
            if w.Walk? then ReadToc(b, next, |es| - 1, w.stack, w.items) else Undefined
  {
    next := pos + |EncodeEntry(es[0])|;
    FirstEncoded(b, pos, es, next);
    FirstRead(b, pos, |es|, es[0], next, stack, items);
  }

  lemma FirstRead(b: Bytes, pos: nat, n: nat, e: Entry, next: nat, stack: seq<Bytes>, items: map<Bytes, KarFile>)
    requires next == pos + |EncodeEntry(e)|
    requires n > 0 && At(b, pos, EncodeEntry(e)) && Small(e.file) && |e.name| <= 2048
    ensures ReadToc(b, pos, n, stack, items) ==
            var w := WalkEntry(e, stack, items);
            if w.Walk? then ReadToc(b, next, n - 1, w.stack, w.items) else Undefined
  {
    DecodeEncoded(b, pos, e);
  }

  lemma FirstEncoded(b: Bytes, pos: nat, es: seq<Entry>, next: nat)
    requires es != [] && At(b, pos, EncodeAll(es)) && EntriesOk(es) && next == pos + |EncodeEntry(es[0])|
    ensures At(b, pos, EncodeEntry(es[0])) && Small(es[0].file) && |es[0].name| <= 2048
    ensures At(b, next, EncodeAll(es[1..])) && EntriesOk(es[1..])
  {
    AtParts(b, pos, EncodeEntry(es[0]), EncodeAll(es[1..]));
  }

  lemma {:induction false} WalkAppend(a: seq<Entry>, b: seq<Entry>, stack: seq<Bytes>, items: map<Bytes, KarFile>)
    ensures WalkAll(a + b, stack, items) ==
            match WalkAll(a, stack, items) case Walk(stack', items') => WalkAll(b, stack', items') case Popped => Popped
    decreases |a|
  {
    if a == [] {
      assert a + b == b;
    } else {
      assert (a + b)[1..] == a[1..] + b;
      match WalkEntry(a[0], stack, items) {
        case Walk(stack', items') => WalkAppend(a[1..], b, stack', items');
        case Popped =>
      }
    }
  }

  lemma WalkOne(e: Entry, stack: seq<Bytes>, items: map<Bytes, KarFile>)
    ensures WalkAll([e], stack, items) == WalkEntry(e, stack, items)
  {
  }

  // No file has an empty compressed form, which would read as a folder.
  predicate FilesOk(l: Listing) {
    match l
    case End => true
    case Directory(_, inner, rest) => FilesOk(inner) && FilesOk(rest)
    case File(_, file, rest) => file.size != 0 && FilesOk(rest)
  }

  // The brackets balance: the stack is the same behind a listing, nothing below
  // it is ever popped, and the items are those of the listing.
  lemma {:induction false} WalkListing(l: Listing, stack: seq<Bytes>, items: map<Bytes, KarFile>)
    requires NamesOk(l) && FilesOk(l)
    ensures WalkAll(Emit(l), stack, items) == Walk(stack, Collect(l, stack, items))
  {
    match l
    case End =>
    case Directory(name, inner, rest) =>
      var open, close := [Entry(NO_FILE, name)], [Entry(NO_FILE, UP)];
      var middle := Collect(inner, stack + [name], items);
      WalkAppend(open, Emit(inner) + (close + Emit(rest)), stack, items);
      WalkOne(open[0], stack, items);
      WalkAppend(Emit(inner), close + Emit(rest), stack + [name], items);
      WalkListing(inner, stack + [name], items);
      WalkAppend(close, Emit(rest), stack + [name], middle);
      WalkOne(close[0], stack + [name], middle);
      assert DropLast(stack + [name]) == stack;
      WalkListing(rest, stack, middle);
    case File(name, file, rest) =>
      WalkAppend([Entry(file, name)], Emit(rest), stack, items);
      WalkOne(Entry(file, name), stack, items);
      WalkListing(rest, stack, items[FullPath(stack, name) := file]);
  }
}

// A file's bytes survive the way through the archive.
module KarRoundTrip {
  import opened ByteStrings
  import opened Seqs
  import opened Wrappers
  import opened KarToc
  import opened KarTree
  import W = KarWriter
  import opened KarReader
  import opened KarTocRoundTrip

  function FileOf(folders: seq<KarFolder>, f: nat, dirs: seq<Bytes>, name: Bytes): Found {
    match Resolve(folders, f, dirs)
    case None => Nothing
    case Some(g) => if g < |folders| && name in folders[g].files then Just(folders[g].files[name]) else Nothing
  }

  // A listing holds what the folder holds, in whatever order it was written.
  lemma {:induction false} FindInListing(folders: seq<KarFolder>, f: nat, l: Listing, dirs: seq<Bytes>, name: Bytes)
    requires W.Represents(folders, f, l)
    ensures Find(l, dirs, name) == FileOf(folders, f, dirs, name)
    decreases l, 1
  {
    FindInPart(folders, f, l, dirs, name);
  }

  lemma {:induction false} FindInPart(folders: seq<KarFolder>, f: nat, l: Listing, dirs: seq<Bytes>, name: Bytes)
    requires W.Matches(folders, f, l) && Distinct(l)
    ensures (if dirs == [] then name in FileNames(l) else dirs[0] in DirNames(l)) ==>
              Find(l, dirs, name) == FileOf(folders, f, dirs, name)
    ensures !(if dirs == [] then name in FileNames(l) else dirs[0] in DirNames(l)) ==> Find(l, dirs, name) == Nothing
    decreases l, 0
  {
    match l
    case End =>
    case Directory(n, inner, rest) =>
      FindInPart(folders, f, rest, dirs, name);
      if dirs != [] && dirs[0] == n {
        FindInListing(folders, folders[f].folders[n], inner, dirs[1..], name);
      }
    case File(n, file, rest) =>
      FindInPart(folders, f, rest, dirs, name);
  }

  ghost predicate PlainNames(folders: seq<KarFolder>) {
    forall f | 0 <= f < |folders| ::
      && (forall name | name in folders[f].folders :: Plain(name) && name != UP && |name| <= 2048)
      && (forall name | name in folders[f].files :: Plain(name) && |name| <= 2048)
  }

  ghost predicate GoodFiles(folders: seq<KarFolder>) {
    forall f, name | 0 <= f < |folders| && name in folders[f].files ::
      Small(folders[f].files[name]) && folders[f].files[name].size > 0
  }

  lemma {:induction false} ListingOk(folders: seq<KarFolder>, f: nat, l: Listing)
    requires W.Matches(folders, f, l) && PlainNames(folders) && GoodFiles(folders)
    ensures NamesOk(l) && FilesOk(l) && EntriesOk(Emit(l))
    decreases l
  {
    match l
    case End =>
    case Directory(name, inner, rest) =>
      ListingOk(folders, folders[f].folders[name], inner);
      ListingOk(folders, f, rest);
    case File(name, file, rest) =>
      ListingOk(folders, f, rest);
  }

  lemma {:induction false} EntriesTakeSpace(es: seq<Entry>)
    ensures |EncodeAll(es)| >= 14 * |es|
  {
    if es != [] {
      EntriesTakeSpace(es[1..]);
    }
  }

  lemma {:induction false} HeaderFields(toc: nat, items: nat, rest: Bytes)
    requires toc < TWO_31 && items < TWO_31
    ensures var b := W.Header(toc, items) + rest;
            && |W.Header(toc, items)| == 16 && |b| >= 16
            && b[..4] == MAGIC && GetInt32(b[8..12]) == toc && GetInt32(b[12..16]) == items
  {
    var b := W.Header(toc, items) + rest;
    Int32RoundTrip(toc);
    Int32RoundTrip(items);
    assert b[8..12] == Put(toc, 4) && b[12..16] == Put(items, 4);
  }

  lemma HeaderSize(toc: nat, items: nat)
    ensures |W.Header(toc, items)| == W.HEADER
  {
  }

  // Opening a written archive gives the items of the listing.
  lemma {:induction false} OpenWritten(folders: seq<KarFolder>, data: Bytes, l: Listing)
    requires W.Represents(folders, 0, l) && PlainNames(folders) && GoodFiles(folders)
    requires |W.ArchiveFile(data, l)| < TWO_31
    ensures OpenArchive(W.ArchiveFile(data, l)) == Done(Collect(l, [], map[]))
  {
    ListingOk(folders, 0, l);
    OpenEncoded(data, Emit(l));
    WalkListing(l, [], map[]);
  }

  lemma {:induction false} OpenEncoded(data: Bytes, es: seq<Entry>)
    requires EntriesOk(es) && 16 + |data| + |EncodeAll(es)| < TWO_31
    ensures var b := W.Header(W.HEADER + |data|, |es|) + (data + EncodeAll(es));
            OpenArchive(b) == ItemsOf(WalkAll(es, [], map[]))
  {
    var toc, rest := W.HEADER + |data|, data + EncodeAll(es);
    EntriesTakeSpace(es);
    HeaderFields(toc, |es|, rest);
    AtEnd(W.Header(toc, |es|), data, EncodeAll(es));
    ReadEncoded(W.Header(toc, |es|) + rest, toc, es, [], map[]);
  }

  lemma AtEnd(a: Bytes, b: Bytes, c: Bytes)
    ensures At(a + (b + c), |a| + |b|, c)
  {
  }

  // The item of a path is the file that the folders hold there, or missing.
  lemma {:induction false} ItemAt(folders: seq<KarFolder>, data: Bytes, l: Listing, dirs: seq<Bytes>, name: Bytes)
    requires W.Represents(folders, 0, l) && PlainNames(folders) && GoodFiles(folders)
    requires |W.ArchiveFile(data, l)| < TWO_31 && AllPlain(dirs) && Plain(name)
    ensures var r := OpenArchive(W.ArchiveFile(data, l));
            && r.Done?
            && match FileOf(folders, 0, dirs, name)
               case Just(file) => FullPath(dirs, name) in r.items && r.items[FullPath(dirs, name)] == file
               case Nothing => FullPath(dirs, name) !in r.items
  {
    OpenWritten(folders, data, l);
    ListingOk(folders, 0, l);
    FindInListing(folders, 0, l, dirs, name);
    CollectAt(l, [], map[], dirs, name);
    assert [] + dirs == dirs;
  }

  // The opened items are exactly the tree, flattened: one item a file, under the
  // names of its folders, and nothing else.
  lemma {:induction false} ItemsAreTheTree(folders: seq<KarFolder>, data: Bytes, l: Listing, p: Bytes)
    requires W.Represents(folders, 0, l) && PlainNames(folders) && GoodFiles(folders)
    requires |W.ArchiveFile(data, l)| < TWO_31
    ensures var r := OpenArchive(W.ArchiveFile(data, l));
            && r.Done?
            && (p in r.items <==> exists dirs, name ::
                                    AllPlain(dirs) && Plain(name) && p == FullPath(dirs, name) &&
                                    FileOf(folders, 0, dirs, name).Just?)
            && forall dirs, name | AllPlain(dirs) && Plain(name) && p == FullPath(dirs, name) && p in r.items ::
                 FileOf(folders, 0, dirs, name) == Just(r.items[p])
  {
    OpenWritten(folders, data, l);
    ListingOk(folders, 0, l);
    forall dirs, name | AllPlain(dirs) && Plain(name) && p == FullPath(dirs, name)
      ensures match FileOf(folders, 0, dirs, name)
              case Just(file) => p in Collect(l, [], map[]) && Collect(l, [], map[])[p] == file
              case Nothing => p !in Collect(l, [], map[])
    {
      ItemAt(folders, data, l, dirs, name);
    }
    if p in Collect(l, [], map[]) {
      var dirs, name := CollectOnly(l, [], map[], p);
      assert [] + dirs == dirs;
      FindInListing(folders, 0, l, dirs, name);
    }
  }

  // ----- Contents

  // Where the n-th stored file lies in the data.
  lemma {:induction false} PayloadAt(compress: Bytes -> Bytes, log: seq<W.Stored>, n: nat)
    requires 0 < n <= |log|
    ensures var start := |W.Payload(compress, log[..n - 1])|;
            && At(W.Payload(compress, log), start, compress(log[n - 1].content))
            && |W.Payload(compress, log[..n])| == start + |compress(log[n - 1].content)|
    decreases |log|
  {
    if n == |log| {
      assert log[..n] == log && log[..n - 1] == DropLast(log);
    } else {
      var before := DropLast(log);
      assert before[..n] == log[..n] && before[..n - 1] == log[..n - 1];
      PayloadAt(compress, before, n);
      AtPrefix(W.Payload(compress, before), compress(log[|log| - 1].content),
               |W.Payload(compress, log[..n - 1])|, compress(log[n - 1].content));
    }
  }

  lemma AtPrefix(a: Bytes, b: Bytes, pos: nat, part: Bytes)
    requires At(a, pos, part)
    ensures At(a + b, pos, part)
  {
    assert (a + b)[pos..pos + |part|] == a[pos..pos + |part|];
  }

  // Stored files lie behind each other, between the header and the table.
  lemma {:induction false} IntervalsDisjoint(compress: Bytes -> Bytes, log: seq<W.Stored>, n: nat, m: nat)
    requires 0 < n < m <= |log| && W.HEADER + |W.Payload(compress, log)| < TWO_31
    ensures var a, b := W.Record(compress, log[..n]), W.Record(compress, log[..m]);
            && W.HEADER <= a.offset <= a.offset + a.size <= b.offset
            && b.offset <= b.offset + b.size <= W.HEADER + |W.Payload(compress, log)|
  {
    RecordIs(compress, log, n);
    RecordIs(compress, log, m);
    assert log[..m - 1][..n] == log[..n] && log[..m - 1][..n - 1] == log[..n - 1];
    PayloadAt(compress, log[..m - 1], n);
  }

  lemma {:induction false} RecordIs(compress: Bytes -> Bytes, log: seq<W.Stored>, n: nat)
    requires 0 < n <= |log| && W.HEADER + |W.Payload(compress, log)| < TWO_31
    ensures var r, start := W.Record(compress, log[..n]), |W.Payload(compress, log[..n - 1])|;
            && r.offset == W.HEADER + start && r.size == |compress(log[n - 1].content)|
            && r.decSize == Int32(|log[n - 1].content|)
            && r.offset + r.size <= W.HEADER + |W.Payload(compress, log)|
  {
    PayloadAt(compress, log, n);
    assert DropLast(log[..n]) == log[..n - 1];
    Int32RoundTrip(W.HEADER + |W.Payload(compress, log[..n - 1])|);
    Int32RoundTrip(|compress(log[n - 1].content)|);
  }

  // The compressor never gives nothing, and the decompressor undoes it.
  ghost predicate Inverse(compress: Bytes -> Bytes, decompress: Bytes -> Option<Bytes>) {
    forall x :: compress(x) != [] && decompress(compress(x)) == Some(x)
  }

  ghost predicate SmallContents(log: seq<W.Stored>) {
    forall i | 0 <= i < |log| :: |log[i].content| < TWO_31
  }

  lemma {:induction false} WrittenFilesAreGood(compress: Bytes -> Bytes, decompress: Bytes -> Option<Bytes>,
                                               folders: seq<KarFolder>, data: Bytes, log: seq<W.Stored>)
    requires W.ContentOk(compress, folders, data, log) && Inverse(compress, decompress) && SmallContents(log)
    requires W.HEADER + |data| < TWO_31
    ensures GoodFiles(folders)
  {
    forall f, name | 0 <= f < |folders| && name in folders[f].files
      ensures Small(folders[f].files[name]) && folders[f].files[name].size > 0
    {
      assert W.FileMatches(compress, folders, log, f, name);
      var n := W.Latest(log, f, name);
      RecordIs(compress, log, n);
      Int32RoundTrip(|log[n - 1].content|);
      assert compress(log[n - 1].content) != [];
    }
  }

  // What is read of the n-th stored file, and where there is none.
  function StoredContent(compress: Bytes -> Bytes, log: seq<W.Stored>, n: nat): Content
    requires n <= |log|
  {
    if n == 0 then Missing
    else if log[n - 1].content == [] then Content(compress([]))
    else Content(log[n - 1].content)
  }

  // The main result: opening the archive and reading a file's path gives what
  // the last job stored there, whatever the order of the jobs and of the entries.
  // An empty file is the exception: its compressed bytes come back as they are.
  lemma {:induction false} ReadBack(compress: Bytes -> Bytes, decompress: Bytes -> Option<Bytes>,
                                    folders: seq<KarFolder>, data: Bytes, log: seq<W.Stored>, l: Listing,
                                    dirs: seq<Bytes>, name: Bytes, g: nat)
    requires W.ContentOk(compress, folders, data, log) && Inverse(compress, decompress) && SmallContents(log)
    requires W.Represents(folders, 0, l) && PlainNames(folders) && |W.ArchiveFile(data, l)| < TWO_31
    requires AllPlain(dirs) && Plain(name) && Resolve(folders, 0, dirs) == Some(g) && g < |folders|
    ensures var b, n := W.ArchiveFile(data, l), W.Latest(log, g, name);
            && OpenArchive(b).Done?
            && EntryContent(b, OpenArchive(b).items, decompress, FullPath(dirs, name)) ==
               StoredContent(compress, log, n)
  {
    var b, n, p := W.ArchiveFile(data, l), W.Latest(log, g, name), FullPath(dirs, name);
    WrittenFilesAreGood(compress, decompress, folders, data, log);
    ItemAt(folders, data, l, dirs, name);
    FileIs(compress, folders, log, dirs, name, g);
    if n > 0 {
      ReadStored(compress, decompress, data, log, l, n, OpenArchive(b).items, p);
    }
  }

  // What the folders hold is what the last job stored there.
  lemma FileIs(compress: Bytes -> Bytes, folders: seq<KarFolder>, log: seq<W.Stored>, dirs: seq<Bytes>, name: Bytes,
               g: nat)
    requires W.FilesMatch(compress, folders, log) && Resolve(folders, 0, dirs) == Some(g) && g < |folders|
    ensures var n := W.Latest(log, g, name);
            FileOf(folders, 0, dirs, name) == if n > 0 then Just(W.Record(compress, log[..n])) else Nothing
  {
    assert W.FileMatches(compress, folders, log, g, name);
  }

  lemma {:induction false} LatestAt(log: seq<W.Stored>, i: nat)
    requires i < |log|
    ensures W.Latest(log, log[i].folder, log[i].name) > 0
  {
    if i < |log| - 1 {
      LatestAt(DropLast(log), i);
    }
  }

  // No two files were accepted for one name in one folder.
  ghost predicate NamesOnce(accepted: map<nat, W.Stored>) {
    forall a, b | a in accepted && b in accepted && a != b ::
      accepted[a].folder != accepted[b].folder || accepted[a].name != accepted[b].name
  }

  // A path that leads somewhere has the names of folders only.
  lemma {:induction false} LeadsPlain(folders: seq<KarFolder>, f: nat, dirs: seq<Bytes>)
    requires PlainNames(folders) && Resolve(folders, f, dirs).Some?
    ensures AllPlain(dirs)
    decreases |dirs|
  {
    if dirs != [] {
      LeadsPlain(folders, folders[f].folders[dirs[0]], dirs[1..]);
    }
  }

  // So every file that the writer accepted is read back from what Close wrote,
  // under the names its folder was opened with, unless that folder is lost.
  lemma {:induction false} AcceptedIsReadBack(compress: Bytes -> Bytes, decompress: Bytes -> Option<Bytes>,
                                              folders: seq<KarFolder>, data: Bytes, log: seq<W.Stored>,
                                              accepted: map<nat, W.Stored>, ids: seq<nat>, l: Listing,
                                              paths: seq<seq<Bytes>>, lost: set<nat>, id: nat)
    requires W.ContentOk(compress, folders, data, log) && Inverse(compress, decompress) && SmallContents(log)
    requires W.AllInLog(accepted, ids, log) && NamesOnce(accepted) && PathsOk(folders, paths, lost)
    requires W.Represents(folders, 0, l) && PlainNames(folders) && |W.ArchiveFile(data, l)| < TWO_31
    requires id in accepted && Plain(accepted[id].name) && accepted[id].folder !in lost
    ensures accepted[id].folder < |paths|
    ensures var b, file := W.ArchiveFile(data, l), accepted[id];
            && OpenArchive(b).Done?
            && EntryContent(b, OpenArchive(b).items, decompress, FullPath(paths[file.folder], file.name)) ==
               if file.content == [] then Content(compress([])) else Content(file.content)
  {
    var file := accepted[id];
    AcceptedIsLatest(accepted, ids, log, id);
    assert file.folder < |folders| && Leads(folders, paths, file.folder);
    LeadsPlain(folders, 0, paths[file.folder]);
    ReadBack(compress, decompress, folders, data, log, l, paths[file.folder], file.name, file.folder);
  }

  // How far the log goes that last stored this name where a path leads, if it does.
  function LatestIn(log: seq<W.Stored>, there: Option<nat>, name: Bytes): (n: nat)
    ensures n <= |log| && (n > 0 ==> there == Some(log[n - 1].folder))
  {
    match there
    case Some(g) => W.Latest(log, g, name)
    case None => 0
  }

  // A file in a lost folder is not read back: its path is missing, or gives the
  // content of a file of another folder.
  lemma {:induction false} LostIsNotRead(compress: Bytes -> Bytes, decompress: Bytes -> Option<Bytes>,
                                         folders: seq<KarFolder>, data: Bytes, log: seq<W.Stored>, l: Listing,
                                         paths: seq<seq<Bytes>>, lost: set<nat>, f: nat, name: Bytes)
    requires W.ContentOk(compress, folders, data, log) && Inverse(compress, decompress) && SmallContents(log)
    requires PathsOk(folders, paths, lost) && f in lost && AllPlain(paths[f]) && Plain(name)
    requires W.Represents(folders, 0, l) && PlainNames(folders) && |W.ArchiveFile(data, l)| < TWO_31
    ensures var b, there := W.ArchiveFile(data, l), Resolve(folders, 0, paths[f]);
            && OpenArchive(b).Done? && there != Some(f)
            && var n := LatestIn(log, there, name);
            && (n > 0 ==> log[n - 1].folder != f)
            && EntryContent(b, OpenArchive(b).items, decompress, FullPath(paths[f], name)) ==
               StoredContent(compress, log, n)
  {
    assert !Leads(folders, paths, f);
    match Resolve(folders, 0, paths[f])
    case Some(g) =>
      ResolveInside(folders, 0, paths[f]);
      ReadBack(compress, decompress, folders, data, log, l, paths[f], name, g);
    case None => NothingThere(compress, decompress, folders, data, log, l, paths[f], name);
  }

  lemma {:induction false} NothingThere(compress: Bytes -> Bytes, decompress: Bytes -> Option<Bytes>,
                                        folders: seq<KarFolder>, data: Bytes, log: seq<W.Stored>, l: Listing,
                                        dirs: seq<Bytes>, name: Bytes)
    requires W.ContentOk(compress, folders, data, log) && Inverse(compress, decompress) && SmallContents(log)
    requires W.Represents(folders, 0, l) && PlainNames(folders) && |W.ArchiveFile(data, l)| < TWO_31
    requires AllPlain(dirs) && Plain(name) && Resolve(folders, 0, dirs) == None
    ensures var b := W.ArchiveFile(data, l);
            && OpenArchive(b).Done?
            && EntryContent(b, OpenArchive(b).items, decompress, FullPath(dirs, name)) == Missing
  {
    WrittenFilesAreGood(compress, decompress, folders, data, log);
    ItemAt(folders, data, l, dirs, name);
  }

  lemma {:induction false} ResolveInside(folders: seq<KarFolder>, f: nat, dirs: seq<Bytes>)
    ensures match Resolve(folders, f, dirs) case Some(g) => g < |folders| case None => true
    decreases |dirs|
  {
    if f < |folders| && dirs != [] && dirs[0] in folders[f].folders {
      ResolveInside(folders, folders[f].folders[dirs[0]], dirs[1..]);
    }
  }

  lemma AcceptedIsLatest(accepted: map<nat, W.Stored>, ids: seq<nat>, log: seq<W.Stored>, id: nat)
    requires W.AllInLog(accepted, ids, log) && NamesOnce(accepted) && id in accepted
    ensures accepted[id] in log
    ensures var n := W.Latest(log, accepted[id].folder, accepted[id].name); n > 0 && log[n - 1] == accepted[id]
  {
    var i :| 0 <= i < |ids| && ids[i] == id;
    assert log[i] == accepted[id];
    LatestAt(log, i);
    var n := W.Latest(log, accepted[id].folder, accepted[id].name);
    assert accepted[ids[n - 1]] == log[n - 1];
    assert ids[n - 1] == id;
  }

  lemma {:induction false} ReadStored(compress: Bytes -> Bytes, decompress: Bytes -> Option<Bytes>, data: Bytes,
                                      log: seq<W.Stored>, l: Listing, n: nat, items: map<Bytes, KarFile>, p: Bytes)
    requires Inverse(compress, decompress) && SmallContents(log) && 0 < n <= |log|
    requires data == W.Payload(compress, log) && |W.ArchiveFile(data, l)| < TWO_31
    requires p in items && items[p] == W.Record(compress, log[..n])
    ensures EntryContent(W.ArchiveFile(data, l), items, decompress, p) ==
            if log[n - 1].content == [] then Content(compress([])) else Content(log[n - 1].content)
  {
    RawBytes(compress, data, log, l, n);
    EntryOf(W.ArchiveFile(data, l), items, decompress, p, items[p], compress(log[n - 1].content));
    Decompress(compress, decompress, items[p], log[n - 1].content);
  }

  lemma EntryOf(b: Bytes, items: map<Bytes, KarFile>, decompress: Bytes -> Option<Bytes>, p: Bytes, file: KarFile,
                raw: Bytes)
    requires p in items && items[p] == file && InFile(b, file) && b[file.offset..file.offset + file.size] == raw
    ensures EntryContent(b, items, decompress, p) == Decompressed(decompress, file, raw)
  {
  }

  lemma {:induction false} Decompress(compress: Bytes -> Bytes, decompress: Bytes -> Option<Bytes>, file: KarFile,
                                      x: Bytes)
    requires Inverse(compress, decompress) && |x| < TWO_31 && file.decSize == Int32(|x|)
    ensures Decompressed(decompress, file, compress(x)) == if x == [] then Content(compress([])) else Content(x)
  {
    Int32RoundTrip(|x|);
    assert decompress(compress(x)) == Some(x);
  }

  lemma {:induction false} RawBytes(compress: Bytes -> Bytes, data: Bytes, log: seq<W.Stored>, l: Listing, n: nat)
    requires data == W.Payload(compress, log) && |W.ArchiveFile(data, l)| < TWO_31 && 0 < n <= |log|
    ensures var b, r := W.ArchiveFile(data, l), W.Record(compress, log[..n]);
            && InFile(b, r) && b[r.offset..r.offset + r.size] == compress(log[n - 1].content)
            && r.decSize == Int32(|log[n - 1].content|)
  {
    var start := |W.Payload(compress, log[..n - 1])|;
    HeaderSize(W.HEADER + |data|, |Emit(l)|);
    RecordIs(compress, log, n);
    PayloadAt(compress, log, n);
    InArchive(W.Header(W.HEADER + |data|, |Emit(l)|), data, EncodeAll(Emit(l)), start, compress(log[n - 1].content),
              W.Record(compress, log[..n]));
  }

  lemma InArchive(header: Bytes, data: Bytes, toc: Bytes, start: nat, part: Bytes, file: KarFile)
    requires At(data, start, part) && file.offset == |header| + start && file.size == |part|
    ensures var b := header + (data + toc); InFile(b, file) && b[file.offset..file.offset + file.size] == part
  {
    InMiddle(header, data, toc, start, part);
  }

  lemma InMiddle(a: Bytes, b: Bytes, c: Bytes, pos: nat, part: Bytes)
    requires At(b, pos, part)
    ensures At(a + (b + c), |a| + pos, part)
  {
    assert (a + (b + c))[|a| + pos..|a| + pos + |part|] == b[pos..pos + |part|];
  }
}
